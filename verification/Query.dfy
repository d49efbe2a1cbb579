/**
 The UPDATE query builder (src/database/targets.c:194-231, src/database/macros.h:44-74): the text
 it writes into a growing buffer, a reader for such texts, and the parameters it encodes.
 */
module Query {
  import opened Decimal
  import opened Table
  import opened Wrappers

  // ---- The text ----

  /** uthash's `UT_string`. */
  class UtString {
    var d: string

    constructor ()
      ensures d == ""
    {
      d := "";
    }

    method Printf(text: string)
      modifies this
      ensures d == old(d) + text
    {
      d := d + text;
    }
  }

  function Assignment(kvs: seq<Kv>, i: nat): string
    requires i < |kvs|
  {
    NameOf(kvs[i].key) + " = $" + Printed(i + 1)
  }

  /** The assignments from the `i`-th on, separated by commas. */
  function Joined(kvs: seq<Kv>, i: nat): string
    requires i < |kvs|
    decreases |kvs| - i
  {
    Assignment(kvs, i) + if i + 1 < |kvs| then ", " + Joined(kvs, i + 1) else ""
  }

  /**
   The finished query.  The last separator has lost its comma; without any assignment the same
   overwrite hits the keyword.
   */
  function QueryText(id: int, kvs: seq<Kv>): string {
    Head(kvs) + ("  WHERE id = " + Printed(id))
  }

  /** The first `i` assignments as the loop prints them, each with a separator behind. */
  function Listed(kvs: seq<Kv>, i: nat): string
    requires i <= |kvs|
  {
    if i == 0 then "" else Listed(kvs, i - 1) + Assignment(kvs, i - 1) + ", "
  }

  lemma {:induction false} ListedIsJoined(kvs: seq<Kv>, i: nat)
    requires i < |kvs|
    ensures Listed(kvs, i) + Joined(kvs, i) + ", " == Listed(kvs, |kvs|)
    decreases |kvs| - i
  {
    hide Assignment;
    var a := Assignment(kvs, i);
    assert Listed(kvs, i + 1) == Listed(kvs, i) + a + ", ";
    if i + 1 < |kvs| {
      var rest := Joined(kvs, i + 1);
      ListedIsJoined(kvs, i + 1);
      assert Joined(kvs, i) == a + (", " + rest);
      Regroup(Listed(kvs, i), a, ", ", rest);
    } else {
      assert Joined(kvs, i) == a + "";
      assert a + "" == a;
    }
  }

  lemma {:induction false} Regroup(a: string, b: string, c: string, d: string)
    ensures a + (b + (c + d)) == (a + b + c) + d
  {
  }

  method BuildQuery(id: int, kvs: seq<Kv>) returns (text: string)
    ensures text == QueryText(id, kvs)
  {
    hide Printed, Joined, Listed;
    var query := new UtString();
    query.Printf("UPDATE targets SET ");
    ListedStep(kvs, 0);
    for i := 0 to |kvs|
      invariant query.d == "UPDATE targets SET " + Listed(kvs, i)
    {
      ghost var before := query.d;
      query.Printf(NameOf(kvs[i].key) + " = $" + Printed(i + 1) + ", ");
      ListedStep(kvs, i + 1);
      Regroup("UPDATE targets SET ", Listed(kvs, i), Assignment(kvs, i), ", ");
    }
    query.d := query.d[|query.d| - 2 := ' '];
    SeparatorGone(kvs);
    query.Printf("WHERE id = " + Printed(id));
    text := query.d;
    TailJoined(kvs, Printed(id));
  }

  lemma {:induction false} ListedStep(kvs: seq<Kv>, i: nat)
    requires i <= |kvs|
    ensures Listed(kvs, i) == if i == 0 then "" else Listed(kvs, i - 1) + (Assignment(kvs, i - 1) + ", ")
  {
  }

  /** The query before its tail. */
  function Head(kvs: seq<Kv>): string {
    if kvs == [] then "UPDATE targets SE" else "UPDATE targets SET " + Joined(kvs, 0)
  }

  /** The overwrite touches the comma of the last separator, or without assignments the keyword. */
  lemma {:induction false} SeparatorGone(kvs: seq<Kv>)
    ensures
      var full := "UPDATE targets SET " + Listed(kvs, |kvs|);
      full[|full| - 2 := ' '] == Head(kvs) + "  "
  {
    WholeListed(kvs);
    if kvs == [] {
      hide *;
      AppendEmpty("UPDATE targets SET ");
      KeywordDamaged();
    } else {
      OverwriteComma("UPDATE targets SET ", Joined(kvs, 0));
    }
  }

  lemma {:induction false} WholeListed(kvs: seq<Kv>)
    ensures Listed(kvs, |kvs|) == if kvs == [] then "" else Joined(kvs, 0) + ", "
    ensures kvs == [] ==> Head(kvs) == "UPDATE targets SE"
  {
    if kvs != [] {
      ListedIsJoined(kvs, 0);
      FirstListed(kvs);
      hide *;
      AppendEmpty(Joined(kvs, 0));
    }
  }

  lemma {:induction false} OverwriteComma(head: string, joined: string)
    ensures
      var full := head + (joined + ", ");
      full[|full| - 2 := ' '] == head + joined + "  "
  {
  }

  lemma {:induction false} AppendEmpty(s: string)
    ensures s + "" == s && "" + s == s
  {
  }

  lemma {:induction false} KeywordDamaged()
    ensures "UPDATE targets SET "[17 := ' '] == "UPDATE targets SE" + "  "
  {
  }

  lemma {:induction false} FirstListed(kvs: seq<Kv>)
    ensures Listed(kvs, 0) == ""
  {
  }

  lemma {:induction false} TailJoined(kvs: seq<Kv>, n: string)
    ensures Head(kvs) + "  " + ("WHERE id = " + n) == Head(kvs) + ("  WHERE id = " + n)
  {
  }

  // ---- Reading a query ----

  /** One UPDATE by id: column names with the number of their placeholder. */
  datatype Statement = Statement(assigns: seq<(string, int)>, id: int)

  function Flush(word: string): seq<string> {
    if word == "" then [] else [word]
  }

  /** Words are separated by spaces; a comma is a word of its own. */
  function Lex(text: string, word: string): seq<string>
    decreases |text|
  {
    if text == "" then Flush(word)
    else if text[0] == ' ' then Flush(word) + Lex(text[1..], "")
    else if text[0] == ',' then Flush(word) + [","] + Lex(text[1..], "")
    else Lex(text[1..], word + [text[0]])
  }

  predicate IsNumber(word: string) {
    word == Printed(Atoi(word))
  }

  predicate IsAssignment(words: seq<string>) {
    |words| >= 3 && words[1] == "=" && |words[2]| > 1 && words[2][0] == '$' && IsNumber(words[2][1..])
  }

  /** Assignments separated by commas, and the words behind them. */
  function ReadAssigns(words: seq<string>): Option<(seq<(string, int)>, seq<string>)>
    decreases |words|
  {
    if !IsAssignment(words) then None
    else
      var first := (words[0], Atoi(words[2][1..]));
      if |words| > 3 && words[3] == "," then
        match ReadAssigns(words[4..])
        case None => None
        case Some((assigns, rest)) => Some(([first] + assigns, rest))
      else Some(([first], words[3..]))
  }

  function ReadUpdate(text: string): Option<Statement> {
    var words := Lex(text, "");
    if !(["UPDATE", "targets", "SET"] <= words) then None
    else
      match ReadAssigns(words[3..])
      case None => None
      case Some((assigns, rest)) =>
        if |rest| == 4 && rest[..3] == ["WHERE", "id", "="] && IsNumber(rest[3]) then
          Some(Statement(assigns, Atoi(rest[3])))
        else None
  }

  predicate IsWord(s: string) {
    s != "" && ' ' !in s && ',' !in s
  }

  lemma {:induction false} LexWord(w: string, rest: string, word: string)
    requires ' ' !in w && ',' !in w
    ensures Lex(w + rest, word) == Lex(rest, word + w)
    decreases |w|
  {
    if w == "" {
      assert w + rest == rest && word + w == word;
    } else {
      assert (w + rest)[1..] == w[1..] + rest;
      LexWord(w[1..], rest, word + [w[0]]);
      assert word + [w[0]] + w[1..] == word + w;
    }
  }

  /** A word followed by a space. */
  lemma {:induction false} LexSpaced(w: string, rest: string)
    requires IsWord(w)
    ensures Lex(w + " " + rest, "") == [w] + Lex(rest, "")
  {
    LexWord(w, " " + rest, "");
    assert w + " " + rest == w + (" " + rest);
    assert (" " + rest)[1..] == rest && "" + w == w;
  }

  lemma {:induction false} PrintedIsWord(n: int)
    ensures IsWord(Printed(n)) && IsWord("$" + Printed(n)) && IsNumber(Printed(n)) && Atoi(Printed(n)) == n
  {
    assert forall i :: 0 <= i < |Printed(n)| ==> IsDigit(Printed(n)[i]) || Printed(n)[i] == '-';
    AtoiPrinted(n, "");
    assert Printed(n) + "" == Printed(n);
  }

  function AssignmentWords(kvs: seq<Kv>, i: nat): seq<string>
    requires i < |kvs|
  {
    [NameOf(kvs[i].key), "=", "$" + Printed(i + 1)]
  }

  function JoinedWords(kvs: seq<Kv>, i: nat): seq<string>
    requires i < |kvs|
    decreases |kvs| - i
  {
    AssignmentWords(kvs, i) + if i + 1 < |kvs| then [","] + JoinedWords(kvs, i + 1) else []
  }

  /** An assignment and a character that ends its placeholder. */
  lemma {:induction false} LexAssignment(kvs: seq<Kv>, i: nat, rest: string)
    requires i < |kvs| && rest != "" && (rest[0] == ' ' || rest[0] == ',')
    ensures Lex(Assignment(kvs, i) + rest, "") == AssignmentWords(kvs, i) + Lex(rest, "")
  {
    NamesAreWords(kvs[i].key);
    PrintedIsWord(i + 1);
    assert Assignment(kvs, i) == NameOf(kvs[i].key) + " = $" + Printed(i + 1);
    assert AssignmentWords(kvs, i) == [NameOf(kvs[i].key), "=", "$" + Printed(i + 1)];
    hide *;
    LexThree(NameOf(kvs[i].key), Printed(i + 1), rest);
  }

  lemma {:induction false} NamesAreWords(f: Field)
    ensures IsWord(NameOf(f))
  {
  }

  lemma {:induction false} LexThree(name: string, n: string, rest: string)
    requires IsWord(name) && IsWord("$" + n) && rest != "" && (rest[0] == ' ' || rest[0] == ',')
    ensures Lex((name + " = $" + n) + rest, "") == [name, "=", "$" + n] + Lex(rest, "")
  {
    var place := "$" + n;
    LexSpaced(name, "=" + " " + (place + rest));
    LexSpaced("=", place + rest);
    LexEnded(place, rest);
    hide *;
    SplitThree(name, n, rest);
  }

  lemma {:induction false} SplitThree(name: string, n: string, rest: string)
    ensures (name + " = $" + n) + rest == name + " " + ("=" + " " + (("$" + n) + rest))
  {
  }

  /** A word followed by a character that ends it. */
  lemma {:induction false} LexEnded(w: string, rest: string)
    requires IsWord(w) && rest != "" && (rest[0] == ' ' || rest[0] == ',')
    ensures Lex(w + rest, "") == [w] + Lex(rest, "")
  {
    LexWord(w, rest, "");
    assert "" + w == w;
  }

  lemma {:induction false} LexComma(rest: string)
    ensures Lex(", " + rest, "") == [","] + Lex(rest, "")
  {
  }

  lemma {:induction false} LexJoined(kvs: seq<Kv>, i: nat, rest: string)
    requires i < |kvs| && rest != "" && rest[0] == ' '
    ensures Lex(Joined(kvs, i) + rest, "") == JoinedWords(kvs, i) + Lex(rest, "")
    decreases |kvs| - i
  {
    hide Assignment, AssignmentWords, Lex;
    if i + 1 < |kvs| {
      var more := Joined(kvs, i + 1) + rest;
      assert Joined(kvs, i) + rest == Assignment(kvs, i) + (", " + more);
      LexAssignment(kvs, i, ", " + more);
      LexComma(more);
      LexJoined(kvs, i + 1, rest);
    } else {
      assert Joined(kvs, i) + rest == Assignment(kvs, i) + rest;
      LexAssignment(kvs, i, rest);
    }
  }

  function Pairs(kvs: seq<Kv>, i: nat): seq<(string, int)>
    requires i <= |kvs|
    decreases |kvs| - i
  {
    if i == |kvs| then [] else [(NameOf(kvs[i].key), i + 1)] + Pairs(kvs, i + 1)
  }

  lemma {:induction false} AssignmentReads(kvs: seq<Kv>, i: nat)
    requires i < |kvs|
    ensures
      var words := AssignmentWords(kvs, i);
      |words| == 3 && IsAssignment(words) && words[0] == NameOf(kvs[i].key) && Atoi(words[2][1..]) == i + 1
  {
    PrintedIsWord(i + 1);
    assert ("$" + Printed(i + 1))[1..] == Printed(i + 1);
  }

  /** The last assignment. */
  lemma {:induction false} ReadsLast(words: seq<string>, rest: seq<string>)
    requires |words| == 3 && IsAssignment(words) && (rest == [] || rest[0] != ",")
    ensures ReadAssigns(words + rest) == Some(([(words[0], Atoi(words[2][1..]))], rest))
  {
  }

  /** An assignment with more behind it. */
  lemma {:induction false} ReadsMore(words: seq<string>, more: seq<string>, pairs: seq<(string, int)>,
                                     rest: seq<string>)
    requires |words| == 3 && IsAssignment(words) && ReadAssigns(more) == Some((pairs, rest))
    ensures ReadAssigns(words + ([","] + more)) == Some(([(words[0], Atoi(words[2][1..]))] + pairs, rest))
  {
    hide IsNumber, Atoi;
    assert (words + ([","] + more))[4..] == more;
  }

  lemma {:induction false} ReadsJoined(kvs: seq<Kv>, i: nat, rest: seq<string>)
    requires i < |kvs| && (rest == [] || rest[0] != ",")
    ensures ReadAssigns(JoinedWords(kvs, i) + rest) == Some((Pairs(kvs, i), rest))
    decreases |kvs| - i
  {
    hide *;
    var words := AssignmentWords(kvs, i);
    AssignmentReads(kvs, i);
    JoinedCases(kvs, i);
    if i + 1 < |kvs| {
      var more := JoinedWords(kvs, i + 1) + rest;
      ReadsJoined(kvs, i + 1, rest);
      ReadsMore(words, more, Pairs(kvs, i + 1), rest);
      assert words + ([","] + JoinedWords(kvs, i + 1)) + rest == words + ([","] + more);
    } else {
      ReadsLast(words, rest);
    }
  }

  lemma {:induction false} JoinedCases(kvs: seq<Kv>, i: nat)
    requires i < |kvs|
    ensures i + 1 < |kvs| ==> Pairs(kvs, i) == [(NameOf(kvs[i].key), i + 1)] + Pairs(kvs, i + 1)
    ensures i + 1 == |kvs| ==> Pairs(kvs, i) == [(NameOf(kvs[i].key), i + 1)]
    ensures i + 1 < |kvs| ==> JoinedWords(kvs, i) == AssignmentWords(kvs, i) + ([","] + JoinedWords(kvs, i + 1))
    ensures i + 1 == |kvs| ==> JoinedWords(kvs, i) == AssignmentWords(kvs, i)
  {
  }

  lemma {:induction false} LexTail(id: int)
    ensures Lex("  WHERE id = " + Printed(id), "") == ["WHERE", "id", "=", Printed(id)]
  {
    PrintedIsWord(id);
    hide *;
    LexWhere(Printed(id));
  }

  lemma {:induction false} LexWhere(n: string)
    requires IsWord(n)
    ensures Lex("  WHERE id = " + n, "") == ["WHERE", "id", "=", n]
  {
    var equals := "=" + " " + n;
    var id := "id" + " " + equals;
    var words := "WHERE" + " " + id;
    LexSpaces(words);
    LexSpaced("WHERE", id);
    LexSpaced("id", equals);
    LexSpaced("=", n);
    LexLast(n);
    hide *;
    assert "  WHERE id = " + n == "  " + words;
  }

  lemma {:induction false} LexSpaces(text: string)
    ensures Lex("  " + text, "") == Lex(text, "")
  {
  }

  lemma {:induction false} LexLast(w: string)
    requires IsWord(w)
    ensures Lex(w, "") == [w]
  {
    LexWord(w, "", "");
    assert w + "" == w && "" + w == w;
  }

  /**
   A query built from at least one key reads back as one UPDATE of the row `id` whose i-th
   assignment gives placeholder i to the i-th key's column; without keys it is no UPDATE at all.
   */
  lemma {:induction false} QueryReadsBack(id: int, kvs: seq<Kv>)
    ensures kvs != [] ==> ReadUpdate(QueryText(id, kvs)) == Some(Statement(Pairs(kvs, 0), id))
    ensures ReadUpdate(QueryText(id, kvs)).Some? <==> kvs != []
  {
    LexHead(id, kvs);
    var tail := ["WHERE", "id", "=", Printed(id)];
    PrintedIsWord(id);
    hide *;
    if kvs != [] {
      ReadsJoined(kvs, 0, tail);
      ReadsStatement(QueryText(id, kvs), JoinedWords(kvs, 0), Printed(id), Pairs(kvs, 0));
    } else {
      ReadsNothing(QueryText(id, kvs), tail);
    }
  }

  lemma {:induction false} ReadsStatement(text: string, words: seq<string>, n: string, pairs: seq<(string, int)>)
    requires IsNumber(n)
    requires Lex(text, "") == ["UPDATE", "targets"] + (["SET"] + words) + ["WHERE", "id", "=", n]
    requires ReadAssigns(words + ["WHERE", "id", "=", n]) == Some((pairs, ["WHERE", "id", "=", n]))
    ensures ReadUpdate(text) == Some(Statement(pairs, Atoi(n)))
  {
    hide Lex, ReadAssigns, IsNumber, Atoi;
    var tail := ["WHERE", "id", "=", n];
    assert ["UPDATE", "targets"] + (["SET"] + words) + tail == ["UPDATE", "targets", "SET"] + (words + tail);
    assert Lex(text, "")[3..] == words + tail;
    assert tail[..3] == ["WHERE", "id", "="];
  }

  lemma {:induction false} ReadsNothing(text: string, tail: seq<string>)
    requires Lex(text, "") == ["UPDATE", "targets"] + ["SE"] + tail
    ensures ReadUpdate(text) == None
  {
    hide Lex, ReadAssigns;
    assert Lex(text, "")[2] == "SE";
  }

  lemma {:induction false} LexTwo(a: string, b: string, rest: string)
    requires IsWord(a) && IsWord(b)
    ensures Lex(a + " " + (b + " " + rest), "") == [a, b] + Lex(rest, "")
  {
    LexSpaced(a, b + " " + rest);
    LexSpaced(b, rest);
  }

  lemma {:induction false} LexHead(id: int, kvs: seq<Kv>)
    ensures Lex(QueryText(id, kvs), "")
         == ["UPDATE", "targets"] + (if kvs == [] then ["SE"] else ["SET"] + JoinedWords(kvs, 0))
            + ["WHERE", "id", "=", Printed(id)]
  {
    hide *;
    var tail := "  WHERE id = " + Printed(id);
    QueryCases(id, kvs);
    LexTail(id);
    if kvs == [] {
      LexDamaged(tail);
    } else {
      LexJoined(kvs, 0, tail);
      LexIntact(Joined(kvs, 0) + tail);
      SplitHead(Joined(kvs, 0), tail);
      assert ["UPDATE", "targets", "SET"] + (JoinedWords(kvs, 0) + ["WHERE", "id", "=", Printed(id)])
          == ["UPDATE", "targets"] + (["SET"] + JoinedWords(kvs, 0)) + ["WHERE", "id", "=", Printed(id)];
    }
  }

  lemma {:induction false} QueryCases(id: int, kvs: seq<Kv>)
    ensures QueryText(id, kvs)
         == (if kvs == [] then "UPDATE targets SE" else "UPDATE targets SET " + Joined(kvs, 0))
            + ("  WHERE id = " + Printed(id))
  {
  }

  lemma {:induction false} LexDamaged(tail: string)
    requires tail != "" && tail[0] == ' '
    ensures Lex("UPDATE targets SE" + tail, "") == ["UPDATE", "targets", "SE"] + Lex(tail, "")
  {
    LexEnded("SE", tail);
    LexTwo("UPDATE", "targets", "SE" + tail);
    hide *;
    assert "UPDATE targets SE" + tail == "UPDATE" + " " + ("targets" + " " + ("SE" + tail));
  }

  lemma {:induction false} LexIntact(rest: string)
    ensures Lex("UPDATE" + " " + ("targets" + " " + ("SET" + " " + rest)), "") ==
            ["UPDATE", "targets", "SET"] + Lex(rest, "")
  {
    LexSpaced("SET", rest);
    LexTwo("UPDATE", "targets", "SET" + " " + rest);
  }

  lemma {:induction false} SplitHead(joined: string, tail: string)
    ensures ("UPDATE targets SET " + joined) + tail
         == "UPDATE" + " " + ("targets" + " " + ("SET" + " " + (joined + tail)))
  {
  }

  lemma {:induction false} PairsAt(kvs: seq<Kv>, i: nat, j: nat)
    requires i <= j < |kvs|
    ensures |Pairs(kvs, i)| == |kvs| - i && Pairs(kvs, i)[j - i] == (NameOf(kvs[j].key), j + 1)
    decreases j - i
  {
    PairsLength(kvs, i);
    if i < j { PairsAt(kvs, i + 1, j); }
  }

  lemma {:induction false} PairsLength(kvs: seq<Kv>, i: nat)
    requires i <= |kvs|
    ensures |Pairs(kvs, i)| == |kvs| - i
    decreases |kvs| - i
  {
    if i < |kvs| { PairsLength(kvs, i + 1); }
  }

  /** One query, letter by letter. */
  lemma {:induction false} QueryExample()
    ensures
      QueryText(7, [Kv(NAME, Str("a")), Kv(UP, Bool(true))]) == "UPDATE targets SET name = $1, up = $2  WHERE id = 7"
  {
    hide *;
    var kvs := [Kv(NAME, Str("a")), Kv(UP, Bool(true))];
    var joined := Joined(kvs, 0);
    QueryCases(7, kvs);
    ExamplePieces(kvs);
    ExampleWhole();
  }

  lemma {:induction false} ExamplePieces(kvs: seq<Kv>)
    requires kvs == [Kv(NAME, Str("a")), Kv(UP, Bool(true))]
    ensures Joined(kvs, 0) == ("name" + " = $" + "1") + (", " + ("up" + " = $" + "2")) && Printed(7) == "7"
  {
    OneDigit();
    assert Assignment(kvs, 0) == "name" + " = $" + "1";
    assert Assignment(kvs, 1) == "up" + " = $" + "2";
    hide Printed, Assignment;
    AppendEmpty(Assignment(kvs, 1));
    assert Joined(kvs, 1) == Assignment(kvs, 1) + "";
    assert Joined(kvs, 0) == Assignment(kvs, 0) + (", " + Joined(kvs, 1));
  }

  lemma {:induction false} OneDigit()
    ensures Printed(1) == "1" && Printed(2) == "2" && Printed(7) == "7"
  {
  }

  lemma {:induction false} ExampleWhole()
    ensures
      ("UPDATE targets SET " + (("name" + " = $" + "1") + (", " + ("up" + " = $" + "2")))) + ("  WHERE id = " + "7")
      == "UPDATE targets SET name = $1, up = $2  WHERE id = 7"
  {
    assert "name" + " = $" + "1" == "name = $1";
    assert ", " + ("up" + " = $" + "2") == ", up = $2";
    assert "name = $1" + ", up = $2" == "name = $1, up = $2";
    assert "UPDATE targets SET " + "name = $1, up = $2" == "UPDATE targets SET name = $1, up = $2";
    assert "  WHERE id = " + "7" == "  WHERE id = 7";
  }

  // ---- The parameters ----

  /** The text PostgreSQL is to receive for a value. */
  function Text(v: Value): string {
    match v
    case Str(s) => s
    case Num(n) => Printed(n)
    case Bool(b) => if b then "t" else "f"
  }

  /** A text is sent as it is, a number in decimal, and a status as PostgreSQL spells it. */
  lemma {:induction false} TextExact(s: string, n: int)
    ensures Text(Str(s)) == s
    ensures Atoi(Text(Num(n))) == n
    ensures Text(Bool(true)) == "t" && Text(Bool(false)) == "f"
  {
    PrintedIsWord(n);
  }

  /** An entry of `paramValues`: a text that stays, or one of the encoder's own buffers. */
  datatype Pointer = Literal(s: string) | InBuffer(f: Field)

  /** One buffer per field. */
  class Buffers {
    const of: map<Field, array<char>>

    ghost predicate Valid() {
      && (forall f: Field :: f in of && of[f].Length == INT_STR_LEN)
      && (forall f: Field, g: Field :: f in of && g in of && f != g ==> of[f] != of[g])
    }

    ghost function Repr(): set<object> {
      set f | f in of :: of[f]
    }

    constructor ()
      ensures Valid() && fresh(Repr())
    {
      var id := new char[INT_STR_LEN](_ => '\0');
      var name := new char[INT_STR_LEN](_ => '\0');
      var url := new char[INT_STR_LEN](_ => '\0');
      var interval := new char[INT_STR_LEN](_ => '\0');
      var up := new char[INT_STR_LEN](_ => '\0');
      of := map[ID := id, NAME := name, URL := url, INTERVAL := interval, UP := up];
      new;
      forall f: Field ensures f in of && of[f].Length == INT_STR_LEN {
        match f { case ID => case NAME => case URL => case INTERVAL => case UP => }
      }
    }

    /** What PostgreSQL reads through a pointer when the statement is sent. */
    function Read(p: Pointer): string
      requires Valid()
      reads Repr()
    {
      match p
      case Literal(s) => s
      case InBuffer(f) => CString(of[f][..])
    }
  }

  /** The position whose value the i-th parameter shows: a buffer keeps what was written last. */
  function Shown(kvs: seq<Kv>, i: nat, n: nat): (k: nat)
    requires i < n <= |kvs|
    ensures i <= k < n && kvs[k].key == kvs[i].key
    ensures KindOf(kvs[i].key) == NumberKind ==> forall j :: k < j < n ==> kvs[j].key != kvs[i].key
    ensures KindOf(kvs[i].key) != NumberKind ==> k == i
    decreases n
  {
    if KindOf(kvs[i].key) != NumberKind || n == i + 1 then i
    else if kvs[n - 1].key == kvs[i].key then n - 1
    else Shown(kvs, i, n - 1)
  }

  function PointerFor(kv: Kv): Pointer {
    if KindOf(kv.key) == NumberKind then InBuffer(kv.key) else Literal(Text(kv.value))
  }

  /** One case of the generated switch: only a number writes, and only into its field's buffer. */
  method EncodeCall(kv: Kv, buffers: Buffers) returns (p: Pointer)
    requires WellTyped(kv) && buffers.Valid()
    modifies buffers.Repr()
    ensures p == PointerFor(kv) && buffers.Read(p) == Text(kv.value)
    ensures forall q :: q != InBuffer(kv.key) ==> buffers.Read(q) == old(buffers.Read(q))
  {
    match KindOf(kv.key) {
      case StringKind => p := Literal(kv.value.s);
      case BooleanKind => p := Literal(if kv.value.b then "t" else "f");
      case NumberKind =>
        assert buffers.of[kv.key] in buffers.Repr();
        EncodeNumber(kv.value.n, buffers.of[kv.key]);
        p := InBuffer(kv.key);
    }
  }

  /** Of the first parameters each shows the value that its position shows. */
  ghost predicate ShowsEach(kvs: seq<Kv>, params: seq<Pointer>, buffers: Buffers)
    requires buffers.Valid() && |params| <= |kvs|
    reads buffers.Repr()
  {
    forall i :: 0 <= i < |params| ==>
                  && params[i] == PointerFor(kvs[i])
                  && buffers.Read(params[i]) == Text(kvs[Shown(kvs, i, |params|)].value)
  }

  method EncodeParams(kvs: seq<Kv>, buffers: Buffers) returns (params: seq<Pointer>)
    requires AllWellTyped(kvs) && buffers.Valid()
    modifies buffers.Repr()
    ensures |params| == |kvs|
    ensures forall i :: 0 <= i < |kvs| ==> buffers.Read(params[i]) == Text(kvs[Shown(kvs, i, |kvs|)].value)
  {
    hide Text, Shown, PointerFor, Buffers.Valid, Buffers.Repr;
    params := [];
    for n := 0 to |kvs|
      invariant |params| == n && ShowsEach(kvs, params, buffers)
    {
      params := EncodeNext(kvs, params, buffers);
    }
  }

  /** One turn of the loop. */
  method EncodeNext(kvs: seq<Kv>, params: seq<Pointer>, buffers: Buffers) returns (more: seq<Pointer>)
    requires AllWellTyped(kvs) && buffers.Valid() && |params| < |kvs| && ShowsEach(kvs, params, buffers)
    modifies buffers.Repr()
    ensures |more| == |params| + 1 && ShowsEach(kvs, more, buffers)
  {
    hide Text, Shown, PointerFor, WellTyped, Buffers.Valid, Buffers.Repr, Buffers.Read;
    var n := |params|;
    var param := EncodeCall(kvs[n], buffers);
    more := params + [param];
    forall i | 0 <= i < n
      ensures more[i] == PointerFor(kvs[i])
      ensures buffers.Read(more[i]) == Text(kvs[Shown(kvs, i, n + 1)].value)
    {
      ShownStep(kvs, i, n);
    }
    ShownLast(kvs, n);
  }

  lemma {:induction false} ShownStep(kvs: seq<Kv>, i: nat, n: nat)
    requires i < n < |kvs|
    ensures Shown(kvs, i, n + 1) == if PointerFor(kvs[i]) == InBuffer(kvs[n].key) then n else Shown(kvs, i, n)
    ensures PointerFor(kvs[i]) == InBuffer(kvs[n].key) ==> PointerFor(kvs[n]) == PointerFor(kvs[i])
  {
  }

  lemma {:induction false} ShownLast(kvs: seq<Kv>, n: nat)
    requires n < |kvs|
    ensures Shown(kvs, n, n + 1) == n
  {
  }

  /** Equal numeric keys carry equal values. */
  predicate NumbersAgree(kvs: seq<Kv>) {
    forall i, j :: 0 <= i < j < |kvs| && kvs[i].key == kvs[j].key && KindOf(kvs[i].key) == NumberKind ==>
                     kvs[i].value == kvs[j].value
  }

  lemma {:induction false} PrintedInjective(m: int, n: int)
    requires Printed(m) == Printed(n)
    ensures m == n
  {
    PrintedIsWord(m);
    PrintedIsWord(n);
  }

  /** Every parameter shows its own value exactly when no numeric key is given two values. */
  lemma {:induction false} OwnValuesExactly(kvs: seq<Kv>)
    requires AllWellTyped(kvs)
    ensures DistinctKeys(kvs) ==> NumbersAgree(kvs)
    ensures ShowsOwnValues(kvs) <==> NumbersAgree(kvs)
  {
    hide Printed;
    if ShowsOwnValues(kvs) {
      forall i, j | 0 <= i < j < |kvs| && kvs[i].key == kvs[j].key && KindOf(kvs[i].key) == NumberKind
        ensures kvs[i].value == kvs[j].value
      {
        assert Shown(kvs, i, |kvs|) == Shown(kvs, j, |kvs|);
        PrintedInjective(kvs[i].value.n, kvs[j].value.n);
      }
    }
    if NumbersAgree(kvs) {
      forall i | 0 <= i < |kvs| ensures Text(kvs[Shown(kvs, i, |kvs|)].value) == Text(kvs[i].value) {
        var k := Shown(kvs, i, |kvs|);
        if k != i { assert kvs[i].value == kvs[k].value; }
      }
    }
  }

  ghost predicate ShowsOwnValues(kvs: seq<Kv>) {
    forall i :: 0 <= i < |kvs| ==> Text(kvs[Shown(kvs, i, |kvs|)].value) == Text(kvs[i].value)
  }
}
