/**
 Matching the request's URL (src/server/handle.c:86-115; section 9.4 of the Base Definitions of
 POSIX.1-2024).
 */
module Url {
  import opened Decimal
  import opened Table

  // ---- Regular expressions ----

  datatype Regex =
    | Text(s: string)
    | Range(lo: char, hi: char)
    | Both(a: Regex, b: Regex)
    | Repeat(r: Regex, min: nat, max: nat)
    | Optional(r: Regex)

  /** The whole of `s` matches: the pattern is anchored at both ends. */
  ghost predicate Matches(r: Regex, s: string)
    decreases r, 0
  {
    match r
    case Text(t) => s == t
    case Range(lo, hi) => |s| == 1 && lo <= s[0] <= hi
    case Both(a, b) => exists i :: 0 <= i <= |s| && Matches(a, s[..i]) && Matches(b, s[i..])
    case Repeat(r, min, max) => exists k :: min <= k <= max && Times(r, k, s)
    case Optional(r) => s == "" || Matches(r, s)
  }

  ghost predicate Times(r: Regex, k: nat, s: string)
    decreases r, 1, k
  {
    if k == 0 then s == ""
    else exists i :: 0 <= i <= |s| && Matches(r, s[..i]) && Times(r, k - 1, s[i..])
  }

  const PREFIX := "/targets/"
  const ID_GROUP := Repeat(Range('0', '9'), 1, INT_STR_LEN)

  /** What the group and its slash may be, or nothing. */
  const TAIL := Optional(Both(ID_GROUP, Text("/")))

  /** ^/targets/(([0-9]{1,12})/)?$ */
  const TARGETS := Both(Text(PREFIX), TAIL)

  /** Nothing, or 1 to 12 digits and a slash. */
  predicate IsTail(s: string) {
    s == "" || (2 <= |s| <= INT_STR_LEN + 1 && s[|s| - 1] == '/' && AllDigits(s[..|s| - 1]))
  }

  predicate IsTargetsUrl(url: string) {
    PREFIX <= url && IsTail(url[|PREFIX|..])
  }

  lemma {:induction false} TimesDigit(k: nat, s: string)
    ensures Times(Range('0', '9'), k, s) <==> |s| == k && AllDigits(s)
    decreases k
  {
    var digit := Range('0', '9');
    if k > 0 {
      if Times(digit, k, s) {
        var i :| 0 <= i <= |s| && Matches(digit, s[..i]) && Times(digit, k - 1, s[i..]);
        TimesDigit(k - 1, s[i..]);
        assert forall j :: 1 <= j < |s| ==> s[j] == s[i..][j - 1];
      }
      if |s| == k && AllDigits(s) {
        TimesDigit(k - 1, s[1..]);
        assert AllDigits(s[1..]) && |s[1..]| == k - 1 && AllDigits(s[..1]);
        assert s[..1][0] == s[0] && IsDigit(s[..1][0]);
        assert Matches(digit, s[..1]) && Times(digit, k - 1, s[1..]);
      }
    }
  }

  lemma {:induction false} IdGroupMatches(s: string)
    ensures Matches(ID_GROUP, s) <==> 1 <= |s| <= INT_STR_LEN && AllDigits(s)
  {
    if Matches(ID_GROUP, s) {
      var k :| 1 <= k <= INT_STR_LEN && Times(Range('0', '9'), k, s);
      TimesDigit(k, s);
    }
    if 1 <= |s| <= INT_STR_LEN && AllDigits(s) {
      TimesDigit(|s|, s);
    }
  }

  lemma {:induction false} TailMatches(s: string)
    ensures Matches(Both(ID_GROUP, Text("/")), s)
       <==> 2 <= |s| <= INT_STR_LEN + 1 && s[|s| - 1] == '/' && AllDigits(s[..|s| - 1])
  {
    BothMatches(ID_GROUP, Text("/"), s);
    hide Matches, AllDigits;
    if i :| 0 <= i <= |s| && Matches(ID_GROUP, s[..i]) && Matches(Text("/"), s[i..]) {
      IdGroupMatches(s[..i]);
      TextMatches("/", s[i..]);
      assert s[i..][0] == s[i] && i == |s| - 1;
    }
    if 2 <= |s| <= INT_STR_LEN + 1 && s[|s| - 1] == '/' && AllDigits(s[..|s| - 1]) {
      IdGroupMatches(s[..|s| - 1]);
      TextMatches("/", s[|s| - 1..]);
    }
  }

  lemma {:induction false} BothMatches(a: Regex, b: Regex, s: string)
    ensures Matches(Both(a, b), s) <==> exists i :: 0 <= i <= |s| && Matches(a, s[..i]) && Matches(b, s[i..])
  {
  }

  lemma {:induction false} TextMatches(t: string, s: string)
    ensures Matches(Text(t), s) <==> s == t
  {
  }

  /** The pattern accepts exactly these URLs. */
  lemma {:induction false} MatchExact(url: string)
    ensures Matches(TARGETS, url) <==> IsTargetsUrl(url)
  {
    hide Matches, IsTail;
    TargetsSplit(url);
    if PREFIX <= url {
      RestMatches(url[|PREFIX|..]);
    }
  }

  lemma {:induction false} RestMatches(s: string)
    ensures Matches(TAIL, s) <==> IsTail(s)
  {
    TailMatches(s);
    OptionalMatches(Both(ID_GROUP, Text("/")), s);
    hide Matches, AllDigits;
  }

  lemma {:induction false} OptionalMatches(r: Regex, s: string)
    ensures Matches(Optional(r), s) <==> s == "" || Matches(r, s)
  {
  }

  /** The pattern is the prefix and a tail; the prefix can only be taken off in one way. */
  lemma {:induction false} TargetsSplit(url: string)
    ensures Matches(TARGETS, url) <==> PREFIX <= url && Matches(TAIL, url[|PREFIX|..])
  {
    BothMatches(Text(PREFIX), TAIL, url);
    hide Matches, AllDigits, IsTail;
    if i :| 0 <= i <= |url| && Matches(Text(PREFIX), url[..i]) && Matches(TAIL, url[i..]) {
      TextMatches(PREFIX, url[..i]);
    }
    if PREFIX <= url {
      TextMatches(PREFIX, url[..|PREFIX|]);
    }
  }

  /** The digits of the id, if the URL has any. */
  function IdDigits(url: string): string
    requires IsTargetsUrl(url)
  {
    var rest := url[|PREFIX|..];
    if rest == "" then "" else rest[..|rest| - 1]
  }

  /** They are what the pattern's second group matches, and nothing else can be. */
  lemma {:induction false} IdDigitsAreTheGroup(url: string, digits: string)
    ensures Matches(ID_GROUP, digits) && url == "/targets/" + digits + "/"
       <==> IsTargetsUrl(url) && url != "/targets/" && IdDigits(url) == digits
  {
    hide Matches, AllDigits;
    IdGroupMatches(digits);
    if Matches(ID_GROUP, digits) && url == PREFIX + digits + "/" {
      assert url[|PREFIX|..] == digits + "/" && (digits + "/")[..|digits|] == digits;
    }
    if IsTargetsUrl(url) && url != PREFIX {
      assert url == PREFIX + url[|PREFIX|..];
      var rest := url[|PREFIX|..];
      assert rest == rest[..|rest| - 1] + "/";
    }
  }

  /** `url` is the address of one target, written with these digits. */
  ghost predicate Addresses(url: string, digits: string) {
    1 <= |digits| <= 12 && AllDigits(digits) && url == "/targets/" + digits + "/"
  }

  /** The pattern accepts the address of the collection, and those with 1 to 12 digits. */
  lemma {:induction false} TargetsUrlExact(url: string)
    ensures Matches(TARGETS, url) <==> url == "/targets/" || exists digits :: Addresses(url, digits)
  {
    MatchExact(url);
    if IsTargetsUrl(url) && url != "/targets/" {
      var digits := IdDigits(url);
      IdDigitsAreTheGroup(url, digits);
      IdGroupMatches(digits);
      assert Addresses(url, digits);
    }
    if digits :| Addresses(url, digits) {
      IdGroupMatches(digits);
      IdDigitsAreTheGroup(url, digits);
    }
    CollectionMatches();
  }

  lemma {:induction false} CollectionMatches()
    ensures IsTargetsUrl("/targets/") && IdDigits("/targets/") == ""
  {
    assert "/targets/"[|PREFIX|..] == "";
  }

  // ---- The id ----

  /**
   The text `atoi` sees: the digits in a zeroed 12-byte buffer, and behind it whatever memory
   holds there.
   */
  function IdText(digits: string, beyond: string): string
    requires |digits| <= INT_STR_LEN
  {
    digits + seq(INT_STR_LEN - |digits|, _ => '\0') + beyond
  }

  /** The number `atoi` reads does not depend on that memory exactly when a terminator fits. */
  lemma {:induction false} IdTextExact(digits: string)
    requires |digits| <= INT_STR_LEN && AllDigits(digits)
    ensures (forall beyond :: Atoi(IdText(digits, beyond)) == ReadDigits(digits, 0)) <==> |digits| < INT_STR_LEN
  {
    forall beyond | |digits| < INT_STR_LEN ensures Atoi(IdText(digits, beyond)) == ReadDigits(digits, 0) {
      var rest := seq(INT_STR_LEN - |digits|, _ => '\0') + beyond;
      assert IdText(digits, beyond) == digits + rest && rest[0] == '\0';
      ReadAppend(digits, rest, 0);
      assert digits + rest != "" && !IsSpace((digits + rest)[0]);
    }
    if |digits| == INT_STR_LEN {
      assert seq(0, _ => '\0') == "" && digits + "" == digits;
      assert IdText(digits, "1") == digits + "1";
      ReadAppend(digits, "1", 0);
      var v := ReadDigits(digits, 0);
      assert ReadDigits("1", v) == ReadDigits("", 10 * v + 1) == 10 * v + 1;
      assert Atoi(IdText(digits, "1")) == 10 * v + 1;
    }
  }

  /** The ids that `match` may store for a URL; the value of the digits unless that is unspecified. */
  predicate Stores(url: string, id: int)
    requires IsTargetsUrl(url)
  {
    |IdDigits(url)| < INT_STR_LEN && InInt32(ReadDigits(IdDigits(url), 0)) ==> id == ReadDigits(IdDigits(url), 0)
  }

  /**
   `match`: whether the pattern could be compiled and matches.  The id in the connection info is
   then the value of the digits if they are at most 11 and their value is an int, and 0 if there
   are none.  A value that is no int gives an unspecified id.
   */
  method Match(url: string, compiled: bool, beyond: string, id: int) returns (matched: bool, newId: int)
    ensures matched <==> compiled && Matches(TARGETS, url)
    ensures matched <==> compiled && IsTargetsUrl(url)
    ensures !matched ==> newId == id
    ensures matched ==> Stores(url, newId)
    ensures matched && url == "/targets/" ==> newId == 0
  {
    MatchExact(url);
    matched := compiled && IsTargetsUrl(url);
    newId := id;
    if matched {
      var digits := IdDigits(url);
      var buffer := new char[INT_STR_LEN](_ => '\0');
      forall i | 0 <= i < |digits| {
        buffer[i] := digits[i];
      }
      assert buffer[..] + beyond == IdText(digits, beyond);
      IdTextExact(digits);
      var value := Atoi(buffer[..] + beyond);
      if InInt32(value) {
        newId := value;
      } else {
        newId := *;
      }
    }
  }

  /** Without digits the only id that `match` stores is 0. */
  lemma {:induction false} CollectionStoresZero(id: int)
    ensures IsTargetsUrl("/targets/") && (Stores("/targets/", id) <==> id == 0)
  {
    CollectionMatches();
    assert ReadDigits("", 0) == 0;
  }

  /** Building the URL of an id and matching it gives the id back. */
  lemma {:induction false} UrlRoundTrip(id: int)
    requires 0 < id && InInt32(id)
    ensures
      var url := "/targets/" + Printed(id) + "/";
      && Matches(TARGETS, url) && IsTargetsUrl(url)
      && IdDigits(url) == Printed(id)
      && forall stored :: Stores(url, stored) <==> stored == id
  {
    hide *;
    var digits := Printed(id);
    IntsFit(id);
    PrintedDigits(id);
    SplitUrl(digits);
    MatchExact("/targets/" + digits + "/");
    StoresOnly("/targets/" + digits + "/", id);
  }

  lemma {:induction false} PrintedDigits(id: int)
    requires 0 < id
    ensures Printed(id) != "" && AllDigits(Printed(id)) && ReadDigits(Printed(id), 0) == id
  {
    ReadsPrintedDigits(id);
  }

  lemma {:induction false} SplitUrl(digits: string)
    requires 1 <= |digits| <= INT_STR_LEN && AllDigits(digits)
    ensures
      var url := "/targets/" + digits + "/";
      IsTargetsUrl(url) && IdDigits(url) == digits
  {
    hide AllDigits;
    var url := PREFIX + digits + "/";
    assert url[..|PREFIX|] == PREFIX && url[|PREFIX|..] == digits + "/";
    assert (digits + "/")[..|digits|] == digits;
  }

  lemma {:induction false} StoresOnly(url: string, id: int)
    requires IsTargetsUrl(url) && |IdDigits(url)| < INT_STR_LEN && ReadDigits(IdDigits(url), 0) == id && InInt32(id)
    ensures forall stored :: Stores(url, stored) <==> stored == id
  {
  }
}
