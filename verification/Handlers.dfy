/**
 The request handlers as they run, down to the table (src/server/handle.c:117-158,
 src/server/handle/targets.c:36-265).
 */
module Handlers {
  import opened Decimal
  import EventLoop
  import opened PatchBody
  import opened Request
  import opened Store
  import opened Table
  import Rows = Table
  import opened Sequences
  import opened Upload
  import opened Url
  import opened Wrappers

  /** An HTTP status and what the JSON body says; `Plain` bodies carry no data. */
  datatype Response =
    | Plain(status: int)
    | OneTarget(status: int, target: Target)
    | AllTargets(status: int, targets: seq<Target>)
    | NewId(status: int, id: int)

  const OK := 200
  const BAD_REQUEST := 400
  const SERVER_ERROR := 500

  /** Whether POST finds a name, an address and, if any, an interval of the right kinds. */
  predicate Postable(b: Body) {
    b.name.Text? && b.url.Text? && (b.interval.Missing? || b.interval.Number?)
  }

  const DEFAULT_INTERVAL := 5

  function IntervalOf(b: Body): int {
    if b.interval.Number? then b.interval.n else DEFAULT_INTERVAL
  }

  /** The statement a handler sends, if it gets that far and is one that changes the table. */
  function StatementOf(h: Handler, id: int, body: Option<Body>, skip: nat): Option<EventLoop.ServerOp> {
    match h
    case DeleteOne => Some(EventLoop.Remove(id))
    case PatchOne => if body.Some? then Some(EventLoop.Patch(id, body.value)) else None
    case PostOne =>
      if body.Some? && Postable(body.value) then
        Some(EventLoop.Post(body.value.name.s, body.value.url.s, IntervalOf(body.value), skip))
      else None
    case _ => None
  }

  /** The table after a handler has run. */
  function Handled(t: Table, h: Handler, id: int, body: Option<Body>, reply: Reply, skip: nat): Table
    requires body.Some? ==> Clamped(body.value)
  {
    match StatementOf(h, id, body, skip)
    case None => t
    case Some(op) => EventLoop.Executed(t, op, reply)
  }

  /** The answer to a request on the table `t`, by its handler and what the libraries said. */
  ghost predicate Answers(t: Table, h: Handler, id: int, body: Option<Body>, ok: bool, callocOk: bool, order: seq<int>,
                          reply: Reply, skip: nat, r: Response)
  {
    match h
    case DeleteOne => r == Plain(if reply == Acknowledged then 200 else 500)
    case GetOne => r == if ok && id in t.rows then OneTarget(200, t.rows[id]) else Plain(500)
    case GetAll =>
      if ok && (order == [] || callocOk) then
        && r.AllTargets? && r.status == 200 && |r.targets| == |order|
        && (forall i :: 0 <= i < |order| ==> order[i] in t.rows && r.targets[i] == t.rows[order[i]])
      else r == Plain(500)
    case PatchOne =>
      r == Plain(if body == None then 400
                 else if reply == Acknowledged
                         && (body.value.name.Text? || body.value.url.Text? || body.value.interval.Number?) then 200
                 else 500)
    case PostOne =>
      r == if body == None || !body.value.name.Text? || !body.value.url.Text?
              || !(body.value.interval.Missing? || body.value.interval.Number?) then Plain(400)
      else NewId(200, if reply == Acknowledged then t.next + skip else 1)
  }

  class TargetHandlers {
    const db: Database

    constructor (db: Database)
      ensures this.db == db
    {
      this.db := db;
    }

    method Delete(id: int, reply: Reply) returns (r: Response)
      requires db.Valid()
      modifies db
      ensures db.Valid()
      ensures View(db.st) == if Effective(reply) then Rows.Delete(old(View(db.st)), id) else old(View(db.st))
      ensures View(db.st) == EventLoop.Executed(old(View(db.st)), EventLoop.Remove(id), reply)
      ensures r == Plain(if reply.Acknowledged? then OK else SERVER_ERROR)
    {
      var rc := db.TargetsDelete(id, reply);
      r := Plain(if rc != 0 then SERVER_ERROR else OK);
    }

    method Get(id: int, ok: bool) returns (r: Response)
      requires db.Valid()
      ensures r == if ok && id in View(db.st).rows then OneTarget(OK, View(db.st).rows[id]) else Plain(SERVER_ERROR)
    {
      var rc, target := db.TargetsGet(id, ok);
      r := if rc != 0 then Plain(SERVER_ERROR) else OneTarget(OK, target);
    }

    method GetAll(ok: bool, callocOk: bool, order: seq<int>) returns (r: Response)
      requires db.Valid() && OrderedById(db.st, order)
      ensures r.AllTargets? <==> ok && (order == [] || callocOk)
      ensures !r.AllTargets? ==> r == Plain(SERVER_ERROR)
      ensures r.AllTargets? ==> r.status == OK && |r.targets| == |order|
      ensures r.AllTargets? ==>
                forall i :: 0 <= i < |order| ==>
                              order[i] in View(db.st).rows && r.targets[i] == View(db.st).rows[order[i]]
    {
      var rc, targets := db.TargetsGetAll(ok, callocOk, order);
      r := if rc != 0 then Plain(SERVER_ERROR) else AllTargets(OK, targets[..]);
    }

    /** `body` is the parsed upload, if it is JSON. */
    method Patch(id: int, body: Option<Body>, reply: Reply) returns (r: Response)
      requires db.Valid() && (body.Some? ==> Clamped(body.value))
      modifies db
      ensures db.Valid()
      ensures r.Plain? && r.status in {OK, BAD_REQUEST, SERVER_ERROR}
      ensures r.status == BAD_REQUEST <==> body.None?
      ensures r.status == OK <==> body.Some? && reply.Acknowledged? && GivesField(body.value)
      ensures
        var t := old(View(db.st));
        View(db.st) == if body.Some? && Effective(reply) && id in t.rows
        then t.(rows := t.rows[id := Patched(t.rows[id], body.value)]) else t
      ensures body.Some? ==>
                View(db.st) == EventLoop.Executed(old(View(db.st)), EventLoop.Patch(id, body.value), reply)
    {
      if body.None? {
        return Plain(BAD_REQUEST);
      }
      ghost var t := View(db.st);
      var kvs := BuildPatchKvs(body.value);
      PatchedTable(t, id, body.value);
      hide View, Shaped, PatchKvs, AssignAll;
      var rc := db.TargetsUpdate(id, kvs, reply);
      r := Plain(if rc != 0 then SERVER_ERROR else OK);
    }

    /** An insert that is not acknowledged is answered like a successful one, with id 1. */
    method Post(body: Option<Body>, reply: Reply, skip: nat) returns (r: Response)
      requires db.Valid() && (body.Some? ==> Clamped(body.value)) && InInt32(db.st.next + skip)
      modifies db
      ensures db.Valid()
      ensures body.None? || !Postable(body.value) ==> r == Plain(BAD_REQUEST) && View(db.st) == old(View(db.st))
      ensures body.Some? && Postable(body.value) ==>
                var b, t := body.value, old(View(db.st));
                && r == NewId(OK, if reply.Acknowledged? then t.next + skip else 1)
                && View(db.st) == (if Effective(reply) then Insert(t, b.name.s, b.url.s, IntervalOf(b), skip) else t)
                && View(db.st) == EventLoop.Executed(t, EventLoop.Post(b.name.s, b.url.s, IntervalOf(b), skip), reply)
    {
      var target := Target(0, "", "", DEFAULT_INTERVAL, true);
      if body.None? {
        return Plain(BAD_REQUEST);
      }
      if !body.value.name.Text? {
        return Plain(BAD_REQUEST);
      }
      target := target.(name := body.value.name.s);
      if !body.value.url.Text? {
        return Plain(BAD_REQUEST);
      }
      target := target.(url := body.value.url.s);
      if !body.value.interval.Missing? {
        if !body.value.interval.Number? {
          return Plain(BAD_REQUEST);
        }
        target := target.(interval := body.value.interval.n);
      }
      var id := db.TargetsAdd(target.name, target.url, target.interval, reply, skip);
      r := NewId(OK, id);
    }

    /** The handler that was chosen for a request, with what the libraries answer it. */
    method Handle(h: Handler, id: int, body: Option<Body>, ok: bool, callocOk: bool, order: seq<int>, reply: Reply,
                  skip: nat)
      returns (r: Response)
      requires db.Valid() && OrderedById(db.st, order) && InInt32(db.st.next + skip)
      requires body.Some? ==> Clamped(body.value)
      modifies db
      ensures db.Valid() && View(db.st) == Handled(old(View(db.st)), h, id, body, reply, skip)
      ensures Answers(old(View(db.st)), h, id, body, ok, callocOk, order, reply, skip, r)
    {
      match h {
        case DeleteOne => r := Delete(id, reply);
        case GetOne => r := Get(id, ok);
        case GetAll => r := GetAll(ok, callocOk, order);
        case PatchOne => r := Patch(id, body, reply);
        case PostOne => r := Post(body, reply, skip);
      }
    }
  }

  /** What PATCH's list does to the table: nothing to the key, and the given fields of one row. */
  lemma {:induction false} PatchedTable(t: Table, id: int, b: Body)
    requires KeysValid(t) && Clamped(b)
    ensures
      var kvs := PatchKvs(b);
      && AllWellTyped(kvs) && DistinctKeys(kvs)
      && (forall i :: 0 <= i < |kvs| ==> kvs[i].key != ID)
      && (kvs != [] <==> GivesField(b))
      && Update(t, id, kvs) ==
         Some(if id in t.rows then t.(rows := t.rows[id := Patched(t.rows[id], b)]) else t)
      && EventLoop.Apply(t, EventLoop.Patch(id, b)) == if kvs == [] then None else Update(t, id, kvs)
  {
    PatchKvsMeaning(b, if id in t.rows then t.rows[id] else Target(0, "", "", 0, false));
    if id in t.rows {
      var r := AssignAll(t.rows[id], PatchKvs(b));
      assert r.id == id;
      assert (t.rows - {id})[id := r] == t.rows[id := r];
    }
  }

  /** One request with its connection info. */
  class RequestHandler {
    var info: bool
    var handler: Option<Handler>
    var id: Option<int>
    const upload: UploadData
    ghost var responses: nat
    ghost var ran: seq<(Handler, int)>
    ghost var over: bool

    ghost function Abs(): Request
      reads this, upload, upload.data
    {
      Request(if info then Some(Info(handler, id, upload.Abs())) else None, responses, ran, over)
    }

    ghost predicate Ready()
      reads this, upload, upload.data
    {
      Valid(Abs()) && upload.Valid() && (!info ==> upload.Abs() == EMPTY)
    }

    constructor ()
      ensures Ready() && Abs() == FRESH
    {
      info, handler, id := false, None, None;
      upload := new UploadData();
      responses, ran, over := 0, [], false;
    }

    /** `stored` is the id that `match` stores if the URL matches; `beyond` is what it may read behind its buffer. */
    method HandleFirst(url: string, verb: string, mallocOk: bool, compiled: bool, beyond: string)
      returns (yes: bool, response: Option<Response>, ghost stored: int)
      requires Ready() && !over && !info
      modifies this
      ensures
        var call := First(url, verb, mallocOk, compiled, stored);
        && Legal(old(Abs()), call)
        && Ready() && Abs() == Handle(old(Abs()), call)
      ensures yes <==> mallocOk
      ensures response == if yes && handler == None then Some(Plain(400)) else None
    {
      if !mallocOk {
        stored := if IsTargetsUrl(url) then ReadDigits(IdDigits(url), 0) else 0;
        over := true;
        return false, None, stored;
      }
      var matched, matchedId := Match(url, compiled, beyond, 0);
      stored := if matched || !IsTargetsUrl(url) then matchedId else ReadDigits(IdDigits(url), 0);
      HandleKeepsValid(Abs(), First(url, verb, mallocOk, compiled, stored));
      hide Stores, IsTargetsUrl;
      info, handler, id := true, None, None;
      if !matched {
        responses, over := responses + 1, true;
        return true, Some(Plain(BAD_REQUEST)), stored;
      }
      id := Some(matchedId);
      if verb == "DELETE" && matchedId != 0 {
        handler := Some(DeleteOne);
        return true, None, stored;
      }
      if verb == "GET" {
        if matchedId != 0 {
          handler := Some(GetOne);
        } else {
          handler := Some(Handler.GetAll);
        }
        return true, None, stored;
      }
      if verb == "PATCH" && matchedId != 0 {
        handler := Some(PatchOne);
        return true, None, stored;
      }
      if verb == "POST" {
        handler := Some(PostOne);
        return true, None, stored;
      }
      responses, over := responses + 1, true;
      yes, response := true, Some(Plain(BAD_REQUEST));
    }

    /** A later call: keep a piece of the body, or run the handler. */
    method HandleLater(call: Call, handlers: TargetHandlers, parse: Parser, ok: bool, callocOk: bool, order: seq<int>,
                       reply: Reply, skip: nat) returns (yes: bool, response: Option<Response>)
      requires Ready() && Legal(Abs(), call) && !call.First?
      requires handlers.db.Valid() && OrderedById(handlers.db.st, order) && InInt32(handlers.db.st.next + skip)
      requires ParsesClamped(parse)
      modifies this, upload, handlers.db
      ensures Abs().info.Some? ==> Valid(Abs())
      ensures yes ==> Ready() && Abs() == Handle(old(Abs()), call)
      ensures yes <==> !(call.Chunk? && NeedsBody(old(handler).value) && !call.reallocOk)
      ensures response.Some? <==> yes && |ran| > |old(ran)|
      ensures handlers.db.Valid()
      ensures
        var t := old(View(handlers.db.st));
        View(handlers.db.st) ==
        if response.Some? then
          Handled(t, old(handler).value, old(id).value, Parsed(old(upload.Abs()), parse), reply, skip)
        else t
      ensures response.Some? ==>
                Answers(old(View(handlers.db.st)), old(handler).value, old(id).value, Parsed(old(upload.Abs()), parse),
                        ok, callocOk, order, reply, skip, response.value)
    {
      HandleKeepsValid(Abs(), call);
      if NeedsBody(handler.value) && call.Chunk? {
        yes := upload.Upload(call.bytes, call.reallocOk, call.garbage);
        response := None;
        if !yes {
          over := true;
        }
      } else {
        var body := if upload.data == null then None else parse(CString(upload.data[..]));
        var r := handlers.Handle(handler.value, id.value, body, ok, callocOk, order, reply, skip);
        responses, over, ran := responses + 1, true, ran + [(handler.value, id.value)];
        yes, response := true, Some(r);
      }
    }
  }

  // ---- From the calls to the table ----

  type Parser = string -> Option<Body>

  /** The texts that are JSON, and what their members are. */
  ghost predicate ParsesClamped(parse: Parser) {
    forall s :: parse(s).Some? ==> Clamped(parse(s).value)
  }

  /** The parser reads the buffer up to its first terminator; there is nothing to read in none. */
  function Parsed(b: Buffer, parse: Parser): Option<Body> {
    if b.data == [] then None else parse(CString(b.data))
  }

  /** What a whole request does to the table, read off its calls. */
  ghost function RequestEffect(t: Table, calls: seq<Call>, parse: Parser, reply: Reply, skip: nat): Table
    requires LegalCalls(FRESH, calls) && HandleAll(FRESH, calls).info.Some? && |HandleAll(FRESH, calls).ran| == 1
    requires ParsesClamped(parse)
  {
    var e := HandleAll(FRESH, calls);
    Handled(t, e.ran[0].0, e.ran[0].1, Parsed(e.info.value.upload, parse), reply, skip)
  }

  /** A request that gets to its last call did not fail in its first. */
  lemma {:induction false} FirstSucceeded(calls: seq<Call>)
    requires Driven(FRESH, calls) && calls != [] && calls[0].First? && calls[|calls| - 1].Last?
    ensures
      var c := calls[0];
      && c.mallocOk && c.compiled && IsTargetsUrl(c.url) && Choose(c.verb, c.matchedId).Some?
  {
    var r := Handle(FRESH, calls[0]);
    assert calls[1..][0] == calls[1];
    assert !r.over;
  }

  /** The body of a request without or with one piece. */
  lemma {:induction false} BodyParsed(calls: seq<Call>, garbage: Garbage, parse: Parser)
    requires Driven(FRESH, calls) && calls != [] && calls[0].First? && calls[|calls| - 1].Last?
    requires Allocated(calls, garbage)
    requires Choose(calls[0].verb, calls[0].matchedId).Some?
    requires NeedsBody(Choose(calls[0].verb, calls[0].matchedId).value)
    ensures LegalCalls(FRESH, calls) && HandleAll(FRESH, calls).info.Some?
    ensures
      var pieces := Pieces(calls);
      var body := Parsed(HandleAll(FRESH, calls).info.value.upload, parse);
      && (pieces == [] ==> body == None)
      && (|pieces| == 1 && '\0' !in pieces[0] ==> body == parse(pieces[0]))
  {
    FirstSucceeded(calls);
    BodyArrives(calls, garbage);
    var pieces := Pieces(calls);
    if |pieces| == 1 && '\0' !in pieces[0] {
      CStringOf(pieces[0], "\0");
    }
  }

  /** The statement of POST for a parsed body. */
  ghost predicate Inserted(t: Table, t': Table, body: Option<Body>, reply: Reply, skip: nat) {
    if body.Some? && body.value.name.Text? && body.value.url.Text?
       && (body.value.interval.Missing? || body.value.interval.Number?) then
      var b := body.value;
      var interval := if b.interval.Number? then b.interval.n else 5;
      t' == EventLoop.Executed(t, EventLoop.Post(b.name.s, b.url.s, interval, skip), reply)
    else t' == t
  }

  /**
   From the calls to the table: a request for the URL of an id that runs to its end, its body in
   at most one piece, executes the statement its method and body stand for on that id, or none.
   */
  lemma {:induction false} RequestToTable(t: Table, calls: seq<Call>, garbage: Garbage, id: int, parse: Parser,
                                          reply: Reply, skip: nat)
    requires 0 < id && InInt32(id) && ParsesClamped(parse)
    requires Driven(FRESH, calls) && calls != [] && calls[|calls| - 1].Last? && Allocated(calls, garbage)
    requires calls[0].First? && calls[0].url == "/targets/" + Printed(id) + "/"
    requires |Pieces(calls)| <= 1 && (Pieces(calls) != [] ==> '\0' !in Pieces(calls)[0])
    ensures LegalCalls(FRESH, calls) && HandleAll(FRESH, calls).info.Some? && |HandleAll(FRESH, calls).ran| == 1
    ensures
      var verb := calls[0].verb;
      var body := if Pieces(calls) == [] then None else parse(Pieces(calls)[0]);
      var t' := RequestEffect(t, calls, parse, reply, skip);
      && verb in {"GET", "DELETE", "PATCH", "POST"}
      && (verb == "GET" ==> t' == t)
      && (verb == "DELETE" ==> t' == EventLoop.Executed(t, EventLoop.Remove(id), reply))
      && (verb == "PATCH" ==>
            t' == if body.Some? then EventLoop.Executed(t, EventLoop.Patch(id, body.value), reply) else t)
      && (verb == "POST" ==> Inserted(t, t', body, reply, skip))
  {
    hide *;
    FirstSucceeded(calls);
    Routed(calls, id);
    WholeToTable(t, calls, garbage, parse, reply, skip);
  }

  /** And one for the collection: GET changes nothing, POST adds the target its body describes. */
  lemma {:induction false} CollectionToTable(t: Table, calls: seq<Call>, garbage: Garbage, parse: Parser, reply: Reply,
                                             skip: nat)
    requires ParsesClamped(parse)
    requires Driven(FRESH, calls) && calls != [] && calls[|calls| - 1].Last? && Allocated(calls, garbage)
    requires calls[0].First? && calls[0].url == "/targets/"
    requires |Pieces(calls)| <= 1 && (Pieces(calls) != [] ==> '\0' !in Pieces(calls)[0])
    ensures LegalCalls(FRESH, calls) && HandleAll(FRESH, calls).info.Some? && |HandleAll(FRESH, calls).ran| == 1
    ensures
      var verb := calls[0].verb;
      var body := if Pieces(calls) == [] then None else parse(Pieces(calls)[0]);
      var t' := RequestEffect(t, calls, parse, reply, skip);
      && (verb == "GET" || verb == "POST")
      && (verb == "GET" ==> t' == t)
      && (verb == "POST" ==> Inserted(t, t', body, reply, skip))
  {
    hide *;
    FirstSucceeded(calls);
    CollectionRouted(calls);
    WholeToTable(t, calls, garbage, parse, reply, skip);
  }

  /** The handler that ran, on the body that arrived. */
  lemma {:induction false} WholeToTable(t: Table, calls: seq<Call>, garbage: Garbage, parse: Parser, reply: Reply,
                                        skip: nat)
    requires ParsesClamped(parse) && Allocated(calls, garbage)
    requires Driven(FRESH, calls) && calls != [] && calls[0].First? && calls[|calls| - 1].Last?
    requires |Pieces(calls)| <= 1 && (Pieces(calls) != [] ==> '\0' !in Pieces(calls)[0])
    ensures LegalCalls(FRESH, calls) && HandleAll(FRESH, calls).info.Some? && |HandleAll(FRESH, calls).ran| == 1
    ensures
      var (h, id) := HandleAll(FRESH, calls).ran[0];
      var body := if Pieces(calls) == [] then None else parse(Pieces(calls)[0]);
      var t' := RequestEffect(t, calls, parse, reply, skip);
      && (body.Some? ==> Clamped(body.value))
      && (h.GetOne? || h.GetAll? ==> t' == t)
      && (h.DeleteOne? ==> t' == EventLoop.Executed(t, EventLoop.Remove(id), reply))
      && (h.PatchOne? ==>
            t' == if body.Some? then EventLoop.Executed(t, EventLoop.Patch(id, body.value), reply) else t)
      && (h.PostOne? ==> Inserted(t, t', body, reply, skip))
  {
    hide *;
    RequestProtocol(calls);
    EndsWithInfo(calls);
    var (h, id) := HandleAll(FRESH, calls).ran[0];
    var found := Parsed(HandleAll(FRESH, calls).info.value.upload, parse);
    var body := if Pieces(calls) == [] then None else parse(Pieces(calls)[0]);
    FirstSucceeded(calls);
    if NeedsBody(h) {
      BodyParsed(calls, garbage, parse);
    }
    EffectIs(t, calls, parse, reply, skip);
    ParserClamps(parse, if Pieces(calls) == [] then "" else Pieces(calls)[0]);
    HandlerEffect(t, h, id, found, body, reply, skip);
  }

  lemma {:induction false} EffectIs(t: Table, calls: seq<Call>, parse: Parser, reply: Reply, skip: nat)
    requires LegalCalls(FRESH, calls) && HandleAll(FRESH, calls).info.Some? && |HandleAll(FRESH, calls).ran| == 1
    requires ParsesClamped(parse)
    ensures
      var e := HandleAll(FRESH, calls);
      var body := Parsed(e.info.value.upload, parse);
      && (body.Some? ==> Clamped(body.value))
      && RequestEffect(t, calls, parse, reply, skip) == Handled(t, e.ran[0].0, e.ran[0].1, body, reply, skip)
  {
  }

  lemma {:induction false} ParserClamps(parse: Parser, text: string)
    requires ParsesClamped(parse)
    ensures parse(text).Some? ==> Clamped(parse(text).value)
  {
  }

  /** What each handler does; only PATCH and POST look at the body. */
  lemma {:induction false} HandlerEffect(t: Table, h: Handler, id: int, found: Option<Body>, body: Option<Body>,
                                         reply: Reply, skip: nat)
    requires NeedsBody(h) ==> found == body
    requires (found.Some? ==> Clamped(found.value)) && (body.Some? ==> Clamped(body.value))
    ensures
      var t' := Handled(t, h, id, found, reply, skip);
      && (h.GetOne? || h.GetAll? ==> t' == t)
      && (h.DeleteOne? ==> t' == EventLoop.Executed(t, EventLoop.Remove(id), reply))
      && (h.PatchOne? ==>
            t' == if body.Some? then EventLoop.Executed(t, EventLoop.Patch(id, body.value), reply) else t)
      && (h.PostOne? ==> Inserted(t, t', body, reply, skip))
  {
    hide EventLoop.Executed;
  }

  lemma {:induction false} EndsWithInfo(calls: seq<Call>)
    requires Driven(FRESH, calls) && calls != [] && calls[0].First? && calls[|calls| - 1].Last?
    ensures LegalCalls(FRESH, calls) && HandleAll(FRESH, calls).info.Some?
  {
    FirstSucceeded(calls);
    HandleKeepsValid(FRESH, calls[0]);
    var r := Handle(FRESH, calls[0]);
    DrivenIsLegal(FRESH, calls);
    DrivenIsLegal(r, calls[1..]);
  }
}
