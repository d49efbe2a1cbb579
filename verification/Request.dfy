/**
 One HTTP request as libmicrohttpd drives it (src/server/handle.c:117-167,
 src/server/handle/targets.c:237-265): a first call with the headers, then calls with pieces of
 the body, then a last call without.
 */
module Request {
  import opened Decimal
  import opened Table
  import opened Upload
  import opened Url
  import opened Wrappers

  datatype Handler = DeleteOne | GetOne | GetAll | PatchOne | PostOne

  /** `handler` and `id` are not initialized before the URL has matched. */
  datatype Info = Info(handler: Option<Handler>, id: Option<int>, upload: Buffer)

  /**
   `responses` counts the attempts to queue a response and `ran` the handlers that did their work;
   a request is over once a response was queued or a call returned MHD_NO.
   */
  datatype Request = Request(info: Option<Info>, responses: nat, ran: seq<(Handler, int)>, over: bool)

  datatype Call =
    | First(url: string, verb: string, mallocOk: bool, compiled: bool, matchedId: int)
    | Chunk(bytes: seq<char>, reallocOk: bool, garbage: Garbage)
    | Last

  const FRESH := Request(None, 0, [], false)

  predicate NeedsBody(h: Handler) {
    h.PatchOne? || h.PostOne?
  }

  /** The handler for a method and an id; an id of 0 means that the URL had none. */
  function Choose(verb: string, id: int): Option<Handler> {
    if verb == "DELETE" && id != 0 then Some(DeleteOne)
    else if verb == "GET" then Some(if id != 0 then GetOne else GetAll)
    else if verb == "PATCH" && id != 0 then Some(PatchOne)
    else if verb == "POST" then Some(PostOne)
    else None
  }

  function Respond(r: Request): Request {
    r.(responses := r.responses + 1, over := true)
  }

  /** `compiled` is whether the pattern could be compiled, `matchedId` what `match` stores when the URL matches. */
  function FirstCall(r: Request, url: string, verb: string, mallocOk: bool, compiled: bool, matchedId: int): Request {
    if !mallocOk then r.(over := true)
    else if !compiled || !IsTargetsUrl(url) then Respond(r.(info := Some(Info(None, None, EMPTY))))
    else
      var h := Choose(verb, matchedId);
      var r := r.(info := Some(Info(h, Some(matchedId), EMPTY)));
      if h.None? then Respond(r) else r
  }

  /** A later call, which goes to the chosen handler; PATCH and POST keep pieces of the body. */
  function LaterCall(r: Request, info: Info, h: Handler, id: int, call: Call): Request
    requires !call.First?
  {
    if NeedsBody(h) && call.Chunk? then
      if call.reallocOk then r.(info := Some(info.(upload := Accumulate(info.upload, call.bytes, call.garbage))))
      else r.(over := true)
    else Respond(r.(ran := r.ran + [(h, id)]))
  }

  /**
   libmicrohttpd's rules: the headers first and once, then non-empty pieces, and nothing after the
   end.  The id is one that `match` stores for the URL.
   */
  predicate Legal(r: Request, call: Call) {
    && !r.over
    && (call.First? <==> r.info.None?)
    && (call.Chunk? ==> call.bytes != [])
    && (call.First? && IsTargetsUrl(call.url) ==> Stores(call.url, call.matchedId))
  }

  predicate Chosen(r: Request) {
    r.info.Some? && r.info.value.handler.Some? && r.info.value.id.Some?
  }

  function Handle(r: Request, call: Call): Request
    requires Legal(r, call) && (call.First? || Chosen(r))
  {
    match call
    case First(url, verb, mallocOk, compiled, matchedId) => FirstCall(r, url, verb, mallocOk, compiled, matchedId)
    case _ => LaterCall(r, r.info.value, r.info.value.handler.value, r.info.value.id.value, call)
  }

  /** While a request is not over, a handler has been chosen for it as its method and id demand. */
  ghost predicate Valid(r: Request) {
    && (r.info.None? ==> r == FRESH.(over := r.over))
    && (r.info.Some? && !r.over ==> Chosen(r) && r.responses == 0 && r.ran == [])
    && (Chosen(r) ==>
          var h, id := r.info.value.handler.value, r.info.value.id.value;
          && (h.DeleteOne? || h.GetOne? || h.PatchOne? ==> id != 0)
          && (r.ran == [] || r.ran == [(h, id)]))
    && (!Chosen(r) ==> r.ran == [])
    && r.responses <= 1
    && (r.ran != [] ==> r.responses == 1)
  }

  lemma {:induction false} HandleKeepsValid(r: Request, call: Call)
    requires Valid(r) && Legal(r, call)
    ensures call.First? || Chosen(r)
    ensures Valid(Handle(r, call))
    ensures Chosen(r) ==> Chosen(Handle(r, call))
                          && Handle(r, call).info.value.handler == r.info.value.handler
                          && Handle(r, call).info.value.id == r.info.value.id
    ensures call.Last? ==> Handle(r, call).over && Handle(r, call).responses == 1
                           && Handle(r, call).ran == [(r.info.value.handler.value, r.info.value.id.value)]
  {
  }

  ghost predicate LegalCalls(r: Request, calls: seq<Call>)
    decreases |calls|
  {
    calls == [] ||
    (Legal(r, calls[0]) && (calls[0].First? || Chosen(r)) && LegalCalls(Handle(r, calls[0]), calls[1..]))
  }

  function HandleAll(r: Request, calls: seq<Call>): Request
    requires LegalCalls(r, calls)
    decreases |calls|
  {
    if calls == [] then r else HandleAll(Handle(r, calls[0]), calls[1..])
  }

  /** The pieces of the body among the calls. */
  function Pieces(calls: seq<Call>): seq<seq<char>>
    decreases |calls|
  {
    if calls == [] then []
    else (if calls[0].Chunk? then [calls[0].bytes] else []) + Pieces(calls[1..])
  }

  /** The rules of libmicrohttpd alone, without asking for a chosen handler. */
  ghost predicate Driven(r: Request, calls: seq<Call>)
    decreases |calls|
  {
    calls == [] ||
    (Legal(r, calls[0]) && (calls[0].First? || Chosen(r) ==> Driven(Handle(r, calls[0]), calls[1..])))
  }

  /** The handler pointer that a later call follows has always been set. */
  lemma {:induction false} DrivenIsLegal(r: Request, calls: seq<Call>)
    requires Valid(r) && Driven(r, calls)
    ensures LegalCalls(r, calls) && Valid(HandleAll(r, calls))
    ensures Chosen(r) ==> Chosen(HandleAll(r, calls))
                          && HandleAll(r, calls).info.value.handler == r.info.value.handler
                          && HandleAll(r, calls).info.value.id == r.info.value.id
    decreases |calls|
  {
    if calls != [] {
      HandleKeepsValid(r, calls[0]);
      DrivenIsLegal(Handle(r, calls[0]), calls[1..]);
    }
  }

  lemma {:induction false} EndsAnswered(r: Request, calls: seq<Call>)
    requires Valid(r) && Driven(r, calls) && calls != [] && calls[|calls| - 1].Last?
    ensures LegalCalls(r, calls)
    ensures
      var e := HandleAll(r, calls);
      && e.over && e.responses == 1 && |e.ran| == 1
    decreases |calls|
  {
    DrivenIsLegal(r, calls);
    HandleKeepsValid(r, calls[0]);
    var r' := Handle(r, calls[0]);
    if |calls| > 1 {
      assert calls[1..][|calls[1..]| - 1] == calls[|calls| - 1];
      EndsAnswered(r', calls[1..]);
    } else {
      assert calls[1..] == [];
    }
  }

  /**
   Over every sequence of calls libmicrohttpd can make: the handler is chosen once, from the
   method and the id, a handler for one target runs only with an id that is not 0, and no more
   than one response is attempted; a request that gets to its last call runs its handler once and
   attempts exactly one.
   */
  lemma {:induction false} RequestProtocol(calls: seq<Call>)
    requires Driven(FRESH, calls) && calls != []
    ensures LegalCalls(FRESH, calls)
    ensures
      var e := HandleAll(FRESH, calls);
      && e.responses <= 1
      && |e.ran| <= e.responses
      && (forall i :: 0 <= i < |e.ran| ==>
                        && calls[0].First? && Choose(calls[0].verb, calls[0].matchedId) == Some(e.ran[i].0)
                        && e.ran[i].1 == calls[0].matchedId
                        && (e.ran[i].0.DeleteOne? || e.ran[i].0.GetOne? || e.ran[i].0.PatchOne? ==> e.ran[i].1 != 0))
      && (calls[|calls| - 1].Last? ==> e.responses == 1 && |e.ran| == 1)
  {
    DrivenIsLegal(FRESH, calls);
    var r := Handle(FRESH, calls[0]);
    HandleKeepsValid(FRESH, calls[0]);
    DrivenIsLegal(r, calls[1..]);
    if calls[|calls| - 1].Last? {
      EndsAnswered(FRESH, calls);
    }
    if !Chosen(r) {
      assert r.over;
      assert calls[1..] == [];
    }
  }

  /** The first call chose this handler for this id, and nothing has been answered. */
  ghost predicate IsChosen(r: Request, h: Handler, id: int) {
    r.info.Some? && r.info.value.handler == Some(h) && r.info.value.id == Some(id)
    && !r.over && r.responses == 0 && r.ran == []
  }

  /** The first call has answered the request without any handler. */
  ghost predicate IsRefused(r: Request) {
    r.info.Some? && r.info.value.handler.None? && r.over && r.responses == 1 && r.ran == []
  }

  /** What the first call does, method by method. */
  lemma {:induction false} FirstCallExact(c: Call)
    requires c.First? && Legal(FRESH, c)
    ensures
      var r := Handle(FRESH, c);
      if !c.mallocOk then r == FRESH.(over := true)
      else if !c.compiled || !IsTargetsUrl(c.url) then IsRefused(r)
      else if c.verb == "GET" then IsChosen(r, if c.matchedId == 0 then GetAll else GetOne, c.matchedId)
      else if c.verb == "POST" then IsChosen(r, PostOne, c.matchedId)
      else if c.verb == "DELETE" && c.matchedId != 0 then IsChosen(r, DeleteOne, c.matchedId)
      else if c.verb == "PATCH" && c.matchedId != 0 then IsChosen(r, PatchOne, c.matchedId)
      else IsRefused(r)
  {
    hide IsTargetsUrl, Stores;
  }

  /** What a later call does: a piece of a PATCH or POST is kept; anything else runs the handler. */
  lemma {:induction false} LaterCallExact(r: Request, call: Call)
    requires Valid(r) && Legal(r, call) && !call.First?
    ensures Chosen(r)
    ensures
      var h, r' := r.info.value.handler.value, Handle(r, call);
      if call.Chunk? && (h == PatchOne || h == PostOne) then
        && r'.ran == [] && r'.responses == 0 && r'.over == !call.reallocOk
        && (call.reallocOk ==>
              r'.info == Some(r.info.value.(upload := Accumulate(r.info.value.upload, call.bytes, call.garbage))))
      else r'.ran == [(h, r.info.value.id.value)] && r'.responses == 1 && r'.over && r'.info == r.info
  {
    hide Accumulate;
  }

  /** A chosen handler runs in the last call; a refused request has none. */
  lemma {:induction false} ChosenRuns(calls: seq<Call>)
    requires Driven(FRESH, calls) && calls != []
    ensures LegalCalls(FRESH, calls) && calls[0].First?
    ensures IsRefused(Handle(FRESH, calls[0])) ==> |calls| == 1
    ensures
      forall h, id :: IsChosen(Handle(FRESH, calls[0]), h, id) && calls[|calls| - 1].Last? ==>
                        HandleAll(FRESH, calls).ran == [(h, id)] && HandleAll(FRESH, calls).responses == 1
  {
    var r := Handle(FRESH, calls[0]);
    RequestProtocol(calls);
    HandleKeepsValid(FRESH, calls[0]);
    DrivenIsLegal(r, calls[1..]);
    if |calls| > 1 {
      assert calls[1..][0] == calls[1];
    }
    hide Choose, IsTargetsUrl, Stores;
    forall h, id | IsChosen(r, h, id) && calls[|calls| - 1].Last?
      ensures HandleAll(FRESH, calls).ran == [(h, id)] && HandleAll(FRESH, calls).responses == 1
    {
      RanChosen(r, calls[1..], h, id);
    }
  }

  lemma {:induction false} RanChosen(r: Request, calls: seq<Call>, h: Handler, id: int)
    requires Valid(r) && Driven(r, calls) && LegalCalls(r, calls) && IsChosen(r, h, id)
    ensures |HandleAll(r, calls).ran| <= 1
    ensures HandleAll(r, calls).ran != [] ==> HandleAll(r, calls).ran == [(h, id)]
  {
    DrivenIsLegal(r, calls);
    hide LegalCalls, HandleAll, Driven;
  }

  /**
   Routing of the collection.  A request for it that the libraries let through: GET lists all
   targets, POST adds one, any other method is answered at once.
   */
  lemma {:induction false} CollectionRouted(calls: seq<Call>)
    requires Driven(FRESH, calls) && calls != []
    requires calls[0].First? && calls[0].mallocOk && calls[0].compiled && calls[0].url == "/targets/"
    ensures LegalCalls(FRESH, calls)
    ensures
      var verb, e := calls[0].verb, HandleAll(FRESH, calls);
      var last := calls[|calls| - 1].Last?;
      && (verb == "GET" && last ==> e.ran == [(GetAll, 0)] && e.responses == 1)
      && (verb == "POST" && last ==> e.ran == [(PostOne, 0)] && e.responses == 1)
      && (verb == "GET" || verb == "POST" ==> !Handle(FRESH, calls[0]).over)
      && (verb != "GET" && verb != "POST" ==> |calls| == 1 && IsRefused(Handle(FRESH, calls[0])))
  {
    CollectionStoresZero(calls[0].matchedId);
    FirstCallExact(calls[0]);
    ChosenRuns(calls);
    hide Handle, HandleAll, LegalCalls, IsTargetsUrl, Stores;
  }

  /**
   Routing of one target: a request for the URL built from its id, likewise, is read, deleted or
   changed by the handler of its method with that id; POST adds a target, whatever the id; any
   other method is answered at once.
   */
  lemma {:induction false} Routed(calls: seq<Call>, id: int)
    requires 0 < id && InInt32(id)
    requires Driven(FRESH, calls) && calls != []
    requires calls[0].First? && calls[0].mallocOk && calls[0].compiled
    requires calls[0].url == "/targets/" + Printed(id) + "/"
    ensures LegalCalls(FRESH, calls)
    ensures
      var verb, e := calls[0].verb, HandleAll(FRESH, calls);
      var last := calls[|calls| - 1].Last?;
      && (verb == "GET" && last ==> e.ran == [(GetOne, id)] && e.responses == 1)
      && (verb == "DELETE" && last ==> e.ran == [(DeleteOne, id)] && e.responses == 1)
      && (verb == "PATCH" && last ==> e.ran == [(PatchOne, id)] && e.responses == 1)
      && (verb == "POST" && last ==> e.ran == [(PostOne, id)] && e.responses == 1)
      && (verb in {"GET", "DELETE", "PATCH", "POST"} ==> !Handle(FRESH, calls[0]).over)
      && (verb !in {"GET", "DELETE", "PATCH", "POST"} ==> |calls| == 1 && IsRefused(Handle(FRESH, calls[0])))
  {
    UrlRoundTrip(id);
    FirstCallExact(calls[0]);
    ChosenRuns(calls);
    VerbsDiffer();
    hide Handle, HandleAll, LegalCalls, IsTargetsUrl, Stores;
  }

  lemma {:induction false} VerbsDiffer()
    ensures "DELETE" != "GET" && "DELETE" != "PATCH" && "DELETE" != "POST"
    ensures "GET" != "PATCH" && "GET" != "POST" && "PATCH" != "POST"
  {
    assert |"DELETE"| == 6 && |"GET"| == 3 && |"PATCH"| == 5 && |"POST"| == 4;
  }

  // ---- The body ----

  /** Memory for every piece could be had; `garbage` is what was in it. */
  ghost predicate Allocated(calls: seq<Call>, garbage: Garbage) {
    forall i :: 0 <= i < |calls| && calls[i].Chunk? ==> calls[i].reallocOk && calls[i].garbage == garbage
  }

  lemma {:induction false} PiecesAccumulate(r: Request, seen: seq<seq<char>>, calls: seq<Call>, garbage: Garbage)
    requires Valid(r) && Driven(r, calls) && Chosen(r) && NeedsBody(r.info.value.handler.value)
    requires Allocated(calls, garbage) && r.info.value.upload == Accumulated(seen, garbage)
    ensures LegalCalls(r, calls) && HandleAll(r, calls).info.Some?
    ensures HandleAll(r, calls).info.value.upload == Accumulated(seen + Pieces(calls), garbage)
    decreases |calls|
  {
    hide Accumulated, Accumulate;
    if calls == [] {
      PiecesNext(seen, calls);
    } else {
      HandleKeepsValid(r, calls[0]);
      PieceKept(r, seen, calls[0], garbage);
      var r' := Handle(r, calls[0]);
      var now := if calls[0].Chunk? then seen + [calls[0].bytes] else seen;
      assert forall i :: 0 <= i < |calls[1..]| ==> calls[1..][i] == calls[i + 1];
      PiecesNext(seen, calls);
      hide *;
      PiecesAccumulate(r', now, calls[1..], garbage);
    }
  }

  lemma {:induction false} PiecesNext(seen: seq<seq<char>>, calls: seq<Call>)
    ensures calls == [] ==> seen + Pieces(calls) == seen
    ensures calls != [] ==>
              seen + Pieces(calls) == (if calls[0].Chunk? then seen + [calls[0].bytes] else seen) + Pieces(calls[1..])
  {
  }

  lemma {:induction false} PieceKept(r: Request, seen: seq<seq<char>>, call: Call, garbage: Garbage)
    requires Legal(r, call) && Chosen(r) && NeedsBody(r.info.value.handler.value)
    requires call.Chunk? ==> call.reallocOk && call.garbage == garbage
    requires r.info.value.upload == Accumulated(seen, garbage)
    ensures
      var now := if call.Chunk? then seen + [call.bytes] else seen;
      var r' := Handle(r, call);
      r'.info.Some? && r'.info.value.upload == Accumulated(now, garbage)
  {
    if call.Chunk? {
      assert (seen + [call.bytes])[..|seen|] == seen;
    }
    hide Accumulate;
  }

  /**
   What a PATCH or POST handler finds in the buffer when its time comes: the pieces as they were
   accumulated, and so the body itself if it came in one piece.
   */
  lemma {:induction false} BodyArrives(calls: seq<Call>, garbage: Garbage)
    requires Driven(FRESH, calls) && calls != [] && Allocated(calls, garbage)
    requires
      var c := calls[0];
      && c.First? && c.mallocOk && c.compiled && IsTargetsUrl(c.url)
      && (var h := Choose(c.verb, c.matchedId); h.Some? && NeedsBody(h.value))
    ensures LegalCalls(FRESH, calls) && HandleAll(FRESH, calls).info.Some?
    ensures
      var b := HandleAll(FRESH, calls).info.value.upload;
      var pieces := Pieces(calls);
      && b == Accumulated(pieces, garbage)
      && b.size == |Concat(pieces)|
      && (|pieces| == 1 ==> b.data == pieces[0] + "\0")
  {
    var r := Handle(FRESH, calls[0]);
    HandleKeepsValid(FRESH, calls[0]);
    assert forall i :: 0 <= i < |calls[1..]| ==> calls[1..][i] == calls[i + 1];
    PiecesAccumulate(r, [], calls[1..], garbage);
    var pieces := Pieces(calls);
    assert [] + Pieces(calls[1..]) == pieces;
    AccumulatedShape(pieces, garbage);
    if |pieces| == 1 {
      OnePiece(pieces, garbage);
    }
  }

  lemma {:induction false} OnePiece(pieces: seq<seq<char>>, garbage: Garbage)
    requires |pieces| == 1
    ensures Accumulated(pieces, garbage).data == pieces[0] + "\0"
  {
  }
}
