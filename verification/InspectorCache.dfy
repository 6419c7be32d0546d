/** The inspector's parse cache (app/src/ui.cpp): statics keyed by flow id and payload sizes,
    while records arrive, the caps change and the capture is cleared. */
module InspectorCache {
  import opened Bytes
  import opened RingProtocol
  import opened FlowModel
  import opened HttpMessages
  import StreamCapture
  import HttpStability

  // ---- events ---------------------------------------------------------------------------

  datatype Event =
    | Deliver(rec: Record)
    | SetCaps(payloadCap: nat, packetCap: nat)
    | Clear
    | Draw(id: nat)

  /** The statics of DrawInspector; no size at first (SIZE_MAX in the code). */
  datatype Cache = Cache(flow: nat, outSize: Option<nat>, inSize: Option<nat>, requests: seq<Message>, responses: seq<Message>)

  /** The application as the inspector sees it; `out` and `inn` remember the payloads the
      cache was filled from, `cleared` whether the capture was cleared since. */
  datatype Screen = Screen(model: Model, payloadCap: nat, packetCap: nat, cache: Cache, out: seq<Byte>, inn: seq<Byte>, cleared: bool) {
    function Payload(id: nat, dir: bool): seq<Byte> { Captured(model, id, dir).payload }
  }

  predicate Possible(e: Event) { e.Deliver? ==> Castable(e.rec) }

  predicate Clearing(e: Event) { e.Clear? }

  predicate Drawing(e: Event) { e.Draw? }

  ghost predicate AllPossible(events: seq<Event>) {
    forall e {:trigger Possible(e)} :: e in events ==> Possible(e)
  }

  ghost predicate NoClear(events: seq<Event>) {
    forall e {:trigger Clearing(e)} :: e in events ==> !Clearing(e)
  }

  ghost predicate NoDraw(events: seq<Event>) {
    forall e {:trigger Drawing(e)} :: e in events ==> !Drawing(e)
  }

  lemma {:induction false} BothParts(a: seq<Event>, b: seq<Event>)
    ensures AllPossible(a + b) <==> AllPossible(a) && AllPossible(b)
    ensures NoClear(a + b) <==> NoClear(a) && NoClear(b)
    ensures NoDraw(a + b) <==> NoDraw(a) && NoDraw(b)
  {
    assert forall e :: e in a + b <==> e in a || e in b;
  }

  lemma {:induction false} OneEvent(e: Event)
    ensures AllPossible([e]) <==> Possible(e)
    ensures NoClear([e]) <==> !e.Clear?
    ensures NoDraw([e]) <==> !e.Draw?
  {
    assert e in [e];
    assert Possible(e) || !Possible(e);
    assert Clearing(e) || !Clearing(e);
    assert Drawing(e) || !Drawing(e);
  }

  /** The last event and those before it. */
  lemma {:induction false} LastEvent(events: seq<Event>)
    requires events != []
    ensures var front, e := events[..|events| - 1], events[|events| - 1];
      && (AllPossible(events) <==> AllPossible(front) && Possible(e)) && (NoClear(events) <==> NoClear(front) && !e.Clear?)
      && (NoDraw(events) <==> NoDraw(front) && !e.Draw?) && front + [e] == events
  {
    var front, e := events[..|events| - 1], events[|events| - 1];
    assert front + [e] == events;
    BothParts(front, [e]);
    OneEvent(e);
  }

  /** Whether the cache counts as filled for a flow of these sizes. */
  predicate Hit(c: Cache, id: nat, out: nat, inn: nat) {
    c.flow == id && c.outSize == Some(out) && c.inSize == Some(inn)
  }

  /** DrawInspector up to the parse. */
  function Drawn(s: Screen, id: nat): Screen {
    var out, inn := s.Payload(id, false), s.Payload(id, true);
    if id !in s.model.index || Hit(s.cache, id, |out|, |inn|) then s
    else s.(cache := Cache(id, Some(|out|), Some(|inn|), Messages(out, false), Messages(inn, true)), out := out, inn := inn, cleared := false)
  }

  function After(s: Screen, e: Event): Screen
    requires s.model.Valid() && Possible(e)
  {
    match e
    case Deliver(rec) => s.(model := Ingest(s.model, rec, s.payloadCap, s.packetCap))
    case SetCaps(payloadCap, packetCap) => s.(payloadCap := payloadCap, packetCap := packetCap)
    case Clear => s.(model := EMPTY, cleared := true)
    case Draw(id) => Drawn(s, id)
  }

  lemma {:induction false} AfterValid(s: Screen, e: Event)
    requires s.model.Valid() && Possible(e)
    ensures After(s, e).model.Valid()
  {
    if e.Deliver? { IngestKeepsValid(s.model, e.rec, s.payloadCap, s.packetCap); }
  }

  ghost function Show(s: Screen, events: seq<Event>): (n: Screen)
    requires s.model.Valid() && AllPossible(events)
    ensures n.model.Valid()
  {
    if events == [] then s
    else
      LastEvent(events);
      var m := Show(s, events[..|events| - 1]);
      AfterValid(m, events[|events| - 1]);
      After(m, events[|events| - 1])
  }

  lemma {:induction false} ShowMore(s: Screen, events: seq<Event>, e: Event)
    requires s.model.Valid() && AllPossible(events) && Possible(e)
    ensures AllPossible(events + [e]) && Show(s, events + [e]) == After(Show(s, events), e)
  {
    BothParts(events, [e]);
    OneEvent(e);
    assert (events + [e])[..|events|] == events;
  }

  lemma {:induction false} ShowConcat(s: Screen, a: seq<Event>, b: seq<Event>)
    requires s.model.Valid() && AllPossible(a) && AllPossible(b)
    ensures AllPossible(a + b) && Show(s, a + b) == Show(Show(s, a), b)
    decreases |b|
  {
    if b == [] {
      assert a + b == a;
    } else {
      var front, e := b[..|b| - 1], b[|b| - 1];
      LastEvent(b);
      ShowConcat(s, a, front);
      ShowMore(s, a + front, e);
      Associate(a, front, [e]);
    }
  }

  /** The program as it starts. */
  function Start(payloadCap: nat, packetCap: nat): Screen {
    Screen(EMPTY, payloadCap, packetCap, Cache(0, None, None, [], []), [], [], false)
  }

  // ---- payloads grow until they are cleared -------------------------------------------------

  lemma {:induction false} StepGrows(s: Screen, e: Event, id: nat, dir: bool)
    requires s.model.Valid() && Possible(e) && !e.Clear?
    ensures s.Payload(id, dir) <= After(s, e).Payload(id, dir)
  {
    if e.Deliver? { IngestCaptures(s.model, e.rec, s.payloadCap, s.packetCap, id, dir); }
  }

  /** Without a clear a flow's payload only grows at its end, however the caps change. */
  lemma {:induction false} PayloadGrows(s: Screen, events: seq<Event>, id: nat, dir: bool)
    requires s.model.Valid() && AllPossible(events) && NoClear(events)
    ensures s.Payload(id, dir) <= Show(s, events).Payload(id, dir)
  {
    if events != [] {
      var front, e := events[..|events| - 1], events[|events| - 1];
      LastEvent(events);
      PayloadGrows(s, front, id, dir);
      StepGrows(Show(s, front), e, id, dir);
    }
  }

  /** HTTP messages of a payload stay as it grows, but for the last one, which may grow. */
  lemma {:induction false} ShownStays(s: Screen, events: seq<Event>, id: nat, dir: bool)
    requires s.model.Valid() && AllPossible(events) && NoClear(events)
    ensures var a, b := s.Payload(id, dir), Show(s, events).Payload(id, dir);
      HttpStability.Continues(Messages(a, dir), Messages(b, dir), |a|)
  {
    PayloadGrows(s, events, id, dir);
    MessagesContinue(s.Payload(id, dir), Show(s, events).Payload(id, dir), dir);
  }

  lemma {:induction false} MessagesContinue(a: seq<Byte>, b: seq<Byte>, asResponse: bool)
    requires a <= b
    ensures HttpStability.Continues(Messages(a, asResponse), Messages(b, asResponse), |a|)
  {
    HttpStability.ExtensionStable(a, b[|a|..], asResponse);
    assert a + b[|a|..] == b;
  }

  // ---- the cache between clears --------------------------------------------------------------

  /** The cache holds the parse of the payloads it was filled from; if the capture has not
      been cleared since, those are the beginnings of the flow's payloads. */
  ghost predicate Filled(s: Screen) {
    s.cache.outSize.Some? ==>
      && s.cache.outSize == Some(|s.out|) && s.cache.inSize == Some(|s.inn|)
      && s.cache.requests == Messages(s.out, false) && s.cache.responses == Messages(s.inn, true)
      && (!s.cleared ==> s.out <= s.Payload(s.cache.flow, false) && s.inn <= s.Payload(s.cache.flow, true))
  }

  lemma {:induction false} FilledStep(s: Screen, e: Event)
    requires s.model.Valid() && Possible(e) && Filled(s)
    ensures Filled(After(s, e))
  {
    if !e.Clear? {
      StepGrows(s, e, s.cache.flow, false);
      StepGrows(s, e, s.cache.flow, true);
    }
  }

  lemma {:induction false} FilledRun(s: Screen, events: seq<Event>)
    requires s.model.Valid() && AllPossible(events) && Filled(s)
    ensures Filled(Show(s, events))
  {
    if events != [] {
      LastEvent(events);
      FilledRun(s, events[..|events| - 1]);
      FilledStep(Show(s, events[..|events| - 1]), events[|events| - 1]);
    }
  }

  /** What the cache was filled from is what the flow holds. */
  ghost predicate Current(s: Screen, id: nat) {
    s.out == s.Payload(id, false) && s.inn == s.Payload(id, true)
  }

  /** What is on the screen for a flow is the parse of its payloads. */
  ghost predicate UpToDate(s: Screen, id: nat) {
    s.cache.requests == Messages(s.Payload(id, false), false) && s.cache.responses == Messages(s.Payload(id, true), true)
  }

  /** In every run from the start, drawing a known flow shows the parse of what it holds,
      unless the capture was cleared since the cache was filled. */
  lemma {:induction false} CacheIsFresh(payloadCap: nat, packetCap: nat, events: seq<Event>, id: nat)
    requires AllPossible(events)
    ensures var s := Drawn(Show(Start(payloadCap, packetCap), events), id);
      id in s.model.index && !s.cleared ==> Current(s, id) && UpToDate(s, id)
  {
    var m := Show(Start(payloadCap, packetCap), events);
    FilledRun(Start(payloadCap, packetCap), events);
    FilledStep(m, Draw(id));
  }

  // ---- exactly when an equal key means equal bytes -----------------------------------------------

  /** A DATA record as the driver makes it. */
  function DataRecord(id: nat, dir: bool, data: seq<Byte>): Record {
    Record(0, REC_DATA, 0, 0, 0, StreamCapture.DataHeader(id, dir, |data|) + data)
  }

  lemma {:induction false} DataRecordReads(id: nat, dir: bool, data: seq<Byte>)
    requires id < U64 && |data| < U32
    ensures var rec := DataRecord(id, dir, data);
      Castable(rec) && IsData(rec, id, dir) && !IsData(rec, id, !dir) && DataOf(rec.body) == data
  {
    var h := StreamCapture.DataHeader(id, dir, |data|);
    var body := h + data;
    assert body[..DATA_SIZE] == h;
    StreamCapture.HeaderReads(body, id, dir, |data|);
    assert body[DATA_SIZE..DATA_SIZE + |data|] == data;
  }

  /** `n` is `s` after `data` has arrived for a flow and direction. */
  ghost predicate Arrived(s: Screen, n: Screen, id: nat, dir: bool, data: seq<Byte>) {
    && n.model.Valid() && n == s.(model := n.model) && (data != [] || id in s.model.index ==> id in n.model.index)
    && n.Payload(id, dir) == s.Payload(id, dir) + data && n.Payload(id, !dir) == s.Payload(id, !dir)
  }

  lemma {:induction false} DeliverData(s: Screen, id: nat, dir: bool, data: seq<Byte>) returns (n: Screen)
    requires s.model.Valid() && id < U64 && 0 < |data| < U32 && |s.Payload(id, dir)| + |data| <= s.payloadCap
    ensures Castable(DataRecord(id, dir, data))
    ensures n == After(s, Deliver(DataRecord(id, dir, data))) && Arrived(s, n, id, dir, data)
  {
    var rec := DataRecord(id, dir, data);
    DataRecordReads(id, dir, data);
    IngestCaptures(s.model, rec, s.payloadCap, s.packetCap, id, dir);
    IngestCaptures(s.model, rec, s.payloadCap, s.packetCap, id, !dir);
    EnsureKeepsIndex(s.model, id);
    assert data[..|data|] == data;
    AfterValid(s, Deliver(rec));
    n := After(s, Deliver(rec));
  }

  lemma {:induction false} ArrivedBoth(s: Screen, m: Screen, n: Screen, id: nat, dir: bool, a: seq<Byte>, b: seq<Byte>)
    requires Arrived(s, m, id, dir, a) && Arrived(m, n, id, dir, b)
    ensures Arrived(s, n, id, dir, a + b)
  {
    Associate(s.Payload(id, dir), a, b);
  }

  lemma {:induction false} OneMoreByte(s: Screen, events: seq<Event>, m: Screen, id: nat, dir: bool, front: seq<Byte>, last: Byte)
    returns (more: seq<Event>, n: Screen)
    requires s.model.Valid() && id < U64 && |s.Payload(id, dir)| + |front| < s.payloadCap && AllPossible(events) && NoDraw(events)
    requires m == Show(s, events) && Arrived(s, m, id, dir, front)
    ensures AllPossible(more) && NoDraw(more) && n == Show(s, more) && Arrived(s, n, id, dir, front + [last])
  {
    var e := Deliver(DataRecord(id, dir, [last]));
    n := DeliverData(m, id, dir, [last]);
    ShowMore(s, events, e);
    OneEvent(e);
    BothParts(events, [e]);
    ArrivedBoth(s, m, n, id, dir, front, [last]);
    more := events + [e];
  }

  /** Any bytes within the cap can arrive, one record per byte. */
  lemma {:induction false} BytesArrive(s: Screen, id: nat, dir: bool, data: seq<Byte>) returns (events: seq<Event>, n: Screen)
    requires s.model.Valid() && id < U64 && |s.Payload(id, dir)| + |data| <= s.payloadCap
    ensures AllPossible(events) && NoDraw(events) && n == Show(s, events) && Arrived(s, n, id, dir, data)
  {
    if data == [] {
      assert s.Payload(id, dir) + data == s.Payload(id, dir);
      events, n := [], s;
    } else {
      var front := data[..|data| - 1];
      var m: Screen;
      events, m := BytesArrive(s, id, dir, front);
      events, n := OneMoreByte(s, events, m, id, dir, front, data[|data| - 1]);
      assert front + [data[|data| - 1]] == data;
    }
  }

  /** Other bytes, as many. */
  function Others(data: seq<Byte>): (d: seq<Byte>)
    ensures |d| == |data| && (data != [] ==> d != data)
  {
    if data == [] then []
    else
      var d := [if data[0] == 0 then 1 else 0] + data[1..];
      assert d[0] != data[0];
      d
  }

  lemma {:induction false} TwoEvents(s: Screen, n: nat, k: nat) returns (events: seq<Event>, m: Screen)
    requires s.model.Valid()
    ensures AllPossible(events) && NoDraw(events) && m == Show(s, events)
    ensures m.model == EMPTY && m.payloadCap == n && m.cache == s.cache && m.out == s.out && m.inn == s.inn
  {
    var a, b := SetCaps(n, k), Clear;
    OneEvent(a);
    OneEvent(b);
    BothParts([a], [b]);
    assert [a] + [b] == [a, b] && [] + [a] == [a];
    ShowMore(s, [], a);
    ShowMore(s, [a], b);
    events, m := [a, b], Show(s, [a, b]);
  }

  lemma {:induction false} NothingYet(s: Screen, id: nat, dir: bool)
    requires s.model == EMPTY
    ensures s.model.Valid() && s.Payload(id, dir) == []
  {
  }

  lemma {:induction false} OneAfterOther(s: Screen, a: seq<Event>, m: Screen, b: seq<Event>, n: Screen) returns (events: seq<Event>)
    requires s.model.Valid() && AllPossible(a) && NoDraw(a) && m == Show(s, a)
    requires AllPossible(b) && NoDraw(b) && n == Show(m, b)
    ensures AllPossible(events) && NoDraw(events) && n == Show(s, events)
  {
    ShowConcat(s, a, b);
    BothParts(a, b);
    events := a + b;
  }

  lemma {:induction false} BothArrive(s: Screen, id: nat, out: seq<Byte>, inn: seq<Byte>) returns (events: seq<Event>, n: Screen)
    requires s.model.Valid() && id < U64 && s.Payload(id, false) == [] && s.Payload(id, true) == [] && |out| + |inn| <= s.payloadCap
    ensures AllPossible(events) && NoDraw(events) && n == Show(s, events) && n == s.(model := n.model)
    ensures (out != [] || inn != [] ==> id in n.model.index) && n.Payload(id, false) == out && n.Payload(id, true) == inn
  {
    var first, m := BytesArrive(s, id, false, out);
    var second: seq<Event>;
    second, n := BytesArrive(m, id, true, inn);
    events := OneAfterOther(s, first, m, second, n);
    assert [] + out == out && [] + inn == inn;
  }

  /** The capture is cleared and the same flow receives other bytes, as many. */
  lemma {:induction false} ReplacementArrives(s: Screen, id: nat) returns (events: seq<Event>, n: Screen)
    requires s.model.Valid() && id < U64 && (s.Payload(id, false) != [] || s.Payload(id, true) != [])
    ensures AllPossible(events) && NoDraw(events) && n == Show(s, events)
    ensures id in n.model.index && n.cache == s.cache && n.out == s.out && n.inn == s.inn
    ensures n.Payload(id, false) == Others(s.Payload(id, false)) && n.Payload(id, true) == Others(s.Payload(id, true))
  {
    var out, inn := Others(s.Payload(id, false)), Others(s.Payload(id, true));
    var first, m := TwoEvents(s, |out| + |inn|, s.packetCap);
    NothingYet(m, id, false);
    NothingYet(m, id, true);
    var second: seq<Event>;
    second, n := BothArrive(m, id, out, inn);
    events := OneAfterOther(s, first, m, second, n);
  }

  /** Right after a draw of a known flow. */
  ghost predicate JustDrawn(s: Screen, id: nat) {
    && s.model.Valid() && id in s.model.index && Filled(s) && Current(s, id) && !s.cleared
    && Hit(s.cache, id, |s.Payload(id, false)|, |s.Payload(id, true)|)
  }

  /** The next draw of the flow shows what it then holds. */
  ghost predicate NextIsCurrent(s: Screen, more: seq<Event>, id: nat)
    requires s.model.Valid() && AllPossible(more)
  {
    var n := Drawn(Show(s, more), id);
    id in n.model.index ==> Current(n, id)
  }

  lemma {:induction false} QuietKeepsCache(s: Screen, more: seq<Event>)
    requires s.model.Valid() && AllPossible(more) && NoDraw(more)
    ensures var n := Show(s, more); n.cache == s.cache && n.out == s.out && n.inn == s.inn && (NoClear(more) ==> n.cleared == s.cleared)
  {
    if more != [] {
      LastEvent(more);
      QuietKeepsCache(s, more[..|more| - 1]);
    }
  }

  lemma {:induction false} FreshWithoutClear(s: Screen, more: seq<Event>, id: nat)
    requires JustDrawn(s, id) && AllPossible(more) && NoDraw(more) && NoClear(more)
    ensures NextIsCurrent(s, more, id)
  {
    QuietKeepsCache(s, more);
    PayloadGrows(s, more, id, false);
    PayloadGrows(s, more, id, true);
  }

  lemma {:induction false} NothingToMistake(s: Screen, more: seq<Event>, id: nat)
    requires JustDrawn(s, id) && AllPossible(more) && NoDraw(more) && s.Payload(id, false) == [] && s.Payload(id, true) == []
    ensures NextIsCurrent(s, more, id)
  {
    QuietKeepsCache(s, more);
  }

  lemma {:induction false} StaleAfterReplacement(s: Screen, id: nat) returns (more: seq<Event>)
    requires JustDrawn(s, id) && id < U64 && (s.Payload(id, false) != [] || s.Payload(id, true) != [])
    ensures AllPossible(more) && NoDraw(more) && !NextIsCurrent(s, more, id)
  {
    var n: Screen;
    more, n := ReplacementArrives(s, id);
  }

  /** Exactly when an equal key means equal bytes. After a draw of a flow, every next draw
      of it shows what it then holds, for all that may happen in between, if and only if
      the capture cannot be cleared in between or the flow had no payload yet. */
  lemma {:induction false} CacheFreshIff(s: Screen, id: nat, mayClear: bool)
    requires JustDrawn(s, id) && id < U64
    ensures (forall more :: AllPossible(more) && NoDraw(more) && (NoClear(more) || mayClear) ==> NextIsCurrent(s, more, id))
      <==> !mayClear || (s.Payload(id, false) == [] && s.Payload(id, true) == [])
  {
    if !mayClear {
      forall more | AllPossible(more) && NoDraw(more) && NoClear(more) ensures NextIsCurrent(s, more, id) {
        FreshWithoutClear(s, more, id);
      }
    } else if s.Payload(id, false) == [] && s.Payload(id, true) == [] {
      forall more | AllPossible(more) && NoDraw(more) ensures NextIsCurrent(s, more, id) {
        NothingToMistake(s, more, id);
      }
    } else {
      var more := StaleAfterReplacement(s, id);
    }
  }

  /** A flow that holds `a`, drawn, cleared, and then given `b` of the same size: the
      messages of `a` stay on the screen. */
  lemma {:induction false} StaleShown(id: nat, dir: bool, a: seq<Byte>, b: seq<Byte>, payloadCap: nat, packetCap: nat) returns (n: Screen)
    requires id < U64 && 0 < |a| == |b| < U32 && |a| <= payloadCap
    ensures var events := [Deliver(DataRecord(id, dir, a)), Draw(id), Clear, Deliver(DataRecord(id, dir, b)), Draw(id)];
      AllPossible(events) && n == Show(Start(payloadCap, packetCap), events)
    ensures id in n.model.index && n.Payload(id, dir) == b && (if dir then n.inn else n.out) == a
    ensures (if dir then n.cache.responses else n.cache.requests) == Messages(a, dir)
  {
    var s := Start(payloadCap, packetCap);
    var s1 := DeliverData(s, id, dir, a);
    var s2 := Drawn(s1, id);
    var s3 := After(s2, Clear);
    n := DeliverData(s3, id, dir, b);
    assert [] + a == a && [] + b == b;
    FiveEvents(s, Deliver(DataRecord(id, dir, a)), id, Deliver(DataRecord(id, dir, b)));
  }

  lemma {:induction false} FiveEvents(s: Screen, a: Event, id: nat, b: Event)
    requires s.model.Valid() && Possible(a) && Possible(b)
    ensures AllPossible([a, Draw(id), Clear, b, Draw(id)])
    ensures After(s, a).model.Valid()
    ensures Show(s, [a, Draw(id), Clear, b, Draw(id)]) == Drawn(After(After(Drawn(After(s, a), id), Clear), b), id)
  {
    assert Show(s, []) == s;
    var e1, m1 := OneMore(s, [], s, a);
    var e2, m2 := OneMore(s, e1, m1, Draw(id));
    var e3, m3 := OneMore(s, e2, m2, Clear);
    var e4, m4 := OneMore(s, e3, m3, b);
    var e5, m5 := OneMore(s, e4, m4, Draw(id));
    assert e5 == [a, Draw(id), Clear, b, Draw(id)];
  }

  lemma {:induction false} OneMore(s: Screen, events: seq<Event>, m: Screen, e: Event) returns (more: seq<Event>, n: Screen)
    requires s.model.Valid() && AllPossible(events) && Possible(e) && m == Show(s, events)
    ensures more == events + [e] && AllPossible(more) && n == Show(s, more) && n == After(m, e) && n.model.Valid()
  {
    ShowMore(s, events, e);
    more, n := events + [e], Show(s, events + [e]);
  }

  /** Flow 7 receives 4 bytes and is drawn; after a clear it receives 4 others, and the
      parse of the first 4 is still taken for theirs. */
  lemma {:induction false} StaleOnFlowSeven() returns (a: seq<Byte>, b: seq<Byte>, n: Screen)
    ensures a == [1, 2, 3, 4] && b == [5, 6, 7, 8]
    ensures var events := [Deliver(DataRecord(7, true, a)), Draw(7), Clear, Deliver(DataRecord(7, true, b)), Draw(7)];
      AllPossible(events) && n == Show(Start(0x40_0000, 50000), events)
    ensures n.Payload(7, true) == b && n.inn == a && n.cache.responses == Messages(a, true)
  {
    a, b := [1, 2, 3, 4], [5, 6, 7, 8];
    n := StaleShown(7, true, a, b, 0x40_0000, 50000);
  }
}
