/** What the model of app/src/app_model.cpp says of a flow, in terms of the records that
    have named it: every field, over any history. */
module FlowHistory {
  import opened Bytes
  import opened RingProtocol
  import opened FlowModel

  // ---- records of a flow ------------------------------------------------------------------

  /** A record of a given type that names flow `id`. */
  predicate Is(rec: Record, kind: nat, id: nat) {
    rec.kind == kind && |rec.body| >= 8 && ReadLE(rec.body, 0, 8) == id
  }

  /** A CONN_OPEN (1), CONN_CLOSE (2) or DATA (3) record of flow `id`. */
  predicate Names(rec: Record, id: nat) { Is(rec, 1, id) || Is(rec, 2, id) || Is(rec, 3, id) }

  /** A DATA record in one direction, inbound being 1, and the bytes it carries. */
  lemma {:induction false} DataMeans(rec: Record, id: nat, dir: bool)
    requires Castable(rec)
    ensures IsData(rec, id, dir) <==> Is(rec, 3, id) && (rec.body[8] == 1 <==> dir)
    ensures rec.kind == 3 ==> 16 + ReadLE(rec.body, 12, 4) <= |rec.body| && DataOf(rec.body) == rec.body[16..16 + ReadLE(rec.body, 12, 4)]
  {
  }

  /** A flow as the model has it; one it does not know is new. */
  function FlowIn(m: Model, id: nat): Flow {
    if id in m.index && m.index[id] < |m.flows| then m.flows[m.index[id]] else NewFlow(id)
  }

  lemma {:induction false} IngestFlow(m: Model, rec: Record, payloadCap: nat, packetCap: nat, id: nat)
    requires m.Valid() && Castable(rec)
    ensures FlowIn(Ingest(m, rec, payloadCap, packetCap), id) ==
      if Logged(rec) && FlowIdOf(rec.body) == id then FlowAfter(FlowIn(m, id), rec, payloadCap) else FlowIn(m, id)
  {
    if Logged(rec) {
      var own := FlowIdOf(rec.body);
      EnsureKeepsIndex(m, own);
      var e := Ensure(m, own);
      if id in e.index { assert FlowFor(e.flows, e.index, id); }
      if id in m.index { assert FlowFor(m.flows, m.index, id); }
    }
  }

  /** The flow after a whole history. */
  ghost function FlowOf(recs: seq<Record>, payloadCap: nat, packetCap: nat, id: nat): Flow
    requires AllCastable(recs)
  {
    FlowIn(IngestAll(recs, payloadCap, packetCap), id)
  }

  /** The last record and the flow before it. */
  lemma {:induction false} LastRecord(recs: seq<Record>, payloadCap: nat, packetCap: nat, id: nat) returns (front: seq<Record>, rec: Record, f: Flow, g: Flow)
    requires AllCastable(recs) && recs != []
    ensures front == recs[..|recs| - 1] && rec == recs[|recs| - 1] && AllCastable(front) && Castable(rec)
    ensures f == FlowOf(front, payloadCap, packetCap, id) && g == FlowOf(recs, payloadCap, packetCap, id)
    ensures Names(rec, id) <==> Logged(rec) && FlowIdOf(rec.body) == id
    ensures g == if Names(rec, id) then FlowAfter(f, rec, payloadCap) else f
  {
    front, rec := recs[..|recs| - 1], recs[|recs| - 1];
    f, g := FlowOf(front, payloadCap, packetCap, id), FlowOf(recs, payloadCap, packetCap, id);
    IngestFlow(IngestAll(front, payloadCap, packetCap), rec, payloadCap, packetCap, id);
  }

  lemma {:induction false} NothingBefore(payloadCap: nat, packetCap: nat, id: nat)
    ensures FlowOf([], payloadCap, packetCap, id) ==
      Flow(id, Conn(0, 0, 0, 0, 0, 0, Zeros(16), Zeros(16)), 0, 0, 0, 0, 0, false, Side([], false), Side([], false))
  {
  }

  // ---- counts and flags ------------------------------------------------------------------------

  function CountOf(recs: seq<Record>, kind: nat, id: nat): nat {
    if recs == [] then 0 else CountOf(recs[..|recs| - 1], kind, id) + if Is(recs[|recs| - 1], kind, id) then 1 else 0
  }

  /** `records` counts the flow's DATA records. */
  lemma {:induction false} RecordsCounted(recs: seq<Record>, payloadCap: nat, packetCap: nat, id: nat)
    requires AllCastable(recs)
    ensures FlowOf(recs, payloadCap, packetCap, id).flowId == id
    ensures FlowOf(recs, payloadCap, packetCap, id).records == CountOf(recs, 3, id)
  {
    if recs == [] {
      NothingBefore(payloadCap, packetCap, id);
    } else {
      var front, rec, f, g := LastRecord(recs, payloadCap, packetCap, id);
      RecordsCounted(front, payloadCap, packetCap, id);
    }
  }

  /** A flow is closed exactly if a CONN_CLOSE names it. */
  lemma {:induction false} ClosedIff(recs: seq<Record>, payloadCap: nat, packetCap: nat, id: nat)
    requires AllCastable(recs)
    ensures FlowOf(recs, payloadCap, packetCap, id).closed <==> CountOf(recs, 2, id) > 0
  {
    if recs == [] {
      NothingBefore(payloadCap, packetCap, id);
    } else {
      var front, rec, f, g := LastRecord(recs, payloadCap, packetCap, id);
      ClosedIff(front, payloadCap, packetCap, id);
    }
  }

  // ---- times ---------------------------------------------------------------------------------------

  /** Record `i` is the last that names the flow. */
  ghost predicate LastNaming(recs: seq<Record>, i: nat, id: nat) {
    i < |recs| && Names(recs[i], id) && forall j {:trigger recs[j]} :: i < j < |recs| ==> !Names(recs[j], id)
  }

  /** `lastTs` is the time of the last record of the flow, of any type. */
  lemma {:induction false} LastTime(recs: seq<Record>, payloadCap: nat, packetCap: nat, id: nat, i: nat)
    requires AllCastable(recs) && LastNaming(recs, i, id)
    ensures FlowOf(recs, payloadCap, packetCap, id).lastTs == recs[i].timestamp
  {
    var front, rec, f, g := LastRecord(recs, payloadCap, packetCap, id);
    if i < |recs| - 1 {
      forall j | i < j < |front| ensures !Names(front[j], id) { assert front[j] == recs[j]; }
      LastTime(front, payloadCap, packetCap, id, i);
    }
  }

  /** An opening record that sets `firstTs`. */
  predicate Dates(rec: Record, id: nat) { Is(rec, 1, id) && rec.timestamp != 0 }

  ghost predicate FirstDating(recs: seq<Record>, i: nat, id: nat) {
    i < |recs| && Dates(recs[i], id) && forall j {:trigger recs[j]} :: 0 <= j < i ==> !Dates(recs[j], id)
  }

  lemma {:induction false} NotDated(recs: seq<Record>, payloadCap: nat, packetCap: nat, id: nat)
    requires AllCastable(recs) && forall j {:trigger recs[j]} :: 0 <= j < |recs| ==> !Dates(recs[j], id)
    ensures FlowOf(recs, payloadCap, packetCap, id).firstTs == 0
  {
    if recs == [] {
      NothingBefore(payloadCap, packetCap, id);
    } else {
      var front, rec, f, g := LastRecord(recs, payloadCap, packetCap, id);
      NotDated(front, payloadCap, packetCap, id);
    }
  }

  /** `firstTs` is the time of the first CONN_OPEN of the flow, passing over times of 0. */
  lemma {:induction false} FirstTime(recs: seq<Record>, payloadCap: nat, packetCap: nat, id: nat, i: nat)
    requires AllCastable(recs) && FirstDating(recs, i, id)
    ensures FlowOf(recs, payloadCap, packetCap, id).firstTs == recs[i].timestamp
  {
    var front, rec, f, g := LastRecord(recs, payloadCap, packetCap, id);
    if i < |recs| - 1 {
      assert forall j :: 0 <= j < |front| ==> front[j] == recs[j];
      FirstTime(front, payloadCap, packetCap, id, i);
    } else {
      NotDated(front, payloadCap, packetCap, id);
    }
  }

  // ---- connection facts ------------------------------------------------------------------------------

  /** A CONN_OPEN or CONN_CLOSE payload up to the process path, as KND_CONN_PAYLOAD lays it out. */
  function ConnBytes(id: nat, c: Conn, reserved: Byte, bytesIn: nat, bytesOut: nat): seq<Byte> {
    ToLE(id, 8) + ToLE(c.processId, 8) + [c.protocol, c.ipVersion, c.direction, reserved] + ToLE(c.localPort, 2) + ToLE(c.remotePort, 2)
    + c.localAddr + c.remoteAddr + ToLE(bytesIn, 8) + ToLE(bytesOut, 8)
  }

  predicate ConnFits(c: Conn) {
    c.processId < U64 && c.localPort < U16 && c.remotePort < U16 && |c.localAddr| == |c.remoteAddr| == 16
  }

  lemma {:induction false} ConnSplits(a: seq<Byte>, b: seq<Byte>, four: seq<Byte>, c: seq<Byte>, d: seq<Byte>, e: seq<Byte>, f: seq<Byte>, g: seq<Byte>, h: seq<Byte>, rest: seq<Byte>)
    requires |a| == |b| == |g| == |h| == 8 && |four| == 4 && |c| == |d| == 2 && |e| == |f| == 16
    ensures var s := a + b + four + c + d + e + f + g + h + rest;
      && |s| >= 72 && s[0..8] == a && s[8..16] == b && s[16..20] == four && s[20..22] == c && s[22..24] == d
      && s[24..40] == e && s[40..56] == f && s[56..64] == g && s[64..72] == h
  {
  }

  /** The application reads every field where the driver writes it; the length of the path
      and 260 wide characters of it follow. */
  lemma {:induction false} ConnReads(body: seq<Byte>, id: nat, c: Conn, reserved: Byte, bytesIn: nat, bytesOut: nat, rest: seq<Byte>)
    requires id < U64 && ConnFits(c) && bytesIn < U64 && bytesOut < U64
    requires body == ConnBytes(id, c, reserved, bytesIn, bytesOut) + rest && |rest| == 8 + 2 * 260
    ensures |body| == CONN_SIZE && FlowIdOf(body) == id && ConnOf(body) == c && ReadLE(body, 56, 8) == bytesIn && ReadLE(body, 64, 8) == bytesOut
  {
    var four := [c.protocol, c.ipVersion, c.direction, reserved];
    ConnSplits(ToLE(id, 8), ToLE(c.processId, 8), four, ToLE(c.localPort, 2), ToLE(c.remotePort, 2), c.localAddr, c.remoteAddr,
               ToLE(bytesIn, 8), ToLE(bytesOut, 8), rest);
    Pow256Values();
    LERoundTrip(body, 0, id, 8);
    LERoundTrip(body, 8, c.processId, 8);
    LERoundTrip(body, 20, c.localPort, 2);
    LERoundTrip(body, 22, c.remotePort, 2);
    LERoundTrip(body, 56, bytesIn, 8);
    LERoundTrip(body, 64, bytesOut, 8);
    assert body[16..20][0] == body[16] && body[16..20][1] == body[17] && body[16..20][2] == body[18];
  }

  ghost predicate LastOpening(recs: seq<Record>, i: nat, id: nat) {
    i < |recs| && Is(recs[i], 1, id) && forall j {:trigger recs[j]} :: i < j < |recs| ==> !Is(recs[j], 1, id)
  }

  /** The connection facts are those of the last CONN_OPEN; closing and data leave them. */
  lemma {:induction false} ConnIsLast(recs: seq<Record>, payloadCap: nat, packetCap: nat, id: nat, i: nat)
    requires AllCastable(recs) && LastOpening(recs, i, id)
    ensures FlowOf(recs, payloadCap, packetCap, id).conn == ConnOf(recs[i].body)
  {
    var front, rec, f, g := LastRecord(recs, payloadCap, packetCap, id);
    if i < |recs| - 1 {
      assert forall j :: 0 <= j < |front| ==> front[j] == recs[j];
      ConnIsLast(front, payloadCap, packetCap, id, i);
    }
  }

  // ---- byte counts -------------------------------------------------------------------------------------

  /** The history from `k` on has no CONN_CLOSE of the flow, and there is one right before `k`
      unless that is the start. */
  ghost predicate SinceClose(recs: seq<Record>, k: nat, id: nat) {
    && k <= |recs| && (k > 0 ==> Is(recs[k - 1], 2, id))
    && forall j {:trigger recs[j]} :: k <= j < |recs| ==> !Is(recs[j], 2, id)
  }

  /** The byte counts are the totals the last CONN_CLOSE gave, if there was one, and the
      data since, each direction on its own. */
  lemma {:induction false} BytesCounted(recs: seq<Record>, payloadCap: nat, packetCap: nat, id: nat, k: nat)
    requires AllCastable(recs) && SinceClose(recs, k, id)
    ensures var f := FlowOf(recs, payloadCap, packetCap, id);
      && f.bytesIn == (if k == 0 then 0 else ReadLE(recs[k - 1].body, 56, 8)) + |StreamOf(recs, id, true)| - |StreamOf(recs[..k], id, true)|
      && f.bytesOut == (if k == 0 then 0 else ReadLE(recs[k - 1].body, 64, 8)) + |StreamOf(recs, id, false)| - |StreamOf(recs[..k], id, false)|
  {
    if recs == [] {
      NothingBefore(payloadCap, packetCap, id);
    } else {
      var front, rec, f, g := LastRecord(recs, payloadCap, packetCap, id);
      DataMeans(rec, id, true);
      DataMeans(rec, id, false);
      if k == |recs| {
        assert recs[..k] == recs;
      } else {
        assert front[..k] == recs[..k];
        assert forall j :: 0 <= j < |front| ==> front[j] == recs[j];
        BytesCounted(front, payloadCap, packetCap, id, k);
      }
    }
  }

  /** A flow that was never closed has counted exactly its data. */
  lemma {:induction false} OpenBytes(recs: seq<Record>, payloadCap: nat, packetCap: nat, id: nat)
    requires AllCastable(recs) && forall j {:trigger recs[j]} :: 0 <= j < |recs| ==> !Is(recs[j], 2, id)
    ensures FlowOf(recs, payloadCap, packetCap, id).bytesIn == |StreamOf(recs, id, true)|
    ensures FlowOf(recs, payloadCap, packetCap, id).bytesOut == |StreamOf(recs, id, false)|
  {
    BytesCounted(recs, payloadCap, packetCap, id, 0);
  }

  // ---- statistics ----------------------------------------------------------------------------------------

  function CountKind(recs: seq<Record>, kind: nat): nat {
    if recs == [] then 0 else CountKind(recs[..|recs| - 1], kind) + if recs[|recs| - 1].kind == kind then 1 else 0
  }

  /** A DATA record whose length is at least `lo` and below `hi`, if that is given. */
  predicate Sized(rec: Record, lo: nat, hi: Option<nat>) {
    && rec.kind == 3 && |rec.body| >= 16
    && var n := ReadLE(rec.body, 12, 4); lo <= n && (hi.Some? ==> n < hi.value)
  }

  function CountSized(recs: seq<Record>, lo: nat, hi: Option<nat>): nat {
    if recs == [] then 0 else CountSized(recs[..|recs| - 1], lo, hi) + if Sized(recs[|recs| - 1], lo, hi) then 1 else 0
  }

  function Histogram(recs: seq<Record>): (h: seq<nat>)
    ensures |h| == 6
  {
    [CountSized(recs, 0, Some(128)), CountSized(recs, 128, Some(512)), CountSized(recs, 512, Some(1500)),
     CountSized(recs, 1500, Some(4096)), CountSized(recs, 4096, Some(16384)), CountSized(recs, 16384, None)]
  }

  ghost predicate Counted(s: Stats, recs: seq<Record>) {
    && s.totalRecords == |recs| && s.connOpens == CountKind(recs, 1) && s.connCloses == CountKind(recs, 2)
    && s.dataRecords == CountKind(recs, 3) && s.sizeHist == Histogram(recs)
  }

  lemma {:induction false} CountedStep(s: Stats, front: seq<Record>, rec: Record, recs: seq<Record>)
    requires Castable(rec) && recs != [] && front == recs[..|recs| - 1] && rec == recs[|recs| - 1]
    requires |s.sizeHist| == 6 && Counted(s, front)
    ensures Counted(StatsAfter(s, rec), recs)
  {
  }

  /** Each counter counts the records of its type, each bucket of the histogram those of
      its size. */
  lemma {:induction false} StatsCounted(recs: seq<Record>, payloadCap: nat, packetCap: nat)
    requires AllCastable(recs)
    ensures Counted(IngestAll(recs, payloadCap, packetCap).stats, recs)
  {
    if recs != [] {
      var front, rec := recs[..|recs| - 1], recs[|recs| - 1];
      StatsCounted(front, payloadCap, packetCap);
      CountedStep(IngestAll(front, payloadCap, packetCap).stats, front, rec, recs);
    }
  }

  // ---- the packet log --------------------------------------------------------------------------------------

  /** The log entry of a record: its time, flow and type; for DATA its direction byte, its
      length and the first 64 bytes at most, for CONN_OPEN the direction it states. */
  ghost predicate Logs(p: Packet, rec: Record)
    requires Castable(rec) && 1 <= rec.kind <= 3
  {
    && p.ts == rec.timestamp && p.flowId == ReadLE(rec.body, 0, 8) && p.kind == rec.kind
    && p.direction == (if rec.kind == 3 then rec.body[8] else if rec.kind == 1 then rec.body[18] else 0)
    && (rec.kind == 3 ==> p.length == ReadLE(rec.body, 12, 4) && p.preview == rec.body[16..16 + Min(p.length, 64)])
    && (rec.kind != 3 ==> p.length == 0 && p.preview == [])
  }

  /** The log has one entry for each record of the three types, in order. */
  lemma {:induction false} LogGrows(recs: seq<Record>)
    requires AllCastable(recs) && recs != []
    ensures var front, rec := recs[..|recs| - 1], recs[|recs| - 1];
      && AllCastable(front)
      && if 1 <= rec.kind <= 3 then
           |FullLog(recs)| == |FullLog(front)| + 1 && FullLog(recs)[..|FullLog(front)|] == FullLog(front) && Logs(FullLog(recs)[|FullLog(front)|], rec)
         else FullLog(recs) == FullLog(front)
  {
    var rec := recs[|recs| - 1];
    if rec.kind == 3 {
      DataMeans(rec, 0, true);
      assert Take(DataOf(rec.body), 64) == rec.body[16..16 + Min(ReadLE(rec.body, 12, 4), 64)];
    }
  }
}
