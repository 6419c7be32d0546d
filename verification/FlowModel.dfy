/** app/src/app_model.cpp: the model the application builds from delivered records. */
module FlowModel {
  import opened Bytes
  import opened RingProtocol

  const DIR_INBOUND: int := 1
  const CONN_SIZE: int := 600  // sizeof(KND_CONN_PAYLOAD)
  const DATA_SIZE: int := 16   // sizeof(KND_DATA_PAYLOAD)
  const PREVIEW: int := 64

  // ---- payload layouts (common/knd_protocol.h) ---------------------------------------

  function FlowIdOf(body: seq<Byte>): nat
    requires |body| >= 8
  {
    ReadLE(body, 0, 8)
  }

  function DirectionOf(body: seq<Byte>): nat
    requires |body| >= DATA_SIZE
  {
    body[8]
  }

  function DataLengthOf(body: seq<Byte>): nat
    requires |body| >= DATA_SIZE
  {
    ReadLE(body, 12, 4)
  }

  /** The raw bytes of a DATA record. */
  function DataOf(body: seq<Byte>): seq<Byte>
    requires |body| >= DATA_SIZE && DATA_SIZE + DataLengthOf(body) <= |body|
  {
    body[DATA_SIZE..DATA_SIZE + DataLengthOf(body)]
  }

  /** What ingest relies on when it casts the body. */
  predicate Castable(rec: Record) {
    && (rec.kind == REC_CONN_OPEN || rec.kind == REC_CONN_CLOSE ==> |rec.body| >= CONN_SIZE)
    && (rec.kind == REC_DATA ==> |rec.body| >= DATA_SIZE && DATA_SIZE + DataLengthOf(rec.body) <= |rec.body|)
  }

  predicate Logged(rec: Record) {
    rec.kind == REC_CONN_OPEN || rec.kind == REC_CONN_CLOSE || rec.kind == REC_DATA
  }

  // ---- entities ------------------------------------------------------------------------

  /** Connection facts copied from a CONN_OPEN payload. */
  datatype Conn = Conn(processId: nat, protocol: Byte, ipVersion: Byte, direction: Byte, localPort: nat, remotePort: nat,
                       localAddr: seq<Byte>, remoteAddr: seq<Byte>)

  /** What is captured in one direction. */
  datatype Side = Side(payload: seq<Byte>, truncated: bool)

  datatype Flow = Flow(flowId: nat, conn: Conn, firstTs: nat, lastTs: nat, bytesOut: nat, bytesIn: nat, records: nat,
                       closed: bool, outbound: Side, inbound: Side) {
    function Get(dir: bool): Side { if dir then inbound else outbound }
    function Set(dir: bool, s: Side): Flow { if dir then this.(inbound := s) else this.(outbound := s) }
  }

  datatype Stats = Stats(totalRecords: nat, connOpens: nat, connCloses: nat, dataRecords: nat, payloadBytes: nat,
                         outBytes: nat, inBytes: nat, sizeHist: seq<nat>)

  datatype Packet = Packet(no: nat, ts: nat, flowId: nat, kind: nat, direction: nat, length: nat, preview: seq<Byte>)

  const NO_CONN: Conn := Conn(0, 0, 0, 0, 0, 0, Zeros(16), Zeros(16))

  function NewFlow(id: nat): Flow {
    Flow(id, NO_CONN, 0, 0, 0, 0, 0, false, Side([], false), Side([], false))
  }

  function ConnOf(body: seq<Byte>): Conn
    requires |body| >= CONN_SIZE
  {
    Conn(ReadLE(body, 8, 8), body[16], body[17], body[18], ReadLE(body, 20, 2), ReadLE(body, 22, 2),
         body[24..40], body[40..56])
  }

  // ---- the effect of one record ------------------------------------------------------------

  /** Appending to a capped buffer. */
  function Append(s: Side, data: seq<Byte>, cap: nat): Side {
    if |s.payload| < cap then
      var take := Min(|data|, cap - |s.payload|);
      Side(s.payload + data[..take], s.truncated || take < |data|)
    else s.(truncated := true)
  }

  /** The histogram bucket of a data length. */
  function Bucket(len: nat): (b: nat)
    ensures b < 6
  {
    if len < 128 then 0 else if len < 512 then 1 else if len < 1500 then 2
    else if len < 4096 then 3 else if len < 16384 then 4 else 5
  }

  /** The flow after a record of its own. */
  function FlowAfter(f: Flow, rec: Record, cap: nat): Flow
    requires Castable(rec) && Logged(rec)
  {
    if rec.kind == REC_CONN_OPEN then
      f.(conn := ConnOf(rec.body), firstTs := if f.firstTs == 0 then rec.timestamp else f.firstTs, lastTs := rec.timestamp)
    else if rec.kind == REC_CONN_CLOSE then
      f.(closed := true, bytesIn := ReadLE(rec.body, 56, 8), bytesOut := ReadLE(rec.body, 64, 8), lastTs := rec.timestamp)
    else
      var dir, data := DirectionOf(rec.body) == DIR_INBOUND, DataOf(rec.body);
      var g := if dir then f.(bytesIn := f.bytesIn + |data|) else f.(bytesOut := f.bytesOut + |data|);
      g.(records := f.records + 1, lastTs := rec.timestamp).Set(dir, Append(f.Get(dir), data, cap))
  }

  function StatsAfter(s: Stats, rec: Record): Stats
    requires Castable(rec) && |s.sizeHist| == 6
  {
    var t := s.(totalRecords := s.totalRecords + 1);
    if rec.kind == REC_CONN_OPEN then t.(connOpens := s.connOpens + 1)
    else if rec.kind == REC_CONN_CLOSE then t.(connCloses := s.connCloses + 1)
    else if rec.kind == REC_DATA then
      var n, b := DataLengthOf(rec.body), Bucket(DataLengthOf(rec.body));
      var u := if DirectionOf(rec.body) == DIR_INBOUND then t.(inBytes := s.inBytes + n) else t.(outBytes := s.outBytes + n);
      u.(sizeHist := s.sizeHist[b := s.sizeHist[b] + 1], dataRecords := s.dataRecords + 1, payloadBytes := s.payloadBytes + n)
    else t
  }

  /** The log entry of a record; a CONN_OPEN is logged with the direction it has just set. */
  function PacketOf(rec: Record, no: nat): Packet
    requires Castable(rec) && Logged(rec)
  {
    if rec.kind == REC_DATA then
      Packet(no, rec.timestamp, FlowIdOf(rec.body), rec.kind, DirectionOf(rec.body), DataLengthOf(rec.body),
             Take(DataOf(rec.body), PREVIEW))
    else
      Packet(no, rec.timestamp, FlowIdOf(rec.body), rec.kind,
             if rec.kind == REC_CONN_OPEN then rec.body[18] else 0, 0, [])
  }

  /** The last `n` elements, or all of them. */
  function Last<T>(s: seq<T>, n: nat): seq<T> {
    if |s| <= n then s else s[|s| - n..]
  }

  ghost predicate FlowFor(flows: seq<Flow>, index: map<nat, nat>, id: nat) {
    id in index && index[id] < |flows| && flows[index[id]].flowId == id
  }

  ghost predicate IndexOf(flows: seq<Flow>, index: map<nat, nat>, k: nat) {
    k < |flows| && flows[k].flowId in index && index[flows[k].flowId] == k
  }

  datatype Model = Model(flows: seq<Flow>, index: map<nat, nat>, stats: Stats, packets: seq<Packet>, packetNo: nat) {
    /** index_ is a bijection from the flow ids present onto positions of flows_. */
    ghost predicate Indexed() {
      && (forall id {:trigger FlowFor(flows, index, id)} :: id in index ==> FlowFor(flows, index, id))
      && (forall k {:trigger IndexOf(flows, index, k)} :: 0 <= k < |flows| ==> IndexOf(flows, index, k))
    }

    ghost predicate Valid() {
      Indexed() && |stats.sizeHist| == 6
    }
  }

  const EMPTY: Model := Model([], map[], Stats(0, 0, 0, 0, 0, 0, 0, [0, 0, 0, 0, 0, 0]), [], 0)

  /** getOrCreate. */
  function Ensure(m: Model, id: nat): Model {
    if id in m.index then m
    else m.(flows := m.flows + [NewFlow(id)], index := m.index[id := |m.flows|])
  }

  lemma {:induction false} EnsureKeepsIndex(m: Model, id: nat)
    requires m.Indexed()
    ensures var e := Ensure(m, id); e.Indexed() && FlowFor(e.flows, e.index, id)
  {
    var e := Ensure(m, id);
    forall i | i in e.index ensures FlowFor(e.flows, e.index, i) {
      if i in m.index { assert FlowFor(m.flows, m.index, i); }
    }
    forall k | 0 <= k < |e.flows| ensures IndexOf(e.flows, e.index, k) {
      if k < |m.flows| { assert IndexOf(m.flows, m.index, k); }
    }
    assert FlowFor(e.flows, e.index, id);
  }

  /** Replacing a flow by one of the same id keeps the index right. */
  lemma {:induction false} ReplaceKeepsIndex(m: Model, k: nat, f: Flow)
    requires m.Indexed() && k < |m.flows| && f.flowId == m.flows[k].flowId
    ensures m.(flows := m.flows[k := f]).Indexed()
  {
    var n := m.(flows := m.flows[k := f]);
    forall i | i in n.index ensures FlowFor(n.flows, n.index, i) {
      assert FlowFor(m.flows, m.index, i);
    }
    forall j | 0 <= j < |n.flows| ensures IndexOf(n.flows, n.index, j) {
      assert IndexOf(m.flows, m.index, j);
    }
  }

  /** The packet log after one more entry. */
  function Pushed(log: seq<Packet>, p: Packet, cap: nat): seq<Packet> {
    var longer := log + [p];
    if |longer| > cap then longer[1..] else longer
  }

  /** The effect of ingest. */
  function Ingest(m: Model, rec: Record, payloadCap: nat, packetCap: nat): Model
    requires m.Valid() && Castable(rec)
  {
    if Logged(rec) then
      var id := FlowIdOf(rec.body);
      EnsureKeepsIndex(m, id);
      var e := Ensure(m, id);
      var k := e.index[id];
      Model(e.flows[k := FlowAfter(e.flows[k], rec, payloadCap)], e.index, StatsAfter(m.stats, rec),
            Pushed(m.packets, PacketOf(rec, m.packetNo + 1), packetCap), m.packetNo + 1)
    else m.(stats := StatsAfter(m.stats, rec))
  }

  lemma {:induction false} IngestKeepsValid(m: Model, rec: Record, payloadCap: nat, packetCap: nat)
    requires m.Valid() && Castable(rec)
    ensures Ingest(m, rec, payloadCap, packetCap).Valid()
  {
    if Logged(rec) {
      var id := FlowIdOf(rec.body);
      EnsureKeepsIndex(m, id);
      var e := Ensure(m, id);
      ReplaceKeepsIndex(e, e.index[id], FlowAfter(e.flows[e.index[id]], rec, payloadCap));
    }
  }

  // ---- the code ---------------------------------------------------------------------------

  class KndModel {
    var flows: seq<Flow>
    var index: map<nat, nat>
    var stats: Stats
    var packets: seq<Packet>
    var packetNo: nat
    var payloadCap: nat
    var packetCap: nat

    ghost function View(): Model
      reads this
    {
      Model(flows, index, stats, packets, packetNo)
    }

    constructor ()
      ensures View() == EMPTY && View().Valid()
    {
      flows, index, packets, packetNo := [], map[], [], 0;
      stats := Stats(0, 0, 0, 0, 0, 0, 0, [0, 0, 0, 0, 0, 0]);
      payloadCap, packetCap := 4 * 1024 * 1024, 50000;
    }

    method Clear()
      modifies this
      ensures View() == EMPTY && View().Valid() && payloadCap == old(payloadCap) && packetCap == old(packetCap)
    {
      flows, index, packets, packetNo := [], map[], [], 0;
      stats := Stats(0, 0, 0, 0, 0, 0, 0, [0, 0, 0, 0, 0, 0]);
    }

    /** find: the flow's position, if it is known. */
    method Find(id: nat) returns (k: Option<nat>)
      requires View().Valid()
      ensures k.Some? ==> k.value < |flows| && flows[k.value].flowId == id
      ensures k.None? ==> forall j :: 0 <= j < |flows| ==> flows[j].flowId != id
    {
      k := if id in index then Some(index[id]) else None;
      assert k.Some? ==> FlowFor(flows, index, id);
      forall j | k.None? && 0 <= j < |flows| ensures flows[j].flowId != id {
        assert IndexOf(flows, index, j);
      }
    }

    method GetOrCreate(id: nat) returns (k: nat)
      requires View().Valid()
      modifies `flows, `index
      ensures View() == Ensure(old(View()), id) && View().Valid() && id in index && k == index[id] < |flows|
    {
      EnsureKeepsIndex(View(), id);
      if id in index {
        return index[id];
      }
      flows := flows + [NewFlow(id)];
      index := index[id := |flows| - 1];
      k := |flows| - 1;
    }

    method PushPacket(rec: Record, flowId: nat, dir: nat, len: nat, data: seq<Byte>)
      requires Logged(rec) && len == |data|
      modifies `packets, `packetNo
      ensures packetNo == old(packetNo) + 1
      ensures packets == Pushed(old(packets), Packet(packetNo, rec.timestamp, flowId, rec.kind, dir, len,
                                                    if rec.kind == REC_DATA then Take(data, PREVIEW) else []), packetCap)
    {
      packetNo := packetNo + 1;
      var preview := [];
      if rec.kind != REC_CONN_OPEN && rec.kind != REC_CONN_CLOSE {
        var pv := if len < PREVIEW then len else PREVIEW;
        preview := data[..pv];
        assert preview == Take(data, PREVIEW);
      }
      packets := packets + [Packet(packetNo, rec.timestamp, flowId, rec.kind, dir, len, preview)];
      if |packets| > packetCap {
        packets := packets[1..];
      }
    }

    /** The DATA case of ingest on one flow. */
    method IngestData(f: Flow, rec: Record) returns (g: Flow)
      requires Castable(rec) && rec.kind == REC_DATA
      ensures g == FlowAfter(f, rec, payloadCap)
    {
      var data, n := DataOf(rec.body), DataLengthOf(rec.body);
      var dir := DirectionOf(rec.body) == DIR_INBOUND;
      g := f;
      if dir {
        g := g.(bytesIn := g.bytesIn + n);
      } else {
        g := g.(bytesOut := g.bytesOut + n);
      }
      g := g.(records := g.records + 1, lastTs := rec.timestamp);
      var side := g.Get(dir);
      if |side.payload| < payloadCap {
        var room := payloadCap - |side.payload|;
        var take := if n < room then n else room;
        side := side.(payload := side.payload + data[..take]);
        if take < n {
          side := side.(truncated := true);
        }
      } else {
        side := side.(truncated := true);
      }
      g := g.Set(dir, side);
    }

    /** `m` with the record counted, as ingest has it when it looks at the type. */
    ghost predicate Counted(m: Model)
      reads this
    {
      m.Valid() && View() == m.(stats := m.stats.(totalRecords := m.stats.totalRecords + 1))
    }

    method OnOpen(rec: Record, ghost m: Model)
      requires Counted(m) && Castable(rec) && rec.kind == REC_CONN_OPEN
      modifies `flows, `index, `stats, `packets, `packetNo
      ensures View() == Ingest(m, rec, payloadCap, packetCap)
    {
      EnsureKeepsIndex(m, FlowIdOf(rec.body));
      var k := GetOrCreate(FlowIdOf(rec.body));
      var f := flows[k].(conn := ConnOf(rec.body));
      if f.firstTs == 0 {
        f := f.(firstTs := rec.timestamp);
      }
      flows := flows[k := f.(lastTs := rec.timestamp)];
      PushPacket(rec, FlowIdOf(rec.body), f.conn.direction, 0, []);
      stats := stats.(connOpens := stats.connOpens + 1);
    }

    method OnClose(rec: Record, ghost m: Model)
      requires Counted(m) && Castable(rec) && rec.kind == REC_CONN_CLOSE
      modifies `flows, `index, `stats, `packets, `packetNo
      ensures View() == Ingest(m, rec, payloadCap, packetCap)
    {
      EnsureKeepsIndex(m, FlowIdOf(rec.body));
      var k := GetOrCreate(FlowIdOf(rec.body));
      flows := flows[k := flows[k].(closed := true, bytesIn := ReadLE(rec.body, 56, 8), bytesOut := ReadLE(rec.body, 64, 8),
                                    lastTs := rec.timestamp)];
      PushPacket(rec, FlowIdOf(rec.body), 0, 0, []);
      stats := stats.(connCloses := stats.connCloses + 1);
    }

    method OnData(rec: Record, ghost m: Model)
      requires Counted(m) && Castable(rec) && rec.kind == REC_DATA
      modifies `flows, `index, `stats, `packets, `packetNo
      ensures View() == Ingest(m, rec, payloadCap, packetCap)
    {
      EnsureKeepsIndex(m, FlowIdOf(rec.body));
      var k := GetOrCreate(FlowIdOf(rec.body));
      var f := IngestData(flows[k], rec);
      flows := flows[k := f];
      PushPacket(rec, FlowIdOf(rec.body), DirectionOf(rec.body), DataLengthOf(rec.body), DataOf(rec.body));
      CountData(rec, m.stats);
    }

    /** The statistics of a DATA record. */
    method CountData(rec: Record, ghost s: Stats)
      requires Castable(rec) && rec.kind == REC_DATA && |s.sizeHist| == 6
      requires stats == s.(totalRecords := s.totalRecords + 1)
      modifies `stats
      ensures stats == StatsAfter(s, rec)
    {
      var n := DataLengthOf(rec.body);
      if DirectionOf(rec.body) == DIR_INBOUND {
        stats := stats.(inBytes := stats.inBytes + n);
      } else {
        stats := stats.(outBytes := stats.outBytes + n);
      }
      stats := stats.(sizeHist := stats.sizeHist[Bucket(n) := stats.sizeHist[Bucket(n)] + 1]);
      stats := stats.(dataRecords := stats.dataRecords + 1, payloadBytes := stats.payloadBytes + n);
    }

    /** ingest. */
    method IngestRecord(rec: Record)
      requires View().Valid() && Castable(rec)
      modifies `flows, `index, `stats, `packets, `packetNo
      ensures View() == Ingest(old(View()), rec, payloadCap, packetCap) && View().Valid()
    {
      ghost var m := View();
      IngestKeepsValid(m, rec, payloadCap, packetCap);
      stats := stats.(totalRecords := stats.totalRecords + 1);
      if rec.kind == REC_CONN_OPEN {
        OnOpen(rec, m);
      } else if rec.kind == REC_CONN_CLOSE {
        OnClose(rec, m);
      } else if rec.kind == REC_DATA {
        OnData(rec, m);
      }
    }
  }

  // ---- what a whole run amounts to ------------------------------------------------------------

  ghost predicate AllCastable(recs: seq<Record>) {
    forall i :: 0 <= i < |recs| ==> Castable(recs[i])
  }

  /** Records ingested in order into a cleared model. */
  ghost function IngestAll(recs: seq<Record>, payloadCap: nat, packetCap: nat): (m: Model)
    requires AllCastable(recs)
    ensures m.Valid()
  {
    if recs == [] then EMPTY
    else
      var m := IngestAll(recs[..|recs| - 1], payloadCap, packetCap);
      IngestKeepsValid(m, recs[|recs| - 1], payloadCap, packetCap);
      Ingest(m, recs[|recs| - 1], payloadCap, packetCap)
  }

  /** A DATA record of a flow and direction. */
  predicate IsData(rec: Record, id: nat, dir: bool)
    requires Castable(rec)
  {
    rec.kind == REC_DATA && FlowIdOf(rec.body) == id && (DirectionOf(rec.body) == DIR_INBOUND) == dir
  }

  function DataIf(rec: Record, id: nat, dir: bool): seq<Byte>
    requires Castable(rec)
  {
    if IsData(rec, id, dir) then DataOf(rec.body) else []
  }

  /** All the data of a flow in one direction, in order. */
  ghost function StreamOf(recs: seq<Record>, id: nat, dir: bool): seq<Byte>
    requires AllCastable(recs)
  {
    if recs == [] then []
    else StreamOf(recs[..|recs| - 1], id, dir) + DataIf(recs[|recs| - 1], id, dir)
  }

  /** What the model holds for a flow and direction; nothing for an unknown flow. */
  function Captured(m: Model, id: nat, dir: bool): Side {
    if id in m.index && m.index[id] < |m.flows| then m.flows[m.index[id]].Get(dir) else Side([], false)
  }

  lemma {:induction false} IngestCaptures(m: Model, rec: Record, payloadCap: nat, packetCap: nat, id: nat, dir: bool)
    requires m.Valid() && Castable(rec)
    ensures Captured(Ingest(m, rec, payloadCap, packetCap), id, dir) ==
      if IsData(rec, id, dir) then Append(Captured(m, id, dir), DataOf(rec.body), payloadCap) else Captured(m, id, dir)
  {
    if Logged(rec) {
      var own := FlowIdOf(rec.body);
      EnsureKeepsIndex(m, own);
      var e := Ensure(m, own);
      if id in e.index { assert FlowFor(e.flows, e.index, id); }
      if id in m.index { assert FlowFor(m.flows, m.index, id); }
    }
  }

  lemma {:induction false} AppendTakes(s: Side, all: seq<Byte>, data: seq<Byte>, cap: nat)
    requires s.payload == Take(all, cap)
    ensures Append(s, data, cap).payload == Take(all + data, cap)
  {
    if |all| < cap {
      assert Take(all + data, cap) == all + data[..Min(|data|, cap - |all|)];
    } else {
      assert Take(all + data, cap) == Take(all, cap);
    }
  }

  /** Captured payload is exactly the capped prefix of the flow's data. */
  lemma {:induction false} PayloadIsPrefix(recs: seq<Record>, payloadCap: nat, packetCap: nat, id: nat, dir: bool)
    requires AllCastable(recs)
    ensures Captured(IngestAll(recs, payloadCap, packetCap), id, dir).payload == Take(StreamOf(recs, id, dir), payloadCap)
  {
    if recs != [] {
      var front, rec := recs[..|recs| - 1], recs[|recs| - 1];
      PayloadIsPrefix(front, payloadCap, packetCap, id, dir);
      var m := IngestAll(front, payloadCap, packetCap);
      IngestCaptures(m, rec, payloadCap, packetCap, id, dir);
      AppendTakes(Captured(m, id, dir), StreamOf(front, id, dir), DataIf(rec, id, dir), payloadCap);
      assert StreamOf(front, id, dir) + [] == StreamOf(front, id, dir);
    }
  }

  /** A record that finds the buffer of its flow and direction already full. */
  ghost predicate FindsFull(recs: seq<Record>, id: nat, dir: bool, cap: nat, i: nat)
    requires AllCastable(recs) && i < |recs|
  {
    IsData(recs[i], id, dir) && |StreamOf(recs[..i], id, dir)| >= cap
  }

  lemma {:induction false} FindsFullFront(recs: seq<Record>, id: nat, dir: bool, cap: nat, i: nat)
    requires AllCastable(recs) && i < |recs| - 1
    ensures FindsFull(recs[..|recs| - 1], id, dir, cap, i) <==> FindsFull(recs, id, dir, cap, i)
  {
    assert recs[..|recs| - 1][..i] == recs[..i];
  }

  ghost predicate MetFull(recs: seq<Record>, id: nat, dir: bool, cap: nat)
    requires AllCastable(recs)
  {
    exists i :: 0 <= i < |recs| && FindsFull(recs, id, dir, cap, i)
  }

  lemma {:induction false} MetFullStep(recs: seq<Record>, id: nat, dir: bool, cap: nat)
    requires AllCastable(recs) && recs != []
    ensures var n := |recs| - 1;
      MetFull(recs, id, dir, cap) <==>
        MetFull(recs[..n], id, dir, cap) || (IsData(recs[n], id, dir) && |StreamOf(recs[..n], id, dir)| >= cap)
  {
    var n := |recs| - 1;
    assert FindsFull(recs, id, dir, cap, n) <==> IsData(recs[n], id, dir) && |StreamOf(recs[..n], id, dir)| >= cap;
    forall i | 0 <= i < n ensures FindsFull(recs[..n], id, dir, cap, i) <==> FindsFull(recs, id, dir, cap, i) {
      FindsFullFront(recs, id, dir, cap, i);
    }
  }

  /** The truncation flag is set exactly when bytes were lost or some DATA record,
      possibly an empty one, met a full buffer. */
  lemma {:induction false} TruncatedIff(recs: seq<Record>, payloadCap: nat, packetCap: nat, id: nat, dir: bool)
    requires AllCastable(recs)
    ensures Captured(IngestAll(recs, payloadCap, packetCap), id, dir).truncated <==>
      |StreamOf(recs, id, dir)| > payloadCap || MetFull(recs, id, dir, payloadCap)
  {
    if recs != [] {
      var n := |recs| - 1;
      TruncatedIff(recs[..n], payloadCap, packetCap, id, dir);
      PayloadIsPrefix(recs[..n], payloadCap, packetCap, id, dir);
      IngestCaptures(IngestAll(recs[..n], payloadCap, packetCap), recs[n], payloadCap, packetCap, id, dir);
      MetFullStep(recs, id, dir, payloadCap);
    }
  }

  lemma {:induction false} StreamGrows(recs: seq<Record>, id: nat, dir: bool, i: nat)
    requires AllCastable(recs) && i < |recs|
    ensures |StreamOf(recs, id, dir)| >= |StreamOf(recs[..i], id, dir)| + |DataIf(recs[i], id, dir)|
  {
    var n := |recs| - 1;
    if i < n {
      StreamGrows(recs[..n], id, dir, i);
      assert recs[..n][..i] == recs[..i];
    }
  }

  /** So for records that carry data, as the driver's always do, it tells exactly
      whether bytes were lost. */
  lemma {:induction false} TruncatedIffLost(recs: seq<Record>, payloadCap: nat, packetCap: nat, id: nat, dir: bool)
    requires AllCastable(recs)
    requires forall i :: 0 <= i < |recs| && IsData(recs[i], id, dir) ==> DataOf(recs[i].body) != []
    ensures Captured(IngestAll(recs, payloadCap, packetCap), id, dir).truncated <==> |StreamOf(recs, id, dir)| > payloadCap
  {
    TruncatedIff(recs, payloadCap, packetCap, id, dir);
    if i :| 0 <= i < |recs| && FindsFull(recs, id, dir, payloadCap, i) {
      StreamGrows(recs, id, dir, i);
    }
  }

  /** An empty record that meets a full buffer sets the flag although nothing was lost. */
  lemma {:induction false} EmptyMarksFull(recs: seq<Record>, rec: Record, payloadCap: nat, packetCap: nat, id: nat, dir: bool)
    requires AllCastable(recs) && Castable(rec) && IsData(rec, id, dir) && DataOf(rec.body) == [] && |StreamOf(recs, id, dir)| == payloadCap
    ensures AllCastable(recs + [rec])
    ensures var side := Captured(IngestAll(recs + [rec], payloadCap, packetCap), id, dir);
      side.payload == StreamOf(recs + [rec], id, dir) && side.truncated
  {
    var all := recs + [rec];
    assert all[..|recs|] == recs;
    assert StreamOf(recs, id, dir) + [] == StreamOf(recs, id, dir);
    PayloadIsPrefix(all, payloadCap, packetCap, id, dir);
    TruncatedIff(all, payloadCap, packetCap, id, dir);
    assert FindsFull(all, id, dir, payloadCap, |recs|);
  }

  lemma {:induction false} FullThenEmpty(a: Record, b: Record, data: seq<Byte>, packetCap: nat, id: nat, dir: bool)
    requires Castable(a) && IsData(a, id, dir) && DataOf(a.body) == data && Castable(b) && IsData(b, id, dir) && DataOf(b.body) == []
    ensures AllCastable([a, b]) && StreamOf([a, b], id, dir) == data
    ensures Captured(IngestAll([a, b], |data|, packetCap), id, dir) == Side(data, true)
  {
    var one := [a];
    assert one[..0] == [] && [] + data == data && data + [] == data;
    EmptyMarksFull(one, b, |data|, packetCap, id, dir);
    assert one + [b] == [a, b] && [a, b][..1] == one;
  }

  lemma {:induction false} OneByteRecord() returns (a: Record)
    ensures a == Record(41, REC_DATA, 0, 1, 0, Zeros(12) + [1, 0, 0, 0, 9])
    ensures Castable(a) && IsData(a, 0, false) && DataOf(a.body) == [9]
  {
    a := Record(41, REC_DATA, 0, 1, 0, Zeros(12) + [1, 0, 0, 0, 9]);
    ZerosReadZero(a.body, 13, 3);
    ZerosReadZero(a.body, 0, 8);
  }

  lemma {:induction false} EmptyRecord() returns (b: Record)
    ensures b == Record(40, REC_DATA, 0, 2, 0, Zeros(16)) && Castable(b) && IsData(b, 0, false) && DataOf(b.body) == []
  {
    b := Record(40, REC_DATA, 0, 2, 0, Zeros(16));
    ZerosReadZero(b.body, 12, 4);
    ZerosReadZero(b.body, 0, 8);
  }

  /** One byte fills a buffer of one byte; an empty record then marks it. */
  lemma {:induction false} TruncatedByNothing() returns (a: Record, b: Record)
    ensures a == Record(41, REC_DATA, 0, 1, 0, Zeros(12) + [1, 0, 0, 0, 9]) && b == Record(40, REC_DATA, 0, 2, 0, Zeros(16))
    ensures AllCastable([a, b]) && StreamOf([a, b], 0, false) == [9] && Captured(IngestAll([a, b], 1, 8), 0, false) == Side([9], true)
  {
    a := OneByteRecord();
    b := EmptyRecord();
    FullThenEmpty(a, b, [9], 8, 0, false);
  }

  lemma {:induction false} ZerosReadZero(z: seq<Byte>, off: nat, k: nat)
    requires off + k <= |z| && forall i :: off <= i < off + k ==> z[i] == 0
    ensures ReadLE(z, off, k) == 0
    decreases k
  {
    if k > 0 { ZerosReadZero(z, off + 1, k - 1); }
  }

  // ---- packet log -------------------------------------------------------------------------------

  /** Every log entry there would be without a cap. */
  ghost function FullLog(recs: seq<Record>): seq<Packet>
    requires AllCastable(recs)
  {
    if recs == [] then []
    else
      var log := FullLog(recs[..|recs| - 1]);
      if Logged(recs[|recs| - 1]) then log + [PacketOf(recs[|recs| - 1], |log| + 1)] else log
  }

  lemma {:induction false} PushedLast(log: seq<Packet>, p: Packet, cap: nat)
    ensures Pushed(Last(log, cap), p, cap) == Last(log + [p], cap)
  {
  }

  /** The log holds the last packetCap entries, and numbers them consecutively. */
  lemma {:induction false} LogIsSuffix(recs: seq<Record>, payloadCap: nat, packetCap: nat)
    requires AllCastable(recs)
    ensures var m := IngestAll(recs, payloadCap, packetCap);
      m.packets == Last(FullLog(recs), packetCap) && m.packetNo == |FullLog(recs)|
  {
    if recs != [] {
      var front, rec := recs[..|recs| - 1], recs[|recs| - 1];
      LogIsSuffix(front, payloadCap, packetCap);
      if Logged(rec) { PushedLast(FullLog(front), PacketOf(rec, |FullLog(front)| + 1), packetCap); }
    }
  }

  lemma {:induction false} LogNumbers(recs: seq<Record>, k: nat)
    requires AllCastable(recs) && k < |FullLog(recs)|
    ensures FullLog(recs)[k].no == k + 1
  {
    var front := recs[..|recs| - 1];
    if k < |FullLog(front)| { LogNumbers(front, k); }
  }

  // ---- statistics ---------------------------------------------------------------------------------

  function Sum(s: seq<nat>): nat {
    if s == [] then 0 else Sum(s[..|s| - 1]) + s[|s| - 1]
  }

  lemma {:induction false} SumBump(s: seq<nat>, b: nat)
    requires b < |s|
    ensures Sum(s[b := s[b] + 1]) == Sum(s) + 1
  {
    var t := s[b := s[b] + 1];
    if b == |s| - 1 {
      assert t[..|s| - 1] == s[..|s| - 1];
    } else {
      assert t[..|s| - 1] == s[..|s| - 1][b := s[b] + 1];
      SumBump(s[..|s| - 1], b);
    }
  }

  ghost function DataBytes(recs: seq<Record>, dir: bool): nat
    requires AllCastable(recs)
  {
    if recs == [] then 0
    else
      var rec := recs[|recs| - 1];
      DataBytes(recs[..|recs| - 1], dir)
      + if rec.kind == REC_DATA && (DirectionOf(rec.body) == DIR_INBOUND) == dir then DataLengthOf(rec.body) else 0
  }

  ghost predicate Agrees(s: Stats, recs: seq<Record>)
    requires AllCastable(recs)
  {
    && s.totalRecords == |recs| && s.payloadBytes == s.inBytes + s.outBytes
    && s.inBytes == DataBytes(recs, true) && s.outBytes == DataBytes(recs, false)
    && Sum(s.sizeHist) == s.dataRecords
    && s.connOpens + s.connCloses + s.dataRecords == |FullLog(recs)|
  }

  lemma {:induction false} StatsStep(s: Stats, front: seq<Record>, rec: Record, recs: seq<Record>)
    requires AllCastable(recs) && recs != [] && front == recs[..|recs| - 1] && rec == recs[|recs| - 1]
    requires |s.sizeHist| == 6 && Agrees(s, front)
    ensures Agrees(StatsAfter(s, rec), recs)
  {
    if rec.kind == REC_DATA { SumBump(s.sizeHist, Bucket(DataLengthOf(rec.body))); }
  }

  /** The statistics agree with the history: one count per record, byte totals per
      direction, and a histogram that accounts for every data record. */
  lemma {:induction false} StatsAgree(recs: seq<Record>, payloadCap: nat, packetCap: nat)
    requires AllCastable(recs)
    ensures Agrees(IngestAll(recs, payloadCap, packetCap).stats, recs)
  {
    if recs == [] {
      SumZeros(6);
      assert EMPTY.stats.sizeHist == seq(6, _ => 0);
    } else {
      var front, rec := recs[..|recs| - 1], recs[|recs| - 1];
      StatsAgree(front, payloadCap, packetCap);
      StatsStep(IngestAll(front, payloadCap, packetCap).stats, front, rec, recs);
    }
  }

  lemma {:induction false} SumZeros(n: nat)
    ensures Sum(seq(n, _ => 0)) == 0
  {
    var z: seq<nat> := seq(n, _ => 0);
    if n > 0 {
      SumZeros(n - 1);
      assert z[..n - 1] == seq(n - 1, _ => 0);
    }
  }

  /** A flow is known exactly when some record of a known type names it. */
  lemma {:induction false} FlowsAreNamed(recs: seq<Record>, payloadCap: nat, packetCap: nat, id: nat)
    requires AllCastable(recs)
    ensures id in IngestAll(recs, payloadCap, packetCap).index <==>
      exists i :: 0 <= i < |recs| && Logged(recs[i]) && FlowIdOf(recs[i].body) == id
  {
    if recs != [] {
      var n := |recs| - 1;
      FlowsAreNamed(recs[..n], payloadCap, packetCap, id);
      if i :| 0 <= i < |recs| && Logged(recs[i]) && FlowIdOf(recs[i].body) == id {
        if i < n { assert recs[..n][i] == recs[i]; }
      }
    }
  }
}
