/** From stream indication to captured payload: the driver's chunk loop, the ring, poll
    and ingest joined into one statement about bytes. */
module Pipeline {
  import opened Bytes
  import opened RingProtocol
  import opened RingSystem
  import opened RingFifo
  import opened RingQueue
  import opened RingAccounts
  import opened StreamCapture
  import opened Callouts
  import FlowModel

  // ---- one record -----------------------------------------------------------------------

  lemma {:induction false} BodyStarts(rec: Record, req: Request)
    requires Carries(rec, req)
    ensures |rec.body| >= |req.payload| + |req.data|
    ensures rec.body[..|req.payload|] == req.payload
    ensures rec.body[|req.payload|..|req.payload| + |req.data|] == req.data
  {
  }

  /** A delivered chunk is data of its own flow and direction, and of no other. */
  lemma {:induction false} ChunkDelivered(rec: Record, req: Request, f: nat, d: bool)
    requires Carries(rec, req) && IsChunk(req, f, d, req.data)
    ensures FlowModel.Castable(rec) && rec.kind == REC_DATA && FlowModel.DataOf(rec.body) == req.data
    ensures FlowModel.FlowIdOf(rec.body) == f && (FlowModel.DirectionOf(rec.body) == FlowModel.DIR_INBOUND) == d
  {
    BodyStarts(rec, req);
    HeaderReads(rec.body, f, d, |req.data|);
  }

  lemma {:induction false} DeliveredData(rec: Record, req: Request, id: nat, dir: bool)
    requires Carries(rec, req) && FromDriver(req)
    ensures FlowModel.Castable(rec)
    ensures [FlowModel.DataIf(rec, id, dir)] == ChunkOf(req, id, dir) || (FlowModel.DataIf(rec, id, dir) == [] && ChunkOf(req, id, dir) == [])
    ensures FlowModel.IsData(rec, id, dir) <==> IsChunk(req, id, dir, req.data)
  {
    if req.kind == REC_CONN_OPEN || req.kind == REC_CONN_CLOSE {
    } else {
      var f: nat, d: bool :| IsChunk(req, f, d, req.data);
      ChunkDelivered(rec, req, f, d);
      if IsChunk(req, id, dir, req.data) { ChunkDelivered(rec, req, id, dir); }
    }
  }

  // ---- whole sequences -------------------------------------------------------------------------

  lemma {:induction false} StreamIsRequested(recs: seq<Record>, reqs: seq<Request>, id: nat, dir: bool)
    requires CarriesAll(recs, reqs) && AllFromDriver(reqs)
    ensures FlowModel.AllCastable(recs)
    ensures FlowModel.StreamOf(recs, id, dir) == Concat(ChunkList(reqs, id, dir))
  {
    forall i | 0 <= i < |recs| ensures FlowModel.Castable(recs[i]) { DeliveredData(recs[i], reqs[i], id, dir); }
    if recs != [] {
      var n := |recs| - 1;
      StreamIsRequested(recs[..n], reqs[..n], id, dir);
      DeliveredData(recs[n], reqs[n], id, dir);
      ConcatAppend(ChunkList(reqs[..n], id, dir), ChunkOf(reqs[n], id, dir));
      if ChunkOf(reqs[n], id, dir) != [] { ConcatOne(reqs[n].data); }
    }
  }

  /** What the model captures of a drained run, whether or not the ring dropped
      records: the capped concatenation of the accepted chunks. */
  lemma {:induction false} CapturedIsAccepted(size: nat, actions: seq<Action>, id: nat, dir: bool, payloadCap: nat, packetCap: nat)
    requires SizeAccepted(size) && Honest(actions)
    requires var s := Run(Init(size), actions); AllFromDriver(s.h.accepted) && Frontier(s) == s.ring.writePos
    ensures var s := Run(Init(size), actions);
      && FlowModel.AllCastable(s.h.delivered)
      && var side := FlowModel.Captured(FlowModel.IngestAll(s.h.delivered, payloadCap, packetCap), id, dir);
         var stream := Concat(ChunkList(s.h.accepted, id, dir));
         side.payload == Take(stream, payloadCap) && (side.truncated <==> |stream| > payloadCap)
  {
    var s := Run(Init(size), actions);
    DrainDelivers(size, actions);
    StreamIsRequested(s.h.delivered, s.h.accepted, id, dir);
    FlowModel.PayloadIsPrefix(s.h.delivered, payloadCap, packetCap, id, dir);
    forall i | 0 <= i < |s.h.delivered| && FlowModel.IsData(s.h.delivered[i], id, dir)
      ensures FlowModel.DataOf(s.h.delivered[i].body) != []
    {
      DeliveredData(s.h.delivered[i], s.h.accepted[i], id, dir);
      ChunkDelivered(s.h.delivered[i], s.h.accepted[i], id, dir);
    }
    FlowModel.TruncatedIffLost(s.h.delivered, payloadCap, packetCap, id, dir);
  }

  // ---- losses ------------------------------------------------------------------------------------

  /** No chunk of a stream was dropped. */
  ghost predicate Lossless(size: nat, actions: seq<Action>, id: nat, dir: bool) {
    forall l {:trigger ChunkOf(l.req, id, dir)} :: l in Losses(Init(size), actions) ==> ChunkOf(l.req, id, dir) == []
  }

  lemma {:induction false} KeptByStep(s: State, a: Action, id: nat, dir: bool)
    requires ChunkList(s.h.called, id, dir) == ChunkList(s.h.accepted + InHand(s), id, dir)
    requires forall l :: l in LossOf(s, a) ==> ChunkOf(l.req, id, dir) == []
    ensures var n := Do(s, a); ChunkList(n.h.called, id, dir) == ChunkList(n.h.accepted + InHand(n), id, dir)
  {
    if a.Begin? {
      KeptByBegin(s, a.req, id, dir);
    } else if a.Publish? {
      if s.producer.Advanced? { assert s.h.accepted + [s.producer.req] + [] == s.h.accepted + [s.producer.req]; }
    } else {
      QuietStep(s, a);
    }
  }

  lemma {:induction false} KeptByBegin(s: State, req: Request, id: nat, dir: bool)
    requires ChunkList(s.h.called, id, dir) == ChunkList(s.h.accepted + InHand(s), id, dir)
    requires forall l :: l in LossOf(s, Begin(req)) ==> ChunkOf(l.req, id, dir) == []
    ensures var n := DoBegin(s, req); ChunkList(n.h.called, id, dir) == ChunkList(n.h.accepted + InHand(n), id, dir)
  {
    if s.producer.Idle? && req.Valid() && s.Size() > 0 {
      assert s.h.accepted + [] == s.h.accepted;
      ChunkListMore(s.h.called, req, id, dir);
      match MakePlan(s.Size(), s.ring.producerPos, s.ring.readPos, req.Need())
      case Drop(bytes) => assert Loss(req, bytes) in LossOf(s, Begin(req));
      case Place(_, _) => ChunkListMore(s.h.accepted, req, id, dir);
    }
  }

  /** A stream that lost nothing has all its chunks accepted, in the order of the calls. */
  lemma {:induction false} LosslessKeepsAll(size: nat, actions: seq<Action>, id: nat, dir: bool)
    requires Lossless(size, actions, id, dir)
    ensures var s := Run(Init(size), actions); ChunkList(s.h.called, id, dir) == ChunkList(s.h.accepted + InHand(s), id, dir)
  {
    if actions != [] {
      var front, a := actions[..|actions| - 1], actions[|actions| - 1];
      forall l | l in Losses(Init(size), front) ensures ChunkOf(l.req, id, dir) == [] { assert l in Losses(Init(size), actions); }
      LosslessKeepsAll(size, front, id, dir);
      forall l | l in LossOf(Run(Init(size), front), a) ensures ChunkOf(l.req, id, dir) == [] { assert l in Losses(Init(size), actions); }
      KeptByStep(Run(Init(size), front), a, id, dir);
    }
  }

  lemma {:induction false} AcceptedWereCalled(size: nat, actions: seq<Action>)
    requires AllFromDriver(Run(Init(size), actions).h.called)
    ensures AllFromDriver(Run(Init(size), actions).h.accepted)
  {
    DropAccounting(size, actions);
    var s := Run(Init(size), actions);
    forall i | 0 <= i < |s.h.accepted| ensures FromDriver(s.h.accepted[i]) {
      assert s.h.accepted[i] in multiset(s.h.accepted);
      assert s.h.accepted[i] in multiset(s.h.called);
    }
  }

  // ---- end to end --------------------------------------------------------------------------------

  /** A run that has come to rest: no call under way, and poll has seen everything. */
  ghost predicate Drained(s: State) {
    s.producer.Idle? && Frontier(s) == s.ring.writePos
  }

  /** End to end: take any run of the driver and the application in which the ring's
      calls are made by any number of callouts at once, each running the chunk loop,
      and a flow and direction whose callouts are done and lost no record. After a
      drain the model's payload is exactly the first payloadCap bytes of the concatenation of
      that stream's copied indications, and its truncation flag tells whether there
      were more. */
  lemma {:induction false} EndToEnd(size: nat, actions: seq<Action>, callouts: seq<Callout>, origin: seq<nat>, id: nat, dir: bool,
                                    payloadCap: nat, packetCap: nat)
    requires SizeAccepted(size) && Honest(actions) && Drained(Run(Init(size), actions))
    requires Interleaved(Run(Init(size), actions).h.called, callouts, origin) && Lossless(size, actions, id, dir)
    requires Finished(Run(Init(size), actions).h.called, callouts, origin, id, dir)
    ensures var s, stream := Run(Init(size), actions), Concat(Indicated(callouts, id, dir, |callouts|));
      && FlowModel.AllCastable(s.h.delivered)
      && var side := FlowModel.Captured(FlowModel.IngestAll(s.h.delivered, payloadCap, packetCap), id, dir);
         side.payload == Take(stream, payloadCap) && (side.truncated <==> |stream| > payloadCap)
  {
    var s := Run(Init(size), actions);
    AnyInterleaving(s.h.called, callouts, origin, id, dir);
    CalloutsAreDriver(s.h.called, callouts, origin);
    AcceptedWereCalled(size, actions);
    LosslessKeepsAll(size, actions, id, dir);
    assert s.h.accepted + [] == s.h.accepted;
    CapturedIsAccepted(size, actions, id, dir, payloadCap, packetCap);
    ChunkedAllRejoin(Indicated(callouts, id, dir, |callouts|));
  }

  /** No record of any kind dropped, as the ring's own counter says, is enough. */
  lemma {:induction false} EndToEndNoDrops(size: nat, actions: seq<Action>, callouts: seq<Callout>, origin: seq<nat>, id: nat, dir: bool,
                                           payloadCap: nat, packetCap: nat)
    requires SizeAccepted(size) && Honest(actions) && Drained(Run(Init(size), actions))
    requires Interleaved(Run(Init(size), actions).h.called, callouts, origin) && Run(Init(size), actions).ring.droppedRecords == 0
    requires Finished(Run(Init(size), actions).h.called, callouts, origin, id, dir)
    ensures var s, stream := Run(Init(size), actions), Concat(Indicated(callouts, id, dir, |callouts|));
      && FlowModel.AllCastable(s.h.delivered)
      && FlowModel.Captured(FlowModel.IngestAll(s.h.delivered, payloadCap, packetCap), id, dir).payload == Take(stream, payloadCap)
  {
    DropAccounting(size, actions);
    EndToEnd(size, actions, callouts, origin, id, dir, payloadCap, packetCap);
  }
}
