/** What the ring promises its two sides, stated over every run in which readPos is
    written by poll alone. */
module RingQueue {
  import opened Bytes
  import opened RingProtocol
  import opened RingSystem
  import opened RingSafety
  import opened RingFifo

  /** How far poll has got: its local position while in the loop, else readPos. */
  function Frontier(s: State): nat {
    if s.consumer.Walking? then s.consumer.rp else s.ring.readPos
  }

  /** The records of entries `k` to `end`. */
  function RecordsIn(log: seq<Entry>, k: nat, end: nat): seq<Record>
    requires k <= end <= |log|
    decreases end - k
  {
    if k == end then [] else RecordOf(log[k]) + RecordsIn(log, k + 1, end)
  }

  lemma {:induction false} RecordsInSlice(log: seq<Entry>, k: nat, end: nat)
    requires k <= end <= |log|
    ensures RecordsIn(log, k, end) == Records(log[k..end])
    decreases end - k
  {
    if k < end {
      RecordsInSlice(log, k + 1, end);
      RecordsHead(log, k, end);
    }
  }

  /** Walking memory from entry `k` finds exactly the entries of the log. */
  lemma {:induction false} WalkFindsLog(mem: seq<Byte>, log: seq<Entry>, k: nat, end: nat) returns (w: Walked)
    requires 0 < |mem| < U32 && k <= end <= |log|
    requires AllGenuine(|mem|, log) && AllStored(mem, log, k)
    ensures w == Walk(mem, Pos(log, k), Pos(log, end))
    ensures w == Walked(RecordsIn(log, k, end), Pos(log, end), false, true)
    decreases end - k
  {
    if k == end {
      w := Walked([], Pos(log, end), false, true);
    } else {
      var rest := WalkFindsLog(mem, log, k + 1, end);
      w := WalkEntry(mem, log, k, end, rest);
    }
  }

  lemma {:induction false} WalkEntry(mem: seq<Byte>, log: seq<Entry>, k: nat, end: nat, rest: Walked) returns (w: Walked)
    requires 0 < |mem| < U32 && k < end <= |log| && AllGenuine(|mem|, log) && AllStored(mem, log, k)
    requires rest == Walk(mem, Pos(log, k + 1), Pos(log, end))
    ensures w == Walk(mem, Pos(log, k), Pos(log, end))
    ensures w == Walked(RecordOf(log[k]) + rest.records, rest.end, rest.resynced, rest.inBounds)
  {
    LogReadsBack(mem, log, k, k);
    PosOrder(log, k, end);
    w := WalkStep(mem, Pos(log, k), Pos(log, end), log[k], rest);
  }

  lemma {:induction false} LogReadsBack(mem: seq<Byte>, log: seq<Entry>, from: nat, k: nat)
    requires 0 < |mem| < U32 && from <= k < |log| && AllGenuine(|mem|, log) && AllStored(mem, log, from)
    ensures ReadsBack(mem, Pos(log, k), log[k])
  {
    assert Stored(mem, log, k) && Genuine(|mem|, log, k);
    StoredReadsBack(mem, log, k);
  }

  lemma {:induction false} RecordsHead(log: seq<Entry>, k: nat, end: nat)
    requires k < end <= |log|
    ensures Records(log[k..end]) == RecordOf(log[k]) + Records(log[k + 1..end])
  {
    RecordsConcat([log[k]], log[k + 1..end]);
    LastRecord([log[k]]);
    assert log[k..end] == [log[k]] + log[k + 1..end];
  }

  lemma {:induction false} WalkStep(mem: seq<Byte>, rp: nat, end: nat, e: Entry, rest: Walked) returns (w: Walked)
    requires |mem| > 0 && rp < end && ReadsBack(mem, rp, e) && rest == Walk(mem, rp + e.length, end)
    ensures w == Walk(mem, rp, end) && w == Walked(RecordOf(e) + rest.records, rest.end, rest.resynced, rest.inBounds)
  {
    w := Walk(mem, rp, end);
  }

  lemma {:induction false} StoredPublished(s: State)
    requires Inv(s)
    ensures AllGenuine(s.Size(), s.h.log) && AllStored(s.ring.mem, s.h.log, s.h.taken)
  {
    forall k | 0 <= k < |s.h.log| ensures Genuine(s.Size(), s.h.log, k) {
      assert Genuine(s.Size(), FullLog(s), k);
    }
    forall k | s.h.taken <= k < |s.h.log| ensures Stored(s.ring.mem, s.h.log, k) {
      assert Stored(s.ring.mem, FullLog(s), k);
      if s.producer.Advanced? { PosAppend(s.h.log, s.producer.entries, k); }
    }
  }

  lemma {:induction false} QueueInState(s: State)
    requires Inv(s)
    ensures var w := Walk(s.ring.mem, Frontier(s), s.ring.writePos);
      && w.inBounds && !w.resynced && w.end == s.ring.writePos
      && s.h.delivered + w.records == Records(s.h.log)
  {
    var log, k := s.h.log, s.h.walked;
    StoredPublished(s);
    var _ := WalkFindsLog(s.ring.mem, log, k, |log|);
    RecordsInSlice(log, k, |log|);
    RecordsSplit(log, k);
  }

  lemma {:induction false} RecordsSplit(log: seq<Entry>, k: nat)
    requires k <= |log|
    ensures Records(log) == Records(log[..k]) + Records(log[k..|log|])
    ensures Records(log[..k]) <= Records(log)
  {
    var front, back := log[..k], log[k..|log|];
    Halves(log, k);
    RecordsConcat(front, back);
  }

  /** The ring is a FIFO queue. After any interleaving of byte stores, publications
      and poll steps: the records handed to the callback, followed by the records a
      walk of memory from poll's position to writePos finds, are the accepted
      requests, in order and once each; the walk ends exactly at writePos without
      resyncing; and poll itself has never resynced or left the data area. */
  lemma {:induction false} FifoQueue(size: nat, actions: seq<Action>)
    requires SizeAccepted(size) && Honest(actions)
    ensures var s := Run(Init(size), actions);
      && !s.h.resynced && !s.consumer.Faulted? && |s.ring.mem| == size
      && var w := Walk(s.ring.mem, Frontier(s), s.ring.writePos);
         && w.inBounds && !w.resynced && w.end == s.ring.writePos
         && CarriesAll(s.h.delivered + w.records, s.h.accepted)
  {
    InvRun(size, actions);
    QueueInState(Run(Init(size), actions));
  }

  /** Draining: once poll has released everything published, what it delivered is
      the accepted requests. */
  lemma {:induction false} DrainDelivers(size: nat, actions: seq<Action>)
    requires SizeAccepted(size) && Honest(actions)
    ensures var s := Run(Init(size), actions);
      Frontier(s) == s.ring.writePos ==> CarriesAll(s.h.delivered, s.h.accepted)
  {
    FifoQueue(size, actions);
    var s := Run(Init(size), actions);
    if Frontier(s) == s.ring.writePos { assert s.h.delivered + [] == s.h.delivered; }
  }

  // ---- tiling ----------------------------------------------------------------

  /** `cuts` splits a stretch of the ring into records: each starts with a header
      holding its length, is aligned, and does not straddle the end of the buffer. */
  ghost predicate TileAt(mem: seq<Byte>, from: nat, to: nat)
    requires |mem| > 0
  {
    var off := Cell(from, |mem|);
    && from < to && off + HEADER <= |mem| && LengthAt(mem, off) == to - from
    && to - from >= HEADER && Aligned(to - from) && off + (to - from) <= |mem|
  }

  ghost predicate Tiles(mem: seq<Byte>, cuts: seq<nat>, from: nat, to: nat)
    requires |mem| > 0
  {
    && |cuts| > 0 && cuts[0] == from && cuts[|cuts| - 1] == to
    && forall i :: 0 < i < |cuts| ==> TileAt(mem, cuts[i - 1], cuts[i])
  }

  /** The boundaries of a log from entry `t` on. */
  function Cuts(log: seq<Entry>, t: nat): (c: seq<nat>)
    requires t <= |log|
    ensures |c| == |log| - t + 1
    ensures forall i :: 0 <= i < |c| ==> c[i] == Pos(log, t + i)
    decreases |log| - t
  {
    [Pos(log, t)] + if t == |log| then [] else Cuts(log, t + 1)
  }

  lemma {:induction false} TileOfEntry(mem: seq<Byte>, log: seq<Entry>, k: nat)
    requires |mem| > 0 && k < |log| && ReadsBack(mem, Pos(log, k), log[k])
    ensures TileAt(mem, Pos(log, k), Pos(log, k + 1))
  {
  }

  lemma {:induction false} LogTiles(mem: seq<Byte>, log: seq<Entry>, t: nat)
    requires 0 < |mem| < U32 && t <= |log| && AllGenuine(|mem|, log) && AllStored(mem, log, t)
    ensures Tiles(mem, Cuts(log, t), Pos(log, t), Pos(log, |log|))
  {
    var cuts := Cuts(log, t);
    forall i | 0 < i < |cuts| ensures TileAt(mem, cuts[i - 1], cuts[i]) {
      var k := t + i - 1;
      assert cuts[i - 1] == Pos(log, k) && cuts[i] == Pos(log, k + 1);
      LogReadsBack(mem, log, t, k);
      TileOfEntry(mem, log, k);
    }
  }

  lemma {:induction false} CutsContain(log: seq<Entry>, t: nat, k: nat)
    requires t <= k <= |log|
    ensures Pos(log, k) in Cuts(log, t)
  {
    assert Cuts(log, t)[k - t] == Pos(log, k);
  }

  /** In every reachable state [readPos, writePos) is tiled by whole records, and
      poll's local position and its snapshot are both boundaries of the tiling. */
  lemma {:induction false} Tiling(size: nat, actions: seq<Action>)
    requires SizeAccepted(size) && Honest(actions)
    ensures var s := Run(Init(size), actions);
      exists cuts: seq<nat> ::
        && |s.ring.mem| > 0 && Tiles(s.ring.mem, cuts, s.ring.readPos, s.ring.writePos)
        && (s.consumer.Snapped? ==> s.consumer.end in cuts)
        && (s.consumer.Walking? ==> s.consumer.rp in cuts && s.consumer.end in cuts)
  {
    InvRun(size, actions);
    var s := Run(Init(size), actions);
    StoredPublished(s);
    LogTiles(s.ring.mem, s.h.log, s.h.taken);
    if s.consumer.Walking? { CutsContain(s.h.log, s.h.taken, s.h.walked); }
    if !s.consumer.Asleep? { CutsContain(s.h.log, s.h.taken, s.h.snapped); }
    assert Tiles(s.ring.mem, Cuts(s.h.log, s.h.taken), s.ring.readPos, s.ring.writePos);
  }

  // ---- no lost bytes ----------------------------------------------------------

  ghost predicate Ordered(s: State) {
    && s.ring.readPos <= s.ring.writePos <= s.ring.producerPos <= s.ring.readPos + s.Size()
    && (s.consumer.Snapped? ==> s.ring.readPos <= s.consumer.end <= s.ring.writePos)
    && (s.consumer.Walking? ==> s.ring.readPos <= s.consumer.rp <= s.consumer.end <= s.ring.writePos)
  }

  lemma {:induction false} OrderedState(s: State)
    requires Inv(s)
    ensures Ordered(s)
  {
    var h := s.h;
    PosOrder(h.log, h.taken, |h.log|);
    if s.producer.Advanced? {
      PosAppend(h.log, s.producer.entries, |h.log|);
      PosOrder(FullLog(s), |h.log|, |FullLog(s)|);
    }
    if !s.consumer.Asleep? {
      PosOrder(h.log, h.taken, h.snapped);
      PosOrder(h.log, h.snapped, |h.log|);
    }
    if s.consumer.Walking? {
      PosOrder(h.log, h.taken, h.walked);
      PosOrder(h.log, h.walked, h.snapped);
    }
  }

  /** No step of either side, even one acting on a stale snapshot, changes a byte of
      [readPos, writePos) - so none between poll's position and its snapshotted end -
      and the positions stay ordered throughout. */
  lemma {:induction false} NoLostBytes(size: nat, actions: seq<Action>, a: Action)
    requires SizeAccepted(size) && Honest(actions)
    ensures var s := Run(Init(size), actions);
      && Ordered(s) && |s.ring.mem| == |Do(s, a).ring.mem| == size
      && forall p :: s.ring.readPos <= p < s.ring.writePos ==>
           Do(s, a).ring.mem[Cell(p, size)] == s.ring.mem[Cell(p, size)]
  {
    InvRun(size, actions);
    var s := Run(Init(size), actions);
    OrderedState(s);
    SafeDo(s, a);
    forall p | s.ring.readPos <= p < s.ring.writePos
      ensures Do(s, a).ring.mem[Cell(p, size)] == s.ring.mem[Cell(p, size)]
    {
      StoreSparesUnread(s, a, p);
    }
  }

  lemma {:induction false} StoreSparesUnread(s: State, a: Action, p: nat)
    requires Inv(s) && s.ring.readPos <= p < s.ring.writePos
    ensures |Do(s, a).ring.mem| == s.Size()
    ensures Do(s, a).ring.mem[Cell(p, s.Size())] == s.ring.mem[Cell(p, s.Size())]
  {
    SafeDo(s, a);
    if a.StoreByte? && s.producer.Storing? {
      StoresCounted(s);
      var i := s.producer.done;
      if i < StoreCount(s.producer.plan) {
        StoreTarget(s, i);
        OrderedState(s);
        CellsDiffer(p, StorePosition(s.ring.producerPos, s.producer.plan, i), s.Size());
      }
    }
  }

  // ---- accounting and acceptance -------------------------------------------------

  /** Between calls: every call was accepted or dropped, totalRecords and totalBytes
      match the accepted writes, and the records written, pads included, carry the
      sequence numbers 1, 2, 3, ... in order. */
  lemma {:induction false} Accounting(size: nat, actions: seq<Action>)
    requires SizeAccepted(size) && Honest(actions)
    ensures var s := Run(Init(size), actions);
      && (s.producer.Idle? ==>
            && |s.h.called| == |s.h.accepted| + s.ring.droppedRecords
            && (s.ring.droppedRecords == 0 ==> s.h.called == s.h.accepted)
            && s.ring.totalRecords == |s.h.accepted|
            && s.ring.totalBytes == s.ring.writePos == s.ring.producerPos)
      && (forall k :: 0 <= k < |s.h.log| ==> s.h.log[k].sequence == Wrap64(k + 1))
      && s.h.delivered <= Records(s.h.log) && |Records(s.h.log)| == |s.h.accepted|
  {
    InvRun(size, actions);
    var s := Run(Init(size), actions);
    StoredPublished(s);
    forall k | 0 <= k < |s.h.log| ensures s.h.log[k].sequence == Wrap64(k + 1) {
      assert Genuine(size, s.h.log, k);
    }
    RecordsSplit(s.h.log, s.h.walked);
  }

  /** After a full drain the ring accepts any record of at most half its size. */
  lemma {:induction false} DrainedRingAccepts(size: nat, actions: seq<Action>, req: Request)
    requires SizeAccepted(size) && Honest(actions) && req.Valid() && req.Need() <= size / 2
    ensures var s := Run(Init(size), actions);
      s.producer.Idle? && s.ring.readPos == s.ring.writePos ==>
        Do(s, Begin(req)).producer.Storing? && Do(s, Begin(req)).ring == s.ring
  {
    InvRun(size, actions);
    var s := Run(Init(size), actions);
    SmallRecordPlaced(size, Cell(s.ring.producerPos, size), s.ring.producerPos, req.Need());
  }
}
