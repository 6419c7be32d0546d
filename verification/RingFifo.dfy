/** The ring is a FIFO queue: for every interleaving, what poll has delivered followed
    by what it would still find in memory is exactly the accepted writes, in order. */
module RingFifo {
  import opened Bytes
  import opened RingProtocol
  import opened RingSystem
  import opened RingSafety

  // ---- logs --------------------------------------------------------------------

  /** The ring position at which entry `k` starts. */
  function Pos(log: seq<Entry>, k: nat): nat
    requires k <= |log|
  {
    if k == 0 then 0 else Pos(log, k - 1) + log[k - 1].length
  }

  lemma {:induction false} PosAppend(log: seq<Entry>, more: seq<Entry>, k: nat)
    requires k <= |log|
    ensures Pos(log + more, k) == Pos(log, k)
  {
    if k > 0 { PosAppend(log, more, k - 1); }
  }

  lemma {:induction false} PosOrder(log: seq<Entry>, j: nat, k: nat)
    requires j <= k <= |log|
    ensures Pos(log, j) <= Pos(log, k)
    ensures j < k ==> Pos(log, j) + log[j].length <= Pos(log, k)
  {
    if j < k { PosOrder(log, j, k - 1); }
  }

  /** The records of a log, pads skipped. */
  function Records(log: seq<Entry>): seq<Record> {
    if log == [] then []
    else Records(log[..|log| - 1]) + RecordOf(log[|log| - 1])
  }

  lemma {:induction false} RecordsSnoc(log: seq<Entry>, e: Entry)
    ensures Records(log + [e]) == Records(log) + RecordOf(e)
  {
    assert (log + [e])[..|log|] == log;
  }

  lemma {:induction false} RecordsConcat(a: seq<Entry>, b: seq<Entry>)
    ensures Records(a + b) == Records(a) + Records(b)
  {
    if b == [] {
      assert a + b == a;
    } else {
      var front, last := b[..|b| - 1], b[|b| - 1];
      calc {
        Records(a + b);
        { assert a + b == (a + front) + [last]; }
        Records((a + front) + [last]);
        { RecordsSnoc(a + front, last); }
        Records(a + front) + RecordOf(last);
        { RecordsConcat(a, front); }
        (Records(a) + Records(front)) + RecordOf(last);
        Records(a) + (Records(front) + RecordOf(last));
        { RecordsSnoc(front, last); assert front + [last] == b; }
        Records(a) + Records(b);
      }
    }
  }

  ghost predicate EntryAt(mem: seq<Byte>, pos: nat, e: Entry)
    requires |mem| > 0
  {
    var off := Cell(pos, |mem|);
    && off + e.length <= |mem| && |e.image| <= e.length
    && mem[off..off + |e.image|] == e.image
  }

  ghost predicate Stored(mem: seq<Byte>, log: seq<Entry>, k: nat)
    requires |mem| > 0 && k < |log|
  {
    EntryAt(mem, Pos(log, k), log[k])
  }

  ghost predicate AllStored(mem: seq<Byte>, log: seq<Entry>, from: nat)
    requires |mem| > 0
  {
    forall k {:trigger Stored(mem, log, k)} :: from <= k < |log| ==> Stored(mem, log, k)
  }

  /** The bytes of an entry are the record or pad it stands for. */
  ghost predicate Encodes(size: nat, e: Entry) {
    && HEADER <= e.length <= size && Aligned(e.length) && e.sequence < U64
    && match e.item
       case None => exists t: nat :: t < U64 && e == PadEntry(e.length, e.sequence, t)
       case Some(rec) =>
         && e == ItemEntry(rec) && |rec.body| == rec.length - HEADER
         && REC_WRAP < rec.kind < U16 && rec.flags < U16 && rec.timestamp < U64
  }

  ghost predicate Genuine(size: nat, log: seq<Entry>, k: nat)
    requires k < |log|
  {
    Encodes(size, log[k]) && log[k].sequence == Wrap64(k + 1)
  }

  ghost predicate AllGenuine(size: nat, log: seq<Entry>) {
    forall k {:trigger Genuine(size, log, k)} :: 0 <= k < |log| ==> Genuine(size, log, k)
  }

  /** A delivered record is the request it came from: same type, flags and time, and
      a body of payload, data and fewer than 32 zero bytes. */
  ghost predicate Carries(rec: Record, req: Request) {
    var used := |req.payload| + |req.data|;
    && rec.kind == req.kind && rec.flags == req.flags && rec.timestamp == req.timestamp
    && rec.length == HEADER + |rec.body|
    && used <= |rec.body| < used + 32
    && rec.body == req.payload + req.data + Zeros(|rec.body| - used)
  }

  ghost predicate CarriesAll(recs: seq<Record>, reqs: seq<Request>) {
    |recs| == |reqs| && forall i :: 0 <= i < |recs| ==> Carries(recs[i], reqs[i])
  }

  // ---- the invariant ------------------------------------------------------------

  /** Entries written so far, published or about to be. */
  function FullLog(s: State): seq<Entry> {
    if s.producer.Advanced? then s.h.log + s.producer.entries else s.h.log
  }

  function Claimed(s: State): nat {
    if s.producer.Storing? && s.producer.plan.Place? then s.producer.plan.pad + s.producer.plan.length else 0
  }

  ghost predicate Positions(s: State) {
    && s.h.taken <= |s.h.log|
    && s.ring.readPos == Pos(s.h.log, s.h.taken)
    && s.ring.writePos == Pos(s.h.log, |s.h.log|)
    && s.ring.producerPos == Pos(FullLog(s), |FullLog(s)|)
    && s.ring.producerPos + Claimed(s) <= s.ring.readPos + s.Size()
    && (s.producer.Advanced? ==>
          && s.producer.plan.Place?
          && s.ring.producerPos == s.ring.writePos + s.producer.plan.pad + s.producer.plan.length)
  }

  ghost predicate Memory(s: State)
    requires s.Size() > 0
  {
    && AllGenuine(s.Size(), FullLog(s))
    && AllStored(s.ring.mem, FullLog(s), s.h.taken)
    && (StoringReady(s) ==> Progress(s.ring.mem, StoresOf(s), s.producer.done))
  }

  /** The first `done` stores have taken effect. */
  ghost predicate Progress(mem: seq<Byte>, stores: seq<Store>, done: nat) {
    forall i :: 0 <= i < done && i < |stores| ==> StoreDone(mem, stores[i])
  }

  ghost predicate StoreDone(mem: seq<Byte>, st: Store) {
    st.off < |mem| && mem[st.off] == st.value
  }

  ghost predicate Consuming(s: State) {
    && !s.h.resynced
    && match s.consumer
       case Asleep => s.h.walked == s.h.taken
       case Snapped(end) =>
         && s.h.walked == s.h.taken <= s.h.snapped <= |s.h.log|
         && end == Pos(s.h.log, s.h.snapped)
       case Walking(rp, end) =>
         && s.h.taken <= s.h.walked <= s.h.snapped <= |s.h.log|
         && rp == Pos(s.h.log, s.h.walked) && end == Pos(s.h.log, s.h.snapped)
       case Faulted => false
  }

  ghost predicate Announces(entries: seq<Entry>, req: Request) {
    exists rec :: Records(entries) == [rec] && Carries(rec, req)
  }

  /** The request being written, if any. */
  function InHand(s: State): seq<Request> {
    if s.producer.Storing? || s.producer.Advanced? then [s.producer.req] else []
  }

  ghost predicate Ledger(s: State) {
    && s.h.walked <= |s.h.log|
    && s.h.delivered == Records(s.h.log[..s.h.walked])
    && CarriesAll(Records(s.h.log), s.h.accepted)
    && s.ring.nextSequence == |FullLog(s)|
    && (s.producer.Advanced? ==> Announces(s.producer.entries, s.producer.req))
    && s.ring.totalRecords + (if s.producer.Published? then 1 else 0) == |s.h.accepted|
    && |s.h.called| == |s.h.accepted| + |InHand(s)| + s.ring.droppedRecords
    && (s.ring.droppedRecords == 0 ==> s.h.called == s.h.accepted + InHand(s))
    && (s.producer.Published? ==> s.producer.plan.Place?)
    && s.ring.totalBytes + (if s.producer.Published? && s.producer.plan.Place? then s.producer.plan.pad + s.producer.plan.length else 0)
       == s.ring.writePos
  }

  ghost predicate Inv(s: State) {
    Safe(s) && Positions(s) && Memory(s) && Consuming(s) && Ledger(s)
  }

  lemma {:induction false} InvInit(size: nat)
    requires SizeAccepted(size)
    ensures Inv(Init(size))
  {
    SafeInit(size);
  }

  // ---- producer steps -------------------------------------------------------------

  lemma {:induction false} CellUntouched(mem: seq<Byte>, o: nat, b: Byte, q: nat, p: nat, i: nat)
    requires |mem| > 0 && o == Cell(q, |mem|) && Cell(p, |mem|) + i < |mem|
    requires p + i < q < p + |mem|
    ensures mem[o := b][Cell(p, |mem|) + i] == mem[Cell(p, |mem|) + i]
  {
    CellOffset(p, i, |mem|);
    CellsDiffer(p + i, q, |mem|);
  }

  /** A store at the cell of a later position, less than a lap ahead, leaves an entry
      alone. */
  lemma {:induction false} StoreKeepsEntry(mem: seq<Byte>, o: nat, b: Byte, q: nat, p: nat, e: Entry)
    requires |mem| > 0 && o == Cell(q, |mem|)
    requires EntryAt(mem, p, e) && p + e.length <= q < p + |mem|
    ensures EntryAt(mem[o := b], p, e)
  {
    var off, n, after := Cell(p, |mem|), |e.image|, mem[o := b];
    forall j | off <= j < off + n ensures after[j] == mem[j] {
      CellUntouched(mem, o, b, q, p, j - off);
    }
    SameSlice(mem, after, off, off + n);
  }

  lemma {:induction false} SameSlice(mem: seq<Byte>, after: seq<Byte>, i: nat, j: nat)
    requires |after| == |mem| && i <= j <= |mem|
    requires forall k :: i <= k < j ==> after[k] == mem[k]
    ensures after[i..j] == mem[i..j]
  {
  }

  lemma {:induction false} StoreKeepsLog(mem: seq<Byte>, o: nat, b: Byte, q: nat, log: seq<Entry>, from: nat)
    requires |mem| > 0 && o == Cell(q, |mem|) && from <= |log|
    requires AllStored(mem, log, from)
    requires Pos(log, |log|) <= q < Pos(log, from) + |mem|
    ensures AllStored(mem[o := b], log, from)
  {
    var after := mem[o := b];
    forall k | from <= k < |log| ensures Stored(after, log, k) {
      assert Stored(mem, log, k);
      PosOrder(log, k, |log|);
      PosOrder(log, from, k);
      StoreKeepsEntry(mem, o, b, q, Pos(log, k), log[k]);
    }
  }

  lemma {:induction false} InvBegin(s: State, req: Request)
    requires Inv(s)
    ensures Inv(DoBegin(s, req))
  {
    SafeBegin(s, req);
    var size, wp := s.Size(), s.ring.producerPos;
    if s.producer.Idle? && req.Valid() && MakePlan(size, wp, s.ring.readPos, req.Need()).Place? {
      PlacedFits(size, wp, s.ring.readPos, req.Need());
    }
  }

  /** Stores already made are not overwritten by the next one. */
  lemma {:induction false} StoresDistinct(s: State, i: nat, j: nat)
    requires Safe(s) && s.producer.Storing? && j < i < StoreCount(s.producer.plan)
    requires Claimed(s) <= s.Size()
    ensures |StoresOf(s)| == StoreCount(s.producer.plan)
    ensures StoresOf(s)[j].off != StoresOf(s)[i].off
  {
    StoreTarget(s, i);
    StoreTarget(s, j);
    CellsDiffer(StorePosition(s.ring.producerPos, s.producer.plan, j),
                StorePosition(s.ring.producerPos, s.producer.plan, i), s.Size());
  }

  lemma {:induction false} ProgressStore(mem: seq<Byte>, stores: seq<Store>, done: nat)
    requires Progress(mem, stores, done) && done < |stores| && stores[done].off < |mem|
    requires forall j :: 0 <= j < done ==> stores[j].off != stores[done].off
    ensures Progress(mem[stores[done].off := stores[done].value], stores, done + 1)
  {
  }

  /** A store keeps every published, unreleased entry and the stores before it. */
  lemma {:induction false} MemoryStore(s: State)
    requires Inv(s) && s.producer.Storing? && s.producer.done < StoreCount(s.producer.plan)
    ensures Memory(DoStore(s))
  {
    var i, t := s.producer.done, DoStore(s);
    StoreTarget(s, i);
    var st := StoresOf(s)[i];
    StoreKeepsLog(s.ring.mem, st.off, st.value, StorePosition(s.ring.producerPos, s.producer.plan, i), s.h.log, s.h.taken);
    PosOrder(s.h.log, s.h.taken, |s.h.log|);
    forall j | 0 <= j < i ensures StoresOf(s)[j].off != st.off {
      StoresDistinct(s, i, j);
    }
    ProgressStore(s.ring.mem, StoresOf(s), i);
    assert StoresOf(t) == StoresOf(s);
  }

  lemma {:induction false} InvStore(s: State)
    requires Inv(s)
    ensures Inv(DoStore(s))
  {
    SafeStore(s);
    if s.producer.Storing? {
      StoresCounted(s);
      if s.producer.done < StoreCount(s.producer.plan) {
        MemoryStore(s);
        StoreTarget(s, s.producer.done);
      }
    }
  }

  /** Once every store of an image is done, the image is in memory. */
  lemma {:induction false} StoresMakeImage(mem: seq<Byte>, off: nat, image: seq<Byte>)
    requires off + |image| <= |mem|
    requires forall i :: 0 <= i < |image| ==> StoreDone(mem, StoresAt(off, image)[i])
    ensures mem[off..off + |image|] == image
  {
    forall i | 0 <= i < |image| ensures mem[off + i] == image[i] {
      assert StoreDone(mem, StoresAt(off, image)[i]);
    }
  }

  lemma {:induction false} EntriesEncode(size: nat, offset: nat, req: Request, plan: Plan, next: nat)
    requires RingSize(size) && req.Valid() && plan.Place? && req.Raw() <= plan.length
    requires FitsAt(size, offset, plan.pad, plan.length)
    ensures var e := MakeEntries(req, plan, next);
      && Encodes(size, e[0]) && e[0].sequence == Wrap64(next + 1)
      && (plan.pad > 0 ==> Encodes(size, e[1]) && e[1].sequence == Wrap64(next + 2))
  {
  }

  lemma {:induction false} FirstImage(mem: seq<Byte>, offset: nat, plan: Plan, e: seq<Entry>)
    requires plan.Place? && |e| == (if plan.pad > 0 then 2 else 1) && offset + |e[0].image| <= |mem|
    requires Progress(mem, Stores(offset, plan, e), |Stores(offset, plan, e)|)
    ensures mem[offset..offset + |e[0].image|] == e[0].image
  {
    var first, st := StoresAt(offset, e[0].image), Stores(offset, plan, e);
    forall i | 0 <= i < |first| ensures StoreDone(mem, first[i]) {
      assert st[i] == first[i];
    }
    StoresMakeImage(mem, offset, e[0].image);
  }

  lemma {:induction false} SecondImage(mem: seq<Byte>, offset: nat, plan: Plan, e: seq<Entry>)
    requires plan.Place? && plan.pad > 0 && |e| == 2 && |e[1].image| <= |mem|
    requires Progress(mem, Stores(offset, plan, e), |Stores(offset, plan, e)|)
    ensures mem[..|e[1].image|] == e[1].image
  {
    var second, st, n := StoresAt(0, e[1].image), Stores(offset, plan, e), |e[0].image|;
    forall i | 0 <= i < |second| ensures StoreDone(mem, second[i]) {
      assert st[n + i] == second[i];
    }
    StoresMakeImage(mem, 0, e[1].image);
  }

  /** After the last store, the new entries are in memory where the log will say. */
  lemma {:induction false} FirstEntry(mem: seq<Byte>, wp: nat, plan: Plan, e: seq<Entry>)
    requires |mem| > 0 && plan.Place? && |e| == (if plan.pad > 0 then 2 else 1)
    requires Cell(wp, |mem|) + e[0].length <= |mem| && |e[0].image| <= e[0].length
    requires Progress(mem, Stores(Cell(wp, |mem|), plan, e), |Stores(Cell(wp, |mem|), plan, e)|)
    ensures EntryAt(mem, wp, e[0])
  {
    FirstImage(mem, Cell(wp, |mem|), plan, e);
  }

  lemma {:induction false} SecondEntry(mem: seq<Byte>, wp: nat, plan: Plan, e: seq<Entry>)
    requires |mem| > 0 && plan.Place? && plan.pad > 0 && |e| == 2
    requires Cell(wp + plan.pad, |mem|) == 0 && e[1].length <= |mem| && |e[1].image| <= e[1].length
    requires Progress(mem, Stores(Cell(wp, |mem|), plan, e), |Stores(Cell(wp, |mem|), plan, e)|)
    ensures EntryAt(mem, wp + plan.pad, e[1])
  {
    SecondImage(mem, Cell(wp, |mem|), plan, e);
    assert mem[0..0 + |e[1].image|] == mem[..|e[1].image|];
  }

  lemma {:induction false} EntriesInMemory(s: State)
    requires Safe(s) && Memory(s) && s.producer.Storing? && s.producer.done == StoreCount(s.producer.plan)
    ensures var wp, plan, e := s.ring.producerPos, s.producer.plan, NewEntries(s);
      && EntryAt(s.ring.mem, wp, e[0])
      && (plan.pad > 0 ==> EntryAt(s.ring.mem, wp + plan.pad, e[1]))
  {
    var wp, plan, e := s.ring.producerPos, s.producer.plan, NewEntries(s);
    StoresCounted(s);
    EntryLengths(s.producer.req, plan, s.ring.nextSequence);
    FirstEntry(s.ring.mem, wp, plan, e);
    if plan.pad > 0 {
      NextCell(s.Size(), wp, plan.pad, plan.length);
      SecondEntry(s.ring.mem, wp, plan, e);
    }
  }

  lemma {:induction false} PosOfEntries(log: seq<Entry>, e: seq<Entry>)
    requires 1 <= |e| <= 2
    ensures Pos(log + e, |log|) == Pos(log, |log|)
    ensures Pos(log + e, |log| + 1) == Pos(log, |log|) + e[0].length
    ensures |e| == 2 ==> Pos(log + e, |log| + 2) == Pos(log, |log|) + e[0].length + e[1].length
  {
    PosAppend(log, e, |log|);
  }

  lemma {:induction false} SplitEntries(log: seq<Entry>, e: seq<Entry>)
    requires 1 <= |e| <= 2
    ensures log + e == if |e| == 2 then (log + [e[0]]) + [e[1]] else log + [e[0]]
  {
  }

  lemma {:induction false} GenuineAppend(size: nat, log: seq<Entry>, e: Entry)
    requires AllGenuine(size, log) && Encodes(size, e) && e.sequence == Wrap64(|log| + 1)
    ensures AllGenuine(size, log + [e])
  {
    var longer := log + [e];
    forall k | 0 <= k < |longer| ensures Genuine(size, longer, k) {
      if k < |log| { assert Genuine(size, log, k) && longer[k] == log[k]; }
    }
  }

  lemma {:induction false} GenuineExtends(size: nat, log: seq<Entry>, e: seq<Entry>)
    requires AllGenuine(size, log) && 1 <= |e| <= 2
    requires Encodes(size, e[0]) && e[0].sequence == Wrap64(|log| + 1)
    requires |e| == 2 ==> Encodes(size, e[1]) && e[1].sequence == Wrap64(|log| + 2)
    ensures AllGenuine(size, log + e)
  {
    GenuineAppend(size, log, e[0]);
    SplitEntries(log, e);
    if |e| == 2 { GenuineAppend(size, log + [e[0]], e[1]); }
  }

  lemma {:induction false} StoredPrefix(mem: seq<Byte>, log: seq<Entry>, e: seq<Entry>, from: nat, k: nat)
    requires |mem| > 0 && AllStored(mem, log, from) && from <= k < |log|
    ensures Stored(mem, log + e, k)
  {
    assert Stored(mem, log, k);
    PosAppend(log, e, k);
    assert (log + e)[k] == log[k];
  }

  lemma {:induction false} StoredExtends(mem: seq<Byte>, log: seq<Entry>, e: seq<Entry>, from: nat)
    requires |mem| > 0 && AllStored(mem, log, from)
    requires forall k :: |log| <= k < |log + e| ==> Stored(mem, log + e, k)
    ensures AllStored(mem, log + e, from)
  {
    forall k | from <= k < |log + e| ensures Stored(mem, log + e, k) {
      if k < |log| { StoredPrefix(mem, log, e, from, k); }
    }
  }

  lemma {:induction false} StoredNew(mem: seq<Byte>, log: seq<Entry>, e: seq<Entry>, k: nat)
    requires |mem| > 0 && 1 <= |e| <= 2 && |log| <= k < |log + e|
    requires EntryAt(mem, Pos(log, |log|), e[0])
    requires |e| == 2 ==> EntryAt(mem, Pos(log, |log|) + e[0].length, e[1])
    ensures Stored(mem, log + e, k)
  {
    PosOfEntries(log, e);
    assert (log + e)[k] == e[k - |log|];
  }

  lemma {:induction false} GenuineAdvance(s: State)
    requires Safe(s) && s.producer.Storing? && s.ring.nextSequence == |s.h.log|
    requires AllGenuine(s.Size(), s.h.log)
    ensures AllGenuine(s.Size(), s.h.log + NewEntries(s))
  {
    var p, size := s.producer, s.Size();
    EntriesEncode(size, Cell(s.ring.producerPos, size), p.req, p.plan, s.ring.nextSequence);
    GenuineExtends(size, s.h.log, NewEntries(s));
  }

  lemma {:induction false} StoredAdvance(s: State)
    requires Safe(s) && Memory(s) && s.producer.Storing? && s.producer.done == StoreCount(s.producer.plan)
    requires s.ring.producerPos == Pos(s.h.log, |s.h.log|)
    ensures AllStored(s.ring.mem, s.h.log + NewEntries(s), s.h.taken)
  {
    var e := NewEntries(s);
    EntryLengths(s.producer.req, s.producer.plan, s.ring.nextSequence);
    EntriesInMemory(s);
    forall k | |s.h.log| <= k < |s.h.log + e| ensures Stored(s.ring.mem, s.h.log + e, k) {
      StoredNew(s.ring.mem, s.h.log, e, k);
    }
    StoredExtends(s.ring.mem, s.h.log, e, s.h.taken);
  }

  lemma {:induction false} EntriesAnnounce(req: Request, plan: Plan, next: nat)
    requires plan.Place? && req.Raw() <= plan.length < req.Raw() + 32
    ensures Announces(MakeEntries(req, plan, next), req)
  {
    var e := MakeEntries(req, plan, next);
    var last := e[|e| - 1];
    var rec := last.item.value;
    assert rec.body == req.payload + req.data + Zeros(|rec.body| - (|req.payload| + |req.data|));
    LastRecord(e);
    assert Records(e) == [rec] && Carries(rec, req);
  }

  lemma {:induction false} LastRecord(e: seq<Entry>)
    requires 1 <= |e| <= 2 && (|e| == 2 ==> e[0].item.None?)
    ensures Records(e) == RecordOf(e[|e| - 1])
  {
    if |e| == 2 {
      assert e[..1] == [e[0]];
      assert Records([e[0]]) == Records([]) + RecordOf(e[0]);
    }
  }

  lemma {:induction false} PositionsAdvance(s: State)
    requires s.producer.Storing? && StoringSafe(s) && Positions(s)
    ensures Positions(DoAdvance(s))
  {
    EntryLengths(s.producer.req, s.producer.plan, s.ring.nextSequence);
    PosOfEntries(s.h.log, NewEntries(s));
  }

  lemma {:induction false} LedgerAdvance(s: State)
    requires s.producer.Storing? && StoringSafe(s) && Ledger(s)
    ensures Ledger(DoAdvance(s))
  {
    EntriesAnnounce(s.producer.req, s.producer.plan, s.ring.nextSequence);
  }

  lemma {:induction false} InvAdvance(s: State)
    requires Inv(s)
    ensures Inv(DoAdvance(s))
  {
    SafeAdvance(s);
    if s.producer.Storing? {
      PositionsAdvance(s);
      LedgerAdvance(s);
      StoresCounted(s);
      if s.producer.done == StoreCount(s.producer.plan) {
        GenuineAdvance(s);
        StoredAdvance(s);
      }
    }
  }

  lemma {:induction false} LedgerPublish(s: State)
    requires Ledger(s) && Safe(s) && Positions(s) && s.producer.Advanced?
    ensures Ledger(DoPublish(s))
  {
    var p, log := s.producer, s.h.log;
    RecordsConcat(log, p.entries);
    assert (log + p.entries)[..s.h.walked] == log[..s.h.walked];
  }

  lemma {:induction false} PlacesPublish(s: State)
    requires Inv(s) && s.producer.Advanced?
    ensures Positions(DoPublish(s)) && Consuming(DoPublish(s))
  {
    var log, e := s.h.log, s.producer.entries;
    PosAppend(log, e, s.h.taken);
    if !s.consumer.Asleep? { PosAppend(log, e, s.h.snapped); }
    if s.consumer.Walking? { PosAppend(log, e, s.h.walked); }
  }

  /** Publishing appends one record, carrying the request, to the queue. */
  lemma {:induction false} InvPublish(s: State)
    requires Inv(s)
    ensures Inv(DoPublish(s))
  {
    if s.producer.Advanced? {
      LedgerPublish(s);
      PlacesPublish(s);
    }
  }

  lemma {:induction false} InvCount(s: State)
    requires Inv(s)
    ensures Inv(DoCount(s))
  {
  }

  // ---- consumer steps ---------------------------------------------------------------

  function RecordOf(e: Entry): seq<Record> {
    if e.item.Some? then [e.item.value] else []
  }

  /** What poll finds at a position is the entry. */
  ghost predicate ReadsBack(mem: seq<Byte>, pos: nat, e: Entry)
    requires |mem| > 0
  {
    LookAt(mem, pos) == Step(e.length, RecordOf(e)) && Cell(pos, |mem|) + e.length <= |mem|
  }

  lemma {:induction false} StoredReadsBack(mem: seq<Byte>, log: seq<Entry>, k: nat)
    requires 0 < |mem| < U32 && k < |log| && Genuine(|mem|, log, k) && Stored(mem, log, k)
    ensures ReadsBack(mem, Pos(log, k), log[k])
  {
    EntryReadsBack(mem, Pos(log, k), log[k]);
  }

  lemma {:induction false} EntryReadsBack(mem: seq<Byte>, pos: nat, e: Entry)
    requires 0 < |mem| < U32 && Encodes(|mem|, e) && EntryAt(mem, pos, e)
    ensures ReadsBack(mem, pos, e)
  {
    match e.item
    case None => PadReadsBack(mem, pos, e);
    case Some(r) => RecordReadsBack(mem, pos, e, r);
  }

  lemma {:induction false} PadReadsBack(mem: seq<Byte>, pos: nat, e: Entry)
    requires 0 < |mem| < U32 && Encodes(|mem|, e) && EntryAt(mem, pos, e) && e.item == None
    ensures ReadsBack(mem, pos, e) && KindAt(mem, Cell(pos, |mem|)) == 0
  {
    var off, img := Cell(pos, |mem|), e.image;
    SliceOfSlice(mem, off, |img|, 0, HEADER);
    var t: nat :| t < U64 && e == PadEntry(e.length, e.sequence, t);
    assert img[..HEADER] == img;
    HeaderReadsBack(mem, off, e.length, REC_WRAP, 0, e.sequence, t);
  }

  lemma {:induction false} RecordReadsBack(mem: seq<Byte>, pos: nat, e: Entry, r: Record)
    requires 0 < |mem| < U32 && Encodes(|mem|, e) && EntryAt(mem, pos, e) && e.item == Some(r)
    ensures ReadsBack(mem, pos, e)
  {
    var off, img := Cell(pos, |mem|), e.image;
    SliceOfSlice(mem, off, |img|, 0, HEADER);
    assert img[..HEADER] == HeaderBytes(r.length, r.kind, r.flags, r.sequence, r.timestamp);
    HeaderReadsBack(mem, off, r.length, r.kind, r.flags, r.sequence, r.timestamp);
    SliceOfSlice(mem, off, |img|, HEADER, |img|);
    assert img[HEADER..] == r.body;
  }

  /** Poll's next entry is in memory. */
  lemma {:induction false} NextEntry(s: State)
    requires Inv(s) && s.consumer.Walking? && s.consumer.rp < s.consumer.end
    ensures s.h.walked < s.h.snapped
    ensures ReadsBack(s.ring.mem, s.consumer.rp, s.h.log[s.h.walked])
  {
    var k, log := s.h.walked, s.h.log;
    PosOrder(log, k, s.h.snapped);
    assert Stored(s.ring.mem, FullLog(s), k) && Genuine(s.Size(), FullLog(s), k);
    StoredReadsBack(s.ring.mem, FullLog(s), k);
    if s.producer.Advanced? { PosAppend(log, s.producer.entries, k); }
  }

  /** One iteration of poll's loop hands over the next record, if it is one, and
      moves to the entry after it; it neither resyncs nor leaves the data area. */
  lemma {:induction false} VisitResult(s: State)
    requires Inv(s) && s.consumer.Walking? && s.consumer.rp < s.consumer.end
    ensures s.h.walked < s.h.snapped
    ensures var e := s.h.log[s.h.walked];
      DoVisit(s) == s.(consumer := Walking(s.consumer.rp + e.length, s.consumer.end),
                       h := s.h.(delivered := s.h.delivered + RecordOf(e), walked := s.h.walked + 1))
  {
    NextEntry(s);
  }

  lemma {:induction false} RecordsNext(log: seq<Entry>, k: nat)
    requires k < |log|
    ensures Records(log[..k + 1]) == Records(log[..k]) + RecordOf(log[k])
  {
    RecordsSnoc(log[..k], log[k]);
    assert log[..k + 1] == log[..k] + [log[k]];
  }

  lemma {:induction false} ConsumingVisit(s: State)
    requires Inv(s) && s.consumer.Walking? && s.consumer.rp < s.consumer.end
    ensures Consuming(DoVisit(s)) && Ledger(DoVisit(s))
  {
    VisitResult(s);
    RecordsNext(s.h.log, s.h.walked);
  }

  lemma {:induction false} InvVisit(s: State)
    requires Inv(s)
    ensures Inv(DoVisit(s))
  {
    if s.consumer.Walking? && s.consumer.rp < s.consumer.end {
      ConsumingVisit(s);
      VisitResult(s);
    }
  }

  lemma {:induction false} InvSnapshot(s: State)
    requires Inv(s)
    ensures Inv(DoSnapshot(s))
  {
  }

  lemma {:induction false} InvLoadReadPos(s: State)
    requires Inv(s)
    ensures Inv(DoLoadReadPos(s))
  {
  }

  lemma {:induction false} InvRelease(s: State)
    requires Inv(s)
    ensures Inv(DoRelease(s))
  {
    if s.consumer.Walking? && s.consumer.rp >= s.consumer.end {
      PosOrder(s.h.log, s.h.taken, s.h.walked);
      PosOrder(s.h.log, s.h.walked, s.h.snapped);
    }
  }

  lemma {:induction false} InvDo(s: State, a: Action)
    requires Inv(s) && !a.Tamper?
    ensures Inv(Do(s, a))
  {
    match a
    case Begin(req) => InvBegin(s, req);
    case StoreByte => InvStore(s);
    case Advance => InvAdvance(s);
    case Publish => InvPublish(s);
    case Count => InvCount(s);
    case Snapshot => InvSnapshot(s);
    case LoadReadPos => InvLoadReadPos(s);
    case Visit => InvVisit(s);
    case Release => InvRelease(s);
  }

  lemma {:induction false} InvRun(size: nat, actions: seq<Action>)
    requires SizeAccepted(size) && Honest(actions)
    ensures Inv(Run(Init(size), actions)) && Run(Init(size), actions).Size() == size
  {
    if actions == [] {
      InvInit(size);
    } else {
      var front := actions[..|actions| - 1];
      InvRun(size, front);
      InvDo(Run(Init(size), front), actions[|actions| - 1]);
      SafeDo(Run(Init(size), front), actions[|actions| - 1]);
    }
  }
}
