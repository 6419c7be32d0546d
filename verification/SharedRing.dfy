/** The ring as code: KndRingCreate, KndRingWrite and KndClient::poll on a byte array,
    each proved against a function of the ring state, and the write proved to be one
    uninterrupted run of the step system. */
module SharedRing {
  import opened Bytes
  import opened RingProtocol
  import opened RingSystem
  import opened RingSafety

  // ---- specification of one call --------------------------------------------------

  ghost predicate Writable(r: Ring, req: Request) {
    RingSize(|r.mem|) && Resting(|r.mem|, r.producerPos) && req.Valid()
  }

  lemma {:induction false} ImagesFit(size: nat, wp: nat, rp: nat, req: Request, next: nat)
    requires RingSize(size) && Resting(size, wp) && req.Valid()
    requires MakePlan(size, wp, rp, req.Need()).Place?
    ensures var plan := MakePlan(size, wp, rp, req.Need());
      && req.Raw() <= plan.length && FitsAt(size, Cell(wp, size), plan.pad, plan.length)
      && var e := MakeEntries(req, plan, next);
         if plan.pad > 0 then Cell(wp, size) + |e[0].image| <= size && |e[1].image| <= size
         else Cell(wp, size) + |e[0].image| <= size
  {
    PlacedFits(size, wp, rp, req.Need());
    EntryLengths(req, MakePlan(size, wp, rp, req.Need()), next);
  }

  /** The bytes of the data area after a placed write. */
  function MemoryAfter(mem: seq<Byte>, offset: nat, pad: nat, e: seq<Entry>): seq<Byte>
    requires |e| == if pad > 0 then 2 else 1
    requires offset + |e[0].image| <= |mem|
    requires pad > 0 ==> |e[1].image| <= |mem|
  {
    var first := Blit(mem, offset, e[0].image);
    if pad > 0 then Blit(first, 0, e[1].image) else first
  }

  /** The whole effect of one KndRingWrite call made without interference. */
  function AfterWrite(r: Ring, req: Request): Ring
    requires Writable(r, req)
  {
    var size := |r.mem|;
    var plan := MakePlan(size, r.producerPos, r.readPos, req.Need());
    if plan.Drop? then
      r.(droppedRecords := r.droppedRecords + 1, droppedBytes := r.droppedBytes + plan.bytes)
    else
      ImagesFit(size, r.producerPos, r.readPos, req, r.nextSequence);
      var e := MakeEntries(req, plan, r.nextSequence);
      var end := r.producerPos + plan.pad + plan.length;
      r.(mem := MemoryAfter(r.mem, Cell(r.producerPos, size), plan.pad, e),
         producerPos := end, writePos := end, nextSequence := r.nextSequence + |e|,
         totalRecords := r.totalRecords + 1, totalBytes := r.totalBytes + plan.pad + plan.length)
  }

  lemma {:induction false} AfterWriteRests(r: Ring, req: Request)
    requires Writable(r, req)
    ensures Resting(|r.mem|, AfterWrite(r, req).producerPos) && |AfterWrite(r, req).mem| == |r.mem|
  {
    var plan := MakePlan(|r.mem|, r.producerPos, r.readPos, req.Need());
    if plan.Place? {
      PlacedFits(|r.mem|, r.producerPos, r.readPos, req.Need());
      FitsAtRests(|r.mem|, r.producerPos, plan.pad, plan.length);
    }
  }

  predicate Accepts(r: Ring, req: Request)
    requires |r.mem| > 0
  {
    MakePlan(|r.mem|, r.producerPos, r.readPos, req.Need()).Place?
  }

  // ---- the code ---------------------------------------------------------------------

  /** RtlCopyMemory into the data area. */
  method CopyIn(data: array<Byte>, off: nat, bytes: seq<Byte>)
    requires off + |bytes| <= data.Length
    modifies data
    ensures data[..] == Blit(old(data[..]), off, bytes)
  {
    for i := 0 to |bytes|
      invariant forall j :: 0 <= j < data.Length ==>
        data[j] == if off <= j < off + i then bytes[j - off] else old(data[j])
    {
      data[off + i] := bytes[i];
    }
  }

  /** Two pieces, one after the other. */
  method CopyTwo(data: array<Byte>, off: nat, a: seq<Byte>, b: seq<Byte>)
    requires off + |a| + |b| <= data.Length
    modifies data
    ensures data[..] == Blit(old(data[..]), off, a + b)
  {
    ghost var before := data[..];
    CopyIn(data, off, a);
    CopyIn(data, off + |a|, b);
    BlitTwice(before, off, a, b);
  }

  class RingBuffer {
    const data: array<Byte>
    var readPos: nat
    var writePos: nat
    var producerPos: nat
    var nextSequence: nat
    var totalRecords: nat
    var totalBytes: nat
    var droppedRecords: nat
    var droppedBytes: nat

    ghost predicate Valid()
      reads this
    {
      SizeAccepted(data.Length) && RingSize(data.Length) && Resting(data.Length, producerPos)
    }

    ghost function View(): Ring
      reads this, data
    {
      Ring(data[..], readPos, writePos, producerPos, nextSequence, totalRecords, totalBytes, droppedRecords, droppedBytes)
    }

    constructor (size: nat)
      requires SizeAccepted(size)
      ensures Valid() && View() == EmptyRing(size) && fresh(data)
    {
      SizeRule(size);
      data := new Byte[size](_ => 0);
      readPos, writePos, producerPos, nextSequence := 0, 0, 0, 0;
      totalRecords, totalBytes, droppedRecords, droppedBytes := 0, 0, 0, 0;
      new;
      assert data[..] == Zeros(size);
    }

    /** KndRingCreate: any other size is refused. */
    static method Create(size: nat) returns (ring: Option<RingBuffer>)
      ensures ring.Some? <==> MIN_RING <= size < U32 && IsPowerOfTwo(size)
      ensures ring.Some? ==> fresh(ring.value) && ring.value.Valid() && ring.value.View() == EmptyRing(size)
    {
      SizeRule(size);
      if MIN_RING <= size < U32 && BitAnd(size, size - 1) == 0 {
        var r := new RingBuffer(size);
        ring := Some(r);
      } else {
        ring := None;
      }
    }

    /** The stores of one record: header, payload, data, zero padding. */
    method StoreRecord(offset: nat, req: Request, recLen: nat, sequence: nat)
      requires req.Raw() <= recLen && offset + recLen <= data.Length
      modifies data
      ensures data[..] == Blit(old(data[..]), offset, ItemEntry(MakeRecord(req, recLen, sequence)).image)
    {
      ghost var before := data[..];
      var header := HeaderBytes(recLen, req.kind, req.flags, sequence, req.timestamp);
      var body := offset + HEADER;
      var padBytes := recLen - HEADER - |req.payload| - |req.data|;
      CopyTwo(data, offset, header, req.payload);
      body := body + |req.payload|;
      CopyTwo(data, body, req.data, Zeros(padBytes));
      TwoPairs(before, offset, header, req.payload, req.data, Zeros(padBytes));
    }

    method Drop(bytes: nat)
      modifies `droppedRecords, `droppedBytes
      ensures droppedRecords == old(droppedRecords) + 1 && droppedBytes == old(droppedBytes) + bytes
    {
      droppedRecords := droppedRecords + 1;
      droppedBytes := droppedBytes + bytes;
    }

    /** The optional WRAP header and the record, with sequence numbers from
        `nextSequence + 1` on. */
    method StoreEntries(req: Request, offset: nat, needPad: nat, recLen: nat)
      requires req.Raw() <= recLen <= data.Length
      requires offset + (if needPad > 0 then HEADER else recLen) <= data.Length
      modifies data
      ensures data[..] == MemoryAfter(old(data[..]), offset, needPad, MakeEntries(req, Place(needPad, recLen), nextSequence))
    {
      ghost var e := MakeEntries(req, Place(needPad, recLen), nextSequence);
      if needPad != 0 {
        var header := HeaderBytes(needPad, REC_WRAP, 0, Wrap64(nextSequence + 1), req.timestamp);
        assert e[0].image == header;
        CopyIn(data, offset, header);
        assert e[1] == ItemEntry(MakeRecord(req, recLen, Wrap64(nextSequence + 2)));
        StoreRecord(0, req, recLen, Wrap64(nextSequence + 2));
      } else {
        assert e[0] == ItemEntry(MakeRecord(req, recLen, Wrap64(nextSequence + 1)));
        StoreRecord(offset, req, recLen, Wrap64(nextSequence + 1));
      }
    }

    /** The second half of KndRingWrite, from the optional pad to publication. */
    method Emit(req: Request, offset: nat, needPad: nat, recLen: nat)
      requires Writable(View(), req) && offset == Cell(producerPos, data.Length)
      requires MakePlan(data.Length, producerPos, readPos, req.Need()) == Place(needPad, recLen)
      modifies this, data
      ensures View() == AfterWrite(old(View()), req)
    {
      PlacedFits(data.Length, producerPos, readPos, req.Need());
      StoreEntries(req, offset, needPad, recLen);
      nextSequence := nextSequence + if needPad != 0 then 2 else 1;
      producerPos := producerPos + needPad + recLen;
      writePos := producerPos;
      totalRecords := totalRecords + 1;
      totalBytes := totalBytes + needPad + recLen;
    }

    /** KndRingWrite. */
    method Write(req: Request) returns (accepted: bool)
      requires Valid() && req.Valid()
      modifies this, data
      ensures Valid() && View() == AfterWrite(old(View()), req)
      ensures accepted == Accepts(old(View()), req)
      ensures accepted <==> CanHold(data.Length, old(producerPos), old(readPos), req.Need())
    {
      var size := data.Length;
      PlacedIff(size, producerPos, readPos, req.Need());
      var recLen := AlignUp(HEADER + |req.payload| + |req.data|);
      if recLen > size {
        Drop(recLen);
        return false;
      }
      var wp, rp := producerPos, readPos;
      if rp > wp || wp - rp > size {
        Drop(recLen);
        return false;
      }
      var avail := size - (wp - rp);
      MaskedPosition(wp, size);
      var offset := BitAnd(wp, size - 1);
      var contig := size - offset;
      var needPad, total := 0, recLen;
      if recLen <= contig {
        var tail := contig - recLen;
        if tail != 0 && tail < HEADER {
          recLen := contig;
        }
        total := recLen;
      } else {
        needPad := contig;
        total := needPad + recLen;
      }
      if avail < total {
        Drop(total);
        return false;
      }
      AfterWriteRests(View(), req);
      Emit(req, offset, needPad, recLen);
      accepted := true;
    }

    /** KndClient::poll, returning what it hands to the callback; the source relies
        on the producer for every header and body it reads lying in the data area. */
    method Poll() returns (delivered: seq<Record>)
      requires SizeAccepted(data.Length)
      requires Walk(data[..], readPos, writePos).inBounds
      modifies `readPos
      ensures delivered == Walk(data[..], old(readPos), writePos).records
      ensures readPos == Walk(data[..], old(readPos), writePos).end
    {
      var mem, end := data[..], readPos;
      delivered, end := ScanFrom(mem, readPos, writePos, Walk(mem, readPos, writePos));
      readPos := end;
    }
  }

  /** The in-place reads of one iteration of poll's loop. */
  method Examine(mem: seq<Byte>, rp: nat) returns (v: Look)
    requires SizeAccepted(|mem|) && !LookAt(mem, rp).Outside?
    ensures v == LookAt(mem, rp)
  {
    MaskedPosition(rp, |mem|);
    var off := BitAnd(rp, |mem| - 1);
    var len := LengthAt(mem, off);
    if BadLength(len, |mem|) {
      v := Corrupt;
    } else if KindAt(mem, off) != REC_WRAP {
      v := Step(len, [RecordAt(mem, off)]);
    } else {
      v := Step(len, []);
    }
  }

  /** poll's loop. `all` is what the whole walk amounts to. */
  method ScanFrom(mem: seq<Byte>, readPos: nat, wp: nat, ghost all: Walked) returns (delivered: seq<Record>, rp: nat)
    requires SizeAccepted(|mem|) && ScanTo(mem, readPos, wp, all, [])
    ensures delivered == all.records && rp == all.end
  {
    rp, delivered := readPos, [];
    while rp < wp
      invariant ScanTo(mem, rp, wp, all, delivered)
    {
      ScanLooks(mem, rp, wp, all, delivered);
      var v := Examine(mem, rp);
      ScanOn(mem, rp, wp, all, delivered, v);
      if v.Corrupt? {
        rp := wp;
        return;
      }
      delivered := delivered + v.records;
      rp := rp + v.len;
    }
    ScanEnds(mem, rp, wp, all, delivered);
  }

  /** `delivered` is what a walk has produced when `rp` is reached. */
  ghost predicate ScanTo(mem: seq<Byte>, rp: nat, wp: nat, all: Walked, delivered: seq<Record>)
    requires |mem| > 0
  {
    var w := Walk(mem, rp, wp);
    w.inBounds && w.end == all.end && all.records == delivered + w.records
  }

  lemma {:induction false} ScanEnds(mem: seq<Byte>, rp: nat, wp: nat, all: Walked, delivered: seq<Record>)
    requires |mem| > 0 && rp >= wp && ScanTo(mem, rp, wp, all, delivered)
    ensures delivered == all.records && rp == all.end
  {
  }

  lemma {:induction false} ScanLooks(mem: seq<Byte>, rp: nat, wp: nat, all: Walked, delivered: seq<Record>)
    requires |mem| > 0 && rp < wp && ScanTo(mem, rp, wp, all, delivered)
    ensures !LookAt(mem, rp).Outside?
  {
  }

  lemma {:induction false} ScanOn(mem: seq<Byte>, rp: nat, wp: nat, all: Walked, delivered: seq<Record>, v: Look)
    requires |mem| > 0 && rp < wp && ScanTo(mem, rp, wp, all, delivered) && v == LookAt(mem, rp)
    ensures match v
            case Outside => false
            case Corrupt => all.records == delivered && all.end == wp
            case Step(len, records) => ScanTo(mem, rp + len, wp, all, delivered + records)
  {
    if v.Step? {
      var rest := Walk(mem, rp + v.len, wp);
      Associate(delivered, v.records, rest.records);
    }
  }

  lemma {:induction false} TwoPairs(mem: seq<Byte>, off: nat, a: seq<Byte>, b: seq<Byte>, c: seq<Byte>, d: seq<Byte>)
    requires off + |a| + |b| + |c| + |d| <= |mem|
    ensures Blit(Blit(mem, off, a + b), off + |a| + |b|, c + d) == Blit(mem, off, a + (b + c + d))
  {
    BlitTwice(mem, off, a + b, c + d);
    assert (a + b) + (c + d) == a + (b + c + d);
  }

  // ---- the write as a run -------------------------------------------------------------

  function Repeat(a: Action, n: nat): seq<Action> {
    seq(n, _ => a)
  }

  /** The actions of one uninterrupted call, allowing `n` byte stores. */
  function CallActions(req: Request, n: nat): seq<Action> {
    [Begin(req)] + Repeat(StoreByte, n) + [Advance, Publish, Count]
  }

  predicate InRange(stores: seq<Store>, size: nat) {
    forall i :: 0 <= i < |stores| ==> stores[i].off < size
  }

  function ApplyStores(mem: seq<Byte>, stores: seq<Store>, n: nat): (r: seq<Byte>)
    requires n <= |stores| && InRange(stores, |mem|)
    ensures |r| == |mem|
  {
    if n == 0 then mem else ApplyStores(mem, stores, n - 1)[stores[n - 1].off := stores[n - 1].value]
  }

  /** Storing an image byte by byte is a copy. */
  lemma {:induction false} StoresBlit(mem: seq<Byte>, off: nat, image: seq<Byte>, n: nat)
    requires off + |image| <= |mem| && n <= |image|
    ensures ApplyStores(mem, StoresAt(off, image), n) == Blit(mem, off, image[..n])
  {
    if n == 0 {
      assert image[..0] == [];
    } else {
      StoresBlit(mem, off, image, n - 1);
    }
  }

  lemma {:induction false} ApplyConcat(mem: seq<Byte>, a: seq<Store>, b: seq<Store>, n: nat)
    requires n <= |b|
    requires InRange(a, |mem|) && InRange(b, |mem|)
    ensures InRange(a + b, |mem|)
    ensures ApplyStores(mem, a + b, |a| + n) == ApplyStores(ApplyStores(mem, a, |a|), b, n)
  {
    if n == 0 {
      ApplyPrefix(mem, a, b, |a|);
    } else {
      ApplyConcat(mem, a, b, n - 1);
    }
  }

  lemma {:induction false} ApplyPrefix(mem: seq<Byte>, a: seq<Store>, b: seq<Store>, n: nat)
    requires n <= |a|
    requires InRange(a, |mem|) && InRange(b, |mem|)
    ensures InRange(a + b, |mem|)
    ensures ApplyStores(mem, a + b, n) == ApplyStores(mem, a, n)
  {
    if n > 0 { ApplyPrefix(mem, a, b, n - 1); }
  }

  lemma {:induction false} ImageStores(mem: seq<Byte>, off: nat, image: seq<Byte>)
    requires off + |image| <= |mem|
    ensures InRange(StoresAt(off, image), |mem|)
    ensures ApplyStores(mem, StoresAt(off, image), |image|) == Blit(mem, off, image)
  {
    StoresBlit(mem, off, image, |image|);
    assert image[..|image|] == image;
  }

  lemma {:induction false} AllStores(mem: seq<Byte>, offset: nat, plan: Plan, e: seq<Entry>)
    requires plan.Place? && |e| == if plan.pad > 0 then 2 else 1
    requires offset + |e[0].image| <= |mem| && (plan.pad > 0 ==> |e[1].image| <= |mem|)
    ensures InRange(Stores(offset, plan, e), |mem|)
    ensures ApplyStores(mem, Stores(offset, plan, e), |Stores(offset, plan, e)|) == MemoryAfter(mem, offset, plan.pad, e)
  {
    ImageStores(mem, offset, e[0].image);
    if plan.pad > 0 {
      ImageStores(Blit(mem, offset, e[0].image), 0, e[1].image);
      ApplyTwo(mem, StoresAt(offset, e[0].image), StoresAt(0, e[1].image));
    }
  }

  lemma {:induction false} ApplyTwo(mem: seq<Byte>, a: seq<Store>, b: seq<Store>)
    requires InRange(a, |mem|) && InRange(b, |mem|)
    ensures InRange(a + b, |mem|)
    ensures ApplyStores(mem, a + b, |a + b|) == ApplyStores(ApplyStores(mem, a, |a|), b, |b|)
  {
    ApplyConcat(mem, a, b, |b|);
  }

  /** The state after the first `n` stores of a call. */
  ghost function Stored(s: State, n: nat): State
    requires StoringReady(s) && n <= |StoresOf(s)| && InRange(StoresOf(s), s.Size())
  {
    s.(ring := s.ring.(mem := ApplyStores(s.ring.mem, StoresOf(s), n)), producer := s.producer.(done := n))
  }

  lemma {:induction false} StoreNext(s: State, n: nat)
    requires StoringReady(s) && n < |StoresOf(s)| && InRange(StoresOf(s), s.Size())
    ensures DoStore(Stored(s, n)) == Stored(s, n + 1)
  {
    assert StoresOf(Stored(s, n)) == StoresOf(s);
  }

  /** `n` byte stores in a row apply the first `n` stores of the call. */
  lemma {:induction false} RunStores(s: State, n: nat)
    requires StoringReady(s) && s.producer.done == 0 && n <= |StoresOf(s)| && InRange(StoresOf(s), s.Size())
    ensures Run(s, Repeat(StoreByte, n)) == Stored(s, n)
  {
    var actions := Repeat(StoreByte, n);
    if n > 0 {
      RunStores(s, n - 1);
      StoreNext(s, n - 1);
      assert actions[..n - 1] == Repeat(StoreByte, n - 1);
    }
  }

  /** The last three actions after all stores are done. */
  lemma {:induction false} Finish(s: State)
    requires StoringReady(s) && s.producer.done >= |StoresOf(s)|
    ensures var t, plan := DoCount(DoPublish(DoAdvance(s))), s.producer.plan;
      && t.producer.Idle? && t.consumer == s.consumer
      && var end := s.ring.producerPos + plan.pad + plan.length;
         t.ring == s.ring.(producerPos := end, writePos := end, nextSequence := s.ring.nextSequence + |NewEntries(s)|,
                           totalRecords := s.ring.totalRecords + 1, totalBytes := s.ring.totalBytes + plan.pad + plan.length)
  {
  }

  lemma {:induction false} PlacedCall(s: State, req: Request, n: nat)
    requires Safe(s) && s.producer.Idle? && req.Valid() && Accepts(s.ring, req)
    requires n == |StoresOf(Do(s, Begin(req)))|
    ensures var t := DoCount(DoPublish(DoAdvance(Run(Do(s, Begin(req)), Repeat(StoreByte, n)))));
      t.ring == AfterWrite(s.ring, req) && t.producer.Idle? && t.consumer == s.consumer
  {
    var first, plan := Do(s, Begin(req)), MakePlan(s.Size(), s.ring.producerPos, s.ring.readPos, req.Need());
    ImagesFit(s.Size(), s.ring.producerPos, s.ring.readPos, req, s.ring.nextSequence);
    AllStores(s.ring.mem, Cell(s.ring.producerPos, s.Size()), plan, NewEntries(first));
    RunStores(first, n);
    Finish(Run(first, Repeat(StoreByte, n)));
  }

  /** The step system and the code agree: one uninterrupted call has exactly the
      effect AfterWrite gives. */
  lemma {:induction false} CallIsRun(s: State, req: Request)
    requires Safe(s) && s.producer.Idle? && req.Valid()
    ensures exists n: nat ::
      var t := Run(s, CallActions(req, n));
      t.ring == AfterWrite(s.ring, req) && t.producer.Idle? && t.consumer == s.consumer
  {
    if Accepts(s.ring, req) {
      var n := |StoresOf(Do(s, Begin(req)))|;
      PlacedCall(s, req, n);
      CallUnfolds(s, req, n);
    } else {
      CallUnfolds(s, req, 0);
      assert Repeat(StoreByte, 0) == [];
    }
  }

  lemma {:induction false} CallUnfolds(s: State, req: Request, n: nat)
    ensures Run(s, CallActions(req, n)) ==
      DoCount(DoPublish(DoAdvance(Run(Do(s, Begin(req)), Repeat(StoreByte, n)))))
  {
    var mid := Repeat(StoreByte, n);
    RunConcat(s, [Begin(req)] + mid, [Advance, Publish, Count]);
    RunConcat(s, [Begin(req)], mid);
    RunOne(s, Begin(req));
    RunThree(Run(s, [Begin(req)] + mid));
  }

  lemma {:induction false} RunOne(s: State, a: Action)
    ensures Run(s, [a]) == Do(s, a)
  {
    assert [a][..0] == [];
  }

  lemma {:induction false} RunThree(s: State)
    ensures Run(s, [Advance, Publish, Count]) == DoCount(DoPublish(DoAdvance(s)))
  {
    RunConcat(s, [Advance, Publish], [Count]);
    RunConcat(s, [Advance], [Publish]);
    RunOne(s, Advance);
    RunOne(DoAdvance(s), Publish);
    RunOne(DoPublish(DoAdvance(s)), Count);
    assert [Advance] + [Publish] == [Advance, Publish];
    assert [Advance, Publish] + [Count] == [Advance, Publish, Count];
  }

  // ---- the poll as a run ---------------------------------------------------------------

  function PollActions(n: nat): seq<Action> {
    [Snapshot, LoadReadPos] + Repeat(Visit, n) + [Release]
  }

  ghost predicate CanWalk(s: State) {
    s.Size() > 0 && s.consumer.Walking? && Walk(s.ring.mem, s.consumer.rp, s.consumer.end).inBounds
  }

  /** `t` is `s` after poll's loop has run to its end. */
  ghost predicate LoopDone(s: State, t: State)
    requires CanWalk(s)
  {
    var w := Walk(s.ring.mem, s.consumer.rp, s.consumer.end);
    && t.ring == s.ring && t.producer == s.producer && t.consumer == Walking(w.end, s.consumer.end)
    && w.end >= s.consumer.end && t.h.delivered == s.h.delivered + w.records
  }

  lemma {:induction false} LoopOnce(s: State, t: State)
    requires CanWalk(s) && s.consumer.rp < s.consumer.end && LookAt(s.ring.mem, s.consumer.rp).Step?
    ensures CanWalk(DoVisit(s)) && DoVisit(s).consumer.rp > s.consumer.rp && DoVisit(s).consumer.end == s.consumer.end
    ensures LoopDone(DoVisit(s), t) ==> LoopDone(s, t)
  {
    var v, u := LookAt(s.ring.mem, s.consumer.rp), DoVisit(s);
    var rest := Walk(s.ring.mem, u.consumer.rp, u.consumer.end);
    assert s.h.delivered + (v.records + rest.records) == (s.h.delivered + v.records) + rest.records;
  }

  lemma {:induction false} LoopEnds(s: State)
    requires CanWalk(s) && (s.consumer.rp < s.consumer.end ==> LookAt(s.ring.mem, s.consumer.rp).Corrupt?)
    ensures LoopDone(s, DoVisit(s))
  {
    assert s.h.delivered + [] == s.h.delivered;
  }

  /** Enough iterations of poll's loop amount to the walk. */
  lemma {:induction false} VisitsWalk(s: State) returns (n: nat)
    requires CanWalk(s)
    ensures LoopDone(s, Run(s, Repeat(Visit, n)))
    decreases if s.consumer.rp < s.consumer.end then s.consumer.end - s.consumer.rp else 0
  {
    if s.consumer.rp < s.consumer.end && LookAt(s.ring.mem, s.consumer.rp).Step? {
      LoopOnce(s, s);
      var m := VisitsWalk(DoVisit(s));
      n := m + 1;
      LoopOnce(s, Run(DoVisit(s), Repeat(Visit, m)));
      assert Repeat(Visit, n) == [Visit] + Repeat(Visit, m);
      RunConcat(s, [Visit], Repeat(Visit, m));
      RunOne(s, Visit);
    } else {
      n := 1;
      LoopEnds(s);
      assert Repeat(Visit, 1) == [Visit];
      RunOne(s, Visit);
    }
  }

  lemma {:induction false} PollUnfolds(s: State, n: nat)
    ensures Run(s, PollActions(n)) == DoRelease(Run(DoLoadReadPos(DoSnapshot(s)), Repeat(Visit, n)))
  {
    RunConcat(s, [Snapshot, LoadReadPos] + Repeat(Visit, n), [Release]);
    RunConcat(s, [Snapshot, LoadReadPos], Repeat(Visit, n));
    assert [Snapshot] + [LoadReadPos] == [Snapshot, LoadReadPos];
    RunConcat(s, [Snapshot], [LoadReadPos]);
    RunOne(s, Snapshot);
    RunOne(DoSnapshot(s), LoadReadPos);
    RunOne(Run(s, [Snapshot, LoadReadPos] + Repeat(Visit, n)), Release);
  }

  /** One uninterrupted poll has exactly the effect the code's contract gives. */
  lemma {:induction false} PollIsRun(s: State)
    requires s.Size() > 0 && s.consumer.Asleep? && Walk(s.ring.mem, s.ring.readPos, s.ring.writePos).inBounds
    ensures exists n: nat ::
      var t, w := Run(s, PollActions(n)), Walk(s.ring.mem, s.ring.readPos, s.ring.writePos);
      t.ring == s.ring.(readPos := w.end) && t.h.delivered == s.h.delivered + w.records && t.consumer.Asleep?
  {
    var n := VisitsWalk(DoLoadReadPos(DoSnapshot(s)));
    PollUnfolds(s, n);
  }
}
