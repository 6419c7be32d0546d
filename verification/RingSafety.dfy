/** The producer's own guarantees, which hold whatever the consumer's process writes
    into readPos. */
module RingSafety {
  import opened Bytes
  import opened RingProtocol
  import opened RingSystem

  /** The number of byte stores a placed write makes. */
  function StoreCount(plan: Plan): nat
    requires plan.Place?
  {
    plan.length + if plan.pad > 0 then HEADER else 0
  }

  ghost predicate StoringSafe(s: State) {
    s.producer.Storing? ==>
      && StoringReady(s) && s.producer.req.Valid()
      && FitsAt(s.Size(), Cell(s.ring.producerPos, s.Size()), s.producer.plan.pad, s.producer.plan.length)
      && s.producer.req.Raw() <= s.producer.plan.length < s.producer.req.Raw() + 32
      && s.producer.done <= StoreCount(s.producer.plan)
  }

  ghost predicate Safe(s: State) {
    && RingSize(s.Size()) && Resting(s.Size(), s.ring.producerPos)
    && !s.h.stray && StoringSafe(s)
  }

  lemma {:induction false} EntryLengths(req: Request, plan: Plan, next: nat)
    requires plan.Place? && req.Raw() <= plan.length
    ensures var e := MakeEntries(req, plan, next);
      if plan.pad > 0 then
        && e[0].length == plan.pad && |e[0].image| == HEADER
        && e[1].length == plan.length == |e[1].image|
      else e[0].length == plan.length == |e[0].image|
  {
  }

  /** The ring position store number `i` of a call is for. */
  function StorePosition(wp: nat, plan: Plan, i: nat): nat
    requires plan.Place?
  {
    if plan.pad == 0 || i < HEADER then wp + i else wp + plan.pad + (i - HEADER)
  }

  lemma {:induction false} StoreOffset(offset: nat, plan: Plan, entries: seq<Entry>, i: nat)
    requires plan.Place? && |entries| == if plan.pad > 0 then 2 else 1
    requires i < |Stores(offset, plan, entries)|
    requires plan.pad > 0 ==> |entries[0].image| == HEADER
    ensures Stores(offset, plan, entries)[i].off ==
      if plan.pad == 0 || i < HEADER then offset + i else i - HEADER
  {
  }

  /** Every store of a call goes to the cell of a position in the stretch the call
      claims, and that cell lies inside the data area. */
  lemma {:induction false} StoreTarget(s: State, i: nat)
    requires RingSize(s.Size()) && s.producer.Storing? && StoringSafe(s)
    requires i < StoreCount(s.producer.plan)
    ensures |StoresOf(s)| == StoreCount(s.producer.plan)
    ensures var q, plan := StorePosition(s.ring.producerPos, s.producer.plan, i), s.producer.plan;
      && s.ring.producerPos <= q < s.ring.producerPos + plan.pad + plan.length
      && StoresOf(s)[i].off == Cell(q, s.Size())
  {
    var wp, size, plan := s.ring.producerPos, s.Size(), s.producer.plan;
    EntryLengths(s.producer.req, plan, s.ring.nextSequence);
    StoreOffset(Cell(wp, size), plan, NewEntries(s), i);
    StoreCell(size, wp, plan, i);
  }

  lemma {:induction false} StoreCell(size: nat, wp: nat, plan: Plan, i: nat)
    requires size > 0 && plan.Place? && FitsAt(size, Cell(wp, size), plan.pad, plan.length) && i < StoreCount(plan)
    ensures Cell(StorePosition(wp, plan, i), size) == if plan.pad == 0 || i < HEADER then Cell(wp, size) + i else i - HEADER
  {
    if plan.pad == 0 || i < HEADER {
      CellOffset(wp, i, size);
    } else {
      NextCell(size, wp, plan.pad, plan.length);
      CellOffset(wp + plan.pad, i - HEADER, size);
    }
  }

  lemma {:induction false} StoresCounted(s: State)
    requires s.producer.Storing? && StoringSafe(s)
    ensures |StoresOf(s)| == StoreCount(s.producer.plan)
  {
    EntryLengths(s.producer.req, s.producer.plan, s.ring.nextSequence);
  }

  lemma {:induction false} SafeBegin(s: State, req: Request)
    requires Safe(s)
    ensures Safe(DoBegin(s, req))
  {
    var size, wp := s.Size(), s.ring.producerPos;
    if s.producer.Idle? && req.Valid() && MakePlan(size, wp, s.ring.readPos, req.Need()).Place? {
      PlacedFits(size, wp, s.ring.readPos, req.Need());
    }
  }

  lemma {:induction false} SafeStore(s: State)
    requires Safe(s)
    ensures Safe(DoStore(s))
  {
    if s.producer.Storing? {
      StoresCounted(s);
      if s.producer.done < StoreCount(s.producer.plan) { StoreTarget(s, s.producer.done); }
    }
  }

  lemma {:induction false} SafeAdvance(s: State)
    requires Safe(s)
    ensures Safe(DoAdvance(s))
  {
    if s.producer.Storing? {
      var wp, plan := s.ring.producerPos, s.producer.plan;
      FitsAtRests(s.Size(), wp, plan.pad, plan.length);
    }
  }

  /** A fitting record leaves the producer at a resting position again. */
  lemma {:induction false} FitsAtRests(size: nat, wp: nat, pad: nat, length: nat)
    requires RingSize(size) && Resting(size, wp) && FitsAt(size, Cell(wp, size), pad, length)
    ensures Resting(size, wp + pad + length)
  {
    NextCell(size, wp, pad, length);
    NextRests(size, Cell(wp, size), pad, length);
    AlignedSum(wp, pad, length);
  }

  /** Every action keeps the producer safe and never moves its position back. */
  lemma {:induction false} SafeDo(s: State, a: Action)
    requires Safe(s)
    ensures Safe(Do(s, a)) && Do(s, a).Size() == s.Size()
    ensures s.ring.producerPos <= Do(s, a).ring.producerPos
  {
    match a
    case Begin(req) => SafeBegin(s, req);
    case StoreByte => SafeStore(s);
    case Advance => SafeAdvance(s);
    case _ =>
  }

  lemma {:induction false} SafeInit(size: nat)
    requires SizeAccepted(size)
    ensures Safe(Init(size))
  {
    SizeRule(size);
  }

  lemma {:induction false} SafeRun(s: State, actions: seq<Action>)
    requires Safe(s)
    ensures Safe(Run(s, actions)) && Run(s, actions).Size() == s.Size()
    ensures s.ring.producerPos <= Run(s, actions).ring.producerPos
  {
    if actions != [] {
      SafeRun(s, actions[..|actions| - 1]);
      SafeDo(Run(s, actions[..|actions| - 1]), actions[|actions| - 1]);
    }
  }

  lemma {:induction false} RunConcat(s: State, a: seq<Action>, b: seq<Action>)
    ensures Run(s, a + b) == Run(Run(s, a), b)
  {
    if b == [] {
      assert a + b == a;
    } else {
      RunConcat(s, a, b[..|b| - 1]);
      assert (a + b)[..|a + b| - 1] == a + b[..|b| - 1];
    }
  }

  /** Robustness: in every run of every accepted ring, including runs in which
      readPos takes arbitrary values at arbitrary moments, no store leaves the data
      area, the producer rests on an aligned offset with room for a header (so a WRAP
      header always fits), and its position never decreases. */
  lemma {:induction false} HostileConsumer(size: nat, before: seq<Action>, after: seq<Action>)
    requires SizeAccepted(size)
    ensures var s, t := Run(Init(size), before), Run(Init(size), before + after);
      && !t.h.stray && |t.ring.mem| == size
      && Aligned(t.ring.producerPos) && Aligned(size - Cell(t.ring.producerPos, size))
      && size - Cell(t.ring.producerPos, size) >= HEADER
      && s.ring.producerPos <= t.ring.producerPos
  {
    SafeInit(size);
    SafeRun(Init(size), before);
    RunConcat(Init(size), before, after);
    SafeRun(Run(Init(size), before), after);
    AlignedDifference(size, Cell(Run(Init(size), before + after).ring.producerPos, size));
  }

  lemma {:induction false} AlignedDifference(a: nat, b: nat)
    requires b <= a && Aligned(a) && Aligned(b)
    ensures Aligned(a - b)
  {
  }
}
