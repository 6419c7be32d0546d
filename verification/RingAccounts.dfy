/** The ring's books over every run: what was dropped and how it was counted, and the
    sequence numbers a consumer sees. */
module RingAccounts {
  import opened Bytes
  import opened RingProtocol
  import opened RingSystem
  import opened RingSafety
  import opened RingFifo
  import opened RingQueue

  // ---- losses ---------------------------------------------------------------------------

  /** A dropped call and the bytes it was charged for. */
  datatype Loss = Loss(req: Request, bytes: nat)

  function LossOf(s: State, a: Action): seq<Loss> {
    if a.Begin? && s.producer.Idle? && a.req.Valid() && s.Size() > 0 then
      match MakePlan(s.Size(), s.ring.producerPos, s.ring.readPos, a.req.Need())
      case Drop(bytes) => [Loss(a.req, bytes)]
      case Place(_, _) => []
    else []
  }

  /** The calls dropped in a run, in order. */
  function Losses(s: State, actions: seq<Action>): seq<Loss> {
    if actions == [] then []
    else
      var front := actions[..|actions| - 1];
      Losses(s, front) + LossOf(Run(s, front), actions[|actions| - 1])
  }

  function Charged(losses: seq<Loss>): nat {
    if losses == [] then 0 else Charged(losses[..|losses| - 1]) + losses[|losses| - 1].bytes
  }

  function Requests(losses: seq<Loss>): seq<Request> {
    if losses == [] then [] else Requests(losses[..|losses| - 1]) + [losses[|losses| - 1].req]
  }

  lemma {:induction false} OneMoreLoss(losses: seq<Loss>, l: Loss)
    ensures Charged(losses + [l]) == Charged(losses) + l.bytes && Requests(losses + [l]) == Requests(losses) + [l.req]
  {
    assert (losses + [l])[..|losses|] == losses;
  }

  /** A dropped record is charged for what it would have taken: its own aligned length,
      perhaps stretched over the rest of the buffer, or with the pad in front of it. */
  ghost predicate FairCharge(size: nat, l: Loss) {
    l.req.Valid() && l.req.Need() <= l.bytes < l.req.Need() + size
  }

  lemma {:induction false} LossIsFair(s: State, a: Action)
    ensures forall l :: l in LossOf(s, a) ==> FairCharge(s.Size(), l)
  {
  }

  ghost predicate Balanced(s: State, losses: seq<Loss>) {
    && s.ring.droppedRecords == |losses| && s.ring.droppedBytes == Charged(losses)
    && multiset(s.h.called) == multiset(s.h.accepted) + multiset(InHand(s)) + multiset(Requests(losses))
  }

  lemma {:induction false} BalancedDrop(s: State, req: Request, losses: seq<Loss>, n: State, l: Loss)
    requires Balanced(s, losses) && l.req == req && s.producer.Idle?
    requires n.ring.droppedRecords == s.ring.droppedRecords + 1 && n.ring.droppedBytes == s.ring.droppedBytes + l.bytes
    requires n.h.called == s.h.called + [req] && n.h.accepted == s.h.accepted && n.producer == s.producer
    ensures Balanced(n, losses + [l])
  {
    OneMoreLoss(losses, l);
  }

  lemma {:induction false} BalancedPlace(s: State, req: Request, losses: seq<Loss>, n: State)
    requires Balanced(s, losses) && s.producer.Idle? && n.producer.Storing? && n.producer.req == req && n.ring == s.ring
    requires n.h.called == s.h.called + [req] && n.h.accepted == s.h.accepted
    ensures Balanced(n, losses)
  {
  }

  lemma {:induction false} BalancedPublish(s: State, losses: seq<Loss>)
    requires Balanced(s, losses)
    ensures Balanced(DoPublish(s), losses)
  {
  }

  /** Steps other than the beginning and the publication of a call. */
  lemma {:induction false} BalancedQuiet(s: State, a: Action, losses: seq<Loss>)
    requires Balanced(s, losses) && !a.Begin? && !a.Publish?
    ensures Balanced(Do(s, a), losses)
  {
    QuietStep(s, a);
  }

  lemma {:induction false} QuietStep(s: State, a: Action)
    requires !a.Begin? && !a.Publish?
    ensures var n := Do(s, a);
      && n.ring.droppedRecords == s.ring.droppedRecords && n.ring.droppedBytes == s.ring.droppedBytes
      && n.h.called == s.h.called && n.h.accepted == s.h.accepted && InHand(n) == InHand(s)
  {
  }

  lemma {:induction false} BalancedBegin(s: State, req: Request, losses: seq<Loss>)
    requires Balanced(s, losses)
    ensures Balanced(DoBegin(s, req), losses + LossOf(s, Begin(req)))
  {
    if s.producer.Idle? && req.Valid() && s.Size() > 0 {
      var n := DoBegin(s, req);
      match MakePlan(s.Size(), s.ring.producerPos, s.ring.readPos, req.Need())
      case Drop(bytes) => BalancedDrop(s, req, losses, n, Loss(req, bytes));
      case Place(_, _) =>
        assert losses + [] == losses;
        BalancedPlace(s, req, losses, n);
    } else {
      assert losses + [] == losses;
    }
  }

  lemma {:induction false} BalancedStep(s: State, a: Action, losses: seq<Loss>)
    requires Balanced(s, losses)
    ensures Balanced(Do(s, a), losses + LossOf(s, a))
  {
    if a.Begin? {
      BalancedBegin(s, a.req, losses);
    } else {
      assert losses + [] == losses;
      if a.Publish? { BalancedPublish(s, losses); } else { BalancedQuiet(s, a, losses); }
    }
  }

  lemma {:induction false} BalancedRun(size: nat, actions: seq<Action>)
    ensures Balanced(Run(Init(size), actions), Losses(Init(size), actions))
    ensures forall l :: l in Losses(Init(size), actions) ==> FairCharge(size, l)
    ensures Run(Init(size), actions).Size() == size
  {
    if actions != [] {
      var front, a := actions[..|actions| - 1], actions[|actions| - 1];
      BalancedRun(size, front);
      BalancedStep(Run(Init(size), front), a, Losses(Init(size), front));
      LossIsFair(Run(Init(size), front), a);
      KeepsSize(Run(Init(size), front), a);
    }
  }

  lemma {:induction false} KeepsSize(s: State, a: Action)
    ensures Do(s, a).Size() == s.Size()
  {
  }

  /** Every call is accounted for, in every run and whatever readPos holds: it was
      accepted, is being written, or was dropped; and the two drop counters are the
      number of dropped calls and the bytes they were charged for. */
  lemma {:induction false} DropAccounting(size: nat, actions: seq<Action>)
    ensures var s, losses := Run(Init(size), actions), Losses(Init(size), actions);
      && s.ring.droppedRecords == |losses| && s.ring.droppedBytes == Charged(losses)
      && multiset(s.h.called) == multiset(s.h.accepted) + multiset(InHand(s)) + multiset(Requests(losses))
      && (forall l :: l in losses ==> FairCharge(size, l))
  {
    BalancedRun(size, actions);
  }

  // ---- which calls are dropped --------------------------------------------------------------

  /** A call made now would find no placement for its record. */
  ghost predicate Hopeless(s: State, a: Action) {
    && a.Begin? && s.producer.Idle? && a.req.Valid() && s.Size() > 0
    && !CanHold(s.Size(), s.ring.producerPos, s.ring.readPos, a.req.Need())
  }

  /** Exactly the calls are dropped for which nothing fits when they are made, in every run
      and whatever readPos holds; every other call starts to store its record. */
  lemma {:induction false} DroppedIffHopeless(size: nat, actions: seq<Action>, k: nat)
    requires SizeAccepted(size) && k < |actions|
    ensures var s, a := Run(Init(size), actions[..k]), actions[k];
      && Do(s, a).ring.droppedRecords == s.ring.droppedRecords + (if Hopeless(s, a) then 1 else 0)
      && (Hopeless(s, a) ==> Do(s, a).h.called == s.h.called + [a.req] && Do(s, a).producer.Idle?)
      && (a.Begin? && s.producer.Idle? && a.req.Valid() && !Hopeless(s, a) ==> Do(s, a).producer.Storing? && Do(s, a).producer.req == a.req)
  {
    var s, a := Run(Init(size), actions[..k]), actions[k];
    SafeInit(size);
    SafeRun(Init(size), actions[..k]);
    if a.Begin? {
      if a.req.Valid() { PlacedIff(s.Size(), s.ring.producerPos, s.ring.readPos, a.req.Need()); }
    } else if !a.Publish? {
      QuietStep(s, a);
    }
  }

  /** How many calls of a run found nothing that fits. */
  ghost function HopelessCalls(s: State, actions: seq<Action>): nat {
    if actions == [] then 0
    else
      var front, last := actions[..|actions| - 1], actions[|actions| - 1];
      HopelessCalls(s, front) + if Hopeless(Run(s, front), last) then 1 else 0
  }

  lemma {:induction false} DroppedCount(size: nat, actions: seq<Action>)
    requires SizeAccepted(size)
    ensures Run(Init(size), actions).ring.droppedRecords == HopelessCalls(Init(size), actions)
  {
    if actions != [] {
      DroppedCount(size, actions[..|actions| - 1]);
      DroppedIffHopeless(size, actions, |actions| - 1);
    }
  }

  // ---- sequence numbers -----------------------------------------------------------------------

  /** The entries of one call: a record, perhaps with a pad before it. */
  ghost predicate CallEntries(e: seq<Entry>) {
    1 <= |e| <= 2 && e[|e| - 1].item.Some? && (|e| == 2 ==> e[0].item.None?)
  }

  ghost predicate SinglePad(log: seq<Entry>, k: nat) {
    k < |log| && (log[k].item.None? ==> k + 1 < |log| && log[k + 1].item.Some?)
  }

  /** Every pad is followed by a record. */
  ghost predicate PadsSingle(log: seq<Entry>) {
    forall k {:trigger SinglePad(log, k)} :: 0 <= k < |log| ==> SinglePad(log, k)
  }

  lemma {:induction false} PadsStaySingle(log: seq<Entry>, e: seq<Entry>)
    requires PadsSingle(log) && CallEntries(e)
    ensures PadsSingle(log + e)
  {
    forall k | 0 <= k < |log + e| ensures SinglePad(log + e, k) {
      if k < |log| { assert SinglePad(log, k); }
    }
  }

  ghost predicate Paired(s: State) {
    PadsSingle(s.h.log) && (s.producer.Advanced? ==> CallEntries(s.producer.entries))
  }

  lemma {:induction false} PairedStep(s: State, a: Action)
    requires Paired(s)
    ensures Paired(Do(s, a))
  {
    if a.Publish? && s.producer.Advanced? { PadsStaySingle(s.h.log, s.producer.entries); }
  }

  lemma {:induction false} PairedRun(size: nat, actions: seq<Action>)
    ensures Paired(Run(Init(size), actions))
  {
    if actions != [] {
      PairedRun(size, actions[..|actions| - 1]);
      PairedStep(Run(Init(size), actions[..|actions| - 1]), actions[|actions| - 1]);
    }
  }

  /** Where the records of a log are in it. */
  function Places(log: seq<Entry>): (p: seq<nat>)
  {
    if log == [] then []
    else Places(log[..|log| - 1]) + if log[|log| - 1].item.Some? then [|log| - 1] else []
  }

  /** Record `i` of a log: its place, its number, and how far it is from the one before. */
  ghost predicate Placed(log: seq<Entry>, recs: seq<Record>, p: seq<nat>, i: nat) {
    && i < |recs| && i < |p| && p[i] < |log| && log[p[i]].item == Some(recs[i])
    && var before: int := if i == 0 then -1 else p[i - 1];
       p[i] == before + 1 || (p[i] == before + 2 && log[before + 1].item.None?)
  }

  ghost predicate AllPlaced(log: seq<Entry>, recs: seq<Record>, p: seq<nat>) {
    |p| == |recs| && forall i {:trigger Placed(log, recs, p, i)} :: 0 <= i < |p| ==> Placed(log, recs, p, i)
  }

  /** How far the last record is behind the end of the log: no pad, or one. */
  ghost predicate EndsNear(log: seq<Entry>, p: seq<nat>) {
    var last: int := if p == [] then -1 else p[|p| - 1];
    if log != [] && log[|log| - 1].item.None? then last == |log| - 2 else last == |log| - 1
  }

  ghost predicate NoTwoPads(log: seq<Entry>) {
    forall k {:trigger log[k]} :: 0 < k < |log| ==> log[k].item.Some? || log[k - 1].item.Some?
  }

  lemma {:induction false} PlacesStep(log: seq<Entry>, e: Entry, recs: seq<Record>, p: seq<nat>)
    requires AllPlaced(log, recs, p) && EndsNear(log, p) && (log != [] ==> e.item.Some? || log[|log| - 1].item.Some?)
    ensures var more := if e.item.Some? then [|log|] else [];
      AllPlaced(log + [e], recs + RecordOf(e), p + more) && EndsNear(log + [e], p + more)
  {
    var log', recs', p' := log + [e], recs + RecordOf(e), p + if e.item.Some? then [|log|] else [];
    forall i | 0 <= i < |p'| ensures Placed(log', recs', p', i) {
      if i < |p| { assert Placed(log, recs, p, i); }
    }
  }

  lemma {:induction false} PlacesFound(log: seq<Entry>)
    requires NoTwoPads(log)
    ensures AllPlaced(log, Records(log), Places(log)) && EndsNear(log, Places(log))
  {
    if log != [] {
      var front, e := log[..|log| - 1], log[|log| - 1];
      assert front + [e] == log;
      PlacesFound(front);
      PlacesStep(front, e, Records(front), Places(front));
    }
  }

  /** The numbers a consumer sees: record `i` carries one more than the record before it,
      or two more exactly when a pad was written between them, counting modulo 2^64
      from 1. */
  ghost predicate Numbered(log: seq<Entry>, recs: seq<Record>, p: seq<nat>, i: nat) {
    Placed(log, recs, p, i) && recs[i].sequence == Wrap64(p[i] + 1)
  }

  lemma {:induction false} SequenceSeen(size: nat, actions: seq<Action>)
    requires SizeAccepted(size) && Honest(actions)
    ensures var s := Run(Init(size), actions);
      var p := Places(s.h.log);
      |s.h.delivered| <= |p| && forall i :: 0 <= i < |s.h.delivered| ==> Numbered(s.h.log, s.h.delivered, p, i)
  {
    var s := Run(Init(size), actions);
    var log, p := s.h.log, Places(s.h.log);
    InvRun(size, actions);
    PairedRun(size, actions);
    StoredPublished(s);
    RecordsSplit(log, s.h.walked);
    forall k | 0 < k < |log| ensures log[k].item.Some? || log[k - 1].item.Some? { assert SinglePad(log, k - 1); }
    PlacesFound(log);
    forall i | 0 <= i < |s.h.delivered| ensures Numbered(log, s.h.delivered, p, i) {
      assert Placed(log, Records(log), p, i);
      assert Genuine(size, log, p[i]);
    }
  }
}
