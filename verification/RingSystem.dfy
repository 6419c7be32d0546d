/** The shared ring as a step system: one producer call at a time (KndRingWrite under
    its lock), one consumer (KndClient::poll), every byte store of the producer a step
    of its own. Runs are arbitrary sequences of actions, so every interleaving is one. */
module RingSystem {
  import opened Bytes
  import opened RingProtocol

  // ---- state -----------------------------------------------------------------

  /** Something written into the ring: the bytes it occupies, the bytes actually
      stored, and the record it holds (none for a WRAP pad, of which only the header
      is stored). */
  datatype Entry = Entry(length: nat, sequence: nat, image: seq<Byte>, item: Option<Record>)

  /** The mapped region: data area, the two positions, the producer's private
      position, sequence counter and statistics. */
  datatype Ring = Ring(mem: seq<Byte>, readPos: nat, writePos: nat, producerPos: nat, nextSequence: nat,
                       totalRecords: nat, totalBytes: nat, droppedRecords: nat, droppedBytes: nat)

  /** Where the lock holder is: before the snapshot; storing bytes; private position
      advanced; position published but statistics not yet updated. */
  datatype Producer =
    | Idle
    | Storing(req: Request, plan: Plan, done: nat)
    | Advanced(req: Request, plan: Plan, entries: seq<Entry>)
    | Published(plan: Plan)

  /** Where poll is: outside; after loading writePos; in the loop; or having touched
      memory outside the data area. */
  datatype Consumer = Asleep | Snapped(end: nat) | Walking(rp: nat, end: nat) | Faulted

  /** History: every published entry, the requests made and the ones accepted, the
      records handed to the callback, and whether the resync branch or a store
      outside the data area was ever taken. `taken`, `walked` and `snapped` count the
      entries before readPos, before poll's local position and before its snapshot. */
  datatype History = History(log: seq<Entry>, called: seq<Request>, accepted: seq<Request>, delivered: seq<Record>,
                             taken: nat, walked: nat, snapped: nat, resynced: bool, stray: bool)

  datatype State = State(ring: Ring, producer: Producer, consumer: Consumer, h: History) {
    function Size(): nat { |ring.mem| }
  }

  datatype Action =
    | Begin(req: Request) | StoreByte | Advance | Publish | Count
    | Snapshot | LoadReadPos | Visit | Release
    | Tamper(value: nat) // the consumer's process writes an arbitrary readPos

  function EmptyRing(size: nat): (r: Ring)
  {
    Ring(Zeros(size), 0, 0, 0, 0, 0, 0, 0, 0)
  }

  function Init(size: nat): State {
    State(EmptyRing(size), Idle, Asleep, History([], [], [], [], 0, 0, 0, false, false))
  }

  // ---- producer --------------------------------------------------------------

  /** The record a request becomes when placed with a given length and sequence. */
  function MakeRecord(req: Request, length: nat, sequence: nat): Record {
    Record(length, req.kind, req.flags, sequence, req.timestamp,
           req.payload + req.data + Zeros(if length >= req.Raw() then length - req.Raw() else 0))
  }

  /** InterlockedIncrement64 wraps. */
  function Wrap64(n: nat): (r: nat)
    ensures r < U64
    ensures n < U64 ==> r == n
  {
    n % 0x1_0000_0000_0000_0000
  }

  function PadEntry(length: nat, sequence: nat, timestamp: nat): Entry {
    Entry(length, sequence, HeaderBytes(length, REC_WRAP, 0, sequence, timestamp), None)
  }

  function ItemEntry(rec: Record): Entry {
    Entry(rec.length, rec.sequence,
          HeaderBytes(rec.length, rec.kind, rec.flags, rec.sequence, rec.timestamp) + rec.body, Some(rec))
  }

  /** The pad (if any) and the record of one call; sequence numbers start at 1. */
  function MakeEntries(req: Request, plan: Plan, nextSequence: nat): (e: seq<Entry>)
    requires plan.Place?
    ensures |e| == if plan.pad > 0 then 2 else 1
  {
    if plan.pad > 0 then
      [PadEntry(plan.pad, Wrap64(nextSequence + 1), req.timestamp),
       ItemEntry(MakeRecord(req, plan.length, Wrap64(nextSequence + 2)))]
    else
      [ItemEntry(MakeRecord(req, plan.length, Wrap64(nextSequence + 1)))]
  }

  datatype Store = Store(off: nat, value: Byte)

  function StoresAt(off: nat, image: seq<Byte>): (st: seq<Store>)
    ensures |st| == |image|
  {
    seq(|image|, i requires 0 <= i < |image| => Store(off + i, image[i]))
  }

  /** The byte stores of one call, in program order. */
  function Stores(offset: nat, plan: Plan, entries: seq<Entry>): seq<Store>
    requires plan.Place? && |entries| == if plan.pad > 0 then 2 else 1
  {
    if plan.pad > 0 then StoresAt(offset, entries[0].image) + StoresAt(0, entries[1].image)
    else StoresAt(offset, entries[0].image)
  }

  predicate StoringReady(s: State) {
    s.Size() > 0 && s.producer.Storing? && s.producer.plan.Place?
  }

  function NewEntries(s: State): seq<Entry>
    requires StoringReady(s)
  {
    MakeEntries(s.producer.req, s.producer.plan, s.ring.nextSequence)
  }

  function StoresOf(s: State): seq<Store>
    requires StoringReady(s)
  {
    Stores(Cell(s.ring.producerPos, s.Size()), s.producer.plan, NewEntries(s))
  }

  /** Take the lock, sample both positions and decide. */
  function DoBegin(s: State, req: Request): State {
    if s.producer.Idle? && req.Valid() && s.Size() > 0 then
      var h := s.h.(called := s.h.called + [req]);
      match MakePlan(s.Size(), s.ring.producerPos, s.ring.readPos, req.Need())
      case Drop(bytes) =>
        s.(ring := s.ring.(droppedRecords := s.ring.droppedRecords + 1, droppedBytes := s.ring.droppedBytes + bytes), h := h)
      case Place(pad, length) =>
        s.(producer := Storing(req, Place(pad, length), 0), h := h)
    else s
  }

  function DoStore(s: State): State {
    if StoringReady(s) && s.producer.done < |StoresOf(s)| then
      var st := StoresOf(s)[s.producer.done];
      var p := s.producer.(done := s.producer.done + 1);
      if st.off < s.Size() then s.(ring := s.ring.(mem := s.ring.mem[st.off := st.value]), producer := p)
      else s.(producer := p, h := s.h.(stray := true))
    else s
  }

  function DoAdvance(s: State): State {
    if StoringReady(s) && s.producer.done >= |StoresOf(s)| then
      var p := s.producer;
      s.(ring := s.ring.(producerPos := s.ring.producerPos + p.plan.pad + p.plan.length,
                         nextSequence := s.ring.nextSequence + |NewEntries(s)|),
         producer := Advanced(p.req, p.plan, NewEntries(s)))
    else s
  }

  function DoPublish(s: State): State {
    if s.producer.Advanced? then
      s.(ring := s.ring.(writePos := s.ring.producerPos),
         producer := Published(s.producer.plan),
         h := s.h.(log := s.h.log + s.producer.entries, accepted := s.h.accepted + [s.producer.req]))
    else s
  }

  function DoCount(s: State): State {
    if s.producer.Published? && s.producer.plan.Place? then
      s.(ring := s.ring.(totalRecords := s.ring.totalRecords + 1,
                         totalBytes := s.ring.totalBytes + s.producer.plan.pad + s.producer.plan.length),
         producer := Idle)
    else s
  }

  // ---- consumer --------------------------------------------------------------

  /** poll's sanity test on a length read from memory. */
  predicate BadLength(len: nat, size: nat) {
    len < HEADER || len % 8 != 0 || len > size
  }

  function DoSnapshot(s: State): State {
    if s.consumer.Asleep? then s.(consumer := Snapped(s.ring.writePos), h := s.h.(snapped := |s.h.log|)) else s
  }

  function DoLoadReadPos(s: State): State {
    if s.consumer.Snapped? then s.(consumer := Walking(s.ring.readPos, s.consumer.end), h := s.h.(walked := s.h.taken)) else s
  }

  /** What poll makes of the bytes at a position: a header or body outside the data
      area, a length that fails the sanity test, or a step over an entry whose
      record, unless it is a pad, goes to the callback. */
  datatype Look = Outside | Corrupt | Step(len: nat, records: seq<Record>)

  function LookAt(mem: seq<Byte>, rp: nat): (v: Look)
    requires |mem| > 0
    ensures v.Step? ==> v.len >= HEADER
  {
    var off := Cell(rp, |mem|);
    if off + HEADER > |mem| then Outside
    else
      var len := LengthAt(mem, off);
      if BadLength(len, |mem|) then Corrupt
      else if KindAt(mem, off) == REC_WRAP then Step(len, [])
      else if off + len > |mem| then Outside
      else Step(len, [RecordAt(mem, off)])
  }

  /** One iteration of poll's loop. */
  function DoVisit(s: State): State {
    if s.consumer.Walking? && s.consumer.rp < s.consumer.end && s.Size() > 0 then
      var rp, end := s.consumer.rp, s.consumer.end;
      match LookAt(s.ring.mem, rp)
      case Outside => s.(consumer := Faulted)
      case Corrupt => s.(consumer := Walking(end, end), h := s.h.(resynced := true))
      case Step(len, records) =>
        s.(consumer := Walking(rp + len, end),
           h := s.h.(delivered := s.h.delivered + records, walked := s.h.walked + 1))
    else s
  }

  function DoRelease(s: State): State {
    if s.consumer.Walking? && s.consumer.rp >= s.consumer.end then
      s.(ring := s.ring.(readPos := s.consumer.rp), consumer := Asleep, h := s.h.(taken := s.h.walked))
    else s
  }

  // ---- runs -------------------------------------------------------------------

  /** One action; an action that is not enabled leaves the state unchanged. */
  function Do(s: State, a: Action): State {
    match a
    case Begin(req) => DoBegin(s, req)
    case StoreByte => DoStore(s)
    case Advance => DoAdvance(s)
    case Publish => DoPublish(s)
    case Count => DoCount(s)
    case Snapshot => DoSnapshot(s)
    case LoadReadPos => DoLoadReadPos(s)
    case Visit => DoVisit(s)
    case Release => DoRelease(s)
    case Tamper(value) => s.(ring := s.ring.(readPos := value))
  }

  function Run(s: State, actions: seq<Action>): State {
    if actions == [] then s else Do(Run(s, actions[..|actions| - 1]), actions[|actions| - 1])
  }

  /** Runs in which readPos is written by poll alone. */
  ghost predicate Honest(actions: seq<Action>) {
    forall i :: 0 <= i < |actions| ==> !actions[i].Tamper?
  }

  /** What poll would hand to its callback from memory alone, starting at `rp`. */
  datatype Walked = Walked(records: seq<Record>, end: nat, resynced: bool, inBounds: bool)

  function Walk(mem: seq<Byte>, rp: nat, end: nat): Walked
    requires |mem| > 0
    decreases if rp < end then end - rp else 0
  {
    if rp >= end then Walked([], rp, false, true)
    else
      match LookAt(mem, rp)
      case Outside => Walked([], rp, false, false)
      case Corrupt => Walked([], end, true, true)
      case Step(len, records) =>
        var rest := Walk(mem, rp + len, end);
        rest.(records := records + rest.records)
  }
}
