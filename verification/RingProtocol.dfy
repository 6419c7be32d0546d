/** The binary contract of common/knd_protocol.h: record header layout, alignment,
    the ring size rule, and the producer's placement decision (driver/ring.c). */
module RingProtocol {
  import opened Bytes

  const HEADER: int := 24        // sizeof(KND_RECORD)
  const MIN_RING: int := 0x10000 // KndRingCreate's lower bound

  const REC_WRAP: int := 0
  const REC_CONN_OPEN: int := 1
  const REC_CONN_CLOSE: int := 2
  const REC_DATA: int := 3

  /** A multiple of KND_RECORD_ALIGN, which is 8. */
  predicate Aligned(n: nat) { n % 8 == 0 }

  /** KND_ALIGN_UP. */
  function AlignUp(n: nat): (r: nat)
    ensures n <= r < n + 8 && Aligned(r)
  {
    (n + 7) / 8 * 8
  }

  /** KndRingCreate's test on the requested data size, a 32-bit quantity. */
  predicate SizeAccepted(dataSize: nat) {
    MIN_RING <= dataSize < U32 && BitAnd(dataSize, dataSize - 1) == 0
  }

  /** What placement relies on; masking relies on the power of two as well. */
  predicate RingSize(size: nat) {
    MIN_RING <= size < U32 && Aligned(size)
  }

  lemma {:induction false} PowersGrow(j: nat, k: nat)
    requires j <= k
    ensures Pow2(j) <= Pow2(k)
  {
    if j < k { PowersGrow(j, k - 1); }
  }

  lemma {:induction false} LargePowerAligned(k: nat)
    requires Pow2(k) >= 8
    ensures Pow2(k) % 8 == 0
  {
    assert Pow2(1) == 2 && Pow2(2) == 4 && Pow2(3) == 8;
    if k > 3 {
      PowersGrow(3, k - 1);
      LargePowerAligned(k - 1);
    }
  }

  /** The creation test accepts exactly the powers of two from 64 KiB up, and every
      one of them is a multiple of the record alignment. */
  lemma {:induction false} SizeRule(dataSize: nat)
    ensures SizeAccepted(dataSize) <==> 0x1_0000 <= dataSize < 0x1_0000_0000 && IsPowerOfTwo(dataSize)
    ensures SizeAccepted(dataSize) ==> RingSize(dataSize)
  {
    if MIN_RING <= dataSize < U32 {
      PowerOfTwoTest(dataSize);
      if IsPowerOfTwo(dataSize) {
        var k: nat :| Pow2(k) == dataSize;
        LargePowerAligned(k);
      }
    }
  }

  /** `pos & mask` is the cell of a position. */
  lemma {:induction false} MaskedPosition(pos: nat, size: nat)
    requires SizeAccepted(size)
    ensures BitAnd(pos, size - 1) == Cell(pos, size)
  {
    SizeRule(size);
    var k: nat :| Pow2(k) == size;
    MaskIsCell(pos, k);
  }

  // ---- records -------------------------------------------------------------

  datatype Record = Record(length: nat, kind: nat, flags: nat, sequence: nat, timestamp: nat, body: seq<Byte>)

  /** One call of KndRingWrite, with the system time it samples. */
  datatype Request = Request(kind: nat, flags: nat, timestamp: nat, payload: seq<Byte>, data: seq<Byte>) {
    /** Header, payload and data before alignment. */
    function Raw(): nat { HEADER + |payload| + |data| }

    /** What the callers guarantee: field widths, a real record type, and a length
        whose rounding fits the 32-bit length field. */
    predicate Valid() {
      && REC_WRAP < kind < U16 && flags < U16 && timestamp < U64
      && Raw() + 7 < U32
    }

    /** The aligned size asked for. */
    function Need(): (n: nat)
      ensures n >= HEADER && Aligned(n) && n >= Raw()
    {
      AlignUp(Raw())
    }
  }

  function HeaderBytes(length: nat, kind: nat, flags: nat, sequence: nat, timestamp: nat): (h: seq<Byte>)
    ensures |h| == HEADER
  {
    ToLE(length, 4) + ToLE(kind, 2) + ToLE(flags, 2) + ToLE(sequence, 8) + ToLE(timestamp, 8)
  }

  /** What the consumer sees at an offset by casting the bytes in place. */
  function LengthAt(mem: seq<Byte>, off: nat): nat
    requires off + HEADER <= |mem|
  {
    ReadLE(mem, off, 4)
  }

  function KindAt(mem: seq<Byte>, off: nat): nat
    requires off + HEADER <= |mem|
  {
    ReadLE(mem, off + 4, 2)
  }

  function RecordAt(mem: seq<Byte>, off: nat): Record
    requires off + HEADER <= |mem|
    requires HEADER <= LengthAt(mem, off) && off + LengthAt(mem, off) <= |mem|
  {
    var len := LengthAt(mem, off);
    Record(len, KindAt(mem, off), ReadLE(mem, off + 6, 2), ReadLE(mem, off + 8, 8),
           ReadLE(mem, off + 16, 8), mem[off + HEADER..off + len])
  }

  ghost predicate FieldsFit(length: nat, kind: nat, flags: nat, sequence: nat, timestamp: nat) {
    length < U32 && kind < U16 && flags < U16 && sequence < U64 && timestamp < U64
  }

  lemma {:induction false} HeaderSlices(length: nat, kind: nat, flags: nat, sequence: nat, timestamp: nat)
    ensures var h := HeaderBytes(length, kind, flags, sequence, timestamp);
      && h[..4] == ToLE(length, 4) && h[4..6] == ToLE(kind, 2) && h[6..8] == ToLE(flags, 2)
      && h[8..16] == ToLE(sequence, 8) && h[16..24] == ToLE(timestamp, 8)
  {
    var a, b, c, d, e := ToLE(length, 4), ToLE(kind, 2), ToLE(flags, 2), ToLE(sequence, 8), ToLE(timestamp, 8);
    Slices(a, b, c, d, e);
  }

  lemma {:induction false} Slices(a: seq<Byte>, b: seq<Byte>, c: seq<Byte>, d: seq<Byte>, e: seq<Byte>)
    requires |a| == 4 && |b| == 2 && |c| == 2 && |d| == 8 && |e| == 8
    ensures var h := a + b + c + d + e;
      h[..4] == a && h[4..6] == b && h[6..8] == c && h[8..16] == d && h[16..24] == e
  {
  }

  /** A header written at an offset reads back field by field. */
  lemma {:induction false} HeaderReadsBack(mem: seq<Byte>, off: nat, length: nat, kind: nat, flags: nat, sequence: nat, timestamp: nat)
    requires off + HEADER <= |mem|
    requires FieldsFit(length, kind, flags, sequence, timestamp)
    requires mem[off..off + HEADER] == HeaderBytes(length, kind, flags, sequence, timestamp)
    ensures LengthAt(mem, off) == length && KindAt(mem, off) == kind
    ensures ReadLE(mem, off + 6, 2) == flags
    ensures ReadLE(mem, off + 8, 8) == sequence
    ensures ReadLE(mem, off + 16, 8) == timestamp
  {
    var h := HeaderBytes(length, kind, flags, sequence, timestamp);
    HeaderSlices(length, kind, flags, sequence, timestamp);
    SliceOfSlice(mem, off, HEADER, 0, 4);
    SliceOfSlice(mem, off, HEADER, 4, 6);
    SliceOfSlice(mem, off, HEADER, 6, 8);
    SliceOfSlice(mem, off, HEADER, 8, 16);
    SliceOfSlice(mem, off, HEADER, 16, 24);
    Pow256Values();
    LERoundTrip(mem, off, length, 4);
    LERoundTrip(mem, off + 4, kind, 2);
    LERoundTrip(mem, off + 6, flags, 2);
    LERoundTrip(mem, off + 8, sequence, 8);
    LERoundTrip(mem, off + 16, timestamp, 8);
  }

  lemma {:induction false} SliceOfSlice(mem: seq<Byte>, off: nat, n: nat, i: nat, j: nat)
    requires i <= j <= n && off + n <= |mem|
    ensures mem[off + i..off + j] == mem[off..off + n][i..j]
  {
    var part := mem[off..off + n];
    assert forall k :: 0 <= k < n ==> part[k] == mem[off + k];
  }

  // ---- placement -------------------------------------------------------------

  /** The producer's decision: drop (adding `bytes` to droppedBytes), or write an
      optional WRAP pad of `pad` bytes followed by a record of `length` bytes. */
  datatype Plan = Drop(bytes: nat) | Place(pad: nat, length: nat)

  /** KndRingWrite up to the first store, on a producer position at buffer offset
      `offset` and a sampled (untrusted) consumer position. */
  function PlanAt(size: nat, offset: nat, wp: nat, rp: nat, need: nat): Plan
    requires offset < size
  {
    if need > size then Drop(need)
    else if rp > wp || wp - rp > size then Drop(need)
    else
      var avail := size - (wp - rp);
      var contig := size - offset;
      if need <= contig then
        var tail := contig - need;
        var length := if tail != 0 && tail < HEADER then contig else need;
        if avail < length then Drop(length) else Place(0, length)
      else
        if avail < contig + need then Drop(contig + need) else Place(contig, need)
  }

  function MakePlan(size: nat, wp: nat, rp: nat, need: nat): Plan
    requires size > 0
  {
    PlanAt(size, Cell(wp, size), wp, rp, need)
  }

  /** Offsets the producer may stop at: aligned, with room for a header before the
      end of the buffer (stopping exactly at the end is offset 0). */
  predicate RestingAt(size: nat, offset: nat) {
    Aligned(offset) && offset + HEADER <= size
  }

  predicate Resting(size: nat, pos: nat)
    requires size > 0
  {
    Aligned(pos) && RestingAt(size, Cell(pos, size))
  }

  /** What a placed record satisfies geometrically. */
  predicate FitsAt(size: nat, offset: nat, pad: nat, length: nat) {
    && HEADER <= length <= size && Aligned(length)
    && (pad == 0 ==> offset + length == size || offset + length <= size - HEADER)
    && (pad > 0 ==> offset + pad == size && HEADER <= pad < size && Aligned(pad) && length <= offset)
  }

  predicate Fits(size: nat, wp: nat, rp: nat, pad: nat, length: nat)
    requires size > 0
  {
    rp <= wp && wp + pad + length <= rp + size && FitsAt(size, Cell(wp, size), pad, length)
  }

  /** Every accepted write fits, whatever consumer position was sampled; the absorb
      rule is not applied after a pad, and the space test is what makes up for it. */
  lemma {:induction false} PlacedFits(size: nat, wp: nat, rp: nat, need: nat)
    requires RingSize(size) && Resting(size, wp)
    requires need >= HEADER && Aligned(need)
    requires MakePlan(size, wp, rp, need).Place?
    ensures var p := MakePlan(size, wp, rp, need);
      Fits(size, wp, rp, p.pad, p.length) && need <= p.length < need + HEADER
  {
    PlacedFitsAt(size, Cell(wp, size), wp, rp, need);
  }

  lemma {:induction false} PlacedFitsAt(size: nat, offset: nat, wp: nat, rp: nat, need: nat)
    requires RingSize(size) && RestingAt(size, offset)
    requires need >= HEADER && Aligned(need)
    requires PlanAt(size, offset, wp, rp, need).Place?
    ensures var p := PlanAt(size, offset, wp, rp, need);
      && rp <= wp && wp + p.pad + p.length <= rp + size
      && FitsAt(size, offset, p.pad, p.length) && need <= p.length < need + HEADER
  {
  }

  /** Some placement of a record of aligned size `need` fits between the positions. */
  ghost predicate CanHold(size: nat, wp: nat, rp: nat, need: nat)
    requires size > 0
  {
    exists pad: nat, length: nat {:trigger Fits(size, wp, rp, pad, length)} :: need <= length && Fits(size, wp, rp, pad, length)
  }

  /** A record is placed if and only if some placement of it fits, whatever consumer
      position was sampled. */
  lemma {:induction false} PlacedIff(size: nat, wp: nat, rp: nat, need: nat)
    requires RingSize(size) && Resting(size, wp) && need >= HEADER && Aligned(need)
    ensures MakePlan(size, wp, rp, need).Place? <==> CanHold(size, wp, rp, need)
  {
    var plan := MakePlan(size, wp, rp, need);
    if plan.Place? {
      PlacedFits(size, wp, rp, need);
      assert Fits(size, wp, rp, plan.pad, plan.length);
    }
    if CanHold(size, wp, rp, need) {
      var pad: nat, length: nat :| need <= length && Fits(size, wp, rp, pad, length);
      FitIsTaken(size, Cell(wp, size), wp, rp, need, pad, length);
    }
  }

  lemma {:induction false} FitIsTaken(size: nat, offset: nat, wp: nat, rp: nat, need: nat, pad: nat, length: nat)
    requires RestingAt(size, offset) && need >= HEADER && Aligned(need) && need <= length
    requires rp <= wp && wp + pad + length <= rp + size && FitsAt(size, offset, pad, length)
    ensures PlanAt(size, offset, wp, rp, need).Place?
  {
  }

  /** The plan wastes nothing: no placement, whether it fits between the positions or not,
      takes less than the record placed, or than what a record dropped for want of
      space is charged. */
  lemma {:induction false} PlanIsLeast(size: nat, wp: nat, rp: nat, need: nat, pad: nat, length: nat)
    requires RingSize(size) && Resting(size, wp) && need >= HEADER && Aligned(need)
    requires need <= length && FitsAt(size, Cell(wp, size), pad, length)
    ensures match MakePlan(size, wp, rp, need)
            case Place(p, l) => p + l <= pad + length
            case Drop(bytes) => bytes <= pad + length && (rp <= wp <= rp + size ==> bytes > size - (wp - rp))
  {
    LeastAt(size, Cell(wp, size), wp, rp, need, pad, length);
  }

  lemma {:induction false} LeastAt(size: nat, offset: nat, wp: nat, rp: nat, need: nat, pad: nat, length: nat)
    requires RestingAt(size, offset) && need >= HEADER && Aligned(need) && need <= length && FitsAt(size, offset, pad, length)
    ensures match PlanAt(size, offset, wp, rp, need)
            case Place(p, l) => p + l <= pad + length
            case Drop(bytes) => bytes <= pad + length && (rp <= wp <= rp + size ==> bytes > size - (wp - rp))
  {
  }

  /** What a drop is charged: the record's aligned size if it is larger than the ring or
      the sampled position makes no sense, otherwise more than the free space. */
  lemma {:induction false} DropCharge(size: nat, wp: nat, rp: nat, need: nat)
    requires RingSize(size) && Resting(size, wp) && need >= HEADER && Aligned(need) && MakePlan(size, wp, rp, need).Drop?
    ensures var bytes := MakePlan(size, wp, rp, need).bytes;
      if need > size || rp > wp || wp > rp + size then bytes == need
      else bytes > size - (wp - rp) && (bytes == need || bytes == size - Cell(wp, size) || bytes == size - Cell(wp, size) + need)
  {
  }

  /** The producer's next offset after a fitting write. */
  function NextAt(size: nat, offset: nat, pad: nat, length: nat): nat {
    if pad > 0 then length else if offset + length == size then 0 else offset + length
  }

  lemma {:induction false} NextCell(size: nat, wp: nat, pad: nat, length: nat)
    requires size > 0 && FitsAt(size, Cell(wp, size), pad, length)
    ensures Cell(wp + pad + length, size) == NextAt(size, Cell(wp, size), pad, length)
    ensures pad > 0 ==> Cell(wp + pad, size) == 0
  {
    if pad > 0 {
      CellWrap(wp, pad, size);
      CellOffset(wp + pad, length, size);
    } else if Cell(wp, size) + length == size {
      CellWrap(wp, length, size);
    } else {
      CellOffset(wp, length, size);
    }
  }

  lemma {:induction false} NextRests(size: nat, offset: nat, pad: nat, length: nat)
    requires RingSize(size) && RestingAt(size, offset) && FitsAt(size, offset, pad, length)
    ensures RestingAt(size, NextAt(size, offset, pad, length))
  {
  }

  lemma {:induction false} AlignedSum(a: nat, b: nat, c: nat)
    requires Aligned(a) && Aligned(b) && Aligned(c)
    ensures Aligned(a + b + c)
  {
  }

  /** No 32-bit quantity of the producer overflows on any ring up to 2 GiB, for any
      sampled consumer position. */
  lemma {:induction false} PlanStaysIn32Bits(size: nat, wp: nat, rp: nat, req: Request)
    requires RingSize(size) && size <= 0x8000_0000 && Resting(size, wp) && req.Valid()
    ensures req.Need() < U32 && Cell(wp, size) < U32 && size - Cell(wp, size) < U32
    ensures match MakePlan(size, wp, rp, req.Need())
            case Drop(bytes) => bytes < U32
            case Place(pad, length) => pad + length < U32
  {
    var offset, need := Cell(wp, size), req.Need();
    assert need <= size ==> (size - offset) + need < U32 || need <= size - offset;
  }

  /** An empty ring takes a record of aligned size `need` at every resting position
      if and only if the record is at most half the ring. */
  lemma {:induction false} EmptyRingAccepts(size: nat, need: nat)
    requires SizeAccepted(size) && need >= HEADER && Aligned(need)
    ensures (forall pos: nat :: Resting(size, pos) ==> MakePlan(size, pos, pos, need).Place?)
            <==> need <= size / 2
  {
    if need > size / 2 {
      LargeRecordDropped(size, need);
    } else {
      forall pos: nat | Resting(size, pos) ensures MakePlan(size, pos, pos, need).Place? {
        SmallRecordPlaced(size, Cell(pos, size), pos, need);
      }
    }
  }

  lemma {:induction false} LargeRecordDropped(size: nat, need: nat)
    requires SizeAccepted(size) && need > size / 2
    ensures Resting(size, size / 2) && MakePlan(size, size / 2, size / 2, need).Drop?
  {
    var half := size / 2;
    HalfRing(size);
    HalfFull(size, half, need);
  }

  lemma {:induction false} HalfFull(size: nat, half: nat, need: nat)
    requires 0 < half < size == 2 * half && need > half
    ensures PlanAt(size, half, half, half, need).Drop?
  {
  }

  lemma {:induction false} SmallRecordPlaced(size: nat, offset: nat, pos: nat, need: nat)
    requires offset < size && need <= size / 2
    ensures PlanAt(size, offset, pos, pos, need).Place?
  {
  }

  lemma {:induction false} HalfRing(size: nat)
    requires SizeAccepted(size)
    ensures size / 2 * 2 == size && Aligned(size / 2)
  {
    SizeRule(size);
    var k: nat :| Pow2(k) == size;
    assert size == 2 * Pow2(k - 1);
    LargePowerAligned(k - 1);
  }
}
