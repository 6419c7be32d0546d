/** The data path of KndClassifyStream (driver/wfp.c): cap the copy, cut it into
    chunks, and write one DATA record per chunk. */
module StreamCapture {
  import opened Bytes
  import opened RingProtocol
  import opened RingSystem
  import opened SharedRing
  import FlowModel

  const STREAM_COPY_MAX: nat := 256 * 1024
  const MAX_DATA_CHUNK: nat := 64 * 1024
  const TRUNCATED: nat := 1

  // ---- chunks -------------------------------------------------------------------------

  function Chunks(bytes: seq<Byte>): (c: seq<seq<Byte>>)
    ensures forall i :: 0 <= i < |c| ==> 0 < |c[i]| <= MAX_DATA_CHUNK
  {
    if bytes == [] then []
    else
      var n := Min(|bytes|, MAX_DATA_CHUNK);
      [bytes[..n]] + Chunks(bytes[n..])
  }

  /** Cutting into chunks loses and reorders nothing. */
  lemma {:induction false} ChunksRejoin(bytes: seq<Byte>)
    ensures Concat(Chunks(bytes)) == bytes
    decreases |bytes|
  {
    if bytes != [] {
      var n := Min(|bytes|, MAX_DATA_CHUNK);
      ChunksRejoin(bytes[n..]);
      ConcatAppend([bytes[..n]], Chunks(bytes[n..]));
      ConcatOne(bytes[..n]);
      assert bytes == bytes[..n] + bytes[n..];
    }
  }

  /** Every chunk but the last has 64 KiB, the last at least one byte and no more. */
  lemma {:induction false} ChunkSizes(bytes: seq<Byte>, i: nat)
    requires i < |Chunks(bytes)|
    ensures if i < |Chunks(bytes)| - 1 then |Chunks(bytes)[i]| == 0x1_0000 else 0 < |Chunks(bytes)[i]| <= 0x1_0000
  {
    if i > 0 { ChunkSizes(bytes[Min(|bytes|, MAX_DATA_CHUNK)..], i - 1); }
  }

  // ---- the payload header ------------------------------------------------------------------

  function DirByte(inbound: bool): Byte { if inbound then 1 else 0 }

  /** KND_DATA_PAYLOAD: flow id, direction, kind (ciphertext), reserved, data length. */
  function DataHeader(flowId: nat, inbound: bool, len: nat): (h: seq<Byte>)
    ensures |h| == FlowModel.DATA_SIZE
  {
    ToLE(flowId, 8) + [DirByte(inbound), 0, 0, 0] + ToLE(len, 4)
  }

  lemma {:induction false} HeaderSplits(flowId: nat, inbound: bool, len: nat)
    ensures var h := DataHeader(flowId, inbound, len);
      h[0..8] == ToLE(flowId, 8) && h[8] == DirByte(inbound) && h[9] == h[10] == h[11] == 0 && h[12..16] == ToLE(len, 4)
  {
    var a, b := ToLE(flowId, 8), ToLE(len, 4);
    Splits(a, [DirByte(inbound), 0, 0, 0], b);
  }

  lemma {:induction false} Splits(a: seq<Byte>, m: seq<Byte>, b: seq<Byte>)
    requires |a| == 8 && |m| == 4 && |b| == 4
    ensures var h := a + m + b; h[0..8] == a && h[8..12] == m && h[8] == m[0] && h[9] == m[1] && h[10] == m[2] && h[11] == m[3] && h[12..16] == b
  {
  }

  /** A body that starts with a data header reads back as written. */
  lemma {:induction false} HeaderReads(body: seq<Byte>, flowId: nat, inbound: bool, len: nat)
    requires flowId < U64 && len < U32 && |body| >= FlowModel.DATA_SIZE
    requires body[..FlowModel.DATA_SIZE] == DataHeader(flowId, inbound, len)
    ensures FlowModel.FlowIdOf(body) == flowId && FlowModel.DataLengthOf(body) == len
    ensures (FlowModel.DirectionOf(body) == FlowModel.DIR_INBOUND) == inbound
    ensures body[8] == (if inbound then 1 else 0) && body[9] == body[10] == body[11] == 0
  {
    HeaderSplits(flowId, inbound, len);
    Pow256Values();
    var h := body[..FlowModel.DATA_SIZE];
    assert h[9] == body[9] && h[10] == body[10] && h[11] == body[11];
    assert body[0..8] == h[0..8] && body[12..16] == h[12..16] && body[8] == h[8];
    LERoundTrip(body, 0, flowId, 8);
    LERoundTrip(body, 12, len, 4);
  }

  /** A request the chunk loop makes: one chunk of one flow and direction. */
  ghost predicate IsChunk(req: Request, flowId: nat, inbound: bool, chunk: seq<Byte>) {
    && req.kind == REC_DATA && req.data == chunk && flowId < U64 && 0 < |chunk| <= MAX_DATA_CHUNK
    && req.payload == DataHeader(flowId, inbound, |chunk|) && req.Valid()
  }

  ghost predicate AllChunks(reqs: seq<Request>, flowId: nat, inbound: bool, chunks: seq<seq<Byte>>) {
    && |reqs| == |chunks|
    && forall i {:trigger IsChunk(reqs[i], flowId, inbound, chunks[i])} :: 0 <= i < |reqs| ==>
         IsChunk(reqs[i], flowId, inbound, chunks[i])
  }

  // ---- the loop ------------------------------------------------------------------------------

  ghost predicate AllValid(reqs: seq<Request>) {
    forall i {:trigger reqs[i].Valid()} :: 0 <= i < |reqs| ==> reqs[i].Valid()
  }

  /** Writes made one after the other. */
  ghost function AfterWrites(r: Ring, reqs: seq<Request>): (n: Ring)
    requires RingSize(|r.mem|) && Resting(|r.mem|, r.producerPos) && AllValid(reqs)
    ensures |n.mem| == |r.mem| && Resting(|r.mem|, n.producerPos)
  {
    if reqs == [] then r
    else
      var m := AfterWrites(r, reqs[..|reqs| - 1]);
      AfterWriteRests(m, reqs[|reqs| - 1]);
      AfterWrite(m, reqs[|reqs| - 1])
  }

  lemma {:induction false} AfterOneMore(r: Ring, reqs: seq<Request>, req: Request)
    requires RingSize(|r.mem|) && Resting(|r.mem|, r.producerPos) && AllValid(reqs) && req.Valid()
    ensures AllValid(reqs + [req]) && AfterWrites(r, reqs + [req]) == AfterWrite(AfterWrites(r, reqs), req)
  {
    assert (reqs + [req])[..|reqs|] == reqs;
  }

  lemma {:induction false} ChunksLast(bytes: seq<Byte>, off: nat)
    requires off < |bytes|
    ensures var n := Min(|bytes| - off, MAX_DATA_CHUNK);
      Chunks(bytes[off..]) == [bytes[off..off + n]] + Chunks(bytes[off + n..])
  {
    var n := Min(|bytes| - off, MAX_DATA_CHUNK);
    assert bytes[off..][..n] == bytes[off..off + n] && bytes[off..][n..] == bytes[off + n..];
  }

  lemma {:induction false} ChunkStep(bytes: seq<Byte>, off: nat, done: seq<seq<Byte>>)
    requires off < |bytes| && Chunks(bytes) == done + Chunks(bytes[off..])
    ensures var n := Min(|bytes| - off, MAX_DATA_CHUNK);
      Chunks(bytes) == (done + [bytes[off..off + n]]) + Chunks(bytes[off + n..])
  {
    ChunksLast(bytes, off);
    var n := Min(|bytes| - off, MAX_DATA_CHUNK);
    Associate(done, [bytes[off..off + n]], Chunks(bytes[off + n..]));
  }

  ghost predicate Flagged(reqs: seq<Request>, flags: nat) {
    forall i {:trigger HasFlags(reqs[i], flags)} :: 0 <= i < |reqs| ==> HasFlags(reqs[i], flags)
  }

  ghost predicate HasFlags(req: Request, flags: nat) { req.flags == flags }

  lemma {:induction false} OneMoreChunk(reqs: seq<Request>, flowId: nat, inbound: bool, flags: nat, done: seq<seq<Byte>>, req: Request)
    requires AllChunks(reqs, flowId, inbound, done) && Flagged(reqs, flags)
    requires IsChunk(req, flowId, inbound, req.data) && req.flags == flags
    ensures AllChunks(reqs + [req], flowId, inbound, done + [req.data]) && Flagged(reqs + [req], flags)
  {
    var rs, ds := reqs + [req], done + [req.data];
    forall i | 0 <= i < |rs| ensures IsChunk(rs[i], flowId, inbound, ds[i]) && HasFlags(rs[i], flags) {
      if i < |reqs| { assert IsChunk(reqs[i], flowId, inbound, done[i]) && HasFlags(reqs[i], flags); }
    }
  }

  /** The loop so far: the writes for the first `off` bytes have been made, in order. */
  ghost predicate Written(r: Ring, now: Ring, reqs: seq<Request>, flowId: nat, inbound: bool, flags: nat, bytes: seq<Byte>, off: nat) {
    && RingSize(|r.mem|) && Resting(|r.mem|, r.producerPos) && AllValid(reqs) && now == AfterWrites(r, reqs)
    && Flagged(reqs, flags) && off <= |bytes|
    && exists done :: AllChunks(reqs, flowId, inbound, done) && Chunks(bytes) == done + Chunks(bytes[off..])
  }

  lemma {:induction false} WrittenMore(r: Ring, now: Ring, reqs: seq<Request>, flowId: nat, inbound: bool, flags: nat, bytes: seq<Byte>,
                                       off: nat, req: Request, after: Ring)
    requires Written(r, now, reqs, flowId, inbound, flags, bytes, off) && off < |bytes| && req.flags == flags
    requires IsChunk(req, flowId, inbound, bytes[off..off + Min(|bytes| - off, MAX_DATA_CHUNK)])
    requires AllValid(reqs + [req]) && after == AfterWrites(r, reqs + [req])
    ensures Written(r, after, reqs + [req], flowId, inbound, flags, bytes, off + Min(|bytes| - off, MAX_DATA_CHUNK))
  {
    var done :| AllChunks(reqs, flowId, inbound, done) && Chunks(bytes) == done + Chunks(bytes[off..]);
    ChunkStep(bytes, off, done);
    OneMoreChunk(reqs, flowId, inbound, flags, done, req);
  }

  lemma {:induction false} AllWritten(r: Ring, now: Ring, reqs: seq<Request>, flowId: nat, inbound: bool, flags: nat, bytes: seq<Byte>)
    requires Written(r, now, reqs, flowId, inbound, flags, bytes, |bytes|)
    ensures AllChunks(reqs, flowId, inbound, Chunks(bytes)) && AllValid(reqs) && Flagged(reqs, flags)
    ensures RingSize(|r.mem|) && Resting(|r.mem|, r.producerPos) && now == AfterWrites(r, reqs)
  {
    var done :| AllChunks(reqs, flowId, inbound, done) && Chunks(bytes) == done + Chunks(bytes[|bytes|..]);
    assert done + [] == done;
  }

  lemma {:induction false} NothingWritten(r: Ring, flowId: nat, inbound: bool, flags: nat, bytes: seq<Byte>)
    requires RingSize(|r.mem|) && Resting(|r.mem|, r.producerPos)
    ensures Written(r, r, [], flowId, inbound, flags, bytes, 0)
  {
    assert bytes[0..] == bytes;
    var done: seq<seq<Byte>> := [];
    assert AllChunks([], flowId, inbound, done) && Chunks(bytes) == done + Chunks(bytes[0..]);
  }

  /** One pass of the chunk loop. */
  method WriteChunk(ring: RingBuffer, flowId: nat, inbound: bool, flags: nat, now: nat, bytes: seq<Byte>, off: nat, chunk: nat,
                    ghost r: Ring, ghost reqs: seq<Request>)
    returns (ghost req: Request)
    requires ring.Valid() && flowId < U64 && now < U64 && flags <= TRUNCATED
    requires off < |bytes| && chunk == Min(|bytes| - off, MAX_DATA_CHUNK)
    requires Written(r, ring.View(), reqs, flowId, inbound, flags, bytes, off)
    modifies ring, ring.data
    ensures ring.Valid() && Written(r, ring.View(), reqs + [req], flowId, inbound, flags, bytes, off + chunk)
  {
    var part := bytes[off..off + chunk];
    var made := Request(REC_DATA, flags, now, DataHeader(flowId, inbound, chunk), part);
    req := made;
    AfterOneMore(r, reqs, req);
    ghost var before := ring.View();
    var _ := ring.Write(made);
    WrittenMore(r, before, reqs, flowId, inbound, flags, bytes, off, req, ring.View());
  }

  /** The chunk loop over the copied bytes. */
  method WriteChunks(ring: RingBuffer, flowId: nat, inbound: bool, flags: nat, bytes: seq<Byte>, clock: nat -> nat)
    returns (ghost reqs: seq<Request>)
    requires ring.Valid() && flowId < U64 && flags <= TRUNCATED && forall i :: clock(i) < U64
    modifies ring, ring.data
    ensures ring.Valid() && Written(old(ring.View()), ring.View(), reqs, flowId, inbound, flags, bytes, |bytes|)
  {
    reqs := [];
    ghost var r := ring.View();
    var off, count := 0, 0;
    NothingWritten(r, flowId, inbound, flags, bytes);
    while off < |bytes|
      invariant off <= |bytes| && ring.Valid()
      invariant Written(r, ring.View(), reqs, flowId, inbound, flags, bytes, off)
    {
      var chunk := |bytes| - off;
      if chunk > MAX_DATA_CHUNK {
        chunk := MAX_DATA_CHUNK;
      }
      ghost var req := WriteChunk(ring, flowId, inbound, flags, clock(count), bytes, off, chunk, r, reqs);
      reqs := reqs + [req];
      off := off + chunk;
      count := count + 1;
    }
  }

  /** KndClassifyStream from the copy on. `data` is the indication, `got` the number of
      bytes the filtering platform copied, `clock` the times the writes sample. */
  method CaptureStream(ring: RingBuffer, flowId: nat, inbound: bool, data: seq<Byte>, got: nat, clock: nat -> nat)
    returns (ghost reqs: seq<Request>)
    requires ring.Valid() && flowId < U64 && got <= Min(|data|, 0x4_0000)
    requires forall i :: clock(i) < U64
    modifies ring, ring.data
    ensures ring.Valid() && AllValid(reqs) && AllChunks(reqs, flowId, inbound, Chunks(data[..got]))
    ensures ring.View() == AfterWrites(old(ring.View()), reqs)
    ensures Flagged(reqs, if |data| > 0x4_0000 then 1 else 0)
  {
    reqs := [];
    ghost var r := ring.View();
    if |data| == 0 {
      NothingWritten(r, flowId, inbound, 0, data[..got]);
      AllWritten(r, r, [], flowId, inbound, 0, data[..got]);
      return;
    }
    var copyLen, recFlags := |data|, 0;
    if copyLen > STREAM_COPY_MAX {
      copyLen := STREAM_COPY_MAX;
      recFlags := TRUNCATED;
    }
    var scratch := data[..got];
    reqs := WriteChunks(ring, flowId, inbound, recFlags, scratch, clock);
    AllWritten(r, ring.View(), reqs, flowId, inbound, recFlags, scratch);
  }
}
