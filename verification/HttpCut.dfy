/** Chunked messages cut short by the end of the capture (app/src/http_parse.cpp): what is
    kept of their body, and exactly when they are marked as truncated. */
module HttpCut {
  import opened Bytes
  import opened HttpText
  import opened HttpMessages
  import HttpStability
  import opened HttpWire
  import opened HttpRoundTrip

  // ---- places in a chunked body -----------------------------------------------------------

  /** Where chunk `i` starts. */
  function ChunkStart(chunks: seq<Chunk>, i: nat): nat
    requires i <= |chunks|
  {
    if i == 0 then 0 else ChunkStart(chunks, i - 1) + |chunks[i - 1].line| + 2 + |chunks[i - 1].data| + 2
  }

  /** Where the data of chunk `i` starts. */
  function DataStart(chunks: seq<Chunk>, i: nat): nat
    requires i < |chunks|
  {
    ChunkStart(chunks, i) + |chunks[i].line| + 2
  }

  /** A body cut to `n` bytes ends before or in the data of chunk `i`, but past its line. */
  predicate CutsData(chunks: seq<Chunk>, i: nat, n: nat) {
    i < |chunks| && DataStart(chunks, i) <= n < DataStart(chunks, i) + |chunks[i].data|
  }

  predicate InsideData(chunks: seq<Chunk>, n: nat) {
    exists i {:trigger CutsData(chunks, i, n)} :: 0 <= i < |chunks| && CutsData(chunks, i, n)
  }

  predicate StartsData(chunks: seq<Chunk>, i: nat, n: nat) { i < |chunks| && n == DataStart(chunks, i) }

  /** A body cut to `n` bytes ends right before a chunk's data. */
  predicate AtDataStart(chunks: seq<Chunk>, n: nat) {
    exists i {:trigger StartsData(chunks, i, n)} :: 0 <= i < |chunks| && StartsData(chunks, i, n)
  }

  /** A body cut to `n` bytes still has the line of the last chunk with its break. */
  predicate LastLineKept(f: Framing, n: nat)
    requires f.Chunks?
  {
    ChunkStart(f.chunks, |f.chunks|) + |f.last| + 2 <= n
  }

  function Part(data: seq<Byte>, room: int): seq<Byte> { if room <= 0 then [] else Take(data, room) }

  /** The data of the first `k` chunks among the first `n` bytes of a body. */
  function Kept(chunks: seq<Chunk>, k: nat, n: nat): seq<Byte>
    requires k <= |chunks|
  {
    if k == 0 then [] else Kept(chunks, k - 1, n) + Part(chunks[k - 1].data, n - DataStart(chunks, k - 1))
  }

  lemma {:induction false} StartsInOrder(chunks: seq<Chunk>, i: nat, j: nat)
    requires i <= j <= |chunks|
    ensures ChunkStart(chunks, i) <= ChunkStart(chunks, j)
    ensures i < j ==> ChunkStart(chunks, i) + |chunks[i].line| + |chunks[i].data| + 4 <= ChunkStart(chunks, j)
  {
    if i < j { StartsInOrder(chunks, i, j - 1); }
  }

  /** The chunk, if any, in which a body is cut. */
  lemma {:induction false} Locate(chunks: seq<Chunk>, n: nat) returns (i: nat)
    ensures i <= |chunks| && ChunkStart(chunks, i) <= n && (i < |chunks| ==> n < ChunkStart(chunks, i + 1))
  {
    i := 0;
    while i < |chunks| && ChunkStart(chunks, i + 1) <= n
      invariant i <= |chunks| && ChunkStart(chunks, i) <= n
    {
      i := i + 1;
    }
  }

  lemma {:induction false} OnlyHere(chunks: seq<Chunk>, i: nat, n: nat)
    requires i <= |chunks| && ChunkStart(chunks, i) <= n && (i < |chunks| ==> n < ChunkStart(chunks, i + 1))
    ensures InsideData(chunks, n) <==> CutsData(chunks, i, n)
  {
    if j: nat :| j < |chunks| && CutsData(chunks, j, n) {
      if j < i { StartsInOrder(chunks, j, i); }
      if i < j { StartsInOrder(chunks, i + 1, j); }
    }
  }

  /** The same for the start of a chunk's data. */
  lemma {:induction false} OnlyStart(chunks: seq<Chunk>, i: nat, n: nat)
    requires i <= |chunks| && ChunkStart(chunks, i) <= n && (i < |chunks| ==> n < ChunkStart(chunks, i + 1))
    ensures AtDataStart(chunks, n) <==> StartsData(chunks, i, n)
  {
    if j: nat :| j < |chunks| && StartsData(chunks, j, n) {
      if j < i { StartsInOrder(chunks, j, i); }
      if i < j { StartsInOrder(chunks, i + 1, j); }
    }
  }

  lemma {:induction false} KeptWhole(chunks: seq<Chunk>, k: nat, n: nat)
    requires k <= |chunks| && ChunkStart(chunks, k) <= n
    ensures Kept(chunks, k, n) == Joined(chunks, k)
  {
    if k > 0 { KeptWhole(chunks, k - 1, n); }
  }

  lemma {:induction false} KeptNoMore(chunks: seq<Chunk>, i: nat, k: nat, n: nat)
    requires i <= k <= |chunks| && n < ChunkStart(chunks, i)
    ensures Kept(chunks, k, n) == Kept(chunks, i, n)
  {
    if i < k {
      KeptNoMore(chunks, i, k - 1, n);
      StartsInOrder(chunks, i, k - 1);
    }
  }

  /** What is kept when the cut is in chunk `i`. */
  lemma {:induction false} KeptUpTo(chunks: seq<Chunk>, i: nat, n: nat)
    requires i < |chunks| && ChunkStart(chunks, i) <= n < ChunkStart(chunks, i + 1)
    ensures Kept(chunks, |chunks|, n) == Joined(chunks, i) + Part(chunks[i].data, n - DataStart(chunks, i))
  {
    KeptWhole(chunks, i, n);
    KeptNoMore(chunks, i + 1, |chunks|, n);
  }

  // ---- one turn of the chunk loop at the cut ---------------------------------------------------

  lemma {:induction false} HoldsCut(d: seq<Byte>, f: seq<Byte>, s: seq<Byte>, i: nat)
    requires d <= f && Holds(f, s, i) && i + |s| <= |d|
    ensures Holds(d, s, i)
  {
    forall k | 0 <= k < |s| ensures SameByte(d, s, i, k) { assert SameByte(f, s, i, k); }
  }

  lemma {:induction false} HoldsPart(d: seq<Byte>, f: seq<Byte>, s: seq<Byte>, i: nat)
    requires d <= f && Holds(f, s, i) && i <= |d| < i + |s|
    ensures d[i..] == s[..|d| - i]
  {
    forall k | 0 <= k < |d| - i ensures d[i..][k] == s[k] { assert SameByte(f, s, i, k); }
  }

  /** A line whose break is cut off is not found. */
  lemma {:induction false} LineLost(d: seq<Byte>, f: seq<Byte>, line: seq<Byte>, p: nat, b: seq<Byte>, t: bool, size: seq<Byte> -> nat)
    requires d <= f && Holds(f, line, p) && Without(line, CR) && Holds(f, CRLF, p + |line|) && p <= |d| < p + |line| + 2
    ensures Dechunk(d, p, b, t, size) == Body(b, true, |d|)
  {
    FindAfter(f, line, CRLF, p);
    if Find(d, CRLF, p).Some? { FindStable(d, f, CRLF, p); }
  }

  lemma {:induction false} KeepsPart(x: seq<Byte>, part: seq<Byte>)
    ensures Append(Take(x, MAX_BODY), part) == Take(x + part, MAX_BODY)
    ensures |x| > MAX_BODY || Overflows(Take(x, MAX_BODY), part) <==> |x| >= MAX_BODY || |x + part| > MAX_BODY
  {
    if |x| < MAX_BODY { assert Take(x, MAX_BODY) == x; }
  }

  lemma {:induction false} DataCut(d: seq<Byte>, f: seq<Byte>, line: seq<Byte>, data: seq<Byte>, p: nat, x: seq<Byte>, part: seq<Byte>, size: seq<Byte> -> nat)
    returns (r: Body)
    requires d <= f && Holds(d, line, p) && Without(line, CR) && Holds(d, CRLF, p + |line|) && size(line) == |data|
    requires Holds(f, data, p + |line| + 2) && |d| < p + |line| + 2 + |data| && part == data[..|d| - (p + |line| + 2)]
    ensures KeepsOf(d, p, x, size, r) && r.end == |d| && r.bytes == Take(x + part, MAX_BODY)
    ensures r.truncated <==> |x| >= MAX_BODY || |x + part| > MAX_BODY
  {
    FindAfter(d, line, CRLF, p);
    SliceOf(d, line, p);
    HoldsPart(d, f, data, p + |line| + 2);
    r := PartTaken(d, p, x, part, p + |line|, size);
  }

  lemma {:induction false} PartTaken(d: seq<Byte>, p: nat, x: seq<Byte>, part: seq<Byte>, le: nat, size: seq<Byte> -> nat) returns (r: Body)
    requires p <= |d| && Find(d, CRLF, p) == Some(le) && 0 < size(d[p..le]) && le + 2 + size(d[p..le]) > |d| && part == d[le + 2..]
    ensures KeepsOf(d, p, x, size, r) && r.end == |d| && r.bytes == Take(x + part, MAX_BODY)
    ensures r.truncated <==> |x| >= MAX_BODY || |x + part| > MAX_BODY
  {
    KeepsPart(x, part);
    HttpStability.CutTurn(d, p, Take(x, MAX_BODY), |x| > MAX_BODY, le, size);
    r := Body(Append(Take(x, MAX_BODY), part), |x| > MAX_BODY || Overflows(Take(x, MAX_BODY), part), |d|);
    KeepsIff(d, p, x, size, r);
  }

  lemma {:induction false} BreakCut(d: seq<Byte>, f: seq<Byte>, line: seq<Byte>, data: seq<Byte>, p: nat, x: seq<Byte>, more: seq<Byte>, size: seq<Byte> -> nat)
    returns (r: Body)
    requires d <= f && Holds(d, line, p) && Without(line, CR) && Holds(d, CRLF, p + |line|) && 0 < size(line) == |data| && more == x + data
    requires Holds(f, data, p + |line| + 2) && Holds(f, CRLF, p + |line| + 2 + |data|)
    requires p + |line| + 2 + |data| <= |d| < p + |line| + 2 + |data| + 2
    ensures KeepsOf(d, p, x, size, r) && r == Body(Take(more, MAX_BODY), true, |d|)
  {
    var q := p + |line| + 2;
    var to := q + |data|;
    TurnReads(d, p, line, size);
    HoldsCut(d, f, data, q);
    r := Body(Take(more, MAX_BODY), true, |d|);
    LineLost(d, f, [], to, Take(more, MAX_BODY), |more| > MAX_BODY, size);
    KeepsIff(d, to, more, size, r);
    DechunkTakes(d, p, x, Whole(q, to, to), data, more, size, r);
  }

  /** Reading at a chunk that is cut, when `x` is what the body holds so far. */
  lemma {:induction false} ChunkCut(d: seq<Byte>, f: seq<Byte>, c: Chunk, p: nat, x: seq<Byte>, part: seq<Byte>, size: seq<Byte> -> nat) returns (r: Body)
    requires d <= f && GoodChunk(c, size) && Holds(f, ChunkText(c), p) && p <= |d| < p + |c.line| + |c.data| + 4
    requires part == Part(c.data, |d| - (p + |c.line| + 2))
    ensures KeepsOf(d, p, x, size, r) && r.end == |d| && r.bytes == Take(x + part, MAX_BODY)
    ensures r.truncated <==> !(p + |c.line| + 2 <= |d| < p + |c.line| + 2 + |c.data|) || |x| >= MAX_BODY || |x + part| > MAX_BODY
  {
    var q := p + |c.line| + 2;
    ChunkSplits(f, p, c.line, c.data);
    if |d| < q {
      LineLost(d, f, c.line, p, Take(x, MAX_BODY), |x| > MAX_BODY, size);
      r := Body(Take(x, MAX_BODY), true, |d|);
      KeepsIff(d, p, x, size, r);
      assert x + part == x;
    } else {
      HoldsCut(d, f, c.line, p);
      HoldsCut(d, f, CRLF, p + |c.line|);
      if |d| < q + |c.data| {
        r := DataCut(d, f, c.line, c.data, p, x, part, size);
      } else {
        r := BreakCut(d, f, c.line, c.data, p, x, x + part, size);
      }
    }
  }

  /** Reading at the last chunk. */
  lemma {:induction false} EndCut(d: seq<Byte>, f: seq<Byte>, last: seq<Byte>, p: nat, x: seq<Byte>, size: seq<Byte> -> nat) returns (r: Body)
    requires d <= f && Without(last, CR) && size(last) == 0 && Holds(f, last, p) && Holds(f, CRLF, p + |last|) && p <= |d|
    ensures KeepsOf(d, p, x, size, r) && r.bytes == Take(x, MAX_BODY)
    ensures (r.truncated <==> |x| > MAX_BODY || |d| < p + |last| + 2) && (|d| < p + |last| + 2 ==> r.end == |d|)
  {
    if |d| < p + |last| + 2 {
      LineLost(d, f, last, p, Take(x, MAX_BODY), |x| > MAX_BODY, size);
    } else {
      HoldsCut(d, f, last, p);
      HoldsCut(d, f, CRLF, p + |last|);
      TurnReads(d, p, last, size);
    }
    r := Dechunk(d, p, Take(x, MAX_BODY), |x| > MAX_BODY, size);
    KeepsIff(d, p, x, size, r);
  }

  // ---- the chunks before the cut ---------------------------------------------------------------

  lemma {:induction false} StartAgrees(chunks: seq<Chunk>, i: nat)
    requires i <= |chunks|
    ensures StartAt(ChunkTexts(chunks), i) == ChunkStart(chunks, i)
  {
    if i > 0 { StartAgrees(chunks, i - 1); }
  }

  lemma {:induction false} JoinedFront(chunks: seq<Chunk>, n: nat, i: nat)
    requires i <= n <= |chunks|
    ensures Joined(chunks[..n], i) == Joined(chunks, i)
  {
    if i > 0 { JoinedFront(chunks, n, i - 1); }
  }

  /** The chunks before chunk `i` stand first, and it stands after them. */
  lemma {:induction false} FrontStands(f: seq<Byte>, p: nat, chunks: seq<Chunk>, i: nat) returns (text: seq<Byte>)
    requires i <= |chunks| && Holds(f, Concat(ChunkTexts(chunks)), p)
    ensures text == Concat(ChunkTexts(chunks[..i])) && |text| == ChunkStart(chunks, i) && Holds(f, text, p)
    ensures i < |chunks| ==> Holds(f, ChunkText(chunks[i]), p + |text|)
  {
    var texts := ChunkTexts(chunks);
    assert ChunkTexts(chunks[..i]) == texts[..i];
    text := Concat(texts[..i]);
    ConcatLaidOut(texts);
    ConcatLaidOut(texts[..i]);
    StartStable(texts, i, i);
    StartAgrees(chunks, i);
    Halves(texts, i);
    ConcatAppend(texts[..i], texts[i..]);
    HoldsSplit(f, text, Concat(texts[i..]), p);
    if i < |chunks| {
      assert Sits(Concat(texts), texts, i);
      HoldsWithin(f, Concat(texts), texts[i], p, ChunkStart(chunks, i));
    }
  }

  /** The chunk loop reaches the chunk in which the body is cut. */
  lemma {:induction false} LoopReaches(d: seq<Byte>, f: seq<Byte>, p: nat, chunks: seq<Chunk>, i: nat, text: seq<Byte>, at: nat, x: seq<Byte>, size: seq<Byte> -> nat, r: Body)
    requires d <= f && i <= |chunks| && GoodChunks(chunks, size)
    requires text == Concat(ChunkTexts(chunks[..i])) && Holds(f, text, p) && at == p + |text| <= |d|
    requires x == Joined(chunks, i) && KeepsOf(d, at, x, size, r)
    ensures r == Dechunk(d, p, [], false, size)
  {
    var front := chunks[..i];
    forall c | c in front ensures GoodChunk(c, size) { assert c in chunks; }
    JoinedFront(chunks, i, i);
    HoldsCut(d, f, text, p);
    LoopReads(d, p, front, text, at, x, size, r);
  }

  ghost predicate GoodEnd(f: Framing, size: seq<Byte> -> nat) {
    f.Chunks? && GoodChunks(f.chunks, size) && Without(f.last, CR) && size(f.last) == 0
  }

  /** A body of which the cap leaves something out. */
  ghost predicate OverCap(f: Framing, n: nat)
    requires f.Chunks?
  {
    var kept := Kept(f.chunks, |f.chunks|, n);
    |kept| > 0x10_0000 || (|kept| == 0x10_0000 && AtDataStart(f.chunks, n))
  }

  /** What the chunk loop makes of a cut body. */
  ghost predicate ReadsCut(r: Body, f: Framing, n: nat)
    requires f.Chunks?
  {
    && r.bytes == Take(Kept(f.chunks, |f.chunks|, n), 0x10_0000)
    && (r.truncated <==> OverCap(f, n) || (!InsideData(f.chunks, n) && !LastLineKept(f, n)))
  }

  /** A chunk, where it starts, and what is before it. */
  lemma {:induction false} ChunkPlace(chunks: seq<Chunk>, i: nat, n: nat) returns (c: Chunk, s: nat, x: seq<Byte>, part: seq<Byte>)
    requires i < |chunks|
    ensures c == chunks[i] && s == ChunkStart(chunks, i) && ChunkStart(chunks, i + 1) == s + |c.line| + |c.data| + 4
    ensures x == Joined(chunks, i) && part == Part(c.data, n - (s + |c.line| + 2))
  {
    c, s, x := chunks[i], ChunkStart(chunks, i), Joined(chunks, i);
    part := Part(c.data, n - (s + |c.line| + 2));
  }

  /** What a cut in chunk `i` keeps and should mark. */
  lemma {:induction false} PlaceOfCut(fr: Framing, i: nat, n: nat, c: Chunk, s: nat, x: seq<Byte>, part: seq<Byte>, r: Body)
    requires fr.Chunks? && i < |fr.chunks| && c == fr.chunks[i] && s == ChunkStart(fr.chunks, i) <= n < ChunkStart(fr.chunks, i + 1)
    requires x == Joined(fr.chunks, i) && part == Part(c.data, n - (s + |c.line| + 2)) && r.bytes == Take(x + part, MAX_BODY)
    requires r.truncated <==> !(s + |c.line| + 2 <= n < s + |c.line| + 2 + |c.data|) || |x| >= MAX_BODY || |x + part| > MAX_BODY
    ensures ReadsCut(r, fr, n)
  {
    KeptUpTo(fr.chunks, i, n);
    OnlyHere(fr.chunks, i, n);
    OnlyStart(fr.chunks, i, n);
    BeforeLast(fr, i, n);
  }

  /** The cut chunk, read after those before it; `at` is where it starts and `x` what they hold. */
  lemma {:induction false} ReadsToCut(d: seq<Byte>, f: seq<Byte>, p: nat, chunks: seq<Chunk>, i: nat, c: Chunk, at: nat, x: seq<Byte>, part: seq<Byte>, size: seq<Byte> -> nat)
    returns (r: Body)
    requires d <= f && GoodChunks(chunks, size) && Holds(f, Concat(ChunkTexts(chunks)), p)
    requires i < |chunks| && c == chunks[i] && at == p + ChunkStart(chunks, i) <= |d| < at + |c.line| + |c.data| + 4
    requires x == Joined(chunks, i) && part == Part(c.data, |d| - (at + |c.line| + 2))
    ensures p <= |d| && r == Dechunk(d, p, [], false, size) && r.end == |d| && r.bytes == Take(x + part, MAX_BODY)
    ensures r.truncated <==> !(at + |c.line| + 2 <= |d| < at + |c.line| + 2 + |c.data|) || |x| >= MAX_BODY || |x + part| > MAX_BODY
  {
    var text := FrontStands(f, p, chunks, i);
    assert GoodChunk(c, size);
    r := ChunkCut(d, f, c, at, x, part, size);
    LoopReaches(d, f, p, chunks, i, text, at, x, size, r);
  }

  /** The chunks stand at `p`, and the last chunk's line after them. */
  ghost predicate EndStands(f: seq<Byte>, p: nat, fr: Framing, text: seq<Byte>)
    requires fr.Chunks?
  {
    && text == Concat(ChunkTexts(fr.chunks)) && |text| == ChunkStart(fr.chunks, |fr.chunks|) && Holds(f, text, p)
    && Holds(f, fr.last, p + |text|) && Holds(f, CRLF, p + |text| + |fr.last|)
  }

  lemma {:induction false} BeforeLast(fr: Framing, i: nat, n: nat)
    requires fr.Chunks? && i < |fr.chunks| && n < ChunkStart(fr.chunks, i + 1)
    ensures !LastLineKept(fr, n)
  {
    StartsInOrder(fr.chunks, i + 1, |fr.chunks|);
  }

  lemma {:induction false} CutInChunk(d: seq<Byte>, f: seq<Byte>, p: nat, fr: Framing, text: seq<Byte>, i: nat, size: seq<Byte> -> nat) returns (r: Body)
    requires d <= f && GoodEnd(fr, size) && EndStands(f, p, fr, text) && i < |fr.chunks| && p <= |d|
    requires ChunkStart(fr.chunks, i) <= |d| - p < ChunkStart(fr.chunks, i + 1)
    ensures r == Dechunk(d, p, [], false, size) && ReadsCut(r, fr, |d| - p) && !LastLineKept(fr, |d| - p) && r.end == |d|
  {
    BeforeLast(fr, i, |d| - p);
    var c, s, x, part := ChunkPlace(fr.chunks, i, |d| - p);
    r := ReadsToCut(d, f, p, fr.chunks, i, c, p + s, x, part, size);
    PlaceOfCut(fr, i, |d| - p, c, s, x, part, r);
  }

  /** The last chunk, read after all the others. */
  lemma {:induction false} ReadsToEnd(d: seq<Byte>, f: seq<Byte>, p: nat, chunks: seq<Chunk>, text: seq<Byte>, last: seq<Byte>, at: nat, x: seq<Byte>, size: seq<Byte> -> nat)
    returns (r: Body)
    requires d <= f && GoodChunks(chunks, size) && text == Concat(ChunkTexts(chunks)) && Holds(f, text, p) && x == Joined(chunks, |chunks|)
    requires Without(last, CR) && size(last) == 0 && at == p + |text| <= |d| && Holds(f, last, at) && Holds(f, CRLF, at + |last|)
    ensures p <= |d| && r == Dechunk(d, p, [], false, size) && r.bytes == Take(x, MAX_BODY)
    ensures (r.truncated <==> |x| > MAX_BODY || |d| < at + |last| + 2) && (|d| < at + |last| + 2 ==> r.end == |d|)
  {
    HoldsCut(d, f, text, p);
    r := EndCut(d, f, last, at, x, size);
    LoopReads(d, p, chunks, text, at, x, size, r);
  }

  /** What a cut after all chunks keeps and should mark. */
  lemma {:induction false} PlaceOfEnd(fr: Framing, n: nat, x: seq<Byte>, r: Body)
    requires fr.Chunks? && ChunkStart(fr.chunks, |fr.chunks|) <= n && x == Joined(fr.chunks, |fr.chunks|)
    requires r.bytes == Take(x, MAX_BODY) && (r.truncated <==> |x| > MAX_BODY || !LastLineKept(fr, n))
    ensures ReadsCut(r, fr, n)
  {
    KeptWhole(fr.chunks, |fr.chunks|, n);
    OnlyHere(fr.chunks, |fr.chunks|, n);
    OnlyStart(fr.chunks, |fr.chunks|, n);
  }

  lemma {:induction false} CutAtEnd(d: seq<Byte>, f: seq<Byte>, p: nat, fr: Framing, text: seq<Byte>, x: seq<Byte>, size: seq<Byte> -> nat) returns (r: Body)
    requires d <= f && GoodEnd(fr, size) && EndStands(f, p, fr, text) && p + |text| <= |d| && x == Joined(fr.chunks, |fr.chunks|)
    ensures p <= |d| && r == Dechunk(d, p, [], false, size) && r.bytes == Take(x, MAX_BODY)
    ensures (r.truncated <==> |x| > MAX_BODY || !LastLineKept(fr, |d| - p)) && (!LastLineKept(fr, |d| - p) ==> r.end == |d|)
  {
    r := ReadsToEnd(d, f, p, fr.chunks, text, fr.last, p + |text|, x, size);
  }

  lemma {:induction false} BodyStands(f: seq<Byte>, p: nat, fr: Framing) returns (text: seq<Byte>)
    requires fr.Chunks? && Holds(f, BodyText(fr), p)
    ensures EndStands(f, p, fr, text)
  {
    var rest := TrailersText(fr.trailers);
    text := Concat(ChunkTexts(fr.chunks));
    HoldsSplit(f, text, fr.last + (CRLF + rest), p);
    HoldsSplit3(f, fr.last, CRLF, rest, p + |text|);
    ConcatLaidOut(ChunkTexts(fr.chunks));
    StartAgrees(fr.chunks, |fr.chunks|);
  }

  lemma {:induction false} CutPast(d: seq<Byte>, f: seq<Byte>, p: nat, fr: Framing, text: seq<Byte>, size: seq<Byte> -> nat) returns (r: Body)
    requires d <= f && GoodEnd(fr, size) && EndStands(f, p, fr, text) && p <= |d| && ChunkStart(fr.chunks, |fr.chunks|) <= |d| - p
    ensures r == Dechunk(d, p, [], false, size) && ReadsCut(r, fr, |d| - p) && (!LastLineKept(fr, |d| - p) ==> r.end == |d|)
  {
    var x := Joined(fr.chunks, |fr.chunks|);
    r := CutAtEnd(d, f, p, fr, text, x, size);
    PlaceOfEnd(fr, |d| - p, x, r);
  }

  lemma {:induction false} CutBody(d: seq<Byte>, f: seq<Byte>, p: nat, fr: Framing, size: seq<Byte> -> nat) returns (r: Body)
    requires d <= f && GoodEnd(fr, size) && Holds(f, BodyText(fr), p) && p <= |d|
    ensures r == Dechunk(d, p, [], false, size) && ReadsCut(r, fr, |d| - p)
    ensures !LastLineKept(fr, |d| - p) ==> r.end == |d|
  {
    var text := BodyStands(f, p, fr);
    var i := Locate(fr.chunks, |d| - p);
    if i < |fr.chunks| {
      r := CutInChunk(d, f, p, fr, text, i, size);
    } else {
      r := CutPast(d, f, p, fr, text, size);
    }
  }

  // ---- messages ------------------------------------------------------------------------------------

  /** How much of a message's body a capture holds. */
  ghost predicate CutAfterHead(d: seq<Byte>, f: seq<Byte>, off: nat, w: Wire, asResponse: bool, n: nat) {
    && WellFormed(w, asResponse) && w.framing.Chunks? && Holds(f, Serialise(w), off)
    && d <= f && |d| == off + |HeadText(w)| + 4 + n
  }

  lemma {:induction false} HeadKept(d: seq<Byte>, f: seq<Byte>, off: nat, line: seq<Byte>, lines: seq<Byte>, body: seq<Byte>)
    requires d <= f && Parts(f, off, line, lines, body) && off + |line| + |lines| + 4 <= |d|
    ensures Parts(d, off, line, lines, [])
  {
    HoldsCut(d, f, line, off);
    HoldsCut(d, f, lines, off + |line|);
    HoldsCut(d, f, BLANK_LINE, off + |line| + |lines|);
  }

  lemma {:induction false} CutParts(d: seq<Byte>, f: seq<Byte>, off: nat, w: Wire) returns (line: seq<Byte>, lines: seq<Byte>)
    requires d <= f && Holds(f, Serialise(w), off) && off + |HeadText(w)| + 4 <= |d|
    ensures line == StartText(w.start) && lines == FieldsText(w.fields) && |HeadText(w)| == |line| + |lines|
    ensures Parts(d, off, line, lines, []) && Holds(f, BodyText(w.framing), off + |line| + |lines| + 4)
  {
    var body: seq<Byte>;
    line, lines, body := WireParts(f, off, w);
    HeadKept(d, f, off, line, lines, body);
  }

  lemma {:induction false} CutHeadReads(d: seq<Byte>, f: seq<Byte>, off: nat, w: Wire, asResponse: bool) returns (h: Head, start: nat)
    requires GoodStart(w.start, asResponse) && GoodFields(w.fields) && Holds(f, Serialise(w), off)
    requires d <= f && off + |HeadText(w)| + 4 <= |d|
    ensures HeadAt(d, off, asResponse) == Some(Placed(h, start)) && h == WireHead(w)
    ensures start == off + |HeadText(w)| + 4 && Holds(f, BodyText(w.framing), start)
  {
    var line, lines := CutParts(d, f, off, w);
    h, start := WireHeadReads(d, off, w, asResponse, line, lines, []);
  }

  lemma {:induction false} CutBodyReads(h: Head, d: seq<Byte>, f: seq<Byte>, off: nat, start: nat, asResponse: bool, fr: Framing, n: nat) returns (m: Message)
    requires d <= f && start + n == |d| && HeadAt(d, off, asResponse) == Some(Placed(h, start))
    requires fr.Chunks? && GoodFraming(fr, h.headers, asResponse) && h.chunked && Holds(f, BodyText(fr), start)
    ensures MessageAt(d, off, asResponse) == Some(m) && m.head == h && ReadsCut(Body(m.body, m.bodyTruncated, 0), fr, n)
    ensures !LastLineKept(fr, n) ==> m.consumed == |d|
  {
    var r := CutBody(d, f, start, fr, ChunkSize);
    m := Message(h, r.bytes, r.truncated, |r.bytes|, r.end);
    MessageIs(d, off, asResponse, Placed(h, start), m);
  }

  lemma {:induction false} ChunkedHead(w: Wire, asResponse: bool)
    requires WellFormed(w, asResponse) && w.framing.Chunks?
    ensures GoodFraming(w.framing, WireHead(w).headers, asResponse) && WireHead(w).chunked
  {
  }

  /** A chunked message cut anywhere after its head, `n` bytes into its body. The head is
      read, and of the body exactly the data captured, up to the cap. It is marked as
      truncated if and only if the cap left something out, or the cut is in no chunk's
      data and before the end of the last chunk's line. */
  lemma {:induction false} CutTruncatedIff(d: seq<Byte>, f: seq<Byte>, off: nat, w: Wire, asResponse: bool, n: nat) returns (m: Message)
    requires CutAfterHead(d, f, off, w, asResponse, n)
    ensures MessageAt(d, off, asResponse) == Some(m) && m.head == WireHead(w)
    ensures m.body == Take(Kept(w.framing.chunks, |w.framing.chunks|, n), 0x10_0000)
    ensures m.bodyTruncated <==> OverCap(w.framing, n) || (!InsideData(w.framing.chunks, n) && !LastLineKept(w.framing, n))
    ensures !LastLineKept(w.framing, n) ==> m.consumed == |d|
  {
    var h, start := CutHeadReads(d, f, off, w, asResponse);
    ChunkedHead(w, asResponse);
    m := CutBodyReads(h, d, f, off, start, asResponse, w.framing, n);
  }

  lemma {:induction false} MissingIff(fr: Framing, n: nat)
    requires fr.Chunks? && (InsideData(fr.chunks, n) || LastLineKept(fr, n))
    ensures Kept(fr.chunks, |fr.chunks|, n) == BodyBytes(fr) <==> !InsideData(fr.chunks, n)
  {
    var chunks := fr.chunks;
    var i := Locate(chunks, n);
    OnlyHere(chunks, i, n);
    if i < |chunks| {
      StartsInOrder(chunks, i + 1, |chunks|);
      KeptUpTo(chunks, i, n);
      JoinedFits(chunks, i + 1);
    } else {
      KeptWhole(chunks, |chunks|, n);
    }
  }

  /** Bytes of the body are missing without a mark exactly when the cut is in a chunk's data
      and the cap does not come into it. */
  lemma {:induction false} UnmarkedIff(d: seq<Byte>, f: seq<Byte>, off: nat, w: Wire, asResponse: bool, n: nat) returns (m: Message)
    requires CutAfterHead(d, f, off, w, asResponse, n)
    ensures MessageAt(d, off, asResponse) == Some(m)
    ensures m.body != BodyBytes(w.framing) && !m.bodyTruncated <==> InsideData(w.framing.chunks, n) && !OverCap(w.framing, n)
  {
    m := CutTruncatedIff(d, f, off, w, asResponse, n);
    if InsideData(w.framing.chunks, n) || LastLineKept(w.framing, n) { MissingIff(w.framing, n); }
  }

  /** `POST / HTTP/1.1`, chunked, with the one chunk "hello". */
  function HelloWire(): Wire {
    Wire(RequestLine(Text("POST"), Text("/"), Text("HTTP/1.1")), [ChunkedField()], Chunks(HexChunks([Text("hello")]), Numeral(0, 16), []))
  }

  lemma {:induction false} HelloGood() returns (w: Wire, chunk: Chunk)
    ensures w == HelloWire() && WellFormed(w, false) && w.framing.Chunks? && w.framing.chunks == [chunk] && chunk.data == Text("hello")
  {
    w := HelloWire();
    var datas := [Text("hello")];
    chunk := HexChunks(datas)[0];
    assert Joined(HexChunks(datas), 1) == Joined(HexChunks(datas), 0) + chunk.data;
    ChunkingIsGood([], datas, false);
    assert [] + [ChunkedField()] == [ChunkedField()];
    HelloStart();
  }

  lemma {:induction false} HelloText() returns (w: Wire, chunk: Chunk, f: seq<Byte>)
    ensures WellFormed(w, false) && w.framing.Chunks? && w.framing.chunks == [chunk] && chunk.data == Text("hello")
    ensures f == Serialise(HelloWire()) && Holds(f, Serialise(w), 0)
  {
    w, chunk := HelloGood();
    f := Serialise(w);
    HoldsItself(f);
  }

  lemma {:induction false} HelloStart()
    ensures GoodStart(HelloWire().start, false)
  {
    var verb, target, version := Text("POST"), Text("/"), Text("HTTP/1.1");
    assert verb == [80, 79, 83, 84] && target == [47] && version == [72, 84, 84, 80, 47, 49, 46, 49];
    forall i | 0 <= i < |verb| ensures Differs(verb, i, SP) && Differs(verb, i, CR) { }
    forall i | 0 <= i < |target| ensures Differs(target, i, SP) && Differs(target, i, CR) { }
    forall i | 0 <= i < |version| ensures Differs(version, i, CR) { }
    assert version[..5] == HTTP;
  }

  /** Every message can be cut anywhere in its body. */
  lemma {:induction false} CutText(f: seq<Byte>, off: nat, w: Wire, asResponse: bool, n: nat) returns (d: seq<Byte>)
    requires WellFormed(w, asResponse) && w.framing.Chunks? && Holds(f, Serialise(w), off) && n <= |BodyText(w.framing)|
    ensures CutAfterHead(d, f, off, w, asResponse, n)
  {
    d := f[..off + |HeadText(w)| + 4 + n];
  }

  lemma {:induction false} OneChunkText(fr: Framing, c: Chunk)
    requires fr.Chunks? && fr.chunks == [c]
    ensures |ChunkText(c)| <= |BodyText(fr)|
  {
    var texts := ChunkTexts([c]);
    assert texts == [ChunkText(c)];
    ConcatOne(ChunkText(c));
  }

  lemma {:induction false} OneChunkKept(chunks: seq<Chunk>, c: Chunk, k: nat) returns (n: nat)
    requires k < |c.data| && chunks == [c]
    ensures n == |c.line| + 2 + k && Kept(chunks, |chunks|, n) == c.data[..k] && InsideData(chunks, n)
  {
    n := |c.line| + 2 + k;
    assert CutsData(chunks, 0, n);
    assert [] + c.data[..k] == c.data[..k];
  }

  /** A message cut in a chunk's data. */
  lemma {:induction false} CutInside(f: seq<Byte>, off: nat, w: Wire, asResponse: bool, n: nat, body: seq<Byte>) returns (d: seq<Byte>, m: Message)
    requires WellFormed(w, asResponse) && w.framing.Chunks? && Holds(f, Serialise(w), off) && n <= |BodyText(w.framing)|
    requires InsideData(w.framing.chunks, n) && body == Kept(w.framing.chunks, |w.framing.chunks|, n) && |body| < 0x10_0000
    ensures d <= f && MessageAt(d, off, asResponse) == Some(m) && m.body == body && !m.bodyTruncated
  {
    d := CutText(f, off, w, asResponse, n);
    m := CutTruncatedIff(d, f, off, w, asResponse, n);
  }

  /** A message cut after "he" of "hello" is shown with the body "he", not marked. */
  lemma {:induction false} HelloCut() returns (d: seq<Byte>, m: Message)
    ensures d <= Serialise(HelloWire()) && MessageAt(d, 0, false) == Some(m)
    ensures m.body == Text("he") && !m.bodyTruncated
  {
    var w, chunk, f := HelloText();
    OneChunkText(w.framing, chunk);
    var n := OneChunkKept(w.framing.chunks, chunk, 2);
    d, m := CutInside(f, 0, w, false, n, chunk.data[..2]);
  }
}
