/** The parser runs on a capture that is still growing. What it has reported stays:
    more bytes change at most the last message, and that one only by extending it. */
module HttpStability {
  import opened Bytes
  import opened HttpText
  import opened HttpMessages

  // ---- head ------------------------------------------------------------------------------

  lemma {:induction false} StartLineStable(d: seq<Byte>, f: seq<Byte>, off: nat, asResponse: bool)
    requires d <= f && LooksLikeStartLine(d, off, asResponse)
    ensures LooksLikeStartLine(f, off, asResponse)
  {
    if asResponse { MatchStable(d, f, HTTP, off); }
  }

  lemma {:induction false} HeadIs(d: seq<Byte>, off: nat, asResponse: bool, end: nat, head: seq<Byte>, r: Option<Head>)
    requires LooksLikeStartLine(d, off, asResponse) && Find(d, BLANK_LINE, off) == Some(end)
    requires head == d[off..end] && r == HeadOf(head, asResponse)
    ensures HeadAt(d, off, asResponse) == if r.Some? then Some(Placed(r.value, end + 4)) else None
  {
  }

  /** A complete head is read the same however the capture continues. */
  lemma {:induction false} HeadStable(d: seq<Byte>, f: seq<Byte>, off: nat, asResponse: bool)
    requires d <= f && HeadAt(d, off, asResponse).Some?
    ensures HeadAt(f, off, asResponse) == HeadAt(d, off, asResponse)
  {
    StartLineStable(d, f, off, asResponse);
    FindStable(d, f, BLANK_LINE, off);
    var end := Find(d, BLANK_LINE, off).value;
    SliceStable(d, f, off, end);
    var r := HeadOf(d[off..end], asResponse);
    HeadIs(d, off, asResponse, end, d[off..end], r);
    HeadIs(f, off, asResponse, end, d[off..end], r);
  }

  // ---- body ------------------------------------------------------------------------------

  lemma {:induction false} AppendGrows(b: seq<Byte>, x: seq<Byte>, y: seq<Byte>)
    requires x <= y
    ensures Append(b, x) <= Append(b, y)
  {
    if |b| < MAX_BODY { TakeGrows(x, y, MAX_BODY - |b|); }
  }

  lemma {:induction false} AppendExtends(b: seq<Byte>, data: seq<Byte>)
    ensures b <= Append(b, data)
  {
  }

  /** The chunk loop only adds to the body. */
  lemma {:induction false} DechunkExtends(d: seq<Byte>, p: nat, b: seq<Byte>, t: bool, size: seq<Byte> -> nat)
    requires p <= |d|
    ensures b <= Dechunk(d, p, b, t, size).bytes
    decreases |d| - p
  {
    match ChunkTurn(d, p, size)
    case NoLine =>
    case Done(_) =>
    case Cut(q) => AppendExtends(b, d[q..]);
    case Whole(from, to, next) =>
      var data := d[from..to];
      AppendExtends(b, data);
      DechunkExtends(d, next, Append(b, data), t || Overflows(b, data), size);
      Prefixes(b, Append(b, data), Dechunk(d, p, b, t, size).bytes);
  }

  lemma {:induction false} TakeGrows(x: seq<Byte>, y: seq<Byte>, n: nat)
    requires x <= y
    ensures Take(x, n) <= Take(y, n)
  {
  }

  /** Reading stopped before the end of the shorter capture gives the same result on
      the longer one; otherwise the longer one has read at least as much. */
  ghost predicate BodyGrows(a: Body, b: Body, n: nat) {
    (a.end < n ==> b == a) && a.bytes <= b.bytes && a.end <= b.end
  }

  lemma {:induction false} SkipBreakStable(d: seq<Byte>, f: seq<Byte>, p: nat)
    requires d <= f && p + 2 <= |d|
    ensures SkipBreak(f, p) == SkipBreak(d, p)
  {
    MatchStable(d, f, CRLF, p);
  }

  /** How one turn on the longer capture continues one on the shorter. */
  ghost predicate TurnGrows(a: Turn, b: Turn, n: nat) {
    match a
    case NoLine => (b.Done? ==> n <= b.end) && (b.Whole? ==> n <= b.next)
    case Done(end) => b.Done? && end <= b.end && (end < n ==> b.end == end)
    case Cut(from) => b == Cut(from) || (b.Whole? && b.from == from && n < b.to)
    case Whole(from, to, next) =>
      b.Whole? && b.from == from && b.to == to && next <= b.next && (next + 2 <= n ==> b.next == next)
  }

  lemma {:induction false} ChunkGrows(d: seq<Byte>, f: seq<Byte>, q: nat, chunk: nat)
    requires d <= f && q <= |d|
    ensures TurnGrows(ChunkAt(d, q, chunk), ChunkAt(f, q, chunk), |d|)
  {
    if chunk == 0 {
      if Find(d, CRLF, q).Some? {
        FindStable(d, f, CRLF, q);
      } else if Find(f, CRLF, q).Some? {
        FoundLater(d, f, CRLF, q);
      }
    } else if q + chunk + 2 <= |d| {
      SkipBreakStable(d, f, q + chunk);
    }
  }

  lemma {:induction false} TurnOfLonger(d: seq<Byte>, f: seq<Byte>, p: nat, size: seq<Byte> -> nat)
    requires d <= f && p <= |d|
    ensures TurnGrows(ChunkTurn(d, p, size), ChunkTurn(f, p, size), |d|)
  {
    if Find(d, CRLF, p).Some? {
      FindStable(d, f, CRLF, p);
      var le := Find(d, CRLF, p).value;
      SliceStable(d, f, p, le);
      ChunkGrows(d, f, le + 2, size(d[p..le]));
    } else if Find(f, CRLF, p).Some? {
      FoundLater(d, f, CRLF, p);
    }
  }

  lemma {:induction false} Prefixes(x: seq<Byte>, y: seq<Byte>, z: seq<Byte>)
    requires x <= y <= z
    ensures x <= z
  {
  }

  /** The chunk loop on the longer capture continues the one on the shorter. */
  lemma {:induction false} DechunkGrows(d: seq<Byte>, f: seq<Byte>, p: nat, b: seq<Byte>, t: bool, size: seq<Byte> -> nat)
    requires d <= f && p <= |d|
    ensures BodyGrows(Dechunk(d, p, b, t, size), Dechunk(f, p, b, t, size), |d|)
    decreases |d| - p
  {
    TurnOfLonger(d, f, p, size);
    match ChunkTurn(d, p, size)
    case NoLine => DechunkExtends(f, p, b, t, size);
    case Done(_) =>
    case Cut(from) => CutGrows(d, f, p, b, t, size, from);
    case Whole(from, to, next) =>
      SliceStable(d, f, from, to);
      var data := d[from..to];
      var c, u := Append(b, data), t || Overflows(b, data);
      if next + 2 <= |d| {
        DechunkGrows(d, f, next, c, u, size);
      } else {
        OutOfLines(d, next, c, u, size);
        DechunkExtends(f, ChunkTurn(f, p, size).next, c, u, size);
      }
  }

  lemma {:induction false} CutGrows(d: seq<Byte>, f: seq<Byte>, p: nat, b: seq<Byte>, t: bool, size: seq<Byte> -> nat, from: nat)
    requires d <= f && p <= |d| && ChunkTurn(d, p, size) == Cut(from)
    requires TurnGrows(Cut(from), ChunkTurn(f, p, size), |d|)
    ensures BodyGrows(Dechunk(d, p, b, t, size), Dechunk(f, p, b, t, size), |d|)
  {
    match ChunkTurn(f, p, size)
    case Cut(_) => AppendGrows(b, d[from..], f[from..]);
    case Whole(_, to, next) =>
      var data := f[from..to];
      AppendGrows(b, d[from..], data);
      DechunkExtends(f, next, Append(b, data), t || Overflows(b, data), size);
      Prefixes(Append(b, d[from..]), Append(b, data), Dechunk(f, next, Append(b, data), t || Overflows(b, data), size).bytes);
  }

  lemma {:induction false} OutOfLines(d: seq<Byte>, p: nat, b: seq<Byte>, t: bool, size: seq<Byte> -> nat)
    requires p <= |d| < p + 2
    ensures Dechunk(d, p, b, t, size) == Body(b, true, |d|)
  {
  }

  ghost predicate Grown(a: Message, b: Message, n: nat) {
    (a.consumed < n ==> b == a) && a.head == b.head && a.body <= b.body && a.consumed <= b.consumed
  }

  lemma {:induction false} FinishGrows(h: Head, d: seq<Byte>, f: seq<Byte>, start: nat, asResponse: bool)
    requires d <= f && start <= |d|
    ensures Grown(Finish(h, d, start, asResponse), Finish(h, f, start, asResponse), |d|)
  {
    if h.chunked {
      DechunkGrows(d, f, start, [], false, ChunkSize);
    } else {
      match FindHeader(h.headers, CONTENT_LENGTH)
      case Some(cl) => SizedGrows(h, d, f, start, StrToUL(cl.value, 10));
      case None => AppendGrows([], d[start..], f[start..]);
    }
  }

  lemma {:induction false} SizedGrows(h: Head, d: seq<Byte>, f: seq<Byte>, start: nat, len: nat)
    requires d <= f && start <= |d|
    ensures Grown(Sized(h, d, start, len), Sized(h, f, start, len), |d|)
  {
    AppendGrows([], d[start..start + Min(len, |d| - start)], f[start..start + Min(len, |f| - start)]);
    if len <= |d| - start { SliceStable(d, f, start, start + len); }
  }

  // ---- messages ---------------------------------------------------------------------------

  lemma {:induction false} MessageIs(d: seq<Byte>, off: nat, asResponse: bool, h: Placed)
    requires HeadAt(d, off, asResponse) == Some(h)
    ensures h.start <= |d| && MessageAt(d, off, asResponse) == Some(Finish(h.head, d, h.start, asResponse))
  {
  }

  /** A message that ends before the end of the capture is final: whatever follows, it
      is parsed to the same message and the same offset. One that reaches the end may
      still grow, but keeps its head and what it has of a body. */
  lemma {:induction false} MessageGrows(d: seq<Byte>, f: seq<Byte>, off: nat, asResponse: bool)
    requires d <= f && MessageAt(d, off, asResponse).Some?
    ensures MessageAt(f, off, asResponse).Some?
    ensures Grown(MessageAt(d, off, asResponse).value, MessageAt(f, off, asResponse).value, |d|)
  {
    HeadStable(d, f, off, asResponse);
    var h := HeadAt(d, off, asResponse).value;
    FinishGrows(h.head, d, f, h.start, asResponse);
    MessageIs(d, off, asResponse, h);
    MessageIs(f, off, asResponse, h);
  }

  lemma {:induction false} SkipBlankStable(d: seq<Byte>, f: seq<Byte>, off: nat)
    requires d <= f && off <= |d| && SkipBlank(d, off) < |d|
    ensures SkipBlank(f, off) == SkipBlank(d, off)
    decreases |d| - off
  {
    if off < |d| && (d[off] == CR || d[off] == LF) { SkipBlankStable(d, f, off + 1); }
  }

  /** Message `i` of the shorter capture against that of the longer one: equal if
      another message follows it or bytes are left over, else grown. */
  ghost predicate GrownAt(a: seq<Message>, b: seq<Message>, i: nat, n: nat) {
    i < |a| && i < |b| && Grown(a[i], b[i], n) && (i + 1 < |a| ==> a[i] == b[i])
  }

  lemma {:induction false} GrowAt(a: seq<Message>, b: seq<Message>, i: nat, d: seq<Byte>, f: seq<Byte>, asResponse: bool, room: nat)
    requires d <= f && i < |a| && i <= |b| && (i > 0 ==> a[i - 1] == b[i - 1])
    requires Reading(a, d, 0, asResponse, room) && Reading(b, f, 0, asResponse, room)
    ensures i < |b| && Grown(a[i], b[i], |d|)
  {
    assert ReadAt(a, i, d, 0, asResponse, room) && ReadAt(b, i, f, 0, asResponse, room);
    var at := PlaceOf(a, i, d, 0);
    SkipBlankStable(d, f, if i == 0 then 0 else a[i - 1].consumed);
    assert PlaceOf(b, i, f, 0) == at;
    MessageGrows(d, f, at, asResponse);
  }

  /** A message with another one after it ends before the end of the buffer. */
  lemma {:induction false} NotLast(a: seq<Message>, i: nat, d: seq<Byte>, asResponse: bool, room: nat)
    requires i + 1 < |a| && Reading(a, d, 0, asResponse, room)
    ensures a[i].consumed < |d|
  {
    assert ReadAt(a, i + 1, d, 0, asResponse, room);
  }

  lemma {:induction false} MessagesGrow(a: seq<Message>, b: seq<Message>, i: nat, d: seq<Byte>, f: seq<Byte>,
                                        asResponse: bool, room: nat)
    requires d <= f && i < |a| && Reading(a, d, 0, asResponse, room) && Reading(b, f, 0, asResponse, room)
    ensures GrownAt(a, b, i, |d|)
  {
    if i > 0 { MessagesGrow(a, b, i - 1, d, f, asResponse, room); }
    GrowAt(a, b, i, d, f, asResponse, room);
    if i + 1 < |a| { NotLast(a, i, d, asResponse, room); }
  }

  /** One list of messages against that of a longer capture: the same but for the last
      message, which may still have grown. */
  ghost predicate Continues(a: seq<Message>, b: seq<Message>, n: nat) {
    && |a| <= |b|
    && (forall i :: 0 <= i < |a| - 1 ==> a[i] == b[i])
    && (a != [] ==> Grown(a[|a| - 1], b[|a| - 1], n))
  }

  /** HttpParse of a longer capture agrees with HttpParse of the shorter one on all but
      its last message, and on that one too unless it reached the end of the capture,
      in which case the longer capture gives the same head and extends the body. */
  lemma {:induction false} ExtensionStable(d: seq<Byte>, e: seq<Byte>, asResponse: bool)
    ensures Continues(Messages(d, asResponse), Messages(d + e, asResponse), |d|)
  {
    ReadingsGrow(Messages(d, asResponse), Messages(d + e, asResponse), d, d + e, asResponse);
  }

  lemma {:induction false} ReadingsGrow(a: seq<Message>, b: seq<Message>, d: seq<Byte>, f: seq<Byte>, asResponse: bool)
    requires d <= f && Reading(a, d, 0, asResponse, MAX_MESSAGES) && Reading(b, f, 0, asResponse, MAX_MESSAGES)
    ensures Continues(a, b, |d|)
  {
    if a != [] {
      MessagesGrow(a, b, |a| - 1, d, f, asResponse, MAX_MESSAGES);
    }
    forall i | 0 <= i < |a| - 1 ensures a[i] == b[i] {
      MessagesGrow(a, b, i, d, f, asResponse, MAX_MESSAGES);
    }
  }

  // ---- truncation -----------------------------------------------------------------------------

  /** A chunk cut short by the end of the capture is kept as far as it goes, and only the
      cap can set the flag there. */
  lemma {:induction false} CutTurn(d: seq<Byte>, p: nat, b: seq<Byte>, t: bool, le: nat, size: seq<Byte> -> nat)
    requires p <= |d| && Find(d, CRLF, p) == Some(le) && 0 < size(d[p..le]) && le + 2 + size(d[p..le]) > |d|
    ensures Dechunk(d, p, b, t, size) == Body(Append(b, d[le + 2..]), t || Overflows(b, d[le + 2..]), |d|)
  {
    assert ChunkTurn(d, p, size) == Cut(le + 2);
  }

  /** With a length the flag is exact: it is set if and only if bytes announced by the
      header are missing from the stored body. */
  lemma {:induction false} SizedTruncatedIff(h: Head, d: seq<Byte>, start: nat, len: nat)
    requires start <= |d|
    ensures var m := Sized(h, d, start, len);
      m.body == Take(d[start..], Min(len, 0x10_0000)) && (m.bodyTruncated <==> |m.body| < len)
  {
    var take := Min(len, |d| - start);
    assert Append([], d[start..start + take]) == Take(d[start..start + take], MAX_BODY);
    assert Take(d[start..start + take], MAX_BODY) == Take(d[start..], Min(len, MAX_BODY));
  }
}
