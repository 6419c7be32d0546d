/** app/src/http_parse.cpp as a function of the captured bytes: what a message is and
    which messages a buffer holds. */
module HttpMessages {
  import opened Bytes
  import opened HttpText

  const MAX_MESSAGES: nat := 64
  const MAX_BODY: nat := 0x10_0000

  datatype Header = Header(name: seq<Byte>, value: seq<Byte>)

  /** A request line or a status line. */
  datatype Line = Line(isRequest: bool, verb: seq<Byte>, target: seq<Byte>, version: seq<Byte>,
                       statusCode: int, statusReason: seq<Byte>)

  datatype Head = Head(line: Line, headers: seq<Header>, chunked: bool, contentType: seq<Byte>, contentEncoding: seq<Byte>)

  /** HttpMessage; `consumed` is where it ends in the buffer. */
  datatype Message = Message(head: Head, body: seq<Byte>, bodyTruncated: bool, bodyBytes: nat, consumed: nat)

  // ---- head ---------------------------------------------------------------------------

  predicate StartsWith(s: seq<Byte>, p: seq<Byte>) { |p| <= |s| && s[..|p|] == p }

  predicate LooksLikeStartLine(d: seq<Byte>, off: nat, asResponse: bool) {
    off < |d| && if asResponse then MatchAt(d, HTTP, off) else Alpha(d[off])
  }

  /** HTTP/x.y CODE REASON */
  function StatusLineOf(line: seq<Byte>): Option<Line> {
    match Find(line, [SP], 0)
    case None => None
    case Some(s1) =>
      var s2 := Find(line, [SP], s1 + 1);
      var code := AToI(line[s1 + 1..if s2.Some? then s2.value else |line|]);
      if code < 100 || code > 599 then None
      else Some(Line(false, [], [], line[..s1], code, if s2.Some? then line[s2.value + 1..] else []))
  }

  /** METHOD TARGET HTTP/x.y */
  function RequestLineOf(line: seq<Byte>): Option<Line> {
    match Find(line, [SP], 0)
    case None => None
    case Some(s1) =>
      match Find(line, [SP], s1 + 1)
      case None => None
      case Some(s2) =>
        if StartsWith(line[s2 + 1..], HTTP) then
          Some(Line(true, line[..s1], line[s1 + 1..s2], line[s2 + 1..], 0, []))
        else None
  }

  function StartLineOf(line: seq<Byte>, asResponse: bool): Option<Line> {
    if asResponse then StatusLineOf(line) else RequestLineOf(line)
  }

  predicate SaysChunked(h: Header) {
    Lower(h.name) == Text("transfer-encoding") && Find(Lower(h.value), CHUNKED, 0).Some?
  }

  /** A header recorded in the head. */
  function AddHeader(m: Head, h: Header): Head {
    var n := m.(headers := m.headers + [h]);
    if Lower(h.name) == Text("content-type") then n.(contentType := Lower(h.value))
    else if Lower(h.name) == Text("content-encoding") then n.(contentEncoding := Lower(h.value))
    else if SaysChunked(h) then n.(chunked := true)
    else n
  }

  /** One header line; a line without a colon is ignored. */
  function AddLine(m: Head, line: seq<Byte>): Head {
    match Find(line, [COLON], 0)
    case None => m
    case Some(c) => AddHeader(m, Header(Trim(line[..c]), Trim(line[c + 1..])))
  }

  /** Where the line at `pos` ends. */
  function LineEnd(head: seq<Byte>, pos: nat): (e: nat)
    requires pos <= |head|
    ensures pos <= e <= |head|
  {
    var le := Find(head, CRLF, pos);
    if le.Some? then le.value else |head|
  }

  /** Where the next line starts. */
  function NextLine(head: seq<Byte>, pos: nat): (e: nat)
    requires pos <= |head|
    ensures pos <= e <= |head| && (pos < |head| ==> pos < e)
  {
    var le := Find(head, CRLF, pos);
    if le.Some? then le.value + 2 else |head|
  }

  /** The header lines from `pos` on. */
  function AddLines(m: Head, head: seq<Byte>, pos: nat): Head
    requires pos <= |head|
    decreases |head| - pos
  {
    if pos == |head| || LineEnd(head, pos) == pos then m
    else AddLines(AddLine(m, head[pos..LineEnd(head, pos)]), head, NextLine(head, pos))
  }

  function HeadOf(head: seq<Byte>, asResponse: bool): Option<Head> {
    match StartLineOf(head[..LineEnd(head, 0)], asResponse)
    case None => None
    case Some(line) => Some(AddLines(Head(line, [], false, [], []), head, NextLine(head, 0)))
  }

  /** HttpFindHeader: the first header of a name, in any case. */
  function FindHeader(headers: seq<Header>, name: seq<Byte>): Option<Header> {
    if headers == [] then None
    else if Lower(headers[0].name) == Lower(name) then Some(headers[0])
    else FindHeader(headers[1..], name)
  }

  ghost predicate Named(headers: seq<Header>, i: nat, name: seq<Byte>) {
    i < |headers| && SameLetters(headers[i].name, name)
  }

  ghost predicate FirstNamed(headers: seq<Header>, i: nat, name: seq<Byte>) {
    Named(headers, i, name) && forall j {:trigger Named(headers, j, name)} :: 0 <= j < i ==> !Named(headers, j, name)
  }

  /** The lookup gives the first header of that name, in any spelling. */
  lemma {:induction false} HeaderFound(headers: seq<Header>, name: seq<Byte>, i: nat)
    requires FirstNamed(headers, i, name)
    ensures FindHeader(headers, name) == Some(headers[i])
    decreases i
  {
    LowerIffSame(headers[0].name, name);
    if i > 0 {
      assert !Named(headers, 0, name);
      forall j | 0 <= j < i - 1 ensures !Named(headers[1..], j, name) { assert !Named(headers, j + 1, name); }
      HeaderFound(headers[1..], name, i - 1);
    }
  }

  lemma {:induction false} HeaderAbsent(headers: seq<Header>, name: seq<Byte>)
    requires forall j {:trigger Named(headers, j, name)} :: 0 <= j < |headers| ==> !Named(headers, j, name)
    ensures FindHeader(headers, name) == None
  {
    if headers != [] {
      LowerIffSame(headers[0].name, name);
      assert !Named(headers, 0, name);
      forall j | 0 <= j < |headers| - 1 ensures !Named(headers[1..], j, name) { assert !Named(headers, j + 1, name); }
      HeaderAbsent(headers[1..], name);
    }
  }

  // ---- body -----------------------------------------------------------------------------

  /** What has been taken of a body, and where reading stands. */
  datatype Body = Body(bytes: seq<Byte>, truncated: bool, end: nat)

  /** AppendCapped. */
  function Append(b: seq<Byte>, data: seq<Byte>): (r: seq<Byte>)
    ensures |b| <= MAX_BODY ==> |r| <= MAX_BODY
  {
    if |b| >= MAX_BODY then b else b + Take(data, MAX_BODY - |b|)
  }

  /** Whether AppendCapped reports truncation. */
  predicate Overflows(b: seq<Byte>, data: seq<Byte>) {
    |b| >= MAX_BODY || |b| + |data| > MAX_BODY
  }

  /** The chunk size in a chunk line: the text before any extension, in hexadecimal. */
  function ChunkSize(line: seq<Byte>): nat {
    var semi := Find(line, [SEMICOLON], 0);
    StrToUL(Trim(if semi.Some? then line[..semi.value] else line), 16)
  }

  /** Past the line break that follows a chunk, if it is there. */
  function SkipBreak(d: seq<Byte>, p: nat): (q: nat)
    requires p <= |d|
    ensures p <= q <= |d|
  {
    if MatchAt(d, CRLF, p) then p + 2 else p
  }

  /** What one turn of the chunk loop finds: no chunk line, the last chunk, a chunk cut
      short by the end of the capture, or a chunk and where the next one starts. */
  datatype Turn = NoLine | Done(end: nat) | Cut(from: nat) | Whole(from: nat, to: nat, next: nat)

  /** `size` is how a chunk line is read. */
  function ChunkTurn(d: seq<Byte>, p: nat, size: seq<Byte> -> nat): (r: Turn)
    requires p <= |d|
    ensures r.Done? ==> p <= r.end <= |d|
    ensures r.Cut? ==> p <= r.from <= |d|
    ensures r.Whole? ==> p < r.from < r.to <= r.next <= |d|
  {
    match Find(d, CRLF, p)
    case None => NoLine
    case Some(le) => ChunkAt(d, le + 2, size(d[p..le]))
  }

  /** The rest of a turn, once the chunk line is read. */
  function ChunkAt(d: seq<Byte>, q: nat, chunk: nat): (r: Turn)
    requires q <= |d|
    ensures !r.NoLine?
    ensures r.Done? ==> q <= r.end <= |d|
    ensures r.Cut? ==> q == r.from
    ensures r.Whole? ==> q == r.from < r.to <= r.next <= |d|
  {
    if chunk == 0 then
      var end := Find(d, CRLF, q);
      Done(if end.Some? then end.value + 2 else |d|)
    else if q + chunk > |d| then Cut(q)
    else Whole(q, q + chunk, SkipBreak(d, q + chunk))
  }

  /** The chunk loop. */
  function Dechunk(d: seq<Byte>, p: nat, b: seq<Byte>, t: bool, size: seq<Byte> -> nat): (r: Body)
    requires p <= |d|
    ensures p <= r.end <= |d| && (|b| <= MAX_BODY ==> |r.bytes| <= MAX_BODY)
    decreases |d| - p
  {
    match ChunkTurn(d, p, size)
    case NoLine => Body(b, true, |d|)
    case Done(end) => Body(b, t, end)
    case Cut(q) => Body(Append(b, d[q..]), t || Overflows(b, d[q..]), |d|)
    case Whole(from, to, next) => Dechunk(d, next, Append(b, d[from..to]), t || Overflows(b, d[from..to]), size)
  }

  const CONTENT_LENGTH: seq<Byte> := Text("Content-Length")

  /** The message whose head is known and whose body starts at `start`. */
  function Finish(h: Head, d: seq<Byte>, start: nat, asResponse: bool): (r: Message)
    requires start <= |d|
    ensures start <= r.consumed <= |d|
  {
    if h.chunked then
      var b := Dechunk(d, start, [], false, ChunkSize);
      Message(h, b.bytes, b.truncated, |b.bytes|, b.end)
    else
      match FindHeader(h.headers, CONTENT_LENGTH)
      case Some(cl) => Sized(h, d, start, StrToUL(cl.value, 10))
      case None =>
        if asResponse then Message(h, Append([], d[start..]), Overflows([], d[start..]), |d| - start, |d|)
        else Message(h, [], false, 0, start)
  }

  /** A message with a Content-Length of `len`. */
  function Sized(h: Head, d: seq<Byte>, start: nat, len: nat): (r: Message)
    requires start <= |d|
    ensures start <= r.consumed <= |d|
  {
    var take := Min(len, |d| - start);
    var data := d[start..start + take];
    Message(h, Append([], data), Overflows([], data) || take < len, take, start + take)
  }

  // ---- messages -----------------------------------------------------------------------------

  /** A head and where its body starts. */
  datatype Placed = Placed(head: Head, start: nat)

  function HeadAt(d: seq<Byte>, off: nat, asResponse: bool): (h: Option<Placed>)
    ensures h.Some? ==> off + 4 <= h.value.start <= |d|
  {
    if !LooksLikeStartLine(d, off, asResponse) then None
    else
      match Find(d, BLANK_LINE, off)
      case None => None
      case Some(end) =>
        match HeadOf(d[off..end], asResponse)
        case None => None
        case Some(h) => Some(Placed(h, end + 4))
  }

  /** ParseOne: the message at `off`. */
  function MessageAt(d: seq<Byte>, off: nat, asResponse: bool): (m: Option<Message>)
    ensures m.Some? ==> off + 4 <= m.value.consumed <= |d|
  {
    match HeadAt(d, off, asResponse)
    case None => None
    case Some(h) => Some(Finish(h.head, d, h.start, asResponse))
  }

  /** Past blank separators. */
  function SkipBlank(d: seq<Byte>, off: nat): (r: nat)
    requires off <= |d|
    ensures off <= r <= |d|
    decreases |d| - off
  {
    if off < |d| && (d[off] == CR || d[off] == LF) then SkipBlank(d, off + 1) else off
  }

  /** Where message `i` is looked for. */
  function PlaceOf(ms: seq<Message>, i: nat, d: seq<Byte>, from: nat): nat
    requires i <= |ms|
  {
    var at := if i == 0 then from else ms[i - 1].consumed;
    if at <= |d| then SkipBlank(d, at) else at
  }

  /** Message `i` is what stands where message `i - 1` ended; after the last one there
      is no room for another, no byte left, or nothing that parses. */
  ghost predicate ReadAt(ms: seq<Message>, i: nat, d: seq<Byte>, from: nat, asResponse: bool, room: nat) {
    && i <= |ms|
    && var at := PlaceOf(ms, i, d, from);
       if i < |ms| then at < |d| && i < room && MessageAt(d, at, asResponse) == Some(ms[i])
       else i == room || at == |d| || (at < |d| && MessageAt(d, at, asResponse).None?)
  }

  ghost predicate Reading(ms: seq<Message>, d: seq<Byte>, from: nat, asResponse: bool, room: nat) {
    forall i {:trigger ReadAt(ms, i, d, from, asResponse, room)} :: 0 <= i <= |ms| ==> ReadAt(ms, i, d, from, asResponse, room)
  }

  lemma {:induction false} ReadingStep(m: Message, rest: seq<Message>, d: seq<Byte>, from: nat, asResponse: bool, room: nat)
    requires from <= |d| && room > 0 && SkipBlank(d, from) < |d| && MessageAt(d, SkipBlank(d, from), asResponse) == Some(m)
    requires Reading(rest, d, m.consumed, asResponse, room - 1)
    ensures Reading([m] + rest, d, from, asResponse, room)
  {
    forall i | 0 <= i <= |rest| + 1 ensures ReadAt([m] + rest, i, d, from, asResponse, room) {
      if i > 0 { ReadShifts(m, rest, i, d, from, asResponse, room); }
    }
  }

  lemma {:induction false} ReadShifts(m: Message, rest: seq<Message>, i: nat, d: seq<Byte>, from: nat, asResponse: bool, room: nat)
    requires i > 0 && room > 0 && i - 1 <= |rest| && ReadAt(rest, i - 1, d, m.consumed, asResponse, room - 1)
    ensures ReadAt([m] + rest, i, d, from, asResponse, room)
  {
    assert PlaceOf([m] + rest, i, d, from) == PlaceOf(rest, i - 1, d, m.consumed);
  }

  /** The messages from `off` on, at most `room` of them. */
  function MessagesFrom(d: seq<Byte>, off: nat, asResponse: bool, room: nat): (ms: seq<Message>)
    requires off <= |d|
    ensures Reading(ms, d, off, asResponse, room)
    decreases |d| - off
  {
    var at := SkipBlank(d, off);
    if at == |d| || room == 0 then []
    else
      match MessageAt(d, at, asResponse)
      case None => []
      case Some(m) =>
        var rest := MessagesFrom(d, m.consumed, asResponse, room - 1);
        ReadingStep(m, rest, d, off, asResponse, room);
        [m] + rest
  }

  /** HttpParse. */
  function Messages(d: seq<Byte>, asResponse: bool): (ms: seq<Message>)
    ensures Reading(ms, d, 0, asResponse, MAX_MESSAGES)
  {
    MessagesFrom(d, 0, asResponse, MAX_MESSAGES)
  }

  // ---- reading is determined, and moves forward --------------------------------------------

  lemma {:induction false} NextAgrees(a: seq<Message>, b: seq<Message>, i: nat, d: seq<Byte>, from: nat, asResponse: bool, room: nat)
    requires i < |a| && i <= |b| && (i > 0 ==> a[i - 1] == b[i - 1])
    requires Reading(a, d, from, asResponse, room) && Reading(b, d, from, asResponse, room)
    ensures i < |b| && a[i] == b[i]
  {
    assert ReadAt(a, i, d, from, asResponse, room) && ReadAt(b, i, d, from, asResponse, room);
  }

  lemma {:induction false} ReadingsAgree(a: seq<Message>, b: seq<Message>, i: nat, d: seq<Byte>, from: nat, asResponse: bool, room: nat)
    requires i < |a| && Reading(a, d, from, asResponse, room) && Reading(b, d, from, asResponse, room)
    ensures i < |b| && a[i] == b[i]
  {
    if i > 0 { ReadingsAgree(a, b, i - 1, d, from, asResponse, room); }
    NextAgrees(a, b, i, d, from, asResponse, room);
  }

  /** A buffer is read in one way only. */
  lemma {:induction false} ReadingIsUnique(a: seq<Message>, b: seq<Message>, d: seq<Byte>, from: nat, asResponse: bool, room: nat)
    requires Reading(a, d, from, asResponse, room) && Reading(b, d, from, asResponse, room)
    ensures a == b
  {
    if a != [] { ReadingsAgree(a, b, |a| - 1, d, from, asResponse, room); }
    if b != [] { ReadingsAgree(b, a, |b| - 1, d, from, asResponse, room); }
    forall i | 0 <= i < |a| ensures a[i] == b[i] { ReadingsAgree(a, b, i, d, from, asResponse, room); }
  }

  /** Every message ends strictly after the one before it and within the buffer, and
      there are at most 64. */
  lemma {:induction false} MessagesAdvance(d: seq<Byte>, asResponse: bool, i: nat)
    requires i < |Messages(d, asResponse)|
    ensures var ms := Messages(d, asResponse);
      i < 64 && (if i == 0 then 0 else ms[i - 1].consumed) + 4 <= ms[i].consumed <= |d|
  {
    ReadAdvances(Messages(d, asResponse), i, d, asResponse);
  }

  lemma {:induction false} ReadAdvances(ms: seq<Message>, i: nat, d: seq<Byte>, asResponse: bool)
    requires i < |ms| && Reading(ms, d, 0, asResponse, MAX_MESSAGES)
    ensures i < MAX_MESSAGES && (if i == 0 then 0 else ms[i - 1].consumed) + 4 <= ms[i].consumed <= |d|
  {
    assert ReadAt(ms, i, d, 0, asResponse, MAX_MESSAGES);
  }
}
