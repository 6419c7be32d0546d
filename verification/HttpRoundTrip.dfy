/** Parsing undoes serialisation, for pipelines of messages. */
module HttpRoundTrip {
  import opened Bytes
  import opened HttpText
  import opened HttpMessages
  import opened HttpWire

  // ---- start line -----------------------------------------------------------------------

  lemma {:induction false} RequestIs(line: seq<Byte>, verb: seq<Byte>, target: seq<Byte>, version: seq<Byte>)
    requires line == verb + ([SP] + (target + ([SP] + version)))
    requires Without(verb, SP) && Without(target, SP) && StartsWith(version, HTTP)
    ensures RequestLineOf(line) == Some(Line(true, verb, target, version, 0, []))
  {
    CutAtFirst(line, verb, SP, target + ([SP] + version));
    CutAtSecond(line, verb, SP, target, version);
  }

  lemma {:induction false} RequestReads(s: Start)
    requires GoodStart(s, false)
    ensures StartLineOf(StartText(s), false) == Some(LineOf(s))
  {
    Regroup(s.verb, s.target, s.version);
    RequestIs(StartText(s), s.verb, s.target, s.version);
  }

  lemma {:induction false} Regroup(a: seq<Byte>, b: seq<Byte>, c: seq<Byte>)
    ensures a + [SP] + b + [SP] + c == a + ([SP] + (b + ([SP] + c)))
  {
    Associate(a + [SP] + b, [SP], c);
    Associate(a + [SP], b, [SP] + c);
    Associate(a, [SP], b + ([SP] + c));
  }

  lemma {:induction false} StatusIs(line: seq<Byte>, s1: nat, s2: nat, text: seq<Byte>, code: nat, reason: seq<Byte>)
    requires Find(line, [SP], 0) == Some(s1) && Find(line, [SP], s1 + 1) == Some(s2)
    requires text == line[s1 + 1..s2] && AToI(text) == code && 100 <= code <= 599 && reason == line[s2 + 1..]
    ensures StatusLineOf(line) == Some(Line(false, [], [], line[..s1], code, reason))
  {
  }

  lemma {:induction false} StatusWithReason(line: seq<Byte>, version: seq<Byte>, text: seq<Byte>, code: nat, reason: seq<Byte>)
    requires line == version + ([SP] + (text + ([SP] + reason)))
    requires Without(version, SP) && Without(text, SP) && AToI(text) == code && 100 <= code <= 599
    ensures StatusLineOf(line) == Some(Line(false, [], [], version, code, reason))
  {
    CutAtFirst(line, version, SP, text + ([SP] + reason));
    CutAtSecond(line, version, SP, text, reason);
    StatusIs(line, |version|, |version| + 1 + |text|, text, code, reason);
  }

  lemma {:induction false} StatusAlone(line: seq<Byte>, version: seq<Byte>, text: seq<Byte>, code: nat)
    requires line == version + ([SP] + text)
    requires Without(version, SP) && Without(text, SP) && AToI(text) == code && 100 <= code <= 599
    ensures StatusLineOf(line) == Some(Line(false, [], [], version, code, []))
  {
    CutAtFirst(line, version, SP, text);
    CutOnlyOnce(line, version, SP, text);
    assert line[|version| + 1..|line|] == text;
  }

  lemma {:induction false} StatusReads(s: Start)
    requires GoodStart(s, true)
    ensures StartLineOf(StartText(s), true) == Some(LineOf(s))
  {
    var text := Numeral(s.code, 10);
    PlainNumeral(s.code, 10);
    StatusRoundTrip(s.code);
    Associate(s.version, [SP], text);
    if s.reason.Some? {
      RegroupStatus(s.version, text, s.reason.value);
      StatusWithReason(StartText(s), s.version, text, s.code, s.reason.value);
    } else {
      assert s.version + [SP] + text + [] == s.version + [SP] + text;
      StatusAlone(StartText(s), s.version, text, s.code);
    }
  }

  lemma {:induction false} RegroupStatus(a: seq<Byte>, b: seq<Byte>, c: seq<Byte>)
    ensures a + [SP] + b + ([SP] + c) == a + ([SP] + (b + ([SP] + c)))
  {
    Associate(a + [SP], b, [SP] + c);
    Associate(a, [SP], b + ([SP] + c));
  }

  lemma {:induction false} StartReads(s: Start, asResponse: bool)
    requires GoodStart(s, asResponse)
    ensures StartLineOf(StartText(s), asResponse) == Some(LineOf(s))
  {
    if asResponse { StatusReads(s); } else { RequestReads(s); }
  }

  lemma {:induction false} StartIsLine(s: Start, asResponse: bool)
    requires GoodStart(s, asResponse)
    ensures Without(StartText(s), CR)
  {
    WithoutOne(SP, CR);
    match s
    case RequestLine(verb, target, version) =>
      WithoutBoth(verb, [SP], CR);
      WithoutBoth(verb + [SP], target, CR);
      WithoutBoth(verb + [SP] + target, [SP], CR);
      WithoutBoth(verb + [SP] + target + [SP], version, CR);
    case StatusLine(version, code, reason) =>
      var text := Numeral(code, 10);
      PlainNumeral(code, 10);
      WithoutBoth(version, [SP], CR);
      WithoutBoth(version + [SP], text, CR);
      if reason.Some? {
        WithoutBoth([SP], reason.value, CR);
        WithoutBoth(version + [SP] + text, [SP] + reason.value, CR);
      } else {
        assert version + [SP] + text + [] == version + [SP] + text;
      }
  }

  /** A start line looks like one, and is not a separator. */
  lemma {:induction false} StartLooks(d: seq<Byte>, off: nat, s: Start, asResponse: bool)
    requires GoodStart(s, asResponse) && Holds(d, StartText(s), off)
    ensures LooksLikeStartLine(d, off, asResponse) && off < |d| && d[off] != CR && d[off] != LF
  {
    var text := StartText(s);
    if asResponse {
      assert text == HTTP + text[5..];
      HoldsSplit(d, HTTP, text[5..], off);
      HoldsIffMatch(d, HTTP, off);
    }
    ByteOf(d, text, off, 0);
  }

  // ---- header lines -----------------------------------------------------------------------

  lemma {:induction false} FieldIsLine(f: Field)
    requires GoodField(f)
    ensures Without(FieldText(f), CR) && FieldText(f) != [] && FieldText(f)[0] != CR
  {
    WithoutOne(COLON, CR);
    WithoutBoth(f.name, [COLON], CR);
    WithoutBoth(f.lead, f.value, CR);
    WithoutBoth(f.lead + f.value, f.trail, CR);
    WithoutBoth(f.name + [COLON], f.lead + f.value + f.trail, CR);
    assert Differs(FieldText(f), 0, CR);
  }

  lemma {:induction false} FieldReads(m: Head, f: Field)
    requires GoodField(f)
    ensures AddLine(m, FieldText(f)) == AddHeader(m, HeaderOf(f))
  {
    var line, value := FieldText(f), f.lead + f.value + f.trail;
    Associate(f.name, [COLON], value);
    CutAtFirst(line, f.name, COLON, value);
    TrimPadded(f.lead, f.value, f.trail);
    TrimPadded([], f.name, []);
    assert [] + f.name + [] == f.name;
  }

  /** The line at `pos` and where the next one starts. */
  lemma {:induction false} LineReads(head: seq<Byte>, pos: nat, line: seq<Byte>, rest: seq<Field>)
    requires Holds(head, line + FieldsText(rest), pos) && pos + |line + FieldsText(rest)| == |head| && Without(line, CR)
    ensures LineEnd(head, pos) == pos + |line| && head[pos..pos + |line|] == line
    ensures NextLine(head, pos) == if rest == [] then |head| else pos + |line| + 2
  {
    HoldsSplit(head, line, FieldsText(rest), pos);
    SliceOf(head, line, pos);
    if rest == [] {
      FindNowhere(head, line, CRLF, pos);
    } else {
      HoldsSplit(head, CRLF, FieldText(rest[0]) + FieldsText(rest[1..]), pos + |line|);
      FindAfter(head, line, CRLF, pos);
    }
  }

  function AddFields(m: Head, fields: seq<Field>): Head
    decreases |fields|
  {
    if fields == [] then m else AddFields(AddHeader(m, HeaderOf(fields[0])), fields[1..])
  }

  lemma {:induction false} AddFieldsUnfold(m: Head, fields: seq<Field>, n: Head)
    requires fields != [] && n == AddHeader(m, HeaderOf(fields[0]))
    ensures AddFields(m, fields) == AddFields(n, fields[1..])
  {
  }

  lemma {:induction false} LinesUnfold(m: Head, head: seq<Byte>, pos: nat, line: seq<Byte>, next: nat)
    requires pos < |head| && line != [] && LineEnd(head, pos) == pos + |line| && head[pos..pos + |line|] == line
    requires next == NextLine(head, pos)
    ensures AddLines(m, head, pos) == AddLines(AddLine(m, line), head, next)
  {
  }

  lemma {:induction false} FieldStep(m: Head, head: seq<Byte>, pos: nat, f: Field, rest: seq<Field>, next: nat)
    requires GoodField(f) && Holds(head, FieldText(f) + FieldsText(rest), pos) && pos + |FieldText(f) + FieldsText(rest)| == |head|
    requires next == if rest == [] then |head| else pos + |FieldText(f)| + 2
    ensures next <= |head| && AddLines(m, head, pos) == AddLines(AddHeader(m, HeaderOf(f)), head, next)
  {
    var line := FieldText(f);
    FieldIsLine(f);
    LineReads(head, pos, line, rest);
    FieldReads(m, f);
    LinesUnfold(m, head, pos, line, next);
  }

  lemma {:induction false} FieldsUnfold(fields: seq<Field>)
    requires fields != []
    ensures FieldsText(fields) == CRLF + (FieldText(fields[0]) + FieldsText(fields[1..]))
  {
  }

  lemma {:induction false} BreakThen(head: seq<Byte>, pos: nat, line: seq<Byte>, text: seq<Byte>, tail: seq<Byte>)
    requires tail == CRLF + text && Holds(head, line + tail, pos)
    ensures Holds(head, text, pos + |line| + 2)
  {
    HoldsSplit(head, line, tail, pos);
    HoldsSplit(head, CRLF, text, pos + |line|);
  }

  lemma {:induction false} RestHolds(head: seq<Byte>, pos: nat, line: seq<Byte>, rest: seq<Field>)
    requires rest != [] && Holds(head, line + FieldsText(rest), pos)
    ensures Holds(head, FieldText(rest[0]) + FieldsText(rest[1..]), pos + |line| + 2)
  {
    FieldsUnfold(rest);
    BreakThen(head, pos, line, FieldText(rest[0]) + FieldsText(rest[1..]), FieldsText(rest));
  }

  lemma {:induction false} NoMoreLines(m: Head, head: seq<Byte>)
    ensures AddLines(m, head, |head|) == m
  {
  }

  lemma {:induction false} FieldsRead(m: Head, head: seq<Byte>, pos: nat, fields: seq<Field>)
    requires GoodFields(fields) && fields != []
    requires var text := FieldText(fields[0]) + FieldsText(fields[1..]); Holds(head, text, pos) && pos + |text| == |head|
    ensures AddLines(m, head, pos) == AddFields(m, fields)
    decreases |fields|
  {
    var f, rest := fields[0], fields[1..];
    var next := if rest == [] then |head| else pos + |FieldText(f)| + 2;
    var n := AddHeader(m, HeaderOf(f));
    assert GoodField(f);
    FieldStep(m, head, pos, f, rest, next);
    if rest == [] {
      NoMoreLines(n, head);
    } else {
      RestHolds(head, pos, FieldText(f), rest);
      FieldsRead(n, head, next, rest);
    }
    AddFieldsUnfold(m, fields, n);
  }

  // ---- the head ---------------------------------------------------------------------------

  lemma {:induction false} AnyChunkedMore(hs: seq<Header>, h: Header)
    ensures AnyChunked(hs + [h]) <==> AnyChunked(hs) || NamesChunked(h)
  {
    if AnyChunked(hs) {
      var i :| 0 <= i < |hs| && ChunkedAt(hs, i);
      assert ChunkedAt(hs + [h], i);
    }
    if NamesChunked(h) { assert ChunkedAt(hs + [h], |hs|); }
    if i :| 0 <= i < |hs + [h]| && ChunkedAt(hs + [h], i) {
      if i < |hs| { assert ChunkedAt(hs, i); }
    }
  }

  lemma {:induction false} LastValueMore(hs: seq<Header>, h: Header, name: seq<Byte>)
    ensures LastValue(hs + [h], name) == if SameLetters(h.name, name) then Lower(h.value) else LastValue(hs, name)
  {
    assert (hs + [h])[..|hs|] == hs;
  }

  lemma {:induction false} AddHeaderMeans(line: Line, hs: seq<Header>, h: Header)
    ensures AddHeader(HeadWith(line, hs), h) == HeadWith(line, hs + [h])
  {
    AnyChunkedMore(hs, h);
    LastValueMore(hs, h, Text("content-type"));
    LastValueMore(hs, h, Text("content-encoding"));
    SaysIffNames(h);
    LowerIsName(h.name, "content-type");
    LowerIsName(h.name, "content-encoding");
    assert |Text("content-type")| == 12 && |Text("content-encoding")| == 16 && |Text("transfer-encoding")| == 17;
  }

  lemma {:induction false} AddFieldsMeans(line: Line, hs: seq<Header>, fields: seq<Field>)
    ensures AddFields(HeadWith(line, hs), fields) == HeadWith(line, hs + HeadersOf(fields))
    decreases |fields|
  {
    if fields == [] {
      assert hs + HeadersOf(fields) == hs;
    } else {
      var h := HeaderOf(fields[0]);
      AddHeaderMeans(line, hs, h);
      AddFieldsMeans(line, hs + [h], fields[1..]);
      Associate(hs, [h], HeadersOf(fields[1..]));
    }
  }

  lemma {:induction false} HeadMeans(line: Line, fields: seq<Field>)
    ensures AddFields(Head(line, [], false, [], []), fields) == HeadWith(line, HeadersOf(fields))
  {
    AddFieldsMeans(line, [], fields);
    assert [] + HeadersOf(fields) == HeadersOf(fields);
    assert HeadWith(line, []) == Head(line, [], false, [], []);
  }

  lemma {:induction false} HeadOfIs(head: seq<Byte>, asResponse: bool, text: seq<Byte>, line: Line, next: nat)
    requires LineEnd(head, 0) == |text| && head[..|text|] == text && NextLine(head, 0) == next
    requires StartLineOf(text, asResponse) == Some(line)
    ensures HeadOf(head, asResponse) == Some(AddLines(Head(line, [], false, [], []), head, next))
  {
  }

  lemma {:induction false} AllFieldsRead(m: Head, head: seq<Byte>, text: seq<Byte>, fields: seq<Field>, next: nat)
    requires Without(text, CR) && GoodFields(fields) && head == text + FieldsText(fields)
    requires next == if fields == [] then |head| else |text| + 2
    ensures next <= |head| && AddLines(m, head, next) == AddFields(m, fields)
  {
    HoldsItself(head);
    HoldsSplit(head, text, FieldsText(fields), 0);
    if fields != [] {
      var first := FieldText(fields[0]) + FieldsText(fields[1..]);
      HoldsSplit(head, CRLF, first, |text|);
      FieldsRead(m, head, next, fields);
    }
  }

  lemma {:induction false} HeadReads(w: Wire, asResponse: bool, head: seq<Byte>) returns (h: Head)
    requires GoodStart(w.start, asResponse) && GoodFields(w.fields) && head == StartText(w.start) + FieldsText(w.fields)
    ensures h == WireHead(w) && HeadOf(head, asResponse) == Some(h)
  {
    h := WireHead(w);
    var text, line := StartText(w.start), LineOf(w.start);
    StartReads(w.start, asResponse);
    StartIsLine(w.start, asResponse);
    HoldsItself(head);
    LineReads(head, 0, text, w.fields);
    var next := NextLine(head, 0);
    HeadOfIs(head, asResponse, text, line, next);
    AllFieldsRead(Head(line, [], false, [], []), head, text, w.fields, next);
    HeadMeans(line, w.fields);
  }

  /** No blank line stands inside the header lines. */
  lemma {:induction false} NoBlankLine(d: seq<Byte>, p: nat, fields: seq<Field>)
    requires GoodFields(fields) && Holds(d, FieldsText(fields), p)
    ensures NoMatch(d, BLANK_LINE, p, p + |FieldsText(fields)|)
    decreases |fields|
  {
    if fields != [] {
      var line, rest := FieldText(fields[0]), FieldsText(fields[1..]);
      assert GoodField(fields[0]);
      FieldIsLine(fields[0]);
      HoldsSplit(d, CRLF, line + rest, p);
      HoldsSplit(d, line, rest, p + 2);
      NoBlankLine(d, p + 2 + |line|, fields[1..]);
      NoMatchWithin(d, line, BLANK_LINE, p + 2);
      ByteOf(d, line, p + 2, 0);
      Mismatch(d, BLANK_LINE, p, 2);
      ByteOf(d, CRLF, p, 1);
      Mismatch(d, BLANK_LINE, p + 1, 0);
    }
  }

  /** A start line, header lines, a blank line and a body, one after the other. */
  ghost predicate Parts(d: seq<Byte>, off: nat, line: seq<Byte>, lines: seq<Byte>, body: seq<Byte>) {
    && Holds(d, line, off) && Holds(d, lines, off + |line|) && Holds(d, BLANK_LINE, off + |line| + |lines|)
    && Holds(d, body, off + |line| + |lines| + 4)
  }

  lemma {:induction false} TextParts(d: seq<Byte>, off: nat, line: seq<Byte>, lines: seq<Byte>, body: seq<Byte>)
    requires Holds(d, (line + lines) + (BLANK_LINE + body), off)
    ensures Parts(d, off, line, lines, body)
  {
    var head := line + lines;
    HoldsSplit3(d, head, BLANK_LINE, body, off);
    HoldsSplit(d, line, lines, off);
  }

  /** The first blank line is the one that ends the head. */
  lemma {:induction false} HeadEnds(d: seq<Byte>, off: nat, start: Start, fields: seq<Field>, asResponse: bool, line: seq<Byte>, lines: seq<Byte>, body: seq<Byte>)
    requires GoodStart(start, asResponse) && GoodFields(fields) && line == StartText(start) && lines == FieldsText(fields)
    requires Parts(d, off, line, lines, body)
    ensures Find(d, BLANK_LINE, off) == Some(off + |line| + |lines|) && LooksLikeStartLine(d, off, asResponse)
  {
    StartIsLine(start, asResponse);
    StartLooks(d, off, start, asResponse);
    NoMatchWithin(d, line, BLANK_LINE, off);
    NoBlankLine(d, off + |line|, fields);
    BlankLineFound(d, off, line, lines);
  }

  lemma {:induction false} BlankLineFound(d: seq<Byte>, off: nat, line: seq<Byte>, lines: seq<Byte>)
    requires NoMatch(d, BLANK_LINE, off, off + |line|) && NoMatch(d, BLANK_LINE, off + |line|, off + |line| + |lines|)
    requires Holds(d, BLANK_LINE, off + |line| + |lines|)
    ensures Find(d, BLANK_LINE, off) == Some(off + |line| + |lines|)
  {
    HoldsIffMatch(d, BLANK_LINE, off + |line| + |lines|);
    FoundAt(d, BLANK_LINE, off, off + |line| + |lines|);
  }

  // ---- the body ---------------------------------------------------------------------------

  /** Appending to what is kept of a body keeps as much of the longer one. */
  lemma {:induction false} AppendKeeps(x: seq<Byte>, data: seq<Byte>)
    requires data != []
    ensures Append(Take(x, MAX_BODY), data) == Take(x + data, MAX_BODY)
    ensures |x| > MAX_BODY || Overflows(Take(x, MAX_BODY), data) <==> |x + data| > MAX_BODY
  {
  }

  lemma {:induction false} TurnReads(d: seq<Byte>, p: nat, line: seq<Byte>, size: seq<Byte> -> nat)
    requires Holds(d, line, p) && Without(line, CR) && Holds(d, CRLF, p + |line|)
    ensures ChunkTurn(d, p, size) == ChunkAt(d, p + |line| + 2, size(line))
  {
    FindAfter(d, line, CRLF, p);
    SliceOf(d, line, p);
  }

  lemma {:induction false} BreakSkipped(d: seq<Byte>, p: nat)
    requires Holds(d, CRLF, p)
    ensures SkipBreak(d, p) == p + 2
  {
    HoldsIffMatch(d, CRLF, p);
  }

  lemma {:induction false} ChunkSplits(d: seq<Byte>, p: nat, line: seq<Byte>, data: seq<Byte>)
    requires Holds(d, line + (CRLF + (data + CRLF)), p)
    ensures Holds(d, line, p) && Holds(d, CRLF, p + |line|) && Holds(d, data, p + |line| + 2)
    ensures Holds(d, CRLF, p + |line| + 2 + |data|)
  {
    var tail := data + CRLF;
    HoldsSplit3(d, line, CRLF, tail, p);
    HoldsSplit(d, data, CRLF, p + |line| + 2);
  }

  lemma {:induction false} TurnTakes(d: seq<Byte>, p: nat, line: seq<Byte>, q: nat, to: nat, size: seq<Byte> -> nat) returns (turn: Turn)
    requires Holds(d, line, p) && Holds(d, CRLF, p + |line|) && Without(line, CR)
    requires q == p + |line| + 2 && to == q + size(line) > q && Holds(d, CRLF, to)
    ensures turn == ChunkTurn(d, p, size) && turn == Whole(q, to, to + 2)
  {
    TurnReads(d, p, line, size);
    BreakSkipped(d, to);
    turn := Whole(q, to, to + 2);
  }

  lemma {:induction false} DechunkWhole(d: seq<Byte>, p: nat, b: seq<Byte>, t: bool, size: seq<Byte> -> nat, turn: Turn, data: seq<Byte>, more: seq<Byte>, u: bool, r: Body)
    requires p <= |d| && turn == ChunkTurn(d, p, size) && turn.Whole? && data == d[turn.from..turn.to]
    requires u == (t || Overflows(b, data)) && more == Append(b, data) && r == Dechunk(d, turn.next, more, u, size)
    ensures r == Dechunk(d, p, b, t, size)
  {
  }

  /** The chunk loop at `p`, when `x` is what the body holds so far: its first bytes up to the
      cap are kept, and the flag says whether there were more. */
  ghost predicate KeepsOf(d: seq<Byte>, p: nat, x: seq<Byte>, size: seq<Byte> -> nat, r: Body) {
    p <= |d| && forall q: nat {:trigger Here(p, q)} :: Here(p, q) && q <= |d| ==> r == Dechunk(d, q, Take(x, MAX_BODY), |x| > MAX_BODY, size)
  }

  /** Names the place at which the loop is to be looked at. */
  predicate Here(p: nat, q: nat) { p == q }

  lemma {:induction false} KeepsIff(d: seq<Byte>, p: nat, x: seq<Byte>, size: seq<Byte> -> nat, r: Body)
    ensures KeepsOf(d, p, x, size, r) <==> p <= |d| && r == Dechunk(d, p, Take(x, MAX_BODY), |x| > MAX_BODY, size)
  {
    assert Here(p, p);
  }

  lemma {:induction false} DechunkTakes(d: seq<Byte>, p: nat, x: seq<Byte>, turn: Turn, data: seq<Byte>, more: seq<Byte>, size: seq<Byte> -> nat, r: Body)
    requires p <= |d| && turn == ChunkTurn(d, p, size) && turn.Whole? && turn.to == turn.from + |data|
    requires Holds(d, data, turn.from) && data != [] && more == x + data
    requires KeepsOf(d, turn.next, more, size, r)
    ensures KeepsOf(d, p, x, size, r)
  {
    AppendKeeps(x, data);
    SliceOf(d, data, turn.from);
    KeepsIff(d, turn.next, more, size, r);
    KeepsIff(d, p, x, size, r);
    DechunkWhole(d, p, Take(x, MAX_BODY), |x| > MAX_BODY, size, turn, data, Take(more, MAX_BODY), |more| > MAX_BODY, r);
  }

  /** Where reading stops in what follows the last chunk: after the first line. */
  function FirstLine(trailers: seq<seq<Byte>>): nat {
    if trailers == [] then 2 else |trailers[0]| + 2
  }

  lemma {:induction false} TrailersEnd(d: seq<Byte>, q: nat, trailers: seq<seq<Byte>>)
    requires Holds(d, TrailersText(trailers), q) && GoodTrailers(trailers)
    ensures Find(d, CRLF, q) == Some(q + FirstLine(trailers) - 2)
  {
    if trailers == [] {
      FindAfter(d, [], CRLF, q);
    } else {
      var t, rest := trailers[0], TrailersText(trailers[1..]);
      assert GoodTrailer(t);
      HoldsSplit3(d, t, CRLF, rest, q);
      FindAfter(d, t, CRLF, q);
    }
  }

  lemma {:induction false} EndReads(d: seq<Byte>, p: nat, b: seq<Byte>, t: bool, last: seq<Byte>, trailers: seq<seq<Byte>>, size: seq<Byte> -> nat)
    returns (r: Body)
    requires Without(last, CR) && size(last) == 0 && GoodTrailers(trailers)
    requires Holds(d, last + (CRLF + TrailersText(trailers)), p)
    ensures p <= |d| && r == Dechunk(d, p, b, t, size) && r == Body(b, t, p + |last| + 2 + FirstLine(trailers))
  {
    r := Body(b, t, p + |last| + 2 + FirstLine(trailers));
    var q, text := p + |last| + 2, TrailersText(trailers);
    HoldsSplit3(d, last, CRLF, text, p);
    TurnReads(d, p, last, size);
    TrailersEnd(d, q, trailers);
  }

  /** The turn at chunk `i` takes exactly that chunk. */
  ghost predicate TakesChunk(d: seq<Byte>, p: nat, chunks: seq<Chunk>, texts: seq<seq<Byte>>, i: nat, size: seq<Byte> -> nat) {
    && i < |chunks| == |texts| && p + StartAt(texts, i) <= |d|
    && Takes(d, ChunkTurn(d, p + StartAt(texts, i), size), p + StartAt(texts, i + 1), chunks[i].data)
  }

  ghost predicate Takes(d: seq<Byte>, turn: Turn, next: nat, data: seq<Byte>) {
    turn.Whole? && turn.next == next && turn.to == turn.from + |data| && Holds(d, data, turn.from) && data != []
  }

  lemma {:induction false} ChunkTaken(d: seq<Byte>, p: nat, c: Chunk, size: seq<Byte> -> nat) returns (turn: Turn)
    requires GoodChunk(c, size) && Holds(d, ChunkText(c), p)
    ensures p <= |d| && turn == ChunkTurn(d, p, size) && turn.Whole? && turn.next == p + |ChunkText(c)|
    ensures turn.to == turn.from + |c.data| && Holds(d, c.data, turn.from)
  {
    ChunkSplits(d, p, c.line, c.data);
    var q := p + |c.line| + 2;
    turn := TurnTakes(d, p, c.line, q, q + |c.data|, size);
  }

  lemma {:induction false} TakenAt(d: seq<Byte>, p: nat, chunks: seq<Chunk>, i: nat, size: seq<Byte> -> nat)
    requires i < |chunks| && GoodChunks(chunks, size) && Holds(d, Concat(ChunkTexts(chunks)), p)
    ensures TakesChunk(d, p, chunks, ChunkTexts(chunks), i, size)
  {
    var texts, c := ChunkTexts(chunks), chunks[i];
    assert GoodChunk(c, size);
    ConcatLaidOut(texts);
    assert Sits(Concat(texts), texts, i);
    HoldsWithin(d, Concat(texts), ChunkText(c), p, StartAt(texts, i));
    var turn := ChunkTaken(d, p + StartAt(texts, i), c, size);
  }

  /** From chunk `i` on, the chunk loop ends with `r`. */
  ghost predicate Ends(d: seq<Byte>, p: nat, chunks: seq<Chunk>, texts: seq<seq<Byte>>, i: nat, size: seq<Byte> -> nat, r: Body) {
    i <= |chunks| == |texts| && KeepsOf(d, p + StartAt(texts, i), Joined(chunks, i), size, r)
  }

  lemma {:induction false} TakeStep(d: seq<Byte>, p: nat, chunks: seq<Chunk>, texts: seq<seq<Byte>>, i: nat, size: seq<Byte> -> nat, r: Body)
    requires i < |chunks| == |texts| && AllTaken(d, p, chunks, texts, size)
    requires Ends(d, p, chunks, texts, i + 1, size, r)
    ensures Ends(d, p, chunks, texts, i, size, r)
  {
    var b, data, more := JoinedStep(chunks, i);
    var from, next, turn := TurnOf(d, p, chunks, texts, i, data, size);
    TakeTurn(d, from, next, turn, b, data, more, size, r);
  }

  lemma {:induction false} TakeTurn(d: seq<Byte>, from: nat, next: nat, turn: Turn, b: seq<Byte>, data: seq<Byte>, more: seq<Byte>, size: seq<Byte> -> nat, r: Body)
    requires from <= |d| && turn == ChunkTurn(d, from, size) && Takes(d, turn, next, data) && more == b + data
    requires KeepsOf(d, next, more, size, r)
    ensures KeepsOf(d, from, b, size, r)
  {
    DechunkTakes(d, from, b, turn, data, more, size, r);
  }

  lemma {:induction false} JoinedStep(chunks: seq<Chunk>, i: nat) returns (b: seq<Byte>, data: seq<Byte>, more: seq<Byte>)
    requires i < |chunks|
    ensures b == Joined(chunks, i) && data == chunks[i].data && more == Joined(chunks, i + 1)
    ensures more == b + data && |more| <= |Joined(chunks, |chunks|)|
  {
    b, data, more := Joined(chunks, i), chunks[i].data, Joined(chunks, i + 1);
    JoinedFits(chunks, i + 1);
  }

  lemma {:induction false} TurnOf(d: seq<Byte>, p: nat, chunks: seq<Chunk>, texts: seq<seq<Byte>>, i: nat, data: seq<Byte>, size: seq<Byte> -> nat)
    returns (from: nat, next: nat, turn: Turn)
    requires i < |chunks| == |texts| && AllTaken(d, p, chunks, texts, size) && data == chunks[i].data
    ensures from == p + StartAt(texts, i) <= |d| && next == p + StartAt(texts, i + 1)
    ensures turn == ChunkTurn(d, from, size) && Takes(d, turn, next, data)
  {
    assert TakesChunk(d, p, chunks, texts, i, size);
    from, next := p + StartAt(texts, i), p + StartAt(texts, i + 1);
    turn := ChunkTurn(d, from, size);
  }

  ghost predicate AllTaken(d: seq<Byte>, p: nat, chunks: seq<Chunk>, texts: seq<seq<Byte>>, size: seq<Byte> -> nat) {
    forall k {:trigger TakesChunk(d, p, chunks, texts, k, size)} :: 0 <= k < |chunks| ==> TakesChunk(d, p, chunks, texts, k, size)
  }

  /** From any chunk on, the chunk loop ends as it does after the last one. */
  lemma {:induction false} ChunksRead(d: seq<Byte>, p: nat, chunks: seq<Chunk>, texts: seq<seq<Byte>>, size: seq<Byte> -> nat, r: Body)
    requires AllTaken(d, p, chunks, texts, size) && Ends(d, p, chunks, texts, |chunks|, size, r)
    ensures Ends(d, p, chunks, texts, 0, size, r)
  {
    var i: nat := |chunks|;
    while i > 0
      invariant i <= |chunks| && Ends(d, p, chunks, texts, i, size, r)
    {
      i := i - 1;
      TakeStep(d, p, chunks, texts, i, size, r);
    }
  }

  lemma {:induction false} JoinedFits(chunks: seq<Chunk>, i: nat)
    requires i <= |chunks|
    ensures |Joined(chunks, i)| <= |Joined(chunks, |chunks|)|
    decreases |chunks| - i
  {
    if i < |chunks| { JoinedFits(chunks, i + 1); }
  }

  /** Any chunking of a body is undone, up to the cap; after the last chunk one line is read. */
  lemma {:induction false} ChunkingRead(d: seq<Byte>, p: nat, chunks: seq<Chunk>, last: seq<Byte>, trailers: seq<seq<Byte>>, text: seq<Byte>,
                     end: seq<Byte>, size: seq<Byte> -> nat) returns (r: Body)
    requires GoodChunks(chunks, size) && text == Concat(ChunkTexts(chunks))
    requires Without(last, CR) && size(last) == 0 && GoodTrailers(trailers) && end == last + (CRLF + TrailersText(trailers))
    requires Holds(d, text, p) && Holds(d, end, p + |text|)
    ensures p <= |d| && r == Dechunk(d, p, [], false, size)
    ensures var body := Joined(chunks, |chunks|);
      r == Body(Take(body, 0x10_0000), |body| > 0x10_0000, p + |text| + |last| + 2 + FirstLine(trailers))
  {
    var at, body := p + |text|, Joined(chunks, |chunks|);
    r := LastReads(d, at, body, last, trailers, end, size);
    LoopReads(d, p, chunks, text, at, body, size, r);
  }

  lemma {:induction false} LastReads(d: seq<Byte>, at: nat, x: seq<Byte>, last: seq<Byte>, trailers: seq<seq<Byte>>, end: seq<Byte>, size: seq<Byte> -> nat)
    returns (r: Body)
    requires Without(last, CR) && size(last) == 0 && GoodTrailers(trailers) && end == last + (CRLF + TrailersText(trailers)) && Holds(d, end, at)
    ensures KeepsOf(d, at, x, size, r) && r == Body(Take(x, 0x10_0000), |x| > 0x10_0000, at + |last| + 2 + FirstLine(trailers))
  {
    r := EndReads(d, at, Take(x, MAX_BODY), |x| > MAX_BODY, last, trailers, size);
    KeepsIff(d, at, x, size, r);
  }

  lemma {:induction false} LoopReads(d: seq<Byte>, p: nat, chunks: seq<Chunk>, text: seq<Byte>, at: nat, x: seq<Byte>, size: seq<Byte> -> nat, r: Body)
    requires GoodChunks(chunks, size) && text == Concat(ChunkTexts(chunks)) && at == p + |text| && x == Joined(chunks, |chunks|)
    requires Holds(d, text, p) && KeepsOf(d, at, x, size, r)
    ensures p <= |d| && r == Dechunk(d, p, [], false, size)
  {
    var texts := TextEnds(chunks, text);
    LastEnds(d, p, chunks, texts, at, x, size, r);
    EveryChunkTaken(d, p, chunks, texts, text, size);
    ChunksRead(d, p, chunks, texts, size, r);
    FromNothing(d, p, chunks, texts, size, r);
  }

  lemma {:induction false} LastEnds(d: seq<Byte>, p: nat, chunks: seq<Chunk>, texts: seq<seq<Byte>>, at: nat, x: seq<Byte>, size: seq<Byte> -> nat, r: Body)
    requires |chunks| == |texts| && at == p + StartAt(texts, |texts|) && x == Joined(chunks, |chunks|) && KeepsOf(d, at, x, size, r)
    ensures Ends(d, p, chunks, texts, |chunks|, size, r)
  {
  }

  lemma {:induction false} TextEnds(chunks: seq<Chunk>, text: seq<Byte>) returns (texts: seq<seq<Byte>>)
    requires text == Concat(ChunkTexts(chunks))
    ensures texts == ChunkTexts(chunks) && |text| == StartAt(texts, |texts|)
  {
    texts := ChunkTexts(chunks);
    ConcatLaidOut(texts);
  }

  lemma {:induction false} FromNothing(d: seq<Byte>, p: nat, chunks: seq<Chunk>, texts: seq<seq<Byte>>, size: seq<Byte> -> nat, r: Body)
    requires Ends(d, p, chunks, texts, 0, size, r)
    ensures p <= |d| && r == Dechunk(d, p, [], false, size)
  {
    KeepsIff(d, p, [], size, r);
  }

  lemma {:induction false} EveryChunkTaken(d: seq<Byte>, p: nat, chunks: seq<Chunk>, texts: seq<seq<Byte>>, text: seq<Byte>, size: seq<Byte> -> nat)
    requires GoodChunks(chunks, size) && texts == ChunkTexts(chunks) && text == Concat(texts) && Holds(d, text, p)
    ensures AllTaken(d, p, chunks, texts, size)
  {
    forall k | 0 <= k < |chunks| ensures TakesChunk(d, p, chunks, texts, k, size) { TakenAt(d, p, chunks, k, size); }
  }

  lemma {:induction false} FirstLineIsAll(f: Framing)
    requires f.Chunks?
    ensures FirstLine(f.trailers) == |TrailersText(f.trailers)| - Unread(f)
  {
  }

  lemma {:induction false} ChunkedBody(h: Head, d: seq<Byte>, start: nat, asResponse: bool, f: Framing)
    requires f.Chunks? && GoodFraming(f, h.headers, asResponse) && h.chunked
    requires Holds(d, BodyText(f), start)
    ensures Finish(h, d, start, asResponse) == Received(h, f, start + |BodyText(f)|)
  {
    var text, end := Concat(ChunkTexts(f.chunks)), f.last + (CRLF + TrailersText(f.trailers));
    HoldsSplit(d, text, end, start);
    var _ := ChunkingRead(d, start, f.chunks, f.last, f.trailers, text, end, ChunkSize);
    FirstLineIsAll(f);
  }

  lemma {:induction false} CountedBody(h: Head, d: seq<Byte>, start: nat, body: seq<Byte>)
    requires Holds(d, body, start)
    ensures Sized(h, d, start, |body|) == Message(h, Take(body, 0x10_0000), |body| > 0x10_0000, |body|, start + |body|)
  {
    SliceOf(d, body, start);
    assert [] + Take(body, MAX_BODY) == Take(body, MAX_BODY);
  }

  lemma {:induction false} BodyReads(h: Head, d: seq<Byte>, start: nat, asResponse: bool, f: Framing)
    requires GoodFraming(f, h.headers, asResponse) && Holds(d, BodyText(f), start)
    requires h.chunked == AnyChunked(h.headers)
    ensures Finish(h, d, start, asResponse) == Received(h, f, start + |BodyText(f)|)
  {
    match f
    case Counted(body) => CountedBody(h, d, start, body);
    case Chunks(_, _, _) => ChunkedBody(h, d, start, asResponse, f);
    case Bare =>
  }

  // ---- one message, and many ------------------------------------------------------------------

  lemma {:induction false} HeadIs(d: seq<Byte>, off: nat, asResponse: bool, end: nat, head: seq<Byte>, h: Head)
    requires LooksLikeStartLine(d, off, asResponse) && Find(d, BLANK_LINE, off) == Some(end)
    requires Holds(d, head, off) && end == off + |head| && HeadOf(head, asResponse) == Some(h)
    ensures HeadAt(d, off, asResponse) == Some(Placed(h, end + 4))
  {
    SliceOf(d, head, off);
  }

  lemma {:induction false} MessageIs(d: seq<Byte>, off: nat, asResponse: bool, h: Placed, m: Message)
    requires HeadAt(d, off, asResponse) == Some(h) && Finish(h.head, d, h.start, asResponse) == m
    ensures MessageAt(d, off, asResponse) == Some(m)
  {
  }

  lemma {:induction false} WireHeadReads(d: seq<Byte>, off: nat, w: Wire, asResponse: bool, line: seq<Byte>, lines: seq<Byte>, body: seq<Byte>)
    returns (h: Head, start: nat)
    requires GoodStart(w.start, asResponse) && GoodFields(w.fields) && Parts(d, off, line, lines, body)
    requires line == StartText(w.start) && lines == FieldsText(w.fields)
    ensures HeadAt(d, off, asResponse) == Some(Placed(h, start))
    ensures h == WireHead(w) && start == off + |line| + |lines| + 4
  {
    HeadEnds(d, off, w.start, w.fields, asResponse, line, lines, body);
    h := HeadReads(w, asResponse, line + lines);
    start := HeadPlaced(d, off, asResponse, line, lines, line + lines, h);
  }

  lemma {:induction false} HeadPlaced(d: seq<Byte>, off: nat, asResponse: bool, line: seq<Byte>, lines: seq<Byte>, head: seq<Byte>, h: Head) returns (start: nat)
    requires Holds(d, line, off) && Holds(d, lines, off + |line|) && head == line + lines && HeadOf(head, asResponse) == Some(h)
    requires Find(d, BLANK_LINE, off) == Some(off + |line| + |lines|) && LooksLikeStartLine(d, off, asResponse)
    ensures HeadAt(d, off, asResponse) == Some(Placed(h, start)) && start == off + |line| + |lines| + 4
  {
    HoldsJoin(d, line, lines, off);
    HeadIs(d, off, asResponse, off + |head|, head, h);
    start := off + |head| + 4;
  }

  lemma {:induction false} WireBodyReads(d: seq<Byte>, off: nat, w: Wire, asResponse: bool, h: Head, start: nat, body: seq<Byte>) returns (m: Message)
    requires GoodFraming(w.framing, HeadersOf(w.fields), asResponse) && body == BodyText(w.framing)
    requires h == WireHead(w) && start + |body| == off + |Serialise(w)| && Holds(d, body, start)
    ensures start <= |d| && m == Finish(h, d, start, asResponse) && m == Expect(w, off)
    ensures m.consumed == off + |Serialise(w)| - Unread(w.framing)
  {
    BodyReads(h, d, start, asResponse, w.framing);
    m := Finish(h, d, start, asResponse);
  }

  lemma {:induction false} WireParts(d: seq<Byte>, off: nat, w: Wire) returns (line: seq<Byte>, lines: seq<Byte>, body: seq<Byte>)
    requires Holds(d, Serialise(w), off)
    ensures line == StartText(w.start) && lines == FieldsText(w.fields) && body == BodyText(w.framing)
    ensures Parts(d, off, line, lines, body) && |Serialise(w)| == |line| + |lines| + 4 + |body|
  {
    line, lines, body := StartText(w.start), FieldsText(w.fields), BodyText(w.framing);
    TextParts(d, off, line, lines, body);
  }

  /** A serialised message is read back, wherever it stands and whatever follows. */
  lemma {:induction false} MessageReads(d: seq<Byte>, off: nat, w: Wire, asResponse: bool) returns (m: Message, end: nat)
    requires WellFormed(w, asResponse) && Holds(d, Serialise(w), off)
    ensures MessageAt(d, off, asResponse) == Some(m) && m == Expect(w, off)
    ensures end == off + |Serialise(w)| && m.consumed == end - Unread(w.framing)
  {
    end := off + |Serialise(w)|;
    var line, lines, body := WireParts(d, off, w);
    m := PartsRead(d, off, w, asResponse, line, lines, body);
  }

  lemma {:induction false} PartsRead(d: seq<Byte>, off: nat, w: Wire, asResponse: bool, line: seq<Byte>, lines: seq<Byte>, body: seq<Byte>) returns (m: Message)
    requires GoodStart(w.start, asResponse) && GoodFields(w.fields) && GoodFraming(w.framing, HeadersOf(w.fields), asResponse)
    requires Parts(d, off, line, lines, body) && line == StartText(w.start) && lines == FieldsText(w.fields) && body == BodyText(w.framing)
    requires |Serialise(w)| == |line| + |lines| + 4 + |body|
    ensures MessageAt(d, off, asResponse) == Some(m) && m == Expect(w, off)
    ensures m.consumed == off + |Serialise(w)| - Unread(w.framing)
  {
    var h, start := WireHeadReads(d, off, w, asResponse, line, lines, body);
    m := WireBodyReads(d, off, w, asResponse, h, start, body);
    MessageIs(d, off, asResponse, Placed(h, start), m);
  }

  /** The texts of several messages. */
  function Texts(ws: seq<Wire>): (ts: seq<seq<Byte>>)
    ensures |ts| == |ws|
  {
    seq(|ws|, i requires 0 <= i < |ws| => Serialise(ws[i]))
  }

  /** The stream of several messages. */
  function Stream(ws: seq<Wire>): seq<Byte> { Concat(Texts(ws)) }

  function Expected(ws: seq<Wire>): (ms: seq<Message>)
    ensures |ms| == |ws|
  {
    seq(|ws|, i requires 0 <= i < |ws| => Expect(ws[i], StartAt(Texts(ws), i)))
  }

  ghost predicate AllGood(ws: seq<Wire>, asResponse: bool) {
    forall i {:trigger GoodAt(ws, i, asResponse)} :: 0 <= i < |ws| ==> GoodAt(ws, i, asResponse)
  }

  ghost predicate GoodAt(ws: seq<Wire>, i: nat, asResponse: bool) {
    i < |ws| && WellFormed(ws[i], asResponse) && OneTrailerAtMost(ws[i].framing)
  }

  /** The bytes between where a message is left and the next one starts are separators. */
  lemma {:induction false} SkipTo(d: seq<Byte>, p: nat, q: nat)
    requires p <= q <= |d| && forall j :: p <= j < q ==> d[j] == CR || d[j] == LF
    requires q < |d| ==> d[q] != CR && d[q] != LF
    ensures SkipBlank(d, p) == q
    decreases q - p
  {
    if p < q { SkipTo(d, p + 1, q); }
  }

  ghost predicate OneTrailerAtMost(f: Framing) {
    f.Chunks? ==> |f.trailers| <= 1
  }

  /** What is left unread stands at the end of the message. */
  lemma {:induction false} RestStands(d: seq<Byte>, p: nat, f: Framing)
    requires f.Chunks? && f.trailers != [] && Holds(d, BodyText(f), p)
    ensures Holds(d, TrailersText(f.trailers[1..]), p + |BodyText(f)| - Unread(f))
  {
    TailStands(d, p, Concat(ChunkTexts(f.chunks)), f.last, f.trailers[0], TrailersText(f.trailers[1..]), TrailersText(f.trailers));
  }

  lemma {:induction false} TailStands(d: seq<Byte>, p: nat, chunks: seq<Byte>, last: seq<Byte>, t: seq<Byte>, rest: seq<Byte>, text: seq<Byte>)
    requires text == t + (CRLF + rest) && Holds(d, chunks + (last + (CRLF + text)), p)
    ensures Holds(d, rest, p + |chunks| + |last| + 2 + |t| + 2)
  {
    var end := last + (CRLF + text);
    HoldsSplit(d, chunks, end, p);
    HoldsSplit3(d, last, CRLF, text, p + |chunks|);
    HoldsSplit3(d, t, CRLF, rest, p + |chunks| + |last| + 2);
  }

  /** Between where a message was left and `q` there is at most one line break. */
  ghost predicate Leaves(d: seq<Byte>, consumed: int, q: nat) {
    q <= |d| && (consumed == q || (0 <= consumed == q - 2 && Holds(d, CRLF, consumed)))
  }

  lemma {:induction false} LeavesBreak(d: seq<Byte>, p: nat, f: Framing)
    requires Holds(d, BodyText(f), p) && OneTrailerAtMost(f)
    ensures var q := p + |BodyText(f)|; Leaves(d, q - Unread(f), q)
  {
    if f.Chunks? && f.trailers != [] {
      RestStands(d, p, f);
      assert f.trailers[1..] == [];
    }
  }

  lemma {:induction false} BodyAt(d: seq<Byte>, at: nat, w: Wire) returns (p: nat)
    requires Holds(d, Serialise(w), at)
    ensures Holds(d, BodyText(w.framing), p) && p + |BodyText(w.framing)| == at + |Serialise(w)|
  {
    var line, lines, body := WireParts(d, at, w);
    p := at + |line| + |lines| + 4;
  }

  lemma {:induction false} SkipLeft(d: seq<Byte>, consumed: nat, q: nat)
    requires Leaves(d, consumed, q) && (q < |d| ==> d[q] != CR && d[q] != LF)
    ensures SkipBlank(d, consumed) == q
  {
    if consumed < q {
      ByteOf(d, CRLF, consumed, 0);
      ByteOf(d, CRLF, consumed, 1);
    }
    SkipTo(d, consumed, q);
  }

  lemma {:induction false} WireStarts(d: seq<Byte>, at: nat, w: Wire, asResponse: bool)
    requires GoodStart(w.start, asResponse) && Holds(d, Serialise(w), at)
    ensures at < |d| && d[at] != CR && d[at] != LF
  {
    var start, fields, body := StartText(w.start), FieldsText(w.fields), BLANK_LINE + BodyText(w.framing);
    HoldsSplit(d, start + fields, body, at);
    HoldsSplit(d, start, fields, at);
    StartLooks(d, at, w.start, asResponse);
  }

  /** Messages and their texts, as they lie in a buffer. */
  ghost predicate Sent(d: seq<Byte>, ws: seq<Wire>, texts: seq<seq<Byte>>, ms: seq<Message>, asResponse: bool) {
    && LaidOut(d, texts) && AllGood(ws, asResponse) && |texts| == |ws| == |ms|
    && forall i {:trigger SentAt(ws, texts, ms, i)} :: 0 <= i < |ws| ==> SentAt(ws, texts, ms, i)
  }

  ghost predicate SentAt(ws: seq<Wire>, texts: seq<seq<Byte>>, ms: seq<Message>, i: nat) {
    && i < |ws| && i < |texts| && i < |ms|
    && texts[i] == Serialise(ws[i]) && ms[i] == Expect(ws[i], StartAt(texts, i))
  }

  /** After message `i - 1` comes message `i`, or the end. */
  lemma {:induction false} NextStarts(d: seq<Byte>, ws: seq<Wire>, texts: seq<seq<Byte>>, ms: seq<Message>, i: nat, asResponse: bool)
    requires i <= |ws| && Sent(d, ws, texts, ms, asResponse)
    ensures var q := StartAt(texts, i); q < |d| ==> d[q] != CR && d[q] != LF
  {
    if i < |ws| {
      assert GoodAt(ws, i, asResponse) && Sits(d, texts, i) && SentAt(ws, texts, ms, i);
      WireStarts(d, StartAt(texts, i), ws[i], asResponse);
    }
  }

  lemma {:induction false} LeavesAt(d: seq<Byte>, ws: seq<Wire>, texts: seq<seq<Byte>>, ms: seq<Message>, i: nat, asResponse: bool)
    requires i < |ws| && Sent(d, ws, texts, ms, asResponse)
    ensures Leaves(d, ms[i].consumed, StartAt(texts, i + 1))
  {
    FewTrailers(ws, i, asResponse);
    assert Sits(d, texts, i) && SentAt(ws, texts, ms, i);
    LeavesWire(d, ws[i], StartAt(texts, i), texts[i], ms[i]);
  }

  lemma {:induction false} FewTrailers(ws: seq<Wire>, i: nat, asResponse: bool)
    requires i < |ws| && AllGood(ws, asResponse)
    ensures OneTrailerAtMost(ws[i].framing)
  {
    assert GoodAt(ws, i, asResponse);
  }

  lemma {:induction false} LeavesWire(d: seq<Byte>, w: Wire, at: nat, text: seq<Byte>, m: Message)
    requires text == Serialise(w) && m == Expect(w, at) && Holds(d, text, at) && OneTrailerAtMost(w.framing)
    ensures Leaves(d, m.consumed, at + |text|)
  {
    var p := BodyAt(d, at, w);
    LeavesBreak(d, p, w.framing);
  }

  lemma {:induction false} AfterMessage(d: seq<Byte>, ws: seq<Wire>, texts: seq<seq<Byte>>, ms: seq<Message>, i: nat, asResponse: bool)
    requires 0 < i <= |ws| && Sent(d, ws, texts, ms, asResponse)
    ensures ms[i - 1].consumed <= |d| && SkipBlank(d, ms[i - 1].consumed) == StartAt(texts, i)
  {
    NextStarts(d, ws, texts, ms, i, asResponse);
    LeavesAt(d, ws, texts, ms, i - 1, asResponse);
    SkipLeft(d, ms[i - 1].consumed, StartAt(texts, i));
  }

  lemma {:induction false} PlaceReads(d: seq<Byte>, ws: seq<Wire>, texts: seq<seq<Byte>>, ms: seq<Message>, i: nat, asResponse: bool)
    requires i <= |ws| && Sent(d, ws, texts, ms, asResponse)
    ensures PlaceOf(ms, i, d, 0) == StartAt(texts, i)
  {
    if i == 0 {
      NextStarts(d, ws, texts, ms, 0, asResponse);
    } else {
      AfterMessage(d, ws, texts, ms, i, asResponse);
    }
  }

  lemma {:induction false} SentReads(d: seq<Byte>, ws: seq<Wire>, texts: seq<seq<Byte>>, ms: seq<Message>, i: nat, asResponse: bool)
    requires i < |ws| && Sent(d, ws, texts, ms, asResponse)
    ensures StartAt(texts, i) < |d| && MessageAt(d, StartAt(texts, i), asResponse) == Some(ms[i])
  {
    assert GoodAt(ws, i, asResponse) && Sits(d, texts, i) && SentAt(ws, texts, ms, i);
    var _, _ := MessageReads(d, StartAt(texts, i), ws[i], asResponse);
  }

  lemma {:induction false} ReadsAt(d: seq<Byte>, ws: seq<Wire>, texts: seq<seq<Byte>>, ms: seq<Message>, i: nat, asResponse: bool)
    requires i <= |ws| <= MAX_MESSAGES && Sent(d, ws, texts, ms, asResponse)
    ensures ReadAt(ms, i, d, 0, asResponse, MAX_MESSAGES)
  {
    PlaceReads(d, ws, texts, ms, i, asResponse);
    if i < |ws| { SentReads(d, ws, texts, ms, i, asResponse); }
  }

  lemma {:induction false} AllRead(d: seq<Byte>, ws: seq<Wire>, texts: seq<seq<Byte>>, ms: seq<Message>, asResponse: bool)
    requires |ws| <= MAX_MESSAGES && Sent(d, ws, texts, ms, asResponse)
    ensures Reading(ms, d, 0, asResponse, MAX_MESSAGES) && PlaceOf(ms, |ms|, d, 0) == |d|
  {
    forall i | 0 <= i <= |ms| ensures ReadAt(ms, i, d, 0, asResponse, MAX_MESSAGES) {
      ReadsAt(d, ws, texts, ms, i, asResponse);
    }
    PlaceReads(d, ws, texts, ms, |ms|, asResponse);
  }

  lemma {:induction false} StreamSent(ws: seq<Wire>, asResponse: bool)
    requires AllGood(ws, asResponse)
    ensures Sent(Stream(ws), ws, Texts(ws), Expected(ws), asResponse)
  {
    ConcatLaidOut(Texts(ws));
    forall i | 0 <= i < |ws| ensures SentAt(ws, Texts(ws), Expected(ws), i) { }
  }

  /** HttpParse of up to 64 serialised messages, framed by a length or by any chunking,
      gives back their start lines, headers and bodies, none of them truncated, and
      leaves nothing unread. */
  lemma {:induction false} PipelineRoundTrip(ws: seq<Wire>, asResponse: bool)
    requires |ws| <= 64 && AllGood(ws, asResponse)
    ensures Messages(Stream(ws), asResponse) == Expected(ws)
    ensures PlaceOf(Expected(ws), |ws|, Stream(ws), 0) == |Stream(ws)|
  {
    StreamSent(ws, asResponse);
    var d, ms := Stream(ws), Expected(ws);
    AllRead(d, ws, Texts(ws), ms, asResponse);
    ReadingIsUnique(Messages(d, asResponse), ms, d, 0, asResponse, MAX_MESSAGES);
  }

  // ---- trailers -------------------------------------------------------------------------------

  lemma {:induction false} SecondTrailerStops(d: seq<Byte>, p: nat, f: Framing)
    requires f.Chunks? && |f.trailers| > 1 && GoodTrailers(f.trailers) && Holds(d, BodyText(f), p)
    ensures var at := p + |BodyText(f)| - Unread(f); Unread(f) > 0 && at < |d| && d[at] != CR && d[at] != LF
  {
    var rest := f.trailers[1..];
    assert GoodTrailer(f.trailers[1]);
    RestStands(d, p, f);
    assert rest[0] == f.trailers[1];
    ByteOf(d, TrailersText(rest), p + |BodyText(f)| - Unread(f), 0);
    assert Differs(rest[0], 0, CR);
  }

  lemma {:induction false} LeftoverIff(d: seq<Byte>, p: nat, f: Framing, consumed: int, q: nat)
    requires f.Chunks? && GoodTrailers(f.trailers) && Holds(d, BodyText(f), p)
    requires q == p + |BodyText(f)| && consumed == q - Unread(f) && (q < |d| ==> d[q] != CR && d[q] != LF)
    ensures 0 <= consumed <= |d| && (SkipBlank(d, consumed) == q <==> |f.trailers| <= 1)
  {
    if |f.trailers| <= 1 {
      LeavesBreak(d, p, f);
      SkipLeft(d, consumed, q);
    } else {
      SecondTrailerStops(d, p, f);
      SkipTo(d, consumed, consumed);
    }
  }

  lemma {:induction false} TrailersGood(w: Wire, asResponse: bool)
    requires WellFormed(w, asResponse) && w.framing.Chunks?
    ensures GoodTrailers(w.framing.trailers)
  {
  }

  /** The next message, or the end, is what a reader comes to from `consumed`. */
  ghost predicate ReachesFrom(d: seq<Byte>, consumed: int, q: nat) {
    0 <= consumed <= |d| && SkipBlank(d, consumed) == q
  }

  lemma {:induction false} ReachesIff(d: seq<Byte>, off: nat, w: Wire, m: Message, end: nat)
    requires w.framing.Chunks? && GoodTrailers(w.framing.trailers) && Holds(d, Serialise(w), off)
    requires end == off + |Serialise(w)| && m.consumed == end - Unread(w.framing) && (end < |d| ==> d[end] != CR && d[end] != LF)
    ensures ReachesFrom(d, m.consumed, end) <==> |w.framing.trailers| <= 1
  {
    var p := BodyAt(d, off, w);
    LeftoverIff(d, p, w.framing, m.consumed, end);
  }

  /** A chunked message with trailers (section 7.1.2 of RFC 9112) is read to its end exactly
      when it has at most one: after that line the parser expects the next message, so
      further trailer lines are taken for its start line. */
  lemma {:induction false} TrailersReadIff(d: seq<Byte>, off: nat, w: Wire, asResponse: bool, end: nat) returns (m: Message)
    requires WellFormed(w, asResponse) && w.framing.Chunks? && Holds(d, Serialise(w), off)
    requires end == off + |Serialise(w)| && (end < |d| ==> d[end] != CR && d[end] != LF)
    ensures MessageAt(d, off, asResponse) == Some(m) && m == Expect(w, off)
    ensures ReachesFrom(d, m.consumed, end) <==> |w.framing.trailers| <= 1
  {
    TrailersGood(w, asResponse);
    var e: nat;
    m, e := MessageReads(d, off, w, asResponse);
    ReachesIff(d, off, w, m, end);
  }
}
