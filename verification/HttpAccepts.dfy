/** Which bytes app/src/http_parse.cpp takes for a message, and responses that do not say
    where they end. */
module HttpAccepts {
  import opened Bytes
  import opened HttpText
  import opened HttpMessages
  import opened HttpWire
  import opened HttpRoundTrip

  // ---- start lines ------------------------------------------------------------------------

  /** The text before, between and after the first two spaces of a line. */
  lemma {:induction false} CutAtSpaces(line: seq<Byte>, s1: nat, s2: nat)
    requires Find(line, [SP], 0) == Some(s1) && Find(line, [SP], s1 + 1) == Some(s2)
    ensures s1 < s2 < |line| && Without(line[..s1], SP) && Without(line[s1 + 1..s2], SP)
    ensures line == line[..s1] + ([SP] + (line[s1 + 1..s2] + ([SP] + line[s2 + 1..])))
  {
    CutAtSpace(line, 0, s1);
    CutAtSpace(line, s1 + 1, s2);
  }

  lemma {:induction false} CutAtSpace(line: seq<Byte>, from: nat, s: nat)
    requires Find(line, [SP], from) == Some(s)
    ensures from <= s < |line| && line[s] == SP && Without(line[from..s], SP)
  {
    FindsFirst(line, [SP], from);
    assert line[s..s + 1][0] == SP;
    forall i | 0 <= i < s - from ensures Differs(line[from..s], i, SP) {
      assert !MatchAt(line, [SP], from + i);
      assert line[from + i..from + i + 1] == [line[from + i]];
    }
  }

  lemma {:induction false} NoSpaceAfter(line: seq<Byte>, from: nat)
    requires from <= |line| && Find(line, [SP], from) == None
    ensures Without(line[from..], SP)
  {
    FindsFirst(line, [SP], from);
    forall i | 0 <= i < |line| - from ensures Differs(line[from..], i, SP) {
      assert !MatchAt(line, [SP], from + i);
      assert line[from + i..from + i + 1] == [line[from + i]];
    }
  }

  ghost predicate IsRequest(line: seq<Byte>, verb: seq<Byte>, target: seq<Byte>, version: seq<Byte>) {
    && line == verb + ([SP] + (target + ([SP] + version))) && Without(verb, SP) && Without(target, SP)
    && |version| >= 5 && version[..5] == Text("HTTP/")
  }

  lemma {:induction false} ProtocolName()
    ensures HTTP == Text("HTTP/") && CHUNKED == Text("chunked") && CONTENT_LENGTH == Text("Content-Length")
    ensures [CR, LF, SP, COLON, SEMICOLON] == Text("\r\n :;") && CRLF == [CR, LF] && BLANK_LINE == CRLF + CRLF
  {
  }

  /** A line is taken for a request exactly if it is a verb and a target without spaces and
      then anything that starts with "HTTP/", one space between them. */
  lemma {:induction false} RequestLineIff(line: seq<Byte>, l: Line)
    ensures RequestLineOf(line) == Some(l) <==> l == Line(true, l.verb, l.target, l.version, 0, []) && IsRequest(line, l.verb, l.target, l.version)
  {
    ProtocolName();
    if RequestLineOf(line) == Some(l) {
      RequestSplits(line, l);
    }
    if IsRequest(line, l.verb, l.target, l.version) {
      RequestIs(line, l.verb, l.target, l.version);
    }
  }

  lemma {:induction false} RequestSplits(line: seq<Byte>, l: Line)
    requires RequestLineOf(line) == Some(l)
    ensures l == Line(true, l.verb, l.target, l.version, 0, [])
    ensures line == l.verb + ([SP] + (l.target + ([SP] + l.version))) && Without(l.verb, SP) && Without(l.target, SP) && StartsWith(l.version, HTTP)
  {
    var s1 := Find(line, [SP], 0).value;
    CutAtSpaces(line, s1, Find(line, [SP], s1 + 1).value);
  }

  ghost predicate IsStatus(line: seq<Byte>, version: seq<Byte>, text: seq<Byte>, reason: seq<Byte>) {
    && Without(version, SP) && Without(text, SP) && 100 <= AToI(text) <= 599
    && (line == version + ([SP] + (text + ([SP] + reason))) || (line == version + ([SP] + text) && reason == []))
  }

  /** A line is taken for a status line exactly if it is a version without spaces, a code
      from 100 to 599, and perhaps a reason. */
  lemma {:induction false} StatusLineIff(line: seq<Byte>, l: Line)
    ensures StatusLineOf(line) == Some(l) <==>
      exists text :: l == Line(false, [], [], l.version, AToI(text), l.statusReason) && IsStatus(line, l.version, text, l.statusReason)
  {
    if StatusLineOf(line) == Some(l) {
      var text := StatusSplits(line, l);
    }
    if text :| l == Line(false, [], [], l.version, AToI(text), l.statusReason) && IsStatus(line, l.version, text, l.statusReason) {
      if line == l.version + ([SP] + (text + ([SP] + l.statusReason))) {
        StatusWithReason(line, l.version, text, l.statusCode, l.statusReason);
      } else {
        StatusAlone(line, l.version, text, l.statusCode);
      }
    }
  }

  lemma {:induction false} StatusSplits(line: seq<Byte>, l: Line) returns (text: seq<Byte>)
    requires StatusLineOf(line) == Some(l)
    ensures l == Line(false, [], [], l.version, AToI(text), l.statusReason) && IsStatus(line, l.version, text, l.statusReason)
  {
    var s1 := Find(line, [SP], 0).value;
    match Find(line, [SP], s1 + 1)
    case Some(s2) => text := WithReason(line, l, s1, s2);
    case None => text := WithoutReason(line, l, s1);
  }

  lemma {:induction false} WithReason(line: seq<Byte>, l: Line, s1: nat, s2: nat) returns (text: seq<Byte>)
    requires StatusLineOf(line) == Some(l) && Find(line, [SP], 0) == Some(s1) && Find(line, [SP], s1 + 1) == Some(s2)
    ensures l == Line(false, [], [], l.version, AToI(text), l.statusReason) && IsStatus(line, l.version, text, l.statusReason)
  {
    text := line[s1 + 1..s2];
    CutAtSpaces(line, s1, s2);
    ReasonIs(line, l, s1, s2);
  }

  lemma {:induction false} ReasonIs(line: seq<Byte>, l: Line, s1: nat, s2: nat)
    requires StatusLineOf(line) == Some(l) && Find(line, [SP], 0) == Some(s1) && Find(line, [SP], s1 + 1) == Some(s2)
    ensures l == Line(false, [], [], line[..s1], AToI(line[s1 + 1..s2]), line[s2 + 1..]) && 100 <= AToI(line[s1 + 1..s2]) <= 599
  {
  }

  lemma {:induction false} WithoutReason(line: seq<Byte>, l: Line, s1: nat) returns (text: seq<Byte>)
    requires StatusLineOf(line) == Some(l) && Find(line, [SP], 0) == Some(s1) && Find(line, [SP], s1 + 1) == None
    ensures l == Line(false, [], [], l.version, AToI(text), l.statusReason) && IsStatus(line, l.version, text, l.statusReason)
  {
    text := line[s1 + 1..|line|];
    OneSpace(line, s1);
  }

  lemma {:induction false} OneSpace(line: seq<Byte>, s1: nat)
    requires Find(line, [SP], 0) == Some(s1) && Find(line, [SP], s1 + 1) == None
    ensures s1 < |line| && Without(line[..s1], SP) && Without(line[s1 + 1..|line|], SP)
    ensures line == line[..s1] + ([SP] + line[s1 + 1..|line|])
  {
    CutAtSpace(line, 0, s1);
    NoSpaceAfter(line, s1 + 1);
    assert line[s1 + 1..] == line[s1 + 1..|line|];
  }

  // ---- messages -----------------------------------------------------------------------------

  /** The first blank line from `off` on starts at `end`, and the first line ends at `eol`. */
  ghost predicate HeadEndsAt(d: seq<Byte>, off: nat, eol: nat, end: nat) {
    && off <= eol <= end && MatchAt(d, BLANK_LINE, end) && NoMatch(d, BLANK_LINE, off, end)
    && MatchAt(d, CRLF, eol) && NoMatch(d, CRLF, off, eol)
  }

  /** There is a message at a place exactly if there is a head that ends in a blank line, its
      first line is a start line, and it begins with "HTTP/" or, for requests, a letter. */
  lemma {:induction false} ParsesIff(d: seq<Byte>, off: nat, asResponse: bool)
    ensures MessageAt(d, off, asResponse).Some? <==>
      && off < |d| && (if asResponse then MatchAt(d, Text("HTTP/"), off) else 'A' <= d[off] as char <= 'Z' || 'a' <= d[off] as char <= 'z')
      && exists eol: nat, end: nat {:trigger HeadEndsAt(d, off, eol, end)} :: HeadEndsAt(d, off, eol, end) && StartLineOf(d[off..eol], asResponse).Some?
  {
    ProtocolName();
    FindsFirst(d, BLANK_LINE, off);
    if Find(d, BLANK_LINE, off).Some? {
      var end := Find(d, BLANK_LINE, off).value;
      var eol := FirstLineEnds(d, off, end);
      assert HeadEndsAt(d, off, eol, end);
    }
    if eol: nat, end: nat :| HeadEndsAt(d, off, eol, end) && StartLineOf(d[off..eol], asResponse).Some? {
      FoundAt(d, BLANK_LINE, off, end);
      var e := FirstLineEnds(d, off, end);
      OneLineEnd(d, off, e, eol);
    }
  }

  lemma {:induction false} OneLineEnd(d: seq<Byte>, off: nat, a: nat, b: nat)
    requires off <= a && off <= b && MatchAt(d, CRLF, a) && NoMatch(d, CRLF, off, a) && MatchAt(d, CRLF, b) && NoMatch(d, CRLF, off, b)
    ensures a == b
  {
  }

  lemma {:induction false} InnerSlice(d: seq<Byte>, off: nat, end: nat, j: nat)
    requires off <= end <= |d| && j + 2 <= end - off
    ensures d[off..end][j..j + 2] == d[off + j..off + j + 2]
  {
    var head := d[off..end];
    assert head[j] == d[off + j] && head[j + 1] == d[off + j + 1];
    assert head[j..j + 2] == [head[j], head[j + 1]];
  }

  /** The first line of a head ends at its first line break, or where the blank line starts. */
  lemma {:induction false} FirstLineEnds(d: seq<Byte>, off: nat, end: nat) returns (eol: nat)
    requires off <= end && MatchAt(d, BLANK_LINE, end)
    ensures off <= eol <= end && MatchAt(d, CRLF, eol) && NoMatch(d, CRLF, off, eol)
    ensures d[off..end][..LineEnd(d[off..end], 0)] == d[off..eol]
  {
    var first := Find(d[off..end], CRLF, 0);
    FindsFirst(d[off..end], CRLF, 0);
    eol := if first.Some? then off + first.value else end;
    if first.Some? { BreakInside(d, off, end, first.value); } else { NoBreakInside(d, off, end); }
  }

  lemma {:induction false} BreakInside(d: seq<Byte>, off: nat, end: nat, i: nat)
    requires off <= end <= |d| && MatchAt(d[off..end], CRLF, i) && NoMatch(d[off..end], CRLF, 0, i)
    ensures off + i <= end && MatchAt(d, CRLF, off + i) && NoMatch(d, CRLF, off, off + i)
    ensures d[off..end][..i] == d[off..off + i]
  {
    InnerSlice(d, off, end, i);
    forall j | off <= j < off + i ensures !MatchAt(d, CRLF, j) {
      assert !MatchAt(d[off..end], CRLF, j - off);
      InnerSlice(d, off, end, j - off);
    }
  }

  lemma {:induction false} NoBreakInside(d: seq<Byte>, off: nat, end: nat)
    requires off <= end && MatchAt(d, BLANK_LINE, end) && NoMatch(d[off..end], CRLF, 0, end - off + 1)
    ensures MatchAt(d, CRLF, end) && NoMatch(d, CRLF, off, end)
  {
    assert d[end..end + 4][..2] == d[end..end + 2];
    assert d[end] == d[end..end + 4][0];
    forall j | off <= j < end ensures !MatchAt(d, CRLF, j) {
      assert !MatchAt(d[off..end], CRLF, j - off);
      if j + 2 <= end { InnerSlice(d, off, end, j - off); } else { Mismatch(d, CRLF, j, 1); }
    }
  }

  // ---- responses without a length ----------------------------------------------------------

  /** No header says where the body ends. */
  ghost predicate Unframed(hs: seq<Header>) {
    !AnyChunked(hs) && forall j {:trigger Named(hs, j, Text("content-length"))} :: 0 <= j < |hs| ==> !Named(hs, j, Text("content-length"))
  }

  lemma {:induction false} UnframedFinds(hs: seq<Header>)
    requires Unframed(hs)
    ensures FindHeader(hs, CONTENT_LENGTH) == None
  {
    var small := Text("content-length");
    forall j | 0 <= j < |hs| ensures !Named(hs, j, CONTENT_LENGTH) {
      assert !Named(hs, j, small);
      SmallText("content-length");
      forall i | 0 <= i < 14 ensures LetterAt(CONTENT_LENGTH, small, i) { }
      LowerIffSame(hs[j].name, CONTENT_LENGTH);
      LowerIffSame(CONTENT_LENGTH, small);
      LowerIffSame(hs[j].name, small);
    }
    HeaderAbsent(hs, CONTENT_LENGTH);
  }

  /** The body of a response that does not say where it ends is the rest of the capture, up
      to the cap, and it uses the capture up; a request then has no body. */
  lemma {:induction false} UnframedBody(d: seq<Byte>, off: nat, w: Wire, asResponse: bool, line: seq<Byte>, lines: seq<Byte>, body: seq<Byte>)
    requires GoodStart(w.start, asResponse) && GoodFields(w.fields) && Unframed(HeadersOf(w.fields))
    requires Parts(d, off, line, lines, body) && line == StartText(w.start) && lines == FieldsText(w.fields)
    requires |d| == off + |line| + |lines| + 4 + |body|
    ensures MessageAt(d, off, asResponse) == Some(
      if asResponse then Message(WireHead(w), Take(body, 0x10_0000), |body| > 0x10_0000, |body|, |d|)
      else Message(WireHead(w), [], false, 0, |d| - |body|))
  {
    var h, start := UnframedHead(d, off, w, asResponse, line, lines, body);
    UnframedRest(d, off, h, start, asResponse, body);
  }

  lemma {:induction false} UnframedHead(d: seq<Byte>, off: nat, w: Wire, asResponse: bool, line: seq<Byte>, lines: seq<Byte>, body: seq<Byte>)
    returns (h: Head, start: nat)
    requires GoodStart(w.start, asResponse) && GoodFields(w.fields) && Unframed(HeadersOf(w.fields))
    requires Parts(d, off, line, lines, body) && line == StartText(w.start) && lines == FieldsText(w.fields)
    ensures HeadAt(d, off, asResponse) == Some(Placed(h, start)) && !h.chunked && FindHeader(h.headers, CONTENT_LENGTH) == None
    ensures h == WireHead(w) && start == off + |line| + |lines| + 4 && Holds(d, body, start)
  {
    h, start := WireHeadReads(d, off, w, asResponse, line, lines, body);
    UnframedFinds(HeadersOf(w.fields));
  }

  lemma {:induction false} UnframedRest(d: seq<Byte>, off: nat, h: Head, start: nat, asResponse: bool, body: seq<Byte>)
    requires HeadAt(d, off, asResponse) == Some(Placed(h, start)) && !h.chunked && FindHeader(h.headers, CONTENT_LENGTH) == None
    requires Holds(d, body, start) && start + |body| == |d|
    ensures MessageAt(d, off, asResponse) == Some(
      if asResponse then Message(h, Take(body, 0x10_0000), |body| > 0x10_0000, |body|, |d|) else Message(h, [], false, 0, start))
  {
    SliceOf(d, body, start);
    assert d[start..] == body;
    RestIsBody(h, d, start, asResponse, body);
  }

  lemma {:induction false} RestIsBody(h: Head, d: seq<Byte>, start: nat, asResponse: bool, body: seq<Byte>)
    requires !h.chunked && FindHeader(h.headers, CONTENT_LENGTH) == None && start + |body| == |d| && d[start..] == body
    ensures Finish(h, d, start, asResponse) ==
      if asResponse then Message(h, Take(body, 0x10_0000), |body| > 0x10_0000, |body|, |d|) else Message(h, [], false, 0, start)
  {
    assert [] + Take(body, MAX_BODY) == Take(body, MAX_BODY);
  }
}
