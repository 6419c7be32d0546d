/** The loops of app/src/http_parse.cpp, proved against the functions of HttpMessages. */
module HttpParser {
  import opened Bytes
  import opened HttpText
  import opened HttpMessages

  // ---- helpers --------------------------------------------------------------------------

  lemma {:induction false} BreakAt(d: seq<Byte>, i: nat)
    requires i + 2 <= |d|
    ensures MatchAt(d, CRLF, i) <==> d[i] == CR && d[i + 1] == LF
  {
    assert d[i..i + 2] == [d[i], d[i + 1]];
  }

  lemma {:induction false} BlankLineAt(d: seq<Byte>, i: nat)
    requires i + 4 <= |d|
    ensures MatchAt(d, BLANK_LINE, i) <==> d[i] == CR && d[i + 1] == LF && d[i + 2] == CR && d[i + 3] == LF
  {
    assert d[i..i + 4] == [d[i], d[i + 1], d[i + 2], d[i + 3]];
  }

  method FindCRLF(d: seq<Byte>, from: nat) returns (r: Option<nat>)
    ensures r == Find(d, CRLF, from)
  {
    var i := from;
    while i + 2 <= |d|
      invariant from <= i && Find(d, CRLF, from) == Find(d, CRLF, i)
      decreases |d| - i
    {
      BreakAt(d, i);
      if d[i] == CR && d[i + 1] == LF {
        return Some(i);
      }
      i := i + 1;
    }
    r := None;
  }

  method FindDoubleCRLF(d: seq<Byte>, from: nat) returns (r: Option<nat>)
    ensures r == Find(d, BLANK_LINE, from)
  {
    var i := from;
    while i + 4 <= |d|
      invariant from <= i && Find(d, BLANK_LINE, from) == Find(d, BLANK_LINE, i)
      decreases |d| - i
    {
      BlankLineAt(d, i);
      if d[i] == CR && d[i + 1] == LF && d[i + 2] == CR && d[i + 3] == LF {
        return Some(i);
      }
      i := i + 1;
    }
    r := None;
  }

  method TrimText(s: seq<Byte>) returns (t: seq<Byte>)
    ensures t == Trim(s)
  {
    var a, b := 0, |s|;
    assert s[0..] == s;
    while a < b && Blank(s[a])
      invariant a <= b == |s| && TrimLeft(s) == TrimLeft(s[a..])
    {
      assert s[a..][1..] == s[a + 1..];
      a := a + 1;
    }
    assert s[a..b] == s[a..];
    while b > a && Blank(s[b - 1])
      invariant a <= b <= |s| && Trim(s) == TrimRight(s[a..b])
      decreases b
    {
      assert s[a..b][..b - a - 1] == s[a..b - 1];
      b := b - 1;
    }
    t := s[a..b];
  }

  method AppendCapped(body: seq<Byte>, data: seq<Byte>, truncated: bool) returns (b: seq<Byte>, t: bool)
    ensures b == Append(body, data) && t == (truncated || Overflows(body, data))
  {
    b, t := body, truncated;
    if |body| >= MAX_BODY {
      t := true;
      return;
    }
    var room := MAX_BODY - |body|;
    var take := if |data| < room then |data| else room;
    assert data[..take] == Take(data, room);
    b := body + data[..take];
    if take < |data| {
      t := true;
    }
  }

  method HttpFindHeader(headers: seq<Header>, name: seq<Byte>) returns (r: Option<Header>)
    ensures r == FindHeader(headers, name)
  {
    var want, i := Lower(name), 0;
    assert headers[0..] == headers;
    while i < |headers|
      invariant i <= |headers| && FindHeader(headers, name) == FindHeader(headers[i..], name)
    {
      assert headers[i..][1..] == headers[i + 1..];
      if Lower(headers[i].name) == want {
        return Some(headers[i]);
      }
      i := i + 1;
    }
    r := None;
  }

  // ---- head -----------------------------------------------------------------------------

  method ReadLine(m: Head, line: seq<Byte>) returns (n: Head)
    ensures n == AddLine(m, line)
  {
    n := m;
    var colon := Find(line, [COLON], 0);
    if colon.None? {
      return;
    }
    var name := TrimText(line[..colon.value]);
    var value := TrimText(line[colon.value + 1..]);
    var ln := Lower(name);
    if ln == Text("content-type") {
      n := n.(contentType := Lower(value));
    } else if ln == Text("content-encoding") {
      n := n.(contentEncoding := Lower(value));
    } else if ln == Text("transfer-encoding") && Find(Lower(value), CHUNKED, 0).Some? {
      n := n.(chunked := true);
    }
    n := n.(headers := n.headers + [Header(name, value)]);
  }

  method ReadHeaders(m: Head, head: seq<Byte>, start: nat) returns (n: Head)
    requires start <= |head|
    ensures n == AddLines(m, head, start)
  {
    n := m;
    var pos := start;
    while pos < |head|
      invariant pos <= |head| && AddLines(m, head, start) == AddLines(n, head, pos)
      decreases |head| - pos
    {
      var le := Find(head, CRLF, pos);
      var line := head[pos..if le.Some? then le.value else |head|];
      var next := if le.Some? then le.value + 2 else |head|;
      assert next == NextLine(head, pos) && line == head[pos..LineEnd(head, pos)];
      if line == [] {
        return;
      }
      n := ReadLine(n, line);
      pos := next;
    }
  }

  // ---- body -----------------------------------------------------------------------------

  /** One pass of the chunk loop up to where it touches the body. */
  method ReadTurn(d: seq<Byte>, start: nat) returns (turn: Turn)
    requires start <= |d|
    ensures turn == ChunkTurn(d, start, ChunkSize)
  {
    var le := FindCRLF(d, start);
    if le.None? {
      return NoLine;
    }
    var chunk, p := ChunkSize(d[start..le.value]), le.value + 2;
    turn := ReadChunk(d, p, chunk);
  }

  method ReadChunk(d: seq<Byte>, from: nat, chunk: nat) returns (turn: Turn)
    requires from <= |d|
    ensures turn == ChunkAt(d, from, chunk)
  {
    var p := from;
    if chunk == 0 {
      var end := FindCRLF(d, p);
      return Done(if end.None? then |d| else end.value + 2);
    }
    if p + chunk > |d| {
      return Cut(p);
    }
    p := p + chunk;
    if p + 2 <= |d| {
      BreakAt(d, p);
      if d[p] == CR && d[p + 1] == LF {
        p := p + 2;
      }
    }
    turn := Whole(from, from + chunk, p);
  }

  method ReadChunks(d: seq<Byte>, start: nat) returns (b: Body)
    requires start <= |d|
    ensures b == Dechunk(d, start, [], false, ChunkSize)
  {
    var p, body, truncated := start, [], false;
    ghost var all := Dechunk(d, start, [], false, ChunkSize);
    while true
      invariant p <= |d| && all == Dechunk(d, p, body, truncated, ChunkSize)
      decreases |d| - p
    {
      var turn := ReadTurn(d, p);
      Unfold(d, p, body, truncated, turn, ChunkSize);
      match turn
      case NoLine =>
        return Body(body, true, |d|);
      case Done(end) =>
        return Body(body, truncated, end);
      case Cut(from) =>
        body, truncated := AppendCapped(body, d[from..], truncated);
        return Body(body, truncated, |d|);
      case Whole(from, to, next) =>
        body, truncated := AppendCapped(body, d[from..to], truncated);
        p := next;
    }
  }

  lemma {:induction false} Unfold(d: seq<Byte>, p: nat, b: seq<Byte>, t: bool, turn: Turn, size: seq<Byte> -> nat)
    requires p <= |d| && turn == ChunkTurn(d, p, size)
    ensures turn.Whole? ==>
      var data := d[turn.from..turn.to];
      Dechunk(d, p, b, t, size) == Dechunk(d, turn.next, Append(b, data), t || Overflows(b, data), size)
  {
  }

  method ReadBody(h: Head, d: seq<Byte>, start: nat, asResponse: bool) returns (m: Message)
    requires start <= |d|
    ensures m == Finish(h, d, start, asResponse)
  {
    var cl := HttpFindHeader(h.headers, CONTENT_LENGTH);
    if h.chunked {
      var b := ReadChunks(d, start);
      m := Message(h, b.bytes, b.truncated, |b.bytes|, b.end);
    } else if cl.Some? {
      var len, avail := StrToUL(cl.value.value, 10), |d| - start;
      var take := if len < avail then len else avail;
      var body, truncated := AppendCapped([], d[start..start + take], false);
      if take < len {
        truncated := true;
      }
      m := Message(h, body, truncated, take, start + take);
    } else if asResponse {
      var body, truncated := AppendCapped([], d[start..], false);
      m := Message(h, body, truncated, |d| - start, |d|);
    } else {
      m := Message(h, [], false, 0, start);
    }
  }

  // ---- messages ---------------------------------------------------------------------------

  method ReadHead(d: seq<Byte>, off: nat, end: nat, asResponse: bool) returns (h: Option<Head>)
    requires off <= end <= |d|
    ensures h == HeadOf(d[off..end], asResponse)
  {
    var head := d[off..end];
    var le := Find(head, CRLF, 0);
    var line := StartLineOf(head[..if le.Some? then le.value else |head|], asResponse);
    if line.None? {
      return None;
    }
    var n := ReadHeaders(Head(line.value, [], false, [], []), head, if le.Some? then le.value + 2 else |head|);
    h := Some(n);
  }

  method ReadHeadAt(d: seq<Byte>, off: nat, asResponse: bool) returns (h: Option<Placed>)
    ensures h == HeadAt(d, off, asResponse)
  {
    if !LooksLikeStartLine(d, off, asResponse) {
      return None;
    }
    var end := FindDoubleCRLF(d, off);
    if end.None? {
      return None;
    }
    var head := ReadHead(d, off, end.value, asResponse);
    h := if head.None? then None else Some(Placed(head.value, end.value + 4));
  }

  /** A parse that succeeds ends strictly after `off` and within the buffer. */
  method ParseOne(d: seq<Byte>, off: nat, asResponse: bool) returns (m: Option<Message>)
    ensures m == MessageAt(d, off, asResponse)
    ensures m.Some? ==> off < m.value.consumed <= |d|
  {
    var h := ReadHeadAt(d, off, asResponse);
    if h.None? {
      return None;
    }
    var r := ReadBody(h.value.head, d, h.value.start, asResponse);
    m := Some(r);
  }

  method SkipSeparators(d: seq<Byte>, from: nat) returns (off: nat)
    requires from <= |d|
    ensures off == SkipBlank(d, from)
  {
    off := from;
    while off < |d| && (d[off] == CR || d[off] == LF)
      invariant off <= |d| && SkipBlank(d, from) == SkipBlank(d, off)
    {
      off := off + 1;
    }
  }

  /** The messages so far are the ones that stand at the front of the buffer. */
  ghost predicate ReadSoFar(out: seq<Message>, d: seq<Byte>, asResponse: bool) {
    forall i {:trigger ReadAt(out, i, d, 0, asResponse, MAX_MESSAGES)} :: 0 <= i < |out| ==> ReadAt(out, i, d, 0, asResponse, MAX_MESSAGES)
  }

  lemma {:induction false} ReadStill(out: seq<Message>, i: nat, d: seq<Byte>, asResponse: bool, m: Message)
    requires i < |out| && ReadAt(out, i, d, 0, asResponse, MAX_MESSAGES)
    ensures ReadAt(out + [m], i, d, 0, asResponse, MAX_MESSAGES)
  {
    assert PlaceOf(out + [m], i, d, 0) == PlaceOf(out, i, d, 0);
  }

  lemma {:induction false} ReadLast(out: seq<Message>, d: seq<Byte>, asResponse: bool, m: Message)
    requires |out| < MAX_MESSAGES
    requires var at := PlaceOf(out, |out|, d, 0); at < |d| && MessageAt(d, at, asResponse) == Some(m)
    ensures ReadAt(out + [m], |out|, d, 0, asResponse, MAX_MESSAGES)
  {
    assert PlaceOf(out + [m], |out|, d, 0) == PlaceOf(out, |out|, d, 0);
  }

  lemma {:induction false} ReadOneMore(out: seq<Message>, d: seq<Byte>, asResponse: bool, m: Message)
    requires ReadSoFar(out, d, asResponse) && |out| < MAX_MESSAGES
    requires var at := PlaceOf(out, |out|, d, 0); at < |d| && MessageAt(d, at, asResponse) == Some(m)
    ensures ReadSoFar(out + [m], d, asResponse)
  {
    var more := out + [m];
    ReadLast(out, d, asResponse, m);
    forall i | 0 <= i < |more| ensures ReadAt(more, i, d, 0, asResponse, MAX_MESSAGES) {
      if i < |out| {
        assert ReadAt(out, i, d, 0, asResponse, MAX_MESSAGES);
        ReadStill(out, i, d, asResponse, m);
      }
    }
  }

  lemma {:induction false} ReadToTheEnd(out: seq<Message>, d: seq<Byte>, asResponse: bool)
    requires ReadSoFar(out, d, asResponse) && ReadAt(out, |out|, d, 0, asResponse, MAX_MESSAGES)
    ensures out == Messages(d, asResponse)
  {
    ReadingIsUnique(out, Messages(d, asResponse), d, 0, asResponse, MAX_MESSAGES);
  }

  /** How the loop can end. */
  lemma {:induction false} StopsThere(out: seq<Message>, d: seq<Byte>, asResponse: bool)
    requires var at := PlaceOf(out, |out|, d, 0);
      |out| == MAX_MESSAGES || at == |d| || (at < |d| && MessageAt(d, at, asResponse).None?)
    ensures ReadAt(out, |out|, d, 0, asResponse, MAX_MESSAGES)
  {
  }

  method HttpParse(d: seq<Byte>, asResponse: bool) returns (out: seq<Message>)
    ensures out == Messages(d, asResponse)
  {
    out := [];
    var off := 0;
    while off < |d| && |out| < MAX_MESSAGES
      invariant off <= |d| && |out| <= MAX_MESSAGES && ReadSoFar(out, d, asResponse)
      invariant off == if out == [] then 0 else out[|out| - 1].consumed
      decreases |d| - off
    {
      var at := SkipSeparators(d, off);
      if at >= |d| {
        break;
      }
      var m := ParseOne(d, at, asResponse);
      if m.None? {
        break;
      }
      ReadOneMore(out, d, asResponse, m.value);
      out := out + [m.value];
      off := m.value.consumed;
    }
    StopsThere(out, d, asResponse);
    ReadToTheEnd(out, d, asResponse);
  }
}
