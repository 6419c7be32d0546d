/** HTTP/1.x messages as they go over the wire (sections 2, 5, 6.3 and 7.1 of RFC 9112), and
    what the parser is meant to recover from them. */
module HttpWire {
  import opened Bytes
  import opened HttpText
  import opened HttpMessages

  /** A header line, with any blanks around its value. */
  datatype Field = Field(name: seq<Byte>, lead: seq<Byte>, value: seq<Byte>, trail: seq<Byte>)

  datatype Start =
    | RequestLine(verb: seq<Byte>, target: seq<Byte>, version: seq<Byte>)
    | StatusLine(version: seq<Byte>, code: nat, reason: Option<seq<Byte>>)

  /** A chunk and its size line, which may carry an extension. */
  datatype Chunk = Chunk(line: seq<Byte>, data: seq<Byte>)

  datatype Framing =
    | Counted(body: seq<Byte>)
    | Chunks(chunks: seq<Chunk>, last: seq<Byte>, trailers: seq<seq<Byte>>)
    | Bare

  datatype Wire = Wire(start: Start, fields: seq<Field>, framing: Framing)

  // ---- serialisation ---------------------------------------------------------------------

  function StartText(s: Start): seq<Byte> {
    match s
    case RequestLine(verb, target, version) => verb + [SP] + target + [SP] + version
    case StatusLine(version, code, reason) =>
      version + [SP] + Numeral(code, 10) + if reason.Some? then [SP] + reason.value else []
  }

  function FieldText(f: Field): seq<Byte> { f.name + [COLON] + (f.lead + f.value + f.trail) }

  /** The header lines, each led by a line break. */
  function FieldsText(fields: seq<Field>): seq<Byte> {
    if fields == [] then [] else CRLF + (FieldText(fields[0]) + FieldsText(fields[1..]))
  }

  function HeadText(w: Wire): seq<Byte> { StartText(w.start) + FieldsText(w.fields) }

  function ChunkText(c: Chunk): seq<Byte> { c.line + (CRLF + (c.data + CRLF)) }

  function ChunkTexts(chunks: seq<Chunk>): (ts: seq<seq<Byte>>)
    ensures |ts| == |chunks|
  {
    seq(|chunks|, i requires 0 <= i < |chunks| => ChunkText(chunks[i]))
  }

  function TrailersText(trailers: seq<seq<Byte>>): seq<Byte> {
    if trailers == [] then CRLF else trailers[0] + (CRLF + TrailersText(trailers[1..]))
  }

  function BodyText(f: Framing): seq<Byte> {
    match f
    case Counted(body) => body
    case Chunks(chunks, last, trailers) => Concat(ChunkTexts(chunks)) + (last + (CRLF + TrailersText(trailers)))
    case Bare => []
  }

  function Serialise(w: Wire): seq<Byte> { HeadText(w) + (BLANK_LINE + BodyText(w.framing)) }

  // ---- meaning ------------------------------------------------------------------------------

  function HeaderOf(f: Field): Header { Header(f.name, f.value) }

  function HeadersOf(fields: seq<Field>): (hs: seq<Header>)
    ensures |hs| == |fields|
  {
    if fields == [] then [] else [HeaderOf(fields[0])] + HeadersOf(fields[1..])
  }

  /** The value of the last header of a name, in lower case. */
  function LastValue(hs: seq<Header>, name: seq<Byte>): seq<Byte> {
    if hs == [] then []
    else if SameLetters(hs[|hs| - 1].name, name) then Lower(hs[|hs| - 1].value)
    else LastValue(hs[..|hs| - 1], name)
  }

  predicate AnyChunked(hs: seq<Header>) {
    exists i {:trigger ChunkedAt(hs, i)} :: 0 <= i < |hs| && ChunkedAt(hs, i)
  }

  predicate ChunkedAt(hs: seq<Header>, i: nat) { i < |hs| && NamesChunked(hs[i]) }

  /** A transfer-encoding header with "chunked" in its value, both in any case. */
  predicate NamesChunked(h: Header) {
    && SameLetters(h.name, Text("transfer-encoding"))
    && exists k {:trigger SpelledAt(h.value, Text("chunked"), k)} :: 0 <= k <= |h.value| && SpelledAt(h.value, Text("chunked"), k)
  }

  lemma {:induction false} ChunkedText()
    ensures Text("chunked") == CHUNKED && NoCapitals(CHUNKED)
  {
    SmallText("chunked");
  }

  /** The parser's test is that one. */
  lemma {:induction false} SaysIffNames(h: Header)
    ensures SaysChunked(h) <==> NamesChunked(h)
  {
    ChunkedText();
    LowerFinds(h.value, CHUNKED);
    LowerIsName(h.name, "transfer-encoding");
  }

  lemma {:induction false} LowerIsName(name: seq<Byte>, s: string)
    requires forall i :: 0 <= i < |s| ==> !('A' <= s[i] <= 'Z') && s[i] < 128 as char
    ensures Lower(name) == Text(s) <==> SameLetters(name, Text(s))
  {
    SmallText(s);
    LowerMeans(name, Text(s));
  }

  /** The data of the first `n` chunks. */
  function Joined(chunks: seq<Chunk>, n: nat): seq<Byte>
    requires n <= |chunks|
  {
    if n == 0 then [] else Joined(chunks, n - 1) + chunks[n - 1].data
  }

  function BodyBytes(f: Framing): seq<Byte> {
    match f
    case Counted(body) => body
    case Chunks(chunks, _, _) => Joined(chunks, |chunks|)
    case Bare => []
  }

  /** What the parser leaves unread: all that follows the first trailer line. A single
      trailer leaves one line break, which is then skipped as a separator. */
  function Unread(f: Framing): nat {
    if f.Chunks? && f.trailers != [] then |TrailersText(f.trailers[1..])| else 0
  }

  lemma {:induction false} UnreadFits(w: Wire)
    ensures Unread(w.framing) <= |Serialise(w)|
  {
  }

  /** What the start line says. */
  function LineOf(s: Start): Line {
    match s
    case RequestLine(verb, target, version) => Line(true, verb, target, version, 0, [])
    case StatusLine(version, code, reason) => Line(false, [], [], version, code, if reason.Some? then reason.value else [])
  }

  /** What a start line and headers say together. */
  function HeadWith(line: Line, hs: seq<Header>): Head {
    Head(line, hs, AnyChunked(hs), LastValue(hs, Text("content-type")), LastValue(hs, Text("content-encoding")))
  }

  function WireHead(w: Wire): Head { HeadWith(LineOf(w.start), HeadersOf(w.fields)) }

  /** What the parser should report of a message that ends at `end`: the first MiB of its
      body, with a flag that says whether there was more. */
  function Received(h: Head, f: Framing, end: nat): Message
    requires Unread(f) <= end
  {
    var body := BodyBytes(f);
    var kept := Take(body, 0x10_0000);
    Message(h, kept, |body| > 0x10_0000, if f.Chunks? then |kept| else |body|, end - Unread(f))
  }

  /** The message the parser should report for `w` sent at offset `at`. */
  function Expect(w: Wire, at: nat): Message {
    UnreadFits(w);
    Received(WireHead(w), w.framing, at + |Serialise(w)|)
  }

  // ---- well-formedness --------------------------------------------------------------------------

  ghost predicate GoodStart(s: Start, asResponse: bool) {
    match s
    case RequestLine(verb, target, version) =>
      && !asResponse && verb != [] && ('A' <= verb[0] as char <= 'Z' || 'a' <= verb[0] as char <= 'z') && Without(verb, SP) && Without(verb, CR)
      && Without(target, SP) && Without(target, CR) && StartsWith(version, HTTP) && Without(version, CR)
    case StatusLine(version, code, reason) =>
      && asResponse && StartsWith(version, HTTP) && Without(version, SP) && Without(version, CR)
      && 100 <= code <= 599 && (reason.Some? ==> Without(reason.value, CR))
  }

  ghost predicate GoodField(f: Field) {
    && Trimmed(f.name) && Without(f.name, COLON) && Without(f.name, CR) && Trimmed(f.value) && Without(f.value, CR)
    && AllBlank(f.lead) && Without(f.lead, CR) && AllBlank(f.trail) && Without(f.trail, CR)
  }

  ghost predicate GoodChunk(c: Chunk, size: seq<Byte> -> nat) {
    Without(c.line, CR) && c.data != [] && size(c.line) == |c.data|
  }

  ghost predicate GoodChunks(chunks: seq<Chunk>, size: seq<Byte> -> nat) {
    forall c {:trigger GoodChunk(c, size)} :: c in chunks ==> GoodChunk(c, size)
  }

  ghost predicate GoodTrailers(trailers: seq<seq<Byte>>) {
    forall t {:trigger GoodTrailer(t)} :: t in trailers ==> GoodTrailer(t)
  }

  ghost predicate GoodTrailer(t: seq<Byte>) { t != [] && Without(t, CR) && t[0] != LF }

  /** The framing agrees with the headers. */
  ghost predicate GoodFraming(f: Framing, hs: seq<Header>, asResponse: bool) {
    match f
    case Counted(body) =>
      var cl := FindHeader(hs, CONTENT_LENGTH);
      !AnyChunked(hs) && cl.Some? && StrToUL(cl.value.value, 10) == |body|
    case Chunks(chunks, last, trailers) =>
      && AnyChunked(hs) && Without(last, CR) && ChunkSize(last) == 0
      && GoodChunks(chunks, ChunkSize) && GoodTrailers(trailers)
    case Bare => !asResponse && !AnyChunked(hs) && FindHeader(hs, CONTENT_LENGTH).None?
  }

  ghost predicate GoodFields(fields: seq<Field>) {
    forall f {:trigger GoodField(f)} :: f in fields ==> GoodField(f)
  }

  ghost predicate WellFormed(w: Wire, asResponse: bool) {
    && GoodStart(w.start, asResponse) && GoodFields(w.fields)
    && GoodFraming(w.framing, HeadersOf(w.fields), asResponse)
  }

  // ---- numerals are good sizes --------------------------------------------------------------------

  lemma {:induction false} PlainNumeral(n: nat, base: nat)
    requires Base(base)
    ensures Trimmed(Numeral(n, base)) && Without(Numeral(n, base), CR) && Without(Numeral(n, base), SEMICOLON)
    ensures Without(Numeral(n, base), SP)
  {
    NumeralReads(n, base);
    var s := Numeral(n, base);
    forall i | 0 <= i < |s| ensures Differs(s, i, CR) && Differs(s, i, SEMICOLON) && Differs(s, i, SP) { }
  }

  lemma {:induction false} BlankWithout(s: seq<Byte>, c: Byte)
    requires AllBlank(s) && c > SP
    ensures Without(s, c)
  {
    forall i | 0 <= i < |s| ensures Differs(s, i, c) { }
  }

  lemma {:induction false} SpelledPlain(n: nat, s: seq<Byte>)
    requires SameLetters(s, Numeral(n, 16))
    ensures Trimmed(s) && Without(s, CR) && Without(s, SEMICOLON)
  {
    NumeralReads(n, 16);
    SpelledNumeral(s, Numeral(n, 16), 16);
    forall i | 0 <= i < |s| ensures Differs(s, i, CR) && Differs(s, i, SEMICOLON) { }
  }

  /** A hexadecimal size in either case, alone or followed by blanks and an extension, is
      read back. */
  lemma {:induction false} ChunkSizeReads(n: nat, s: seq<Byte>, blanks: seq<Byte>, extension: Option<seq<Byte>>)
    requires n <= ULONG_MAX && AllBlank(blanks) && SameLetters(s, Numeral(n, 16))
    ensures ChunkSize(if extension.Some? then s + blanks + [SEMICOLON] + extension.value else s + blanks) == n
  {
    var size := s + blanks;
    SpelledPlain(n, s);
    BlankWithout(blanks, SEMICOLON);
    WithoutBoth(s, blanks, SEMICOLON);
    assert [] + s + blanks == size;
    TrimPadded([], s, blanks);
    assert s + [] == s;
    NumeralRoundTrip(n, 16, s, []);
    if extension.Some? {
      var line := size + [SEMICOLON] + extension.value;
      Associate(size, [SEMICOLON], extension.value);
      CutAtFirst(line, size, SEMICOLON, extension.value);
    } else {
      HoldsItself(size);
      FindNowhere(size, size, [SEMICOLON], 0);
    }
  }

  lemma {:induction false} LengthReads(n: nat)
    requires n <= ULONG_MAX
    ensures StrToUL(Numeral(n, 10), 10) == n && Trimmed(Numeral(n, 10)) && Without(Numeral(n, 10), CR)
  {
    PlainNumeral(n, 10);
    SameText(Numeral(n, 10));
    NumeralRoundTrip(n, 10, Numeral(n, 10), []);
    assert Numeral(n, 10) + [] == Numeral(n, 10);
  }

  // ---- standard framing is good ---------------------------------------------------------------------

  /** Letters and hyphens, as in header names. */
  predicate NameChar(c: char) { 'a' <= c <= 'z' || 'A' <= c <= 'Z' || c == '-' }

  predicate NameText(s: string) {
    forall i :: 0 <= i < |s| ==> NameChar(s[i])
  }

  lemma {:induction false} NameIsGood(s: string)
    requires NameText(s)
    ensures Trimmed(Text(s)) && Without(Text(s), COLON) && Without(Text(s), CR)
  {
    var t := Text(s);
    forall i | 0 <= i < |t| ensures t[i] > SP && Differs(t, i, COLON) && Differs(t, i, CR) { assert NameChar(s[i]); }
  }

  function LengthField(n: nat): Field { Field(CONTENT_LENGTH, [SP], Numeral(n, 10), []) }

  const TRANSFER_ENCODING: seq<Byte> := Text("Transfer-Encoding")

  function ChunkedField(): Field { Field(TRANSFER_ENCODING, [SP], CHUNKED, []) }

  lemma {:induction false} NoBytes(c: Byte)
    ensures AllBlank([]) && Without([], c)
  {
  }

  lemma {:induction false} LengthFieldGood(n: nat)
    requires n <= ULONG_MAX
    ensures GoodField(LengthField(n))
  {
    assert NameText("Content-Length");
    NameIsGood("Content-Length");
    LengthReads(n);
    WithoutOne(SP, CR);
    NoBytes(CR);
  }

  lemma {:induction false} ChunkedFieldGood()
    ensures GoodField(ChunkedField()) && NamesChunked(HeaderOf(ChunkedField()))
  {
    assert NameText("Transfer-Encoding");
    NameIsGood("Transfer-Encoding");
    WithoutOne(SP, CR);
    NoBytes(CR);
    forall i | 0 <= i < |CHUNKED| ensures Differs(CHUNKED, i, CR) { }
    ChunkedText();
    forall i | 0 <= i < 7 ensures LetterAt(CHUNKED, CHUNKED, i) { }
    assert CHUNKED[0..7] == CHUNKED;
    assert SpelledAt(CHUNKED, Text("chunked"), 0);
    forall i | 0 <= i < 17 ensures LetterAt(TRANSFER_ENCODING, Text("transfer-encoding"), i) { }
  }

  lemma {:induction false} HeadersAppend(fields: seq<Field>, f: Field)
    ensures HeadersOf(fields + [f]) == HeadersOf(fields) + [HeaderOf(f)]
    decreases |fields|
  {
    if fields == [] {
      assert fields + [f] == [f] && [f][1..] == [];
    } else {
      assert (fields + [f])[1..] == fields[1..] + [f];
      HeadersAppend(fields[1..], f);
    }
  }

  lemma {:induction false} GoodFieldsAppend(fields: seq<Field>, f: Field)
    requires GoodFields(fields) && GoodField(f)
    ensures GoodFields(fields + [f])
  {
    forall g | g in fields + [f] ensures GoodField(g) { }
  }

  /** Appending a Content-Length header with the decimal size of a body frames it. */
  lemma {:induction false} CountedIsGood(fields: seq<Field>, body: seq<Byte>, asResponse: bool)
    requires GoodFields(fields) && !AnyChunked(HeadersOf(fields)) && |body| <= ULONG_MAX
    requires forall j {:trigger Named(HeadersOf(fields), j, CONTENT_LENGTH)} :: 0 <= j < |fields| ==> !Named(HeadersOf(fields), j, CONTENT_LENGTH)
    ensures var all := fields + [LengthField(|body|)];
      GoodFields(all) && GoodFraming(Counted(body), HeadersOf(all), asResponse)
  {
    var f := LengthField(|body|);
    var hs, all := HeadersOf(fields), HeadersOf(fields) + [HeaderOf(f)];
    LengthFieldGood(|body|);
    GoodFieldsAppend(fields, f);
    HeadersAppend(fields, f);
    LengthReads(|body|);
    forall j | 0 <= j < |hs| ensures !Named(all, j, CONTENT_LENGTH) { assert !Named(hs, j, CONTENT_LENGTH); }
    forall i | 0 <= i < |CONTENT_LENGTH| ensures LetterAt(CONTENT_LENGTH, CONTENT_LENGTH, i) { }
    HeaderFound(all, CONTENT_LENGTH, |hs|);
    forall i | 0 <= i < |all| ensures !ChunkedAt(all, i) {
      if i < |hs| { assert ChunkedAt(all, i) <==> ChunkedAt(hs, i); } else { assert |all[i].name| == 14; }
    }
  }

  /** Chunks with hexadecimal size lines. */
  function HexChunks(datas: seq<seq<Byte>>): (cs: seq<Chunk>)
    ensures |cs| == |datas|
  {
    seq(|datas|, i requires 0 <= i < |datas| => Chunk(Numeral(|datas[i]|, 16), datas[i]))
  }

  /** A header that names chunked frames any chunking with hexadecimal sizes, wherever it
      stands and in whatever case it is written. */
  lemma {:induction false} AnySpellingFrames(fields: seq<Field>, i: nat, datas: seq<seq<Byte>>, asResponse: bool)
    requires GoodFields(fields) && i < |fields| && NamesChunked(HeaderOf(fields[i]))
    requires forall j :: 0 <= j < |datas| ==> 0 < |datas[j]| <= ULONG_MAX
    ensures GoodFraming(Chunks(HexChunks(datas), Numeral(0, 16), []), HeadersOf(fields), asResponse)
  {
    HeaderAt(fields, i);
    assert ChunkedAt(HeadersOf(fields), i);
    HexLine(0);
    var chunks := HexChunks(datas);
    forall c | c in chunks ensures GoodChunk(c, ChunkSize) {
      var j :| 0 <= j < |chunks| && chunks[j] == c;
      HexLine(|datas[j]|);
    }
  }

  lemma {:induction false} HeaderAt(fields: seq<Field>, i: nat)
    requires i < |fields|
    ensures HeadersOf(fields)[i] == HeaderOf(fields[i])
    decreases i
  {
    if i > 0 { HeaderAt(fields[1..], i - 1); }
  }

  /** Appending the usual Transfer-Encoding header does. */
  lemma {:induction false} ChunkingIsGood(fields: seq<Field>, datas: seq<seq<Byte>>, asResponse: bool)
    requires GoodFields(fields) && (forall i :: 0 <= i < |datas| ==> 0 < |datas[i]| <= ULONG_MAX)
    ensures var all := fields + [ChunkedField()];
      GoodFields(all) && GoodFraming(Chunks(HexChunks(datas), Numeral(0, 16), []), HeadersOf(all), asResponse)
  {
    ChunkedFieldGood();
    GoodFieldsAppend(fields, ChunkedField());
    AnySpellingFrames(fields + [ChunkedField()], |fields|, datas, asResponse);
  }

  // ---- what is recorded of the headers ------------------------------------------------------------

  /** Header `i` is the last of that name, in any spelling. */
  ghost predicate LastNamed(hs: seq<Header>, i: nat, name: seq<Byte>) {
    Named(hs, i, name) && forall j {:trigger Named(hs, j, name)} :: i < j < |hs| ==> !Named(hs, j, name)
  }

  /** The value recorded for a name is that of the last such header, its letters in lower
      case; without one it is empty. */
  lemma {:induction false} RecordedMeans(hs: seq<Header>, name: seq<Byte>)
    ensures (forall i {:trigger Named(hs, i, name)} :: 0 <= i < |hs| ==> !Named(hs, i, name)) ==> LastValue(hs, name) == []
    ensures forall i {:trigger LastNamed(hs, i, name)} :: 0 <= i < |hs| && LastNamed(hs, i, name) ==>
      SameLetters(hs[i].value, LastValue(hs, name)) && NoCapitals(LastValue(hs, name))
  {
    if hs != [] {
      var n := |hs| - 1;
      RecordedMeans(hs[..n], name);
      LowerMeans(hs[n].value, Lower(hs[n].value));
      forall i | 0 <= i < n ensures Named(hs[..n], i, name) <==> Named(hs, i, name) { }
      assert Named(hs, n, name) <==> SameLetters(hs[n].name, name);
      forall i | 0 <= i < n && LastNamed(hs, i, name) ensures LastNamed(hs[..n], i, name) { }
    }
  }

  lemma {:induction false} HexLine(n: nat)
    requires n <= ULONG_MAX
    ensures ChunkSize(Numeral(n, 16)) == n && Without(Numeral(n, 16), CR)
  {
    PlainNumeral(n, 16);
    SameText(Numeral(n, 16));
    ChunkSizeReads(n, Numeral(n, 16), [], None);
    assert Numeral(n, 16) + [] == Numeral(n, 16);
  }
}
