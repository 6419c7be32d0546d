/** The hex codec and the key log of app/src/tls_decrypt.cpp. */
module TlsKeyLog {
  import opened Bytes

  // ---- hex ------------------------------------------------------------------------------

  /** H[n]. */
  function HexDigit(n: nat): (c: char)
    requires n < 16
    ensures Nibble(c) == n && !('A' <= c <= 'F')
  {
    if n < 10 then '0' + n as char else 'a' + (n - 10) as char
  }

  /** The value of a hex digit in either case; -1 for anything else. */
  function Nibble(c: char): (v: int)
    ensures -1 <= v < 16
  {
    if '0' <= c <= '9' then c as int - '0' as int
    else if 'a' <= c <= 'f' then c as int - 'a' as int + 10
    else if 'A' <= c <= 'F' then c as int - 'A' as int + 10
    else -1
  }

  function Hex(b: seq<Byte>): (s: string)
    ensures |s| == 2 * |b|
  {
    if b == [] then [] else [HexDigit(b[0] / 16), HexDigit(b[0] % 16)] + Hex(b[1..])
  }

  predicate HexPair(h: string) {
    |h| >= 2 && Nibble(h[0]) >= 0 && Nibble(h[1]) >= 0
  }

  /** Decoding stops at the first pair that is not two hex digits. */
  function Unhex(h: string): seq<Byte> {
    if HexPair(h) then [16 * Nibble(h[0]) + Nibble(h[1])] + Unhex(h[2..]) else []
  }

  function LowerHex(c: char): char {
    if 'A' <= c <= 'F' then (c as int - 'A' as int + 'a' as int) as char else c
  }

  function LowerAll(s: string): (t: string)
    ensures |t| == |s|
  {
    if s == [] then [] else [LowerHex(s[0])] + LowerAll(s[1..])
  }

  predicate AllHex(h: string) {
    forall i :: 0 <= i < |h| ==> Nibble(h[i]) >= 0
  }

  method BytesToHex(p: seq<Byte>) returns (s: string)
    ensures s == Hex(p)
  {
    s := [];
    assert p[0..] == p;
    for i := 0 to |p|
      invariant Hex(p) == s + Hex(p[i..])
    {
      assert p[i..][1..] == p[i + 1..];
      Associate(s, [HexDigit(p[i] / 16), HexDigit(p[i] % 16)], Hex(p[i + 1..]));
      s := s + [HexDigit(p[i] / 16), HexDigit(p[i] % 16)];
    }
  }

  method HexToBytes(h: string) returns (out: seq<Byte>)
    ensures out == Unhex(h)
  {
    out := [];
    var i := 0;
    assert h[0..] == h;
    while i + 1 < |h|
      invariant i <= |h| && Unhex(h) == out + Unhex(h[i..])
    {
      var hi, lo := Nibble(h[i]), Nibble(h[i + 1]);
      if hi < 0 || lo < 0 {
        break;
      }
      assert h[i..][2..] == h[i + 2..];
      Associate(out, [16 * hi + lo], Unhex(h[i + 2..]));
      out := out + [16 * hi + lo];
      i := i + 2;
    }
  }

  /** Decoding undoes encoding. */
  lemma {:induction false} HexRoundTrip(b: seq<Byte>)
    ensures Unhex(Hex(b)) == b
  {
    if b != [] {
      HexRoundTrip(b[1..]);
      assert Hex(b)[2..] == Hex(b[1..]);
    }
  }

  lemma {:induction false} HexOfOne(x: Byte, rest: seq<Byte>, hi: nat, lo: nat)
    requires hi < 16 && lo < 16 && x == 16 * hi + lo
    ensures Hex([x] + rest) == [HexDigit(hi), HexDigit(lo)] + Hex(rest)
  {
    assert x / 16 == hi && x % 16 == lo;
    assert ([x] + rest)[1..] == rest;
  }

  lemma {:induction false} PairRecodes(h: string)
    requires HexPair(h)
    ensures Hex(Unhex(h)) == [LowerHex(h[0]), LowerHex(h[1])] + Hex(Unhex(h[2..]))
  {
    var hi, lo := Nibble(h[0]), Nibble(h[1]);
    LowerDigit(h[0]);
    LowerDigit(h[1]);
    HexOfOne(16 * hi + lo, Unhex(h[2..]), hi, lo);
  }

  lemma {:induction false} PairLowers(h: string)
    requires |h| >= 2
    ensures LowerAll(h) == [LowerHex(h[0]), LowerHex(h[1])] + LowerAll(h[2..])
  {
    assert h[1..][1..] == h[2..];
    Associate([LowerHex(h[0])], [LowerHex(h[1])], LowerAll(h[2..]));
    assert [LowerHex(h[0])] + [LowerHex(h[1])] == [LowerHex(h[0]), LowerHex(h[1])];
  }

  lemma {:induction false} PairIsHex(h: string)
    requires HexPair(h)
    ensures AllHex(h) <==> AllHex(h[2..])
  {
    var t := h[2..];
    if AllHex(t) {
      forall i | 0 <= i < |h| ensures Nibble(h[i]) >= 0 { if i >= 2 { assert h[i] == t[i - 2]; } }
    }
  }

  lemma {:induction false} Cancel(a: string, x: string, y: string)
    ensures a + x == a + y <==> x == y
  {
    assert (a + x)[|a|..] == x && (a + y)[|a|..] == y;
  }

  /** Encoding undoes decoding up to letter case, for exactly the well-formed texts. */
  lemma {:induction false} HexCanonical(h: string)
    ensures Hex(Unhex(h)) == LowerAll(h) <==> |h| % 2 == 0 && AllHex(h)
    decreases |h|
  {
    if HexPair(h) {
      HexCanonical(h[2..]);
      PairStep(h);
      PairIsHex(h);
    }
  }

  lemma {:induction false} PairStep(h: string)
    requires HexPair(h)
    ensures Hex(Unhex(h)) == LowerAll(h) <==> Hex(Unhex(h[2..])) == LowerAll(h[2..])
  {
    PairRecodes(h);
    PairLowers(h);
    Cancel([LowerHex(h[0]), LowerHex(h[1])], Hex(Unhex(h[2..])), LowerAll(h[2..]));
  }

  lemma {:induction false} LowerDigit(c: char)
    requires Nibble(c) >= 0
    ensures HexDigit(Nibble(c)) == LowerHex(c)
  {
  }

  lemma {:induction false} HexInjective(a: seq<Byte>, b: seq<Byte>)
    requires Hex(a) == Hex(b)
    ensures a == b
  {
    HexRoundTrip(a);
    HexRoundTrip(b);
  }

  // ---- lines ----------------------------------------------------------------------------

  const LABEL: string := "CLIENT_RANDOM "

  predicate LineEnding(c: char) { c == '\r' || c == '\n' || c == ' ' }

  function StripEnd(s: string): string {
    if s != [] && LineEnding(s[|s| - 1]) then StripEnd(s[..|s| - 1]) else s
  }

  /** The first space at or after `from`. */
  function FindSpace(s: string, from: nat): (r: Option<nat>)
    ensures r.Some? ==> from <= r.value < |s| && s[r.value] == ' '
    decreases |s| - from
  {
    if from >= |s| then None else if s[from] == ' ' then Some(from) else FindSpace(s, from + 1)
  }

  /** What a line contributes: a key in lower case and a secret. */
  datatype Entry = Entry(key: string, secret: seq<Byte>)

  function ParseLine(line: string): Option<Entry> {
    if !(LABEL <= line) then None
    else
      match FindSpace(line, 14)
      case None => None
      case Some(b) =>
        if b - 14 != 64 then None else Some(Entry(LowerAll(line[14..b]), Unhex(StripEnd(line[b + 1..]))))
  }

  type Secrets = map<string, seq<Byte>>

  function AddTo(m: Secrets, line: string): Secrets {
    match ParseLine(line)
    case None => m
    case Some(e) => m[e.key := e.secret]
  }

  function Lookup(m: Secrets, clientRandom: seq<Byte>): seq<Byte> {
    if Hex(clientRandom) in m then m[Hex(clientRandom)] else []
  }

  /** TlsKeyLog. */
  class KeyLog {
    var secrets: Secrets

    constructor ()
      ensures secrets == map[]
    {
      secrets := map[];
    }

    method AddLine(line: string)
      modifies this
      ensures secrets == AddTo(old(secrets), line)
    {
      if !(LABEL <= line) {
        return;
      }
      var b := FindSpace(line, 14);
      if b.None? {
        return;
      }
      var cr, ms := line[14..b.value], line[b.value + 1..];
      while ms != [] && LineEnding(ms[|ms| - 1])
        invariant StripEnd(line[b.value + 1..]) == StripEnd(ms)
      {
        ms := ms[..|ms| - 1];
      }
      if |cr| != 64 {
        return;
      }
      var key := LowerKey(cr);
      var secret := HexToBytes(ms);
      secrets := secrets[key := secret];
    }

    method MasterSecret(clientRandom: seq<Byte>) returns (secret: seq<Byte>)
      ensures secret == Lookup(secrets, clientRandom)
    {
      var key := BytesToHex(clientRandom);
      secret := if key in secrets then secrets[key] else [];
    }
  }

  method LowerKey(cr: string) returns (key: string)
    ensures key == LowerAll(cr)
  {
    key := [];
    assert cr[0..] == cr;
    for i := 0 to |cr|
      invariant LowerAll(cr) == key + LowerAll(cr[i..])
    {
      assert cr[i..][1..] == cr[i + 1..];
      Associate(key, [LowerHex(cr[i])], LowerAll(cr[i + 1..]));
      key := key + [LowerHex(cr[i])];
    }
  }

  // ---- what a log holds -------------------------------------------------------------------

  /** A log line for a client random: the random and the secret in hex, either case, and
      any line ending. */
  ghost predicate LineFor(line: string, clientRandom: seq<Byte>, secret: seq<Byte>) {
    exists cr, ms, end {:trigger LABEL + cr + [' '] + ms + end} ::
      && line == LABEL + cr + [' '] + ms + end && |cr| == 64 && AllHex(cr) && Unhex(cr) == clientRandom
      && |ms| % 2 == 0 && AllHex(ms) && Unhex(ms) == secret
      && forall i :: 0 <= i < |end| ==> end[i] == '\r' || end[i] == '\n' || end[i] == ' '
  }

  lemma {:induction false} SpaceAfter(s: string, from: nat, at: nat)
    requires from <= at < |s| && s[at] == ' ' && forall i :: from <= i < at ==> s[i] != ' '
    ensures FindSpace(s, from) == Some(at)
    decreases at - from
  {
    if from < at { SpaceAfter(s, from + 1, at); }
  }

  lemma {:induction false} StripDrops(s: string, end: string)
    requires forall i :: 0 <= i < |end| ==> end[i] == '\r' || end[i] == '\n' || end[i] == ' '
    requires s != [] ==> s[|s| - 1] != '\r' && s[|s| - 1] != '\n' && s[|s| - 1] != ' '
    ensures StripEnd(s + end) == s
    decreases |end|
  {
    if end == [] {
      assert s + end == s;
    } else {
      assert (s + end)[..|s + end| - 1] == s + end[..|end| - 1];
      StripDrops(s, end[..|end| - 1]);
    }
  }

  lemma {:induction false} LineSplits(cr: string, ms: string, end: string)
    requires |cr| == 64
    ensures var line := LABEL + cr + [' '] + ms + end;
      LABEL <= line && |line| > 78 && line[14..78] == cr && line[78] == ' ' && line[79..] == ms + end
  {
    var line := LABEL + cr + [' '] + ms + end;
    assert line == LABEL + (cr + ([' '] + (ms + end)));
  }

  lemma {:induction false} HexHasNoSpace(h: string)
    requires AllHex(h)
    ensures forall i :: 0 <= i < |h| ==> h[i] != ' '
    ensures h != [] ==> !LineEnding(h[|h| - 1])
  {
    if h != [] { assert Nibble(h[|h| - 1]) >= 0; }
  }

  /** The label, 64 characters without a space, a space, and the rest. */
  ghost predicate IsLine(line: string, cr: string, rest: string) {
    line == "CLIENT_RANDOM " + cr + [' '] + rest && |cr| == 64 && forall i :: 0 <= i < 64 ==> cr[i] != ' '
  }

  /** A line counts exactly if it has that form; the rest is taken for the secret. */
  lemma {:induction false} ParseLineIff(line: string, e: Entry)
    ensures ParseLine(line) == Some(e) <==> exists cr, rest :: IsLine(line, cr, rest) && e == Entry(LowerAll(cr), Unhex(StripEnd(rest)))
  {
    if ParseLine(line) == Some(e) {
      FirstSpace(line, 14);
      assert IsLine(line, line[14..78], line[79..]);
    }
    if cr, rest :| IsLine(line, cr, rest) && e == Entry(LowerAll(cr), Unhex(StripEnd(rest))) {
      LineSplits(cr, rest, "");
      assert line == LABEL + cr + [' '] + rest + "" && rest + "" == rest;
      forall i | 14 <= i < 78 ensures line[i] != ' ' { assert line[i] == line[14..78][i - 14]; }
      SpaceAfter(line, 14, 78);
    }
  }

  lemma {:induction false} FirstSpace(s: string, from: nat)
    requires FindSpace(s, from).Some?
    ensures forall i :: from <= i < FindSpace(s, from).value ==> s[i] != ' '
    decreases |s| - from
  {
    if s[from] != ' ' { FirstSpace(s, from + 1); }
  }

  /** Such a line is read for that client random, whatever the letter case. */
  lemma {:induction false} LineReads(line: string, clientRandom: seq<Byte>, secret: seq<Byte>)
    requires LineFor(line, clientRandom, secret)
    ensures ParseLine(line) == Some(Entry(Hex(clientRandom), secret))
  {
    var cr, ms, end :| line == LABEL + cr + [' '] + ms + end && |cr| == 64 && AllHex(cr) && Unhex(cr) == clientRandom
      && |ms| % 2 == 0 && AllHex(ms) && Unhex(ms) == secret
      && forall i :: 0 <= i < |end| ==> end[i] == '\r' || end[i] == '\n' || end[i] == ' ';
    LineSplits(cr, ms, end);
    HexHasNoSpace(cr);
    HexHasNoSpace(ms);
    forall i | 14 <= i < 78 ensures line[i] != ' ' { assert line[i] == line[14..78][i - 14]; }
    SpaceAfter(line, 14, 78);
    StripDrops(ms, end);
    HexCanonical(cr);
  }

  /** The lines of a log, one after the other. */
  function Loaded(lines: seq<string>): Secrets {
    if lines == [] then map[] else AddTo(Loaded(lines[..|lines| - 1]), lines[|lines| - 1])
  }

  /** Whether a line speaks of a client random. */
  predicate Names(line: string, clientRandom: seq<Byte>) {
    ParseLine(line).Some? && ParseLine(line).value.key == Hex(clientRandom)
  }

  /** A secret is found again: after a line for a client random and any number of lines
      that do not name it, looking that client random up gives the secret. */
  lemma {:induction false} KeyLogRoundTrip(before: seq<string>, line: string, after: seq<string>, clientRandom: seq<Byte>, secret: seq<Byte>)
    requires LineFor(line, clientRandom, secret)
    requires forall i :: 0 <= i < |after| ==> !Names(after[i], clientRandom)
    ensures Lookup(Loaded(before + [line] + after), clientRandom) == secret
    decreases |after|
  {
    var lines := before + [line] + after;
    if after == [] {
      LineReads(line, clientRandom, secret);
      assert lines[..|lines| - 1] == before;
    } else {
      KeyLogRoundTrip(before, line, after[..|after| - 1], clientRandom, secret);
      assert lines[..|lines| - 1] == before + [line] + after[..|after| - 1];
      assert !Names(after[|after| - 1], clientRandom);
    }
  }

  /** Lines for different client randoms do not disturb each other. */
  lemma {:induction false} OtherLineHarmless(line: string, other: seq<Byte>, secret: seq<Byte>, clientRandom: seq<Byte>, m: Secrets)
    requires LineFor(line, other, secret) && other != clientRandom
    ensures !Names(line, clientRandom) && Lookup(AddTo(m, line), clientRandom) == Lookup(m, clientRandom)
  {
    LineReads(line, other, secret);
    if Hex(other) == Hex(clientRandom) { HexInjective(other, clientRandom); }
  }

  /** A client random no line names is unknown. */
  lemma {:induction false} UnknownIsEmpty(lines: seq<string>, clientRandom: seq<Byte>)
    requires forall i :: 0 <= i < |lines| ==> !Names(lines[i], clientRandom)
    ensures Lookup(Loaded(lines), clientRandom) == []
  {
    if lines != [] { UnknownIsEmpty(lines[..|lines| - 1], clientRandom); }
  }
}
