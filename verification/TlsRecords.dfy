/** TLS records and handshake messages as app/src/tls_decrypt.cpp finds them in a captured
    stream (sections 6.2.1 and 7.4 of RFC 5246). */
module TlsRecords {
  import opened Bytes

  datatype Record = Record(kind: Byte, version: nat, payload: seq<Byte>)

  function Word(hi: Byte, lo: Byte): (w: nat)
    ensures w < U16
  {
    256 * hi + lo
  }

  /** A record that can be framed. */
  predicate Framable(r: Record) { r.version < U16 && |r.payload| < U16 }

  function HeaderOf(kind: Byte, version: nat, len: nat): (h: seq<Byte>)
    requires version < U16 && len < U16
    ensures |h| == 5
  {
    [kind, version / 256, version % 256, len / 256, len % 256]
  }

  /** A record on the wire. */
  function Frame(r: Record): (s: seq<Byte>)
    requires Framable(r)
    ensures |s| == 5 + |r.payload|
  {
    HeaderOf(r.kind, r.version, |r.payload|) + r.payload
  }

  function LengthOf(s: seq<Byte>): nat
    requires |s| >= 5
  {
    Word(s[3], s[4])
  }

  /** A whole record stands at the front. */
  predicate Complete(s: seq<Byte>) { |s| >= 5 && |s| >= 5 + LengthOf(s) }

  function First(s: seq<Byte>): Record
    requires Complete(s)
  {
    Record(s[0], Word(s[1], s[2]), s[5..5 + LengthOf(s)])
  }

  /** The records of a stream, up to an incomplete one. */
  function Records(s: seq<Byte>): seq<Record> {
    if Complete(s) then [First(s)] + Records(s[5 + LengthOf(s)..]) else []
  }

  /** Frames one after the other. */
  function Frames(rs: seq<Record>): seq<Byte>
    requires forall i :: 0 <= i < |rs| ==> Framable(rs[i])
  {
    if rs == [] then [] else Frame(rs[0]) + Frames(rs[1..])
  }

  method ParseRecords(s: seq<Byte>) returns (recs: seq<Record>)
    ensures recs == Records(s)
  {
    recs := [];
    var i := 0;
    assert s[0..] == s;
    while i + 5 <= |s|
      invariant i <= |s| && Records(s) == recs + Records(s[i..])
      decreases |s| - i
    {
      var kind, ver, len := s[i], Word(s[i + 1], s[i + 2]), Word(s[i + 3], s[i + 4]);
      if i + 5 + len > |s| {
        break;
      }
      OneRecord(s, i, len, recs);
      recs := recs + [Record(kind, ver, s[i + 5..i + 5 + len])];
      i := i + 5 + len;
    }
  }

  lemma {:induction false} OneRecord(s: seq<Byte>, i: nat, len: nat, recs: seq<Record>)
    requires i + 5 <= |s| && len == Word(s[i + 3], s[i + 4]) && i + 5 + len <= |s|
    ensures var r := Record(s[i], Word(s[i + 1], s[i + 2]), s[i + 5..i + 5 + len]);
      recs + Records(s[i..]) == recs + [r] + Records(s[i + 5 + len..])
  {
    var t := s[i..];
    assert t[5..5 + len] == s[i + 5..i + 5 + len] && t[5 + len..] == s[i + 5 + len..];
    Associate(recs, [First(t)], Records(t[5 + len..]));
  }

  // ---- framing and parsing are inverse ------------------------------------------------------

  lemma {:induction false} WordSplits(n: nat)
    requires n < U16
    ensures n / 256 < 256 && n % 256 < 256 && Word(n / 256, n % 256) == n
  {
  }

  /** A frame is read back, whatever follows. */
  lemma {:induction false} FrameReads(r: Record, rest: seq<Byte>)
    requires Framable(r)
    ensures Records(Frame(r) + rest) == [r] + Records(rest)
  {
    var s, n := Frame(r) + rest, |r.payload|;
    WordSplits(r.version);
    WordSplits(n);
    assert s[5..5 + n] == r.payload && s[5 + n..] == rest;
  }

  ghost predicate AllFramable(rs: seq<Record>) {
    forall i :: 0 <= i < |rs| ==> Framable(rs[i])
  }

  /** Records put on the wire are found again, up to what follows them. */
  lemma {:induction false} FramesRead(rs: seq<Record>, rest: seq<Byte>)
    requires AllFramable(rs)
    ensures Records(Frames(rs) + rest) == rs + Records(rest)
  {
    if rs == [] {
      assert Frames(rs) + rest == rest && rs + Records(rest) == Records(rest);
    } else {
      FramesRead(rs[1..], rest);
      FrameThen(rs[0], Frames(rs[1..]), rest, rs[1..], Records(rest));
      assert [rs[0]] + rs[1..] == rs;
    }
  }

  /** PutRec: one more record of version 3.3 at the end of a stream. Its length field takes
      the low 16 bits of the length. */
  method PutRec(s: seq<Byte>, kind: Byte, payload: seq<Byte>) returns (t: seq<Byte>)
    ensures t == s + (HeaderOf(kind, 0x0303, |payload| % U16) + payload)
    ensures |payload| < U16 ==> t == s + Frame(Record(kind, 0x0303, payload))
  {
    t := s + [kind] + [3] + [3] + [|payload| / 256 % 256] + [|payload| % 256] + payload;
    LowWord(|payload|);
    assert [kind] + [3] + [3] + [|payload| / 256 % 256] + [|payload| % 256] == HeaderOf(kind, 0x0303, |payload| % U16);
  }

  lemma {:induction false} LowWord(n: nat)
    ensures n % U16 / 256 == n / 256 % 256 && n % U16 % 256 == n % 256
  {
  }

  /** What such a record is read back as: all of its payload if and only if that is below
      64 KiB; otherwise a beginning of it, the rest being taken for further records. */
  lemma {:induction false} PutReads(kind: Byte, payload: seq<Byte>)
    ensures var n := |payload| % U16;
      Records(HeaderOf(kind, 0x0303, n) + payload) == [Record(kind, 0x0303, payload[..n])] + Records(payload[n..])
    ensures payload[..|payload| % U16] == payload <==> |payload| < U16
  {
    var n := |payload| % U16;
    FrameReads(Record(kind, 0x0303, payload[..n]), payload[n..]);
    Halves(payload, n);
    Associate(HeaderOf(kind, 0x0303, n), payload[..n], payload[n..]);
  }

  lemma {:induction false} FrameThen(r: Record, tail: seq<Byte>, rest: seq<Byte>, rs: seq<Record>, others: seq<Record>)
    requires Framable(r) && Records(tail + rest) == rs + others
    ensures Records(Frame(r) + tail + rest) == [r] + rs + others
  {
    Associate(Frame(r), tail, rest);
    FrameReads(r, tail + rest);
    Associate([r], rs, others);
  }

  lemma {:induction false} FirstFrames(s: seq<Byte>)
    requires Complete(s)
    ensures Framable(First(s)) && Frame(First(s)) == s[..5 + LengthOf(s)]
  {
    var n := LengthOf(s);
    assert s[..5 + n] == s[..5] + s[5..5 + n];
    assert s[..5] == [s[0], s[1], s[2], s[3], s[4]];
  }

  /** Every stream is the frames of its records followed by less than one record. */
  lemma {:induction false} StreamSplits(s: seq<Byte>) returns (rest: seq<Byte>)
    ensures AllFramable(Records(s)) && s == Frames(Records(s)) + rest && !Complete(rest)
    decreases |s|
  {
    if Complete(s) {
      var n := 5 + LengthOf(s);
      var r, rs := First(s), Records(s[n..]);
      rest := StreamSplits(s[n..]);
      FirstFrames(s);
      Unframe(s, n, r, rs, rest);
      assert Records(s) == [r] + rs;
    } else {
      rest := s;
    }
  }

  lemma {:induction false} Unframe(s: seq<Byte>, n: nat, r: Record, rs: seq<Record>, rest: seq<Byte>)
    requires n <= |s| && Framable(r) && Frame(r) == s[..n] && AllFramable(rs) && s[n..] == Frames(rs) + rest
    ensures AllFramable([r] + rs) && s == Frames([r] + rs) + rest
  {
    assert ([r] + rs)[1..] == rs;
    Associate(Frame(r), Frames(rs), rest);
    Halves(s, n);
  }

  /** More of the stream only adds records. */
  lemma {:induction false} RecordsGrow(s: seq<Byte>, more: seq<Byte>)
    ensures Records(s) <= Records(s + more)
  {
    var rest := StreamSplits(s);
    Associate(Frames(Records(s)), rest, more);
    FramesRead(Records(s), rest + more);
  }

  // ---- handshake messages ----------------------------------------------------------------------

  const HANDSHAKE: Byte := 22
  const CHANGE_CIPHER_SPEC: Byte := 20
  const APPLICATION_DATA: Byte := 23

  datatype Handshake = Handshake(kind: Byte, body: seq<Byte>)

  function Triple(a: Byte, b: Byte, c: Byte): nat { 256 * Word(a, b) + c }

  function HandshakeLength(p: seq<Byte>): nat
    requires |p| >= 4
  {
    Triple(p[1], p[2], p[3])
  }

  predicate WholeHandshake(p: seq<Byte>) { |p| >= 4 && |p| >= 4 + HandshakeLength(p) }

  /** The handshake messages of one record, up to one that the record cuts. */
  function Handshakes(p: seq<Byte>): seq<Handshake> {
    if WholeHandshake(p) then
      [Handshake(p[0], p[4..4 + HandshakeLength(p)])] + Handshakes(p[4 + HandshakeLength(p)..])
    else []
  }

  /** The first message of a type. */
  function FirstOf(hs: seq<Handshake>, want: Byte): Option<seq<Byte>> {
    if hs == [] then None else if hs[0].kind == want then Some(hs[0].body) else FirstOf(hs[1..], want)
  }

  /** All handshake messages of a list of records. */
  function AllHandshakes(recs: seq<Record>): seq<Handshake> {
    if recs == [] then []
    else (if recs[0].kind == HANDSHAKE then Handshakes(recs[0].payload) else []) + AllHandshakes(recs[1..])
  }

  function Search(recs: seq<Record>, want: Byte): Option<seq<Byte>> {
    FirstOf(AllHandshakes(recs), want)
  }

  lemma {:induction false} FirstOfAppend(a: seq<Handshake>, b: seq<Handshake>, want: Byte)
    ensures FirstOf(a + b, want) == if FirstOf(a, want).Some? then FirstOf(a, want) else FirstOf(b, want)
  {
    if a == [] {
      assert a + b == b;
    } else {
      assert (a + b)[1..] == a[1..] + b;
      FirstOfAppend(a[1..], b, want);
    }
  }

  method SearchRecord(p: seq<Byte>, want: Byte) returns (body: Option<seq<Byte>>)
    ensures body == FirstOf(Handshakes(p), want)
  {
    var i := 0;
    assert p[0..] == p;
    while i + 4 <= |p|
      invariant i <= |p| && FirstOf(Handshakes(p), want) == FirstOf(Handshakes(p[i..]), want)
      decreases |p| - i
    {
      var kind, len := p[i], Triple(p[i + 1], p[i + 2], p[i + 3]);
      if i + 4 + len > |p| {
        break;
      }
      HandshakeAt(p, i, len, want);
      if kind == want {
        return Some(p[i + 4..i + 4 + len]);
      }
      i := i + 4 + len;
    }
    body := None;
  }

  lemma {:induction false} HandshakeAt(p: seq<Byte>, i: nat, len: nat, want: Byte)
    requires i + 4 <= |p| && len == Triple(p[i + 1], p[i + 2], p[i + 3]) && i + 4 + len <= |p|
    ensures FirstOf(Handshakes(p[i..]), want) ==
      if p[i] == want then Some(p[i + 4..i + 4 + len]) else FirstOf(Handshakes(p[i + 4 + len..]), want)
  {
    var q := p[i..];
    assert q[4..4 + len] == p[i + 4..i + 4 + len] && q[4 + len..] == p[i + 4 + len..];
    NextHandshake(q, want);
  }

  lemma {:induction false} NextHandshake(p: seq<Byte>, want: Byte)
    requires WholeHandshake(p)
    ensures FirstOf(Handshakes(p), want) ==
      if p[0] == want then Some(p[4..4 + HandshakeLength(p)]) else FirstOf(Handshakes(p[4 + HandshakeLength(p)..]), want)
  {
    assert Handshakes(p)[1..] == Handshakes(p[4 + HandshakeLength(p)..]);
  }

  method FindHandshake(recs: seq<Record>, want: Byte) returns (body: Option<seq<Byte>>)
    ensures body == Search(recs, want)
  {
    assert recs[0..] == recs;
    for k := 0 to |recs|
      invariant Search(recs, want) == Search(recs[k..], want)
    {
      NextRecord(recs[k..], want);
      assert recs[k..][1..] == recs[k + 1..];
      if recs[k].kind != HANDSHAKE {
        continue;
      }
      body := SearchRecord(recs[k].payload, want);
      if body.Some? {
        return;
      }
    }
    body := None;
  }

  lemma {:induction false} NextRecord(recs: seq<Record>, want: Byte)
    requires recs != []
    ensures Search(recs, want) ==
      if recs[0].kind == HANDSHAKE && FirstOf(Handshakes(recs[0].payload), want).Some?
      then FirstOf(Handshakes(recs[0].payload), want) else Search(recs[1..], want)
  {
    if recs[0].kind == HANDSHAKE {
      FirstOfAppend(Handshakes(recs[0].payload), AllHandshakes(recs[1..]), want);
    } else {
      assert AllHandshakes(recs) == AllHandshakes(recs[1..]);
    }
  }

  /** A handshake message on the wire: type, 24-bit length, body. */
  function HandshakeFrame(h: Handshake): seq<Byte>
    requires |h.body| < 0x100_0000
  {
    [h.kind, |h.body| / 65536, |h.body| / 256 % 256, |h.body| % 256] + h.body
  }

  lemma {:induction false} TripleSplits(n: nat)
    requires n < 0x100_0000
    ensures Triple(n / 65536, n / 256 % 256, n % 256) == n
  {
  }

  /** A handshake message is read back, whatever follows it in the record. */
  lemma {:induction false} HandshakeReads(h: Handshake, rest: seq<Byte>)
    requires |h.body| < 0x100_0000
    ensures Handshakes(HandshakeFrame(h) + rest) == [h] + Handshakes(rest)
  {
    var p, n := HandshakeFrame(h) + rest, |h.body|;
    TripleSplits(n);
    assert p[4..4 + n] == h.body && p[4 + n..] == rest;
  }

  /** The first record starts with a handshake message. */
  ghost predicate OpensWith(recs: seq<Record>, h: Handshake) {
    && |h.body| < 0x100_0000 && recs != [] && recs[0].kind == 22
    && exists rest :: recs[0].payload == HandshakeFrame(h) + rest
  }

  /** Records of other types do not count, whatever they hold. */
  lemma {:induction false} OthersSkipped(before: seq<Record>, recs: seq<Record>, want: Byte)
    requires forall i :: 0 <= i < |before| ==> before[i].kind != 22
    ensures Search(before + recs, want) == Search(recs, want)
  {
    if before == [] {
      assert before + recs == recs;
    } else {
      assert (before + recs)[1..] == before[1..] + recs;
      OthersSkipped(before[1..], recs, want);
      assert [] + AllHandshakes(before[1..] + recs) == AllHandshakes(before[1..] + recs);
    }
  }

  lemma {:induction false} OpeningFound(recs: seq<Record>, h: Handshake)
    requires OpensWith(recs, h)
    ensures Search(recs, h.kind) == Some(h.body)
  {
    var rest :| recs[0].payload == HandshakeFrame(h) + rest;
    HandshakeReads(h, rest);
    NextRecord(recs, h.kind);
  }

  lemma {:induction false} HandshakesAppend(a: seq<Record>, b: seq<Record>)
    ensures AllHandshakes(a + b) == AllHandshakes(a) + AllHandshakes(b)
  {
    if a == [] {
      assert a + b == b;
    } else {
      assert (a + b)[1..] == a[1..] + b;
      HandshakesAppend(a[1..], b);
      Associate(if a[0].kind == HANDSHAKE then Handshakes(a[0].payload) else [], AllHandshakes(a[1..]), AllHandshakes(b));
    }
  }

  /** A handshake message once found stays the one found. */
  lemma {:induction false} SearchStable(a: seq<Record>, b: seq<Record>, want: Byte)
    requires Search(a, want).Some?
    ensures Search(a + b, want) == Search(a, want)
  {
    HandshakesAppend(a, b);
    FirstOfAppend(AllHandshakes(a), AllHandshakes(b), want);
  }
}
