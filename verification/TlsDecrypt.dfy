/** Decryption of the records of one direction and of a whole flow (app/src/tls_decrypt.cpp):
    TLS 1.2 with AES-GCM, section 6.2.3.3 of RFC 5246 and section 3 of RFC 5288. The cipher is a
    parameter. */
module TlsDecrypt {
  import opened Bytes
  import opened TlsRecords

  datatype Sealed = Sealed(ct: seq<Byte>, tag: seq<Byte>)

  /** An AEAD cipher: which keys it takes, and sealing and opening under a key, a nonce
      and additional data. */
  datatype Cipher = Cipher(accepts: seq<Byte> -> bool,
                           seal: (seq<Byte>, seq<Byte>, seq<Byte>, seq<Byte>) -> Sealed,
                           open: (seq<Byte>, seq<Byte>, seq<Byte>, seq<Byte>, seq<Byte>) -> Option<seq<Byte>>)

  /** Opening inverts sealing, and a ciphertext is as long as its plaintext. */
  ghost predicate Inverts(c: Cipher, key: seq<Byte>) {
    && c.accepts(key)
    && forall nonce, aad, plain {:trigger c.seal(key, nonce, aad, plain)} ::
         var s := c.seal(key, nonce, aad, plain);
         |s.ct| == |plain| && |s.tag| == 16 && c.open(key, nonce, aad, s.ct, s.tag) == Some(plain)
  }

  // ---- one record ------------------------------------------------------------------------

  /** Sequence number, type, version and plaintext length. */
  function Aad(seqNo: nat, kind: Byte, version: nat, len: nat): seq<Byte> {
    ToBE(seqNo, 8) + [kind] + ToBE(version, 2) + ToBE(len, 2)
  }

  lemma {:induction false} AadSplits(a: seq<Byte>, kind: Byte, b: seq<Byte>, c: seq<Byte>)
    requires |a| == 8 && |b| == |c| == 2
    ensures var d := a + [kind] + b + c; |d| == 13 && d[..8] == a && d[8] == kind && d[9..11] == b && d[11..] == c
  {
  }

  /** The additional data as section 6.2.3.3 of RFC 5246 lays it out: it fixes the place of
      a record in its direction, its type, its version and its length. */
  lemma {:induction false} AadLayout(seqNo: nat, kind: Byte, version: nat, len: nat)
    requires seqNo < U64 && version < U16 && len < U16
    ensures var d := Aad(seqNo, kind, version, len);
      |d| == 13 && FromBE(d[..8]) == seqNo && d[8] == kind && FromBE(d[9..11]) == version && FromBE(d[11..]) == len
  {
    Pow256Values();
    AadSplits(ToBE(seqNo, 8), kind, ToBE(version, 2), ToBE(len, 2));
    BERoundTrip(seqNo, 8);
    BERoundTrip(version, 2);
    BERoundTrip(len, 2);
  }

  /** GcmDecryptRecord. */
  function Open(c: Cipher, key: seq<Byte>, iv: seq<Byte>, seqNo: nat, r: Record): Option<seq<Byte>> {
    var n := |r.payload|;
    if n < 24 then None
    else c.open(key, iv + r.payload[..8], Aad(seqNo, r.kind, r.version, n - 24), r.payload[8..n - 16], r.payload[n - 16..])
  }

  /** A record before it is sealed; `explicit` is the explicit part of the nonce. */
  datatype Plain = Plain(kind: Byte, version: nat, explicit: seq<Byte>, plain: seq<Byte>)

  predicate Sealable(p: Plain) { p.version < U16 && |p.explicit| == 8 && |p.plain| + 24 < U16 }

  function SealedPayload(p: Plain, s: Sealed): seq<Byte> { p.explicit + s.ct + s.tag }

  function SealRecord(c: Cipher, key: seq<Byte>, iv: seq<Byte>, seqNo: nat, p: Plain): Record {
    Record(p.kind, p.version, SealedPayload(p, c.seal(key, iv + p.explicit, Aad(seqNo, p.kind, p.version, |p.plain|), p.plain)))
  }

  lemma {:induction false} PayloadSplits(p: Plain, s: Sealed)
    requires |p.explicit| == 8 && |s.tag| == 16
    ensures var t, n := SealedPayload(p, s), 24 + |s.ct|;
      |t| == n && t[..8] == p.explicit && t[8..n - 16] == s.ct && t[n - 16..] == s.tag
  {
  }

  lemma {:induction false} SealOpens(c: Cipher, key: seq<Byte>, iv: seq<Byte>, seqNo: nat, p: Plain)
    requires Inverts(c, key) && Sealable(p)
    ensures Open(c, key, iv, seqNo, SealRecord(c, key, iv, seqNo, p)) == Some(p.plain)
    ensures Framable(SealRecord(c, key, iv, seqNo, p))
  {
    PayloadSplits(p, c.seal(key, iv + p.explicit, Aad(seqNo, p.kind, p.version, |p.plain|), p.plain));
  }

  /** A record opens with the nonce made of the IV and its first 8 bytes, its last 16 bytes as
      the tag and what is between as the ciphertext; one too short for that does not open. */
  lemma {:induction false} OpenMeans(c: Cipher, key: seq<Byte>, iv: seq<Byte>, seqNo: nat, r: Record, explicit: seq<Byte>, ct: seq<Byte>, tag: seq<Byte>)
    ensures |r.payload| < 24 ==> Open(c, key, iv, seqNo, r) == None
    ensures r.payload == explicit + ct + tag && |explicit| == 8 && |tag| == 16 ==>
      Open(c, key, iv, seqNo, r) == c.open(key, iv + explicit, Aad(seqNo, r.kind, r.version, |ct|), ct, tag)
  {
    if r.payload == explicit + ct + tag && |explicit| == 8 && |tag| == 16 {
      PayloadSplits(Plain(r.kind, r.version, explicit, ct), Sealed(ct, tag));
    }
  }

  // ---- one direction -----------------------------------------------------------------------

  function DataOf(kind: Byte, plain: seq<Byte>): seq<Byte> {
    if kind == APPLICATION_DATA then plain else []
  }

  /** What the loop of DecryptDir still adds, from a state of `enc` and `seq`. */
  function Decrypted(c: Cipher, key: seq<Byte>, iv: seq<Byte>, recs: seq<Record>, enc: bool, seqNo: nat): seq<Byte> {
    if recs == [] then []
    else if !enc then Decrypted(c, key, iv, recs[1..], recs[0].kind == CHANGE_CIPHER_SPEC, seqNo)
    else
      match Open(c, key, iv, seqNo, recs[0])
      case None => []
      case Some(plain) => DataOf(recs[0].kind, plain) + Decrypted(c, key, iv, recs[1..], true, seqNo + 1)
  }

  function Direction(c: Cipher, key: seq<Byte>, iv: seq<Byte>, recs: seq<Record>): seq<Byte> {
    if c.accepts(key) then Decrypted(c, key, iv, recs, false, 0) else []
  }

  lemma {:induction false} ClearStep(c: Cipher, key: seq<Byte>, iv: seq<Byte>, recs: seq<Record>, k: nat, seqNo: nat)
    requires k < |recs|
    ensures Decrypted(c, key, iv, recs[k..], false, seqNo) ==
      Decrypted(c, key, iv, recs[k + 1..], recs[k].kind == CHANGE_CIPHER_SPEC, seqNo)
  {
    assert recs[k..][1..] == recs[k + 1..];
  }

  lemma {:induction false} SealedStep(c: Cipher, key: seq<Byte>, iv: seq<Byte>, recs: seq<Record>, k: nat, seqNo: nat, plain: seq<Byte>, out: seq<Byte>)
    requires k < |recs| && Open(c, key, iv, seqNo, recs[k]) == Some(plain)
    ensures out + Decrypted(c, key, iv, recs[k..], true, seqNo) ==
      out + DataOf(recs[k].kind, plain) + Decrypted(c, key, iv, recs[k + 1..], true, seqNo + 1)
  {
    assert recs[k..][1..] == recs[k + 1..];
    Associate(out, DataOf(recs[k].kind, plain), Decrypted(c, key, iv, recs[k + 1..], true, seqNo + 1));
  }

  method DecryptDir(c: Cipher, key: seq<Byte>, iv: seq<Byte>, recs: seq<Record>) returns (out: seq<Byte>)
    ensures out == Direction(c, key, iv, recs)
  {
    out := [];
    if !c.accepts(key) {
      return;
    }
    var enc, seqNo := false, 0;
    ghost var all := Direction(c, key, iv, recs);
    assert recs[0..] == recs;
    for k := 0 to |recs|
      invariant all == out + Decrypted(c, key, iv, recs[k..], enc, seqNo)
    {
      if !enc {
        ClearStep(c, key, iv, recs, k, seqNo);
        if recs[k].kind == CHANGE_CIPHER_SPEC {
          enc := true;
        }
        continue;
      }
      var plain := Open(c, key, iv, seqNo, recs[k]);
      if plain.None? {
        break;
      }
      SealedStep(c, key, iv, recs, k, seqNo, plain.value, out);
      seqNo := seqNo + 1;
      if recs[k].kind == APPLICATION_DATA {
        out := out + plain.value;
      } else {
        assert out + [] == out;
      }
    }
  }

  // ---- round trip ---------------------------------------------------------------------------

  ghost predicate AllSealable(ps: seq<Plain>) {
    forall i :: 0 <= i < |ps| ==> Sealable(ps[i])
  }

  /** Records sealed under consecutive sequence numbers. */
  function SealAll(c: Cipher, key: seq<Byte>, iv: seq<Byte>, ps: seq<Plain>, seqNo: nat): seq<Record> {
    if ps == [] then [] else [SealRecord(c, key, iv, seqNo, ps[0])] + SealAll(c, key, iv, ps[1..], seqNo + 1)
  }

  /** The plaintexts of type 23, which section 6.2.1 of RFC 5246 gives to application data,
      one after the other. */
  function AppData(ps: seq<Plain>): seq<Byte> {
    if ps == [] then [] else (if ps[0].kind == 23 then ps[0].plain else []) + AppData(ps[1..])
  }

  /** A sealed record of type 23 adds its plaintext, one of any other type nothing; either
      uses up a sequence number. */
  lemma {:induction false} SealedAdds(c: Cipher, key: seq<Byte>, iv: seq<Byte>, seqNo: nat, p: Plain, rest: seq<Record>)
    requires Inverts(c, key) && Sealable(p)
    ensures Decrypted(c, key, iv, [SealRecord(c, key, iv, seqNo, p)] + rest, true, seqNo) ==
      (if p.kind == 23 then p.plain else []) + Decrypted(c, key, iv, rest, true, seqNo + 1)
  {
    SealOpens(c, key, iv, seqNo, p);
    assert [SealRecord(c, key, iv, seqNo, p)] + [] == [SealRecord(c, key, iv, seqNo, p)] && [] + rest == rest;
    OpenThen(c, key, iv, SealRecord(c, key, iv, seqNo, p), [], rest, seqNo, p.plain);
  }

  lemma {:induction false} SealedFramable(c: Cipher, key: seq<Byte>, iv: seq<Byte>, ps: seq<Plain>, seqNo: nat)
    requires Inverts(c, key) && AllSealable(ps)
    ensures AllFramable(SealAll(c, key, iv, ps, seqNo))
    decreases |ps|
  {
    if ps != [] {
      SealOpens(c, key, iv, seqNo, ps[0]);
      SealedFramable(c, key, iv, ps[1..], seqNo + 1);
    }
  }

  lemma {:induction false} OpenThen(c: Cipher, key: seq<Byte>, iv: seq<Byte>, r: Record, recs: seq<Record>, rest: seq<Record>, seqNo: nat, plain: seq<Byte>)
    requires Open(c, key, iv, seqNo, r) == Some(plain)
    ensures Decrypted(c, key, iv, [r] + recs + rest, true, seqNo) ==
      DataOf(r.kind, plain) + Decrypted(c, key, iv, recs + rest, true, seqNo + 1)
  {
    assert ([r] + recs + rest)[1..] == recs + rest;
  }

  /** The first sealed record opens, and leaves the others. */
  lemma {:induction false} FirstOpens(c: Cipher, key: seq<Byte>, iv: seq<Byte>, ps: seq<Plain>, seqNo: nat, rest: seq<Record>, others: seq<Byte>)
    returns (whole: seq<Byte>)
    requires Inverts(c, key) && ps != [] && AllSealable(ps)
    requires others == Decrypted(c, key, iv, SealAll(c, key, iv, ps[1..], seqNo + 1) + rest, true, seqNo + 1)
    ensures whole == Decrypted(c, key, iv, SealAll(c, key, iv, ps, seqNo) + rest, true, seqNo)
    ensures whole == DataOf(ps[0].kind, ps[0].plain) + others
  {
    var r, recs := SealRecord(c, key, iv, seqNo, ps[0]), SealAll(c, key, iv, ps[1..], seqNo + 1);
    SealOpens(c, key, iv, seqNo, ps[0]);
    OpenThen(c, key, iv, r, recs, rest, seqNo, ps[0].plain);
    whole := DataOf(ps[0].kind, ps[0].plain) + others;
  }

  /** Sealed records decrypt to their application data, followed by what the rest gives. */
  lemma {:induction false} SealedDecrypts(c: Cipher, key: seq<Byte>, iv: seq<Byte>, ps: seq<Plain>, seqNo: nat, rest: seq<Record>, tail: seq<Byte>)
    returns (whole: seq<Byte>)
    requires Inverts(c, key) && AllSealable(ps) && tail == Decrypted(c, key, iv, rest, true, seqNo + |ps|)
    ensures whole == Decrypted(c, key, iv, SealAll(c, key, iv, ps, seqNo) + rest, true, seqNo)
    ensures whole == AppData(ps) + tail
    decreases |ps|
  {
    if ps == [] {
      assert SealAll(c, key, iv, ps, seqNo) + rest == rest;
      whole := tail;
    } else {
      var others := SealedDecrypts(c, key, iv, ps[1..], seqNo + 1, rest, tail);
      whole := FirstOpens(c, key, iv, ps, seqNo, rest, others);
      Associate(DataOf(ps[0].kind, ps[0].plain), AppData(ps[1..]), tail);
    }
  }

  ghost predicate NoChange(recs: seq<Record>) {
    forall i :: 0 <= i < |recs| ==> recs[i].kind != 20
  }

  lemma {:induction false} PlainSkipped(c: Cipher, key: seq<Byte>, iv: seq<Byte>, recs: seq<Record>, rest: seq<Record>)
    requires NoChange(recs)
    ensures Decrypted(c, key, iv, recs + rest, false, 0) == Decrypted(c, key, iv, rest, false, 0)
  {
    if recs == [] {
      assert recs + rest == rest;
    } else {
      assert (recs + rest)[1..] == recs[1..] + rest;
      PlainSkipped(c, key, iv, recs[1..], rest);
    }
  }

  /** One direction of a connection: records in the clear, a ChangeCipherSpec, and what
      is then sent sealed under sequence numbers 0, 1, 2, ... */
  datatype Side = Side(hello: seq<Record>, change: Record, data: seq<Plain>)

  ghost predicate GoodSide(s: Side) {
    && AllFramable(s.hello) && NoChange(s.hello) && Framable(s.change) && s.change.kind == 20
    && AllSealable(s.data)
  }

  function Sent(c: Cipher, key: seq<Byte>, iv: seq<Byte>, s: Side): seq<Record> {
    s.hello + ([s.change] + SealAll(c, key, iv, s.data, 0))
  }

  lemma {:induction false} SentFramable(c: Cipher, key: seq<Byte>, iv: seq<Byte>, s: Side)
    requires Inverts(c, key) && GoodSide(s)
    ensures AllFramable(Sent(c, key, iv, s))
  {
    SealedFramable(c, key, iv, s.data, 0);
  }

  lemma {:induction false} SentDecrypts(c: Cipher, key: seq<Byte>, iv: seq<Byte>, s: Side, rest: seq<Record>)
    requires Inverts(c, key) && GoodSide(s)
    ensures Direction(c, key, iv, Sent(c, key, iv, s) + rest) == AppData(s.data) + Decrypted(c, key, iv, rest, true, |s.data|)
  {
    var sealed := SealAll(c, key, iv, s.data, 0);
    Associate(s.hello, [s.change] + sealed, rest);
    Associate([s.change], sealed, rest);
    PlainSkipped(c, key, iv, s.hello, [s.change] + (sealed + rest));
    assert ([s.change] + (sealed + rest))[1..] == sealed + rest;
    var _ := SealedDecrypts(c, key, iv, s.data, 0, rest, Decrypted(c, key, iv, rest, true, |s.data|));
  }

  /** A captured direction decrypts to exactly the application data that was sent, even
      if the capture ends inside a further record. */
  lemma {:induction false} StreamRoundTrip(c: Cipher, key: seq<Byte>, iv: seq<Byte>, s: Side, rest: seq<Byte>)
    requires Inverts(c, key) && GoodSide(s) && !Complete(rest)
    ensures AllFramable(Sent(c, key, iv, s))
    ensures Direction(c, key, iv, Records(Frames(Sent(c, key, iv, s)) + rest)) == AppData(s.data)
  {
    SentFramable(c, key, iv, s);
    FramesRead(Sent(c, key, iv, s), rest);
    SentDecrypts(c, key, iv, s, []);
  }

  // ---- growth and failure ------------------------------------------------------------------------

  lemma {:induction false} DecryptedGrows(c: Cipher, key: seq<Byte>, iv: seq<Byte>, a: seq<Record>, b: seq<Record>, enc: bool, seqNo: nat)
    ensures Decrypted(c, key, iv, a, enc, seqNo) <= Decrypted(c, key, iv, a + b, enc, seqNo)
    decreases |a|
  {
    if a != [] {
      assert (a + b)[1..] == a[1..] + b;
      if !enc {
        DecryptedGrows(c, key, iv, a[1..], b, a[0].kind == CHANGE_CIPHER_SPEC, seqNo);
      } else if Open(c, key, iv, seqNo, a[0]).Some? {
        DecryptedGrows(c, key, iv, a[1..], b, true, seqNo + 1);
      }
    }
  }

  /** Capturing more of a direction only extends what is decrypted. */
  lemma {:induction false} DirectionGrows(c: Cipher, key: seq<Byte>, iv: seq<Byte>, s: seq<Byte>, more: seq<Byte>)
    ensures Direction(c, key, iv, Records(s)) <= Direction(c, key, iv, Records(s + more))
  {
    RecordsGrow(s, more);
    var a, all := Records(s), Records(s + more);
    assert a + all[|a|..] == all;
    if c.accepts(key) { DecryptedGrows(c, key, iv, a, all[|a|..], false, 0); }
  }

  /** After a record that does not open, nothing more is decrypted: the output is that
      of the records before it. */
  lemma {:induction false} BadRecordStops(c: Cipher, key: seq<Byte>, iv: seq<Byte>, ps: seq<Plain>, bad: Record, rest: seq<Record>, seqNo: nat)
    requires Inverts(c, key) && AllSealable(ps) && Open(c, key, iv, seqNo + |ps|, bad).None?
    ensures Decrypted(c, key, iv, SealAll(c, key, iv, ps, seqNo) + ([bad] + rest), true, seqNo) == AppData(ps)
  {
    assert Decrypted(c, key, iv, [bad] + rest, true, seqNo + |ps|) == [];
    var _ := SealedDecrypts(c, key, iv, ps, seqNo, [bad] + rest, []);
    assert AppData(ps) + [] == AppData(ps);
  }
}
