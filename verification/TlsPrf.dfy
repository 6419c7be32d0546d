/** Key derivation of app/src/tls_decrypt.cpp (sections 5 and 6.3 of RFC 5246). The keyed hash
    is a parameter. */
module TlsPrf {
  import opened Bytes

  type Hmac = (seq<Byte>, seq<Byte>) -> seq<Byte>

  /** HMAC gives `hlen` bytes for every key and message. */
  ghost predicate HashLength(hmac: Hmac, hlen: nat) {
    hlen > 0 && forall key, text :: |hmac(key, text)| == hlen
  }

  // ---- the expansion of the standard --------------------------------------------------------

  /** A(i). */
  function A(hmac: Hmac, secret: seq<Byte>, seed: seq<Byte>, i: nat): seq<Byte> {
    if i == 0 then seed else hmac(secret, A(hmac, secret, seed, i - 1))
  }

  /** The first `n` blocks of P_hash. */
  function Expansion(hmac: Hmac, secret: seq<Byte>, seed: seq<Byte>, n: nat): seq<Byte> {
    if n == 0 then []
    else Expansion(hmac, secret, seed, n - 1) + hmac(secret, A(hmac, secret, seed, n) + seed)
  }

  /** Two blocks as section 5 of RFC 5246 writes them out. */
  lemma {:induction false} TwoBlocks(hmac: Hmac, secret: seq<Byte>, seed: seq<Byte>)
    ensures var a1 := hmac(secret, seed);
      var a2 := hmac(secret, a1);
      Expansion(hmac, secret, seed, 2) == hmac(secret, a1 + seed) + hmac(secret, a2 + seed)
  {
    var a1 := A(hmac, secret, seed, 1);
    assert A(hmac, secret, seed, 0) == seed && A(hmac, secret, seed, 2) == hmac(secret, a1);
    assert Expansion(hmac, secret, seed, 1) == [] + hmac(secret, a1 + seed) == hmac(secret, a1 + seed);
  }

  lemma {:induction false} ExpansionLength(hmac: Hmac, hlen: nat, secret: seq<Byte>, seed: seq<Byte>, n: nat)
    requires HashLength(hmac, hlen)
    ensures |Expansion(hmac, secret, seed, n)| >= n
  {
    if n > 0 { ExpansionLength(hmac, hlen, secret, seed, n - 1); }
  }

  lemma {:induction false} ExpansionGrows(hmac: Hmac, secret: seq<Byte>, seed: seq<Byte>, m: nat, n: nat)
    requires m <= n
    ensures Expansion(hmac, secret, seed, m) <= Expansion(hmac, secret, seed, n)
    decreases n
  {
    if m < n { ExpansionGrows(hmac, secret, seed, m, n - 1); }
  }

  /** The first `len` bytes of P_hash: those of any expansion that is long enough. */
  ghost function PHash(hmac: Hmac, hlen: nat, secret: seq<Byte>, seed: seq<Byte>, len: nat): (r: seq<Byte>)
    requires HashLength(hmac, hlen)
    ensures |r| == len
  {
    ExpansionLength(hmac, hlen, secret, seed, len);
    Expansion(hmac, secret, seed, len)[..len]
  }

  lemma {:induction false} PHashIsPrefix(hmac: Hmac, hlen: nat, secret: seq<Byte>, seed: seq<Byte>, len: nat, n: nat)
    requires HashLength(hmac, hlen) && |Expansion(hmac, secret, seed, n)| >= len
    ensures PHash(hmac, hlen, secret, seed, len) == Expansion(hmac, secret, seed, n)[..len]
  {
    ExpansionLength(hmac, hlen, secret, seed, len);
    var a, b := Expansion(hmac, secret, seed, len), Expansion(hmac, secret, seed, n);
    if len <= n {
      ExpansionGrows(hmac, secret, seed, len, n);
      PrefixesAgree(a, b, len);
    } else {
      ExpansionGrows(hmac, secret, seed, n, len);
      PrefixesAgree(b, a, len);
    }
  }

  lemma {:induction false} PrefixesAgree(a: seq<Byte>, b: seq<Byte>, len: nat)
    requires a <= b && len <= |a|
    ensures a[..len] == b[..len]
  {
  }

  /** Shorter outputs are prefixes of longer ones. */
  lemma {:induction false} PHashPrefixes(hmac: Hmac, hlen: nat, secret: seq<Byte>, seed: seq<Byte>, short: nat, long: nat)
    requires HashLength(hmac, hlen) && short <= long
    ensures PHash(hmac, hlen, secret, seed, short) <= PHash(hmac, hlen, secret, seed, long)
  {
    ExpansionLength(hmac, hlen, secret, seed, long);
    PHashIsPrefix(hmac, hlen, secret, seed, short, long);
  }

  // ---- the code --------------------------------------------------------------------------

  method Phash(hmac: Hmac, ghost hlen: nat, secret: seq<Byte>, seed: seq<Byte>, outLen: nat) returns (out: seq<Byte>)
    requires HashLength(hmac, hlen)
    ensures |out| == outLen && out == PHash(hmac, hlen, secret, seed, outLen)
    ensures forall n {:trigger Expansion(hmac, secret, seed, n)} ::
      n >= 0 && |Expansion(hmac, secret, seed, n)| >= outLen ==> out == Expansion(hmac, secret, seed, n)[..outLen]
  {
    var a := hmac(secret, seed);
    out := [];
    ghost var n := 0;
    assert a == A(hmac, secret, seed, 1) by { assert A(hmac, secret, seed, 0) == seed; }
    while |out| < outLen
      invariant out == Expansion(hmac, secret, seed, n) && a == A(hmac, secret, seed, n + 1)
      decreases outLen - |out|
    {
      var block := hmac(secret, a + seed);
      out := out + block;
      a := hmac(secret, a);
      n := n + 1;
    }
    PHashIsPrefix(hmac, hlen, secret, seed, outLen, n);
    out := out[..outLen];
    forall k: nat | |Expansion(hmac, secret, seed, k)| >= outLen
      ensures out == Expansion(hmac, secret, seed, k)[..outLen]
    {
      PHashIsPrefix(hmac, hlen, secret, seed, outLen, k);
    }
  }

  const KEY_EXPANSION: seq<Byte> := [107, 101, 121, 32, 101, 120, 112, 97, 110, 115, 105, 111, 110]

  lemma {:induction false} Label()
    ensures KEY_EXPANSION == Text("key expansion")
  {
  }

  /** PRF(secret, label, seed) of section 5 of RFC 5246. */
  method Prf12(hmac: Hmac, ghost hlen: nat, secret: seq<Byte>, tag: seq<Byte>, seed: seq<Byte>, outLen: nat) returns (out: seq<Byte>)
    requires HashLength(hmac, hlen)
    ensures out == PHash(hmac, hlen, secret, tag + seed, outLen)
  {
    out := Phash(hmac, hlen, secret, tag + seed, outLen);
  }

  datatype DirKeys = DirKeys(cKey: seq<Byte>, sKey: seq<Byte>, cIV: seq<Byte>, sIV: seq<Byte>)

  /** The key block of section 6.3 of RFC 5246 for an AEAD cipher: no MAC keys, 4-byte IVs. */
  ghost function KeyBlock(hmac: Hmac, hlen: nat, master: seq<Byte>, cr: seq<Byte>, sr: seq<Byte>, keyLen: nat): (kb: seq<Byte>)
    requires HashLength(hmac, hlen)
    ensures |kb| == 2 * keyLen + 8
  {
    PHash(hmac, hlen, master, Text("key expansion") + (sr + cr), 2 * keyLen + 8)
  }

  /** The four parts tile the key block, in the order of the standard. */
  ghost predicate Tiles(k: DirKeys, kb: seq<Byte>, keyLen: nat) {
    && kb == k.cKey + k.sKey + k.cIV + k.sIV
    && |k.cKey| == |k.sKey| == keyLen && |k.cIV| == |k.sIV| == 4
  }

  lemma {:induction false} TilingIsUnique(a: DirKeys, b: DirKeys, kb: seq<Byte>, keyLen: nat)
    requires Tiles(a, kb, keyLen) && Tiles(b, kb, keyLen)
    ensures a == b
  {
    assert kb[..keyLen] == a.cKey && kb[..keyLen] == b.cKey;
    assert kb[keyLen..2 * keyLen] == a.sKey && kb[keyLen..2 * keyLen] == b.sKey;
    assert kb[2 * keyLen..2 * keyLen + 4] == a.cIV && kb[2 * keyLen..2 * keyLen + 4] == b.cIV;
    assert kb[2 * keyLen + 4..] == a.sIV && kb[2 * keyLen + 4..] == b.sIV;
  }

  method DeriveKeyBlock(hmac: Hmac, ghost hlen: nat, master: seq<Byte>, cr: seq<Byte>, sr: seq<Byte>, keyLen: nat) returns (k: DirKeys)
    requires HashLength(hmac, hlen)
    ensures Tiles(k, PHash(hmac, hlen, master, Text("key expansion") + (sr + cr), 2 * keyLen + 8), keyLen)
  {
    Label();
    var kb := Prf12(hmac, hlen, master, KEY_EXPANSION, sr + cr, 2 * keyLen + 8);
    var o := 0;
    var cKey := kb[o..o + keyLen];
    o := o + keyLen;
    var sKey := kb[o..o + keyLen];
    o := o + keyLen;
    var cIV := kb[o..o + 4];
    o := o + 4;
    var sIV := kb[o..o + 4];
    Retile(kb, keyLen);
    k := DirKeys(cKey, sKey, cIV, sIV);
  }

  lemma {:induction false} Retile(kb: seq<Byte>, n: nat)
    requires |kb| == 2 * n + 8
    ensures kb[0..n] + kb[n..n + n] + kb[n + n..n + n + 4] + kb[n + n + 4..n + n + 8] == kb
  {
  }
}
