/** Bytes, fixed-width integer encodings and the masking identity that lets the
    ring use `&` for `%`. Shared by every other module. */
module Bytes {

  type Byte = b: int | 0 <= b < 256

  datatype Option<+T> = None | Some(value: T)

  const U16: int := 0x1_0000
  const U32: int := 0x1_0000_0000
  const U64: int := 0x1_0000_0000_0000_0000

  function Min(a: int, b: int): int { if a < b then a else b }

  /** The first `n` elements, or all of them when there are fewer. */
  function Take<T>(s: seq<T>, n: nat): seq<T> {
    if |s| <= n then s else s[..n]
  }

  /** The bytes of an ASCII literal. */
  function Text(s: string): (b: seq<Byte>)
    ensures |b| == |s|
  {
    seq(|s|, i requires 0 <= i < |s| => s[i] as int % 256)
  }

  function Zeros(n: nat): (z: seq<Byte>)
    ensures |z| == n
  {
    seq(n, _ => 0)
  }

  /** Overwrites `mem` with `bytes` from offset `off` on (a memcpy). */
  function Blit(mem: seq<Byte>, off: nat, bytes: seq<Byte>): (r: seq<Byte>)
    requires off + |bytes| <= |mem|
    ensures |r| == |mem|
  {
    mem[..off] + bytes + mem[off + |bytes|..]
  }

  lemma {:induction false} BlitTwice(mem: seq<Byte>, off: nat, a: seq<Byte>, b: seq<Byte>)
    requires off + |a| + |b| <= |mem|
    ensures Blit(Blit(mem, off, a), off + |a|, b) == Blit(mem, off, a + b)
  {
  }

  // ---- little- and big-endian integers -----------------------------------

  function Pow256(k: nat): (p: nat)
    ensures p >= 1
  {
    if k == 0 then 1 else 256 * Pow256(k - 1)
  }

  lemma {:induction false} Pow256Values()
    ensures Pow256(1) == 256 && Pow256(2) == U16 && Pow256(4) == U32 && Pow256(8) == U64
  {
    assert Pow256(3) == 256 * Pow256(2);
    assert Pow256(5) == 256 * Pow256(4);
    assert Pow256(7) == 256 * Pow256(6);
  }

  function ToLE(n: nat, k: nat): (s: seq<Byte>)
    ensures |s| == k
  {
    if k == 0 then [] else [n % 256] + ToLE(n / 256, k - 1)
  }

  /** The little-endian integer in the `k` bytes of `mem` from `off` on. */
  function ReadLE(mem: seq<Byte>, off: nat, k: nat): nat
    requires off + k <= |mem|
    decreases |mem| - off
  {
    if k == 0 then 0 else mem[off] + 256 * ReadLE(mem, off + 1, k - 1)
  }

  lemma {:induction false} LERoundTrip(mem: seq<Byte>, off: nat, n: nat, k: nat)
    requires n < Pow256(k) && off + k <= |mem|
    requires mem[off..off + k] == ToLE(n, k)
    ensures ReadLE(mem, off, k) == n
    decreases k
  {
    if k > 0 {
      var le := ToLE(n, k);
      assert mem[off] == le[0];
      assert mem[off + 1..off + k] == mem[off..off + k][1..] == le[1..] == ToLE(n / 256, k - 1);
      LERoundTrip(mem, off + 1, n / 256, k - 1);
    }
  }

  function ToBE(n: nat, k: nat): (s: seq<Byte>)
    ensures |s| == k
    decreases n, k
  {
    if k == 0 then [] else ToBE(n / 256, k - 1) + [n % 256]
  }

  function FromBE(s: seq<Byte>): nat {
    if s == [] then 0 else 256 * FromBE(s[..|s| - 1]) + s[|s| - 1]
  }

  lemma {:induction false} BERoundTrip(n: nat, k: nat)
    requires n < Pow256(k)
    ensures FromBE(ToBE(n, k)) == n
  {
    if k > 0 {
      BERoundTrip(n / 256, k - 1);
      assert ToBE(n, k)[..k - 1] == ToBE(n / 256, k - 1);
    }
  }

  // ---- masking -------------------------------------------------------------

  function Pow2(k: nat): (p: nat)
    ensures p >= 1
  {
    if k == 0 then 1 else 2 * Pow2(k - 1)
  }

  /** Bitwise AND of two naturals. */
  function BitAnd(x: nat, y: nat): nat {
    if x == 0 || y == 0 then 0
    else (if x % 2 == 1 && y % 2 == 1 then 1 else 0) + 2 * BitAnd(x / 2, y / 2)
  }

  lemma {:induction false} BitAndSelf(x: nat)
    ensures BitAnd(x, x) == x
  {
    if x > 0 { BitAndSelf(x / 2); }
  }

  lemma {:induction false} HalveModulo(x: nat, m: nat)
    requires m > 0
    ensures x % (2 * m) == 2 * ((x / 2) % m) + x % 2
  {
    var q, r := (x / 2) / m, (x / 2) % m;
    assert x == (2 * m) * q + (2 * r + x % 2) by {
      assert x / 2 == m * q + r;
      assert 2 * (m * q) == (2 * m) * q;
    }
    QuotientIsUnique(x, 2 * m, q, 2 * r + x % 2);
  }

  lemma {:induction false} MultipleBounds(m: nat, d: int)
    ensures d >= 1 ==> m * d >= m
    ensures d <= -1 ==> m * d <= -(m as int)
    ensures d == 0 ==> m * d == 0
  {
  }

  lemma {:induction false} QuotientIsUnique(x: nat, m: nat, q: int, r: nat)
    requires m > 0 && r < m && x == m * q + r
    ensures x / m == q && x % m == r
  {
    var d := x / m - q;
    assert m * d == r - x % m by {
      assert x == m * (x / m) + x % m;
      assert m * (x / m) - m * q == m * d;
    }
    MultipleBounds(m, d);
  }

  /** `x & (2^k - 1)` is `x mod 2^k`. */
  lemma {:induction false} MaskIsModulo(x: nat, k: nat)
    ensures BitAnd(x, Pow2(k) - 1) == x % Pow2(k)
  {
    var m := Pow2(k);
    if x == 0 {
    } else if k == 0 {
      assert m == 1 && x % m == 0;
    } else {
      var half := Pow2(k - 1);
      MaskIsModulo(x / 2, k - 1);
      HalveModulo(x, half);
      MaskStep(x, half);
      assert m == 2 * half;
    }
  }

  lemma {:induction false} MaskStep(x: nat, half: nat)
    requires half > 0 && x > 0
    ensures BitAnd(x, 2 * half - 1) == x % 2 + 2 * BitAnd(x / 2, half - 1)
  {
    assert (2 * half - 1) / 2 == half - 1 && (2 * half - 1) % 2 == 1;
  }

  ghost predicate IsPowerOfTwo(n: nat) {
    exists k: nat :: Pow2(k) == n
  }

  lemma {:induction false} DoublePower(h: nat)
    ensures IsPowerOfTwo(2 * h) <==> IsPowerOfTwo(h)
  {
    if k: nat :| Pow2(k) == h { assert Pow2(k + 1) == 2 * h; }
    if k: nat :| Pow2(k) == 2 * h { assert Pow2(k - 1) == h; }
  }

  /** The C idiom `n & (n - 1) == 0` recognises exactly the powers of two. */
  lemma {:induction false} PowerOfTwoTest(n: nat)
    requires n > 0
    ensures BitAnd(n, n - 1) == 0 <==> IsPowerOfTwo(n)
  {
    if n == 1 {
      assert Pow2(0) == 1;
    } else if n % 2 == 1 {
      BitAndSelf(n / 2);
      assert (n - 1) / 2 == n / 2;
      forall k: nat ensures Pow2(k) != n { }
    } else {
      var h := n / 2;
      PowerOfTwoTest(h);
      DoublePower(h);
      assert (n - 1) / 2 == h - 1 && (n - 1) % 2 == 1;
    }
  }

  // ---- cells of a circular buffer -----------------------------------------

  /** The buffer offset of a position: the position modulo the size, as the distance
      left after taking off whole laps. */
  function Cell(pos: nat, size: nat): (c: nat)
    requires size > 0
    ensures c < size
    decreases pos
  {
    if pos < size then pos else Cell(pos - size, size)
  }

  lemma {:induction false} CellIsModulo(pos: nat, size: nat)
    requires size > 0
    ensures Cell(pos, size) == pos % size
    decreases pos
  {
    if pos < size {
      QuotientIsUnique(pos, size, 0, pos);
    } else {
      CellIsModulo(pos - size, size);
      var q, r := (pos - size) / size, (pos - size) % size;
      assert pos == size * (q + 1) + r;
      QuotientIsUnique(pos, size, q + 1, r);
    }
  }

  /** Masking a position with a power of two less one gives its cell. */
  lemma {:induction false} MaskIsCell(pos: nat, k: nat)
    ensures BitAnd(pos, Pow2(k) - 1) == Cell(pos, Pow2(k))
  {
    MaskIsModulo(pos, k);
    CellIsModulo(pos, Pow2(k));
  }

  /** Positions less than one lap apart occupy different cells. */
  lemma {:induction false} CellsDiffer(p: nat, q: nat, size: nat)
    requires size > 0 && p < q < p + size
    ensures Cell(p, size) != Cell(q, size)
    decreases p
  {
    if p >= size { CellsDiffer(p - size, q - size, size); }
  }

  /** Within one lap cells are consecutive. */
  lemma {:induction false} CellOffset(p: nat, i: nat, size: nat)
    requires size > 0 && Cell(p, size) + i < size
    ensures Cell(p + i, size) == Cell(p, size) + i
    decreases p
  {
    if p >= size { CellOffset(p - size, i, size); }
  }

  /** Reaching the end of a lap starts the next one at cell 0. */
  lemma {:induction false} CellWrap(p: nat, i: nat, size: nat)
    requires size > 0 && Cell(p, size) + i == size
    ensures Cell(p + i, size) == 0
    decreases p
  {
    if p >= size { CellWrap(p - size, i, size); }
  }

  // ---- sequence cuts ---------------------------------------------------------------------

  lemma {:induction false} Halves<T>(s: seq<T>, k: nat)
    requires k <= |s|
    ensures s[..k] + s[k..] == s && s[k..] == s[k..|s|]
  {
  }

  lemma {:induction false} Associate<T>(a: seq<T>, b: seq<T>, c: seq<T>)
    ensures a + b + c == a + (b + c)
  {
  }

  // ---- concatenation ---------------------------------------------------------------------

  /** The parts one after the other. */
  function Concat(parts: seq<seq<Byte>>): seq<Byte> {
    if parts == [] then [] else Concat(parts[..|parts| - 1]) + parts[|parts| - 1]
  }

  lemma {:induction false} ConcatAppend(a: seq<seq<Byte>>, b: seq<seq<Byte>>)
    ensures Concat(a + b) == Concat(a) + Concat(b)
  {
    if b == [] {
      assert a + b == a;
    } else {
      ConcatAppend(a, b[..|b| - 1]);
      assert (a + b)[..|a + b| - 1] == a + b[..|b| - 1];
      assert (Concat(a) + Concat(b[..|b| - 1])) + b[|b| - 1] == Concat(a) + (Concat(b[..|b| - 1]) + b[|b| - 1]);
    }
  }

  lemma {:induction false} ConcatOne(p: seq<Byte>)
    ensures Concat([p]) == p
  {
    assert [p][..0] == [];
  }
}
