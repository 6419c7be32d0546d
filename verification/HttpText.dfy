/** The string primitives of app/src/http_parse.cpp and of the C++ library it calls. */
module HttpText {
  import opened Bytes

  const CR: Byte := 13
  const LF: Byte := 10
  const SP: Byte := 32
  const COLON: Byte := 58
  const SEMICOLON: Byte := 59
  const CRLF: seq<Byte> := [13, 10]
  const BLANK_LINE: seq<Byte> := [13, 10, 13, 10]
  const HTTP: seq<Byte> := [72, 84, 84, 80, 47]
  const CHUNKED: seq<Byte> := [99, 104, 117, 110, 107, 101, 100]
  const ULONG_MAX: nat := 0xFFFF_FFFF

  // ---- searching ----------------------------------------------------------------------

  predicate MatchAt(d: seq<Byte>, pat: seq<Byte>, i: int) {
    0 <= i && i + |pat| <= |d| && d[i..i + |pat|] == pat
  }

  ghost predicate NoMatch(d: seq<Byte>, pat: seq<Byte>, from: int, to: int) {
    forall j {:trigger MatchAt(d, pat, j)} :: from <= j < to ==> !MatchAt(d, pat, j)
  }

  /** std::string::find: the first occurrence at or after `from`. */
  function Find(d: seq<Byte>, pat: seq<Byte>, from: nat): (r: Option<nat>)
    ensures r.Some? ==> from <= r.value && r.value + |pat| <= |d|
    decreases |d| - from
  {
    if from + |pat| > |d| then None
    else if MatchAt(d, pat, from) then Some(from)
    else Find(d, pat, from + 1)
  }

  /** Find gives the first match, and nothing exactly when there is none. */
  lemma {:induction false} FindsFirst(d: seq<Byte>, pat: seq<Byte>, from: nat)
    ensures var r := Find(d, pat, from);
      && (r.Some? ==> MatchAt(d, pat, r.value) && NoMatch(d, pat, from, r.value))
      && (r.None? ==> NoMatch(d, pat, from, |d| + 1))
    decreases |d| - from
  {
    if from + |pat| <= |d| && !MatchAt(d, pat, from) { FindsFirst(d, pat, from + 1); }
  }

  /** A search is determined by its outcome. */
  lemma {:induction false} FoundAt(d: seq<Byte>, pat: seq<Byte>, from: nat, i: nat)
    requires from <= i && MatchAt(d, pat, i) && NoMatch(d, pat, from, i)
    ensures Find(d, pat, from) == Some(i)
  {
    FindsFirst(d, pat, from);
  }

  lemma {:induction false} NotFound(d: seq<Byte>, pat: seq<Byte>, from: nat)
    requires NoMatch(d, pat, from, |d| + 1)
    ensures Find(d, pat, from) == None
  {
    FindsFirst(d, pat, from);
  }

  lemma {:induction false} SliceStable(d: seq<Byte>, f: seq<Byte>, i: nat, j: nat)
    requires d <= f && i <= j <= |d|
    ensures f[i..j] == d[i..j]
  {
  }

  lemma {:induction false} MatchStable(d: seq<Byte>, f: seq<Byte>, pat: seq<Byte>, i: int)
    requires d <= f && i + |pat| <= |d|
    ensures MatchAt(f, pat, i) <==> MatchAt(d, pat, i)
  {
    if 0 <= i { SliceStable(d, f, i, i + |pat|); }
  }

  /** What has been found stays where it is when more bytes arrive. */
  lemma {:induction false} FindStable(d: seq<Byte>, f: seq<Byte>, pat: seq<Byte>, from: nat)
    requires d <= f && Find(d, pat, from).Some?
    ensures Find(f, pat, from) == Find(d, pat, from)
  {
    FindsFirst(d, pat, from);
    var i := Find(d, pat, from).value;
    MatchStable(d, f, pat, i);
    forall j | from <= j < i ensures !MatchAt(f, pat, j) { MatchStable(d, f, pat, j); }
    FoundAt(f, pat, from, i);
  }

  /** What was not there can only be found past the end of the old bytes. */
  lemma {:induction false} FoundLater(d: seq<Byte>, f: seq<Byte>, pat: seq<Byte>, from: nat)
    requires d <= f && Find(d, pat, from).None? && Find(f, pat, from).Some?
    ensures Find(f, pat, from).value + |pat| > |d|
  {
    FindsFirst(d, pat, from);
    FindsFirst(f, pat, from);
    var i := Find(f, pat, from).value;
    if i + |pat| <= |d| { MatchStable(d, f, pat, i); }
  }

  /** `s` stands at `i` in `d`, byte by byte. */
  ghost predicate Holds(d: seq<Byte>, s: seq<Byte>, i: nat) {
    i + |s| <= |d| && forall k {:trigger SameByte(d, s, i, k)} :: 0 <= k < |s| ==> SameByte(d, s, i, k)
  }

  ghost predicate SameByte(d: seq<Byte>, s: seq<Byte>, i: nat, k: nat) {
    k < |s| && i + k < |d| && d[i + k] == s[k]
  }

  lemma {:induction false} HoldsIffMatch(d: seq<Byte>, s: seq<Byte>, i: nat)
    ensures Holds(d, s, i) <==> MatchAt(d, s, i)
  {
    if i + |s| <= |d| {
      var t := d[i..i + |s|];
      if Holds(d, s, i) {
        forall k | 0 <= k < |s| ensures t[k] == s[k] { assert SameByte(d, s, i, k); }
      }
      if t == s {
        forall k | 0 <= k < |s| ensures SameByte(d, s, i, k) { assert t[k] == d[i + k]; }
      }
    }
  }

  lemma {:induction false} ByteOf(d: seq<Byte>, s: seq<Byte>, i: nat, k: nat)
    requires Holds(d, s, i) && k < |s|
    ensures i + k < |d| && d[i + k] == s[k]
  {
    assert SameByte(d, s, i, k);
  }

  lemma {:induction false} SliceOf(d: seq<Byte>, s: seq<Byte>, i: nat)
    requires Holds(d, s, i)
    ensures i + |s| <= |d| && d[i..i + |s|] == s
  {
    HoldsIffMatch(d, s, i);
  }

  lemma {:induction false} Mismatch(d: seq<Byte>, pat: seq<Byte>, i: nat, k: nat)
    requires k < |pat| && (i + k < |d| ==> d[i + k] != pat[k])
    ensures !MatchAt(d, pat, i)
  {
    if i + |pat| <= |d| { assert d[i..i + |pat|][k] == d[i + k]; }
  }

  /** A concatenation stands where its parts do. */
  lemma {:induction false} HoldsSplit(d: seq<Byte>, a: seq<Byte>, b: seq<Byte>, i: nat)
    requires Holds(d, a + b, i)
    ensures Holds(d, a, i) && Holds(d, b, i + |a|)
  {
    var s := a + b;
    forall k | 0 <= k < |a| ensures SameByte(d, a, i, k) { assert SameByte(d, s, i, k); }
    var j := i + |a|;
    forall k | 0 <= k < |b| ensures SameByte(d, b, j, k) { assert SameByte(d, s, i, |a| + k); }
  }

  lemma {:induction false} HoldsSplit3(d: seq<Byte>, a: seq<Byte>, b: seq<Byte>, c: seq<Byte>, i: nat)
    requires Holds(d, a + (b + c), i)
    ensures Holds(d, a, i) && Holds(d, b, i + |a|) && Holds(d, c, i + |a| + |b|)
  {
    var bc := b + c;
    HoldsSplit(d, a, bc, i);
    HoldsSplit(d, b, c, i + |a|);
  }

  lemma {:induction false} HoldsJoin(d: seq<Byte>, a: seq<Byte>, b: seq<Byte>, i: nat)
    requires Holds(d, a, i) && Holds(d, b, i + |a|)
    ensures Holds(d, a + b, i)
  {
    var s, j := a + b, i + |a|;
    forall k | 0 <= k < |s| ensures SameByte(d, s, i, k) {
      if k < |a| { assert SameByte(d, a, i, k); } else { assert SameByte(d, b, j, k - |a|); }
    }
  }

  lemma {:induction false} HoldsItself(s: seq<Byte>)
    ensures Holds(s, s, 0)
  {
    forall k | 0 <= k < |s| ensures SameByte(s, s, 0, k) { }
  }

  lemma {:induction false} HoldsTail(a: seq<Byte>, b: seq<Byte>)
    ensures Holds(a + b, b, |a|) && a <= a + b
  {
    forall k | 0 <= k < |b| ensures SameByte(a + b, b, |a|, k) { }
  }

  lemma {:induction false} HoldsWithin(d: seq<Byte>, s: seq<Byte>, t: seq<Byte>, i: nat, j: nat)
    requires Holds(d, s, i) && Holds(s, t, j)
    ensures Holds(d, t, i + j)
  {
    var at := i + j;
    forall k | 0 <= k < |t| ensures SameByte(d, t, at, k) { assert SameByte(s, t, j, k) && SameByte(d, s, i, j + k); }
  }

  lemma {:induction false} HoldsStable(d: seq<Byte>, f: seq<Byte>, s: seq<Byte>, i: nat)
    requires d <= f && Holds(d, s, i)
    ensures Holds(f, s, i)
  {
    forall k | 0 <= k < |s| ensures SameByte(f, s, i, k) { assert SameByte(d, s, i, k); }
  }

  ghost predicate Without(s: seq<Byte>, c: Byte) {
    forall i {:trigger Differs(s, i, c)} :: 0 <= i < |s| ==> Differs(s, i, c)
  }

  ghost predicate Differs(s: seq<Byte>, i: nat, c: Byte) {
    i < |s| && s[i] != c
  }

  lemma {:induction false} WithoutBoth(a: seq<Byte>, b: seq<Byte>, c: Byte)
    requires Without(a, c) && Without(b, c)
    ensures Without(a + b, c)
  {
    forall i | 0 <= i < |a + b| ensures Differs(a + b, i, c) {
      if i < |a| { assert Differs(a, i, c); } else { assert Differs(b, i - |a|, c); }
    }
  }

  lemma {:induction false} WithoutOne(x: Byte, c: Byte)
    requires x != c
    ensures Without([x], c)
  {
    forall i | 0 <= i < 1 ensures Differs([x], i, c) { }
  }

  /** A text without the first byte of a pattern holds no start of the pattern. */
  lemma {:induction false} NoMatchWithin(d: seq<Byte>, text: seq<Byte>, pat: seq<Byte>, p: nat)
    requires Holds(d, text, p) && pat != [] && Without(text, pat[0])
    ensures NoMatch(d, pat, p, p + |text|)
  {
    forall j | p <= j < p + |text| ensures !MatchAt(d, pat, j) {
      ByteOf(d, text, p, j - p);
      assert Differs(text, j - p, pat[0]);
      Mismatch(d, pat, j, 0);
    }
  }

  /** The first occurrence of a pattern is right after such a text. */
  lemma {:induction false} FindAfter(d: seq<Byte>, text: seq<Byte>, pat: seq<Byte>, p: nat)
    requires Holds(d, text, p) && pat != [] && Without(text, pat[0]) && Holds(d, pat, p + |text|)
    ensures Find(d, pat, p) == Some(p + |text|)
  {
    NoMatchWithin(d, text, pat, p);
    HoldsIffMatch(d, pat, p + |text|);
    FoundAt(d, pat, p, p + |text|);
  }

  /** ... and there is none if the text is all there is. */
  lemma {:induction false} FindNowhere(d: seq<Byte>, text: seq<Byte>, pat: seq<Byte>, p: nat)
    requires Holds(d, text, p) && pat != [] && Without(text, pat[0]) && p + |text| == |d|
    ensures Find(d, pat, p) == None
  {
    NoMatchWithin(d, text, pat, p);
    assert !MatchAt(d, pat, |d|);
    NotFound(d, pat, p);
  }

  /** A text cut at the first `c`. */
  lemma {:induction false} CutAtFirst(s: seq<Byte>, a: seq<Byte>, c: Byte, b: seq<Byte>)
    requires s == a + ([c] + b) && Without(a, c)
    ensures Find(s, [c], 0) == Some(|a|) && s[..|a|] == a && s[|a| + 1..] == b
  {
    HoldsItself(s);
    HoldsSplit3(s, a, [c], b, 0);
    FindAfter(s, a, [c], 0);
  }

  /** A text cut at the second `c`. */
  lemma {:induction false} CutAtSecond(s: seq<Byte>, a: seq<Byte>, c: Byte, b: seq<Byte>, e: seq<Byte>)
    requires s == a + ([c] + (b + ([c] + e))) && Without(b, c)
    ensures Find(s, [c], |a| + 1) == Some(|a| + 1 + |b|)
    ensures s[|a| + 1..|a| + 1 + |b|] == b && s[|a| + 1 + |b| + 1..] == e
  {
    var tail := b + ([c] + e);
    HoldsItself(s);
    HoldsSplit3(s, a, [c], tail, 0);
    HoldsSplit3(s, b, [c], e, |a| + 1);
    FindAfter(s, b, [c], |a| + 1);
    var rest := |a| + 1 + |b| + 1;
    SliceOf(s, b, |a| + 1);
    SliceOf(s, e, rest);
    assert |s| == rest + |e| && s[rest..] == s[rest..rest + |e|];
  }

  lemma {:induction false} CutOnlyOnce(s: seq<Byte>, a: seq<Byte>, c: Byte, b: seq<Byte>)
    requires s == a + ([c] + b) && Without(b, c)
    ensures Find(s, [c], |a| + 1) == None && s[|a| + 1..] == b
  {
    HoldsItself(s);
    HoldsSplit3(s, a, [c], b, 0);
    FindNowhere(s, b, [c], |a| + 1);
  }

  // ---- texts one after the other ------------------------------------------------------------

  /** Where part `i` starts in a concatenation. */
  function StartAt(parts: seq<seq<Byte>>, i: nat): nat
    requires i <= |parts|
  {
    if i == 0 then 0 else StartAt(parts, i - 1) + |parts[i - 1]|
  }

  ghost predicate Sits(d: seq<Byte>, parts: seq<seq<Byte>>, i: nat) {
    i < |parts| && Holds(d, parts[i], StartAt(parts, i))
  }

  ghost predicate LaidOut(d: seq<Byte>, parts: seq<seq<Byte>>) {
    |d| == StartAt(parts, |parts|) && forall i {:trigger Sits(d, parts, i)} :: 0 <= i < |parts| ==> Sits(d, parts, i)
  }

  lemma {:induction false} StartStable(parts: seq<seq<Byte>>, n: nat, i: nat)
    requires i <= n <= |parts|
    ensures StartAt(parts[..n], i) == StartAt(parts, i)
  {
    if i > 0 { StartStable(parts, n, i - 1); }
  }

  lemma {:induction false} SitsStable(d: seq<Byte>, f: seq<Byte>, parts: seq<seq<Byte>>, n: nat, i: nat)
    requires n <= |parts| && d <= f && Sits(d, parts[..n], i)
    ensures Sits(f, parts, i)
  {
    StartStable(parts, n, i);
    HoldsStable(d, f, parts[i], StartAt(parts, i));
  }

  lemma {:induction false} ConcatLaidOut(parts: seq<seq<Byte>>)
    ensures LaidOut(Concat(parts), parts)
  {
    if parts != [] {
      var n := |parts| - 1;
      var a, b := Concat(parts[..n]), parts[n];
      ConcatLaidOut(parts[..n]);
      StartStable(parts, n, n);
      HoldsTail(a, b);
      forall i | 0 <= i < |parts| ensures Sits(a + b, parts, i) {
        if i < n {
          assert Sits(a, parts[..n], i);
          SitsStable(a, a + b, parts, n, i);
        }
      }
    }
  }

  // ---- trimming and case ------------------------------------------------------------------

  /** Whitespace and control bytes, as Trim takes them. */
  predicate Blank(c: Byte) { c <= SP }

  ghost predicate AllBlank(s: seq<Byte>) {
    forall i :: 0 <= i < |s| ==> s[i] <= 32
  }

  /** Neither end is blank. */
  predicate Trimmed(s: seq<Byte>) {
    s != [] ==> s[0] > 32 && s[|s| - 1] > 32
  }

  function TrimLeft(s: seq<Byte>): seq<Byte> {
    if s != [] && Blank(s[0]) then TrimLeft(s[1..]) else s
  }

  function TrimRight(s: seq<Byte>): seq<Byte> {
    if s != [] && Blank(s[|s| - 1]) then TrimRight(s[..|s| - 1]) else s
  }

  function Trim(s: seq<Byte>): seq<Byte> { TrimRight(TrimLeft(s)) }

  lemma {:induction false} TrimLeftDrops(lead: seq<Byte>, s: seq<Byte>)
    requires AllBlank(lead) && (s != [] ==> !Blank(s[0]))
    ensures TrimLeft(lead + s) == s
    decreases |lead|
  {
    if lead == [] {
      assert lead + s == s;
    } else {
      assert (lead + s)[1..] == lead[1..] + s;
      TrimLeftDrops(lead[1..], s);
    }
  }

  lemma {:induction false} TrimRightDrops(s: seq<Byte>, trail: seq<Byte>)
    requires AllBlank(trail) && (s != [] ==> !Blank(s[|s| - 1]))
    ensures TrimRight(s + trail) == s
    decreases |trail|
  {
    if trail == [] {
      assert s + trail == s;
    } else {
      assert (s + trail)[..|s + trail| - 1] == s + trail[..|trail| - 1];
      TrimRightDrops(s, trail[..|trail| - 1]);
    }
  }

  /** Trim recovers the text between any blanks. */
  lemma {:induction false} TrimPadded(lead: seq<Byte>, s: seq<Byte>, trail: seq<Byte>)
    requires AllBlank(lead) && AllBlank(trail) && Trimmed(s)
    ensures Trim(lead + s + trail) == s
  {
    if s == [] {
      assert lead + s + trail == (lead + trail) + [];
      TrimLeftDrops(lead + trail, []);
    } else {
      Associate(lead, s, trail);
      TrimLeftDrops(lead, s + trail);
      TrimRightDrops(s, trail);
    }
  }

  lemma {:induction false} TrimLeftSuffix(s: seq<Byte>)
    ensures exists lead :: AllBlank(lead) && s == lead + TrimLeft(s)
    ensures TrimLeft(s) != [] ==> !Blank(TrimLeft(s)[0])
  {
    if s != [] && Blank(s[0]) {
      TrimLeftSuffix(s[1..]);
      var lead :| AllBlank(lead) && s[1..] == lead + TrimLeft(s[1..]);
      assert s == ([s[0]] + lead) + TrimLeft(s);
    } else {
      var lead: seq<Byte> := [];
      assert AllBlank(lead) && s == lead + TrimLeft(s);
    }
  }

  lemma {:induction false} TrimRightPrefix(s: seq<Byte>)
    ensures exists trail :: AllBlank(trail) && s == TrimRight(s) + trail
    ensures TrimRight(s) != [] ==> !Blank(TrimRight(s)[|TrimRight(s)| - 1])
    ensures TrimRight(s) <= s
  {
    if s != [] && Blank(s[|s| - 1]) {
      TrimRightPrefix(s[..|s| - 1]);
      var trail :| AllBlank(trail) && s[..|s| - 1] == TrimRight(s[..|s| - 1]) + trail;
      assert s == TrimRight(s) + (trail + [s[|s| - 1]]);
    } else {
      var trail: seq<Byte> := [];
      assert AllBlank(trail) && s == TrimRight(s) + trail;
    }
  }

  /** Every text is its trimmed core between blanks. */
  lemma {:induction false} TrimSplits(s: seq<Byte>)
    ensures Trimmed(Trim(s))
    ensures exists lead, trail :: AllBlank(lead) && AllBlank(trail) && s == lead + Trim(s) + trail
  {
    TrimLeftSuffix(s);
    TrimRightPrefix(TrimLeft(s));
    var lead :| AllBlank(lead) && s == lead + TrimLeft(s);
    var trail :| AllBlank(trail) && TrimLeft(s) == Trim(s) + trail;
    Associate(lead, Trim(s), trail);
  }

  /** std::tolower in the "C" locale. */
  function LowerByte(c: Byte): Byte { if 65 <= c <= 90 then c + 32 else c }

  function Lower(s: seq<Byte>): (r: seq<Byte>)
    ensures |r| == |s|
  {
    seq(|s|, i requires 0 <= i < |s| => LowerByte(s[i]))
  }

  /** The same letter in either case, or the same byte. */
  predicate SameLetter(a: Byte, b: Byte) {
    a == b || ('A' <= a as char <= 'Z' && b == a + 32) || ('A' <= b as char <= 'Z' && a == b + 32)
  }

  predicate LetterAt(s: seq<Byte>, t: seq<Byte>, i: nat) { i < |s| && i < |t| && SameLetter(s[i], t[i]) }

  /** Two texts that differ in the case of letters alone. */
  predicate SameLetters(s: seq<Byte>, t: seq<Byte>) {
    |s| == |t| && forall i {:trigger LetterAt(s, t, i)} :: 0 <= i < |s| ==> LetterAt(s, t, i)
  }

  predicate NotCapital(s: seq<Byte>, i: nat) { i < |s| && !('A' <= s[i] as char <= 'Z') }

  predicate NoCapitals(s: seq<Byte>) {
    forall i {:trigger NotCapital(s, i)} :: 0 <= i < |s| ==> NotCapital(s, i)
  }

  /** Lower gives the one spelling of a text that has no capitals. */
  lemma {:induction false} LowerMeans(s: seq<Byte>, t: seq<Byte>)
    ensures SameLetters(s, t) && NoCapitals(t) <==> t == Lower(s)
  {
    var r := Lower(s);
    forall i | 0 <= i < |s| ensures LetterAt(s, r, i) && NotCapital(r, i) { }
    if SameLetters(s, t) && NoCapitals(t) {
      forall i | 0 <= i < |s| ensures t[i] == r[i] { assert LetterAt(s, t, i) && NotCapital(t, i); }
    }
  }

  lemma {:induction false} LowerIffSame(s: seq<Byte>, t: seq<Byte>)
    ensures Lower(s) == Lower(t) <==> SameLetters(s, t)
  {
    var r, q := Lower(s), Lower(t);
    if r == q {
      forall i | 0 <= i < |s| ensures LetterAt(s, t, i) { assert r[i] == q[i]; }
    }
    if SameLetters(s, t) {
      forall i | 0 <= i < |s| ensures r[i] == q[i] { assert LetterAt(s, t, i); }
    }
  }

  /** A text with a given meaning somewhere in it, in any case. */
  predicate SpelledAt(s: seq<Byte>, t: seq<Byte>, k: nat) { k + |t| <= |s| && SameLetters(s[k..k + |t|], t) }

  lemma {:induction false} LowerFinds(s: seq<Byte>, t: seq<Byte>)
    requires NoCapitals(t)
    ensures Find(Lower(s), t, 0).Some? <==> exists k {:trigger SpelledAt(s, t, k)} :: 0 <= k <= |s| && SpelledAt(s, t, k)
  {
    var r := Lower(s);
    FindsFirst(r, t, 0);
    forall k | 0 <= k && k + |t| <= |s| ensures MatchAt(r, t, k) <==> SpelledAt(s, t, k) {
      LowerMeans(s[k..k + |t|], t);
      assert r[k..k + |t|] == Lower(s[k..k + |t|]);
    }
  }

  /** A literal without capitals has none as bytes. */
  lemma {:induction false} SmallText(s: string)
    requires forall i :: 0 <= i < |s| ==> !('A' <= s[i] <= 'Z') && s[i] < 128 as char
    ensures NoCapitals(Text(s))
  {
    forall i | 0 <= i < |s| ensures NotCapital(Text(s), i) { }
  }

  predicate Alpha(c: Byte) { 65 <= c <= 90 || 97 <= c <= 122 }

  // ---- numbers ---------------------------------------------------------------------------

  predicate Base(b: nat) { b == 10 || b == 16 }

  /** The value of a digit; 16 for anything else. */
  function Digit(c: Byte): nat {
    if 48 <= c <= 57 then c - 48
    else if 65 <= c <= 70 then c - 55
    else if 97 <= c <= 102 then c - 87
    else 16
  }

  /** The longest run of digits of a base at the front. */
  function Digits(s: seq<Byte>, base: nat): seq<Byte>
    requires Base(base)
  {
    if s != [] && Digit(s[0]) < base then [s[0]] + Digits(s[1..], base) else []
  }

  ghost predicate AllDigits(s: seq<Byte>, base: nat) {
    forall i :: 0 <= i < |s| ==> Digit(s[i]) < base
  }

  function Value(s: seq<Byte>, base: nat): nat {
    if s == [] then 0 else Value(s[..|s| - 1], base) * base + Digit(s[|s| - 1])
  }

  /** isspace in the "C" locale. */
  predicate Space(c: Byte) { c == 32 || 9 <= c <= 13 }

  function SkipSpace(s: seq<Byte>): seq<Byte> {
    if s != [] && Space(s[0]) then SkipSpace(s[1..]) else s
  }

  predicate Signed(s: seq<Byte>) { s != [] && (s[0] == 43 || s[0] == 45) }

  function SkipSign(s: seq<Byte>): seq<Byte> {
    if Signed(s) then s[1..] else s
  }

  /** The optional 0x of base 16. */
  function SkipPrefix(s: seq<Byte>, base: nat): seq<Byte> {
    if base == 16 && |s| >= 2 && s[0] == 48 && (s[1] == 120 || s[1] == 88) then s[2..] else s
  }

  /** strtoul with a 32-bit unsigned long: out-of-range values saturate, and a minus
      sign negates modulo 2^32. */
  function StrToUL(s: seq<Byte>, base: nat): (v: nat)
    requires Base(base)
    ensures v <= ULONG_MAX
  {
    var t := SkipSpace(s);
    var v := Value(Digits(SkipPrefix(SkipSign(t), base), base), base);
    if v > ULONG_MAX then ULONG_MAX
    else if Signed(t) && t[0] == 45 && v != 0 then ULONG_MAX + 1 - v
    else v
  }

  /** atoi, saturating at the limits of a 32-bit int. */
  function AToI(s: seq<Byte>): int {
    var t := SkipSpace(s);
    var v := Value(Digits(SkipSign(t), 10), 10);
    if Signed(t) && t[0] == 45 then -Min(v, 0x8000_0000) else Min(v, 0x7FFF_FFFF)
  }

  // ---- numerals read back -----------------------------------------------------------------

  /** Not blank, a sign, a semicolon or the x of a base prefix. */
  predicate PlainByte(c: Byte) {
    c > SP && c != 43 && c != 45 && c != SEMICOLON && c != 120 && c != 88
  }

  function DigitByte(k: nat): (c: Byte)
    requires k < 16
    ensures Digit(c) == k && PlainByte(c)
  {
    if k < 10 then 48 + k else 87 + k
  }

  /** A number written in a base, without leading zeros. */
  function Numeral(n: nat, base: nat): (s: seq<Byte>)
    requires Base(base)
    ensures s != []
  {
    if n < base then [DigitByte(n)] else Numeral(n / base, base) + [DigitByte(n % base)]
  }

  ghost predicate Plain(s: seq<Byte>) {
    forall i :: 0 <= i < |s| ==> PlainByte(s[i])
  }

  lemma {:induction false} NumeralReads(n: nat, base: nat)
    requires Base(base)
    ensures Value(Numeral(n, base), base) == n && AllDigits(Numeral(n, base), base) && Plain(Numeral(n, base))
  {
    if n < base {
      assert [DigitByte(n)][..0] == [];
      assert Value([], base) == 0;
    } else {
      NumeralReads(n / base, base);
      var s := Numeral(n / base, base);
      assert (s + [DigitByte(n % base)])[..|s|] == s;
      assert n / base * base + n % base == n;
    }
  }

  lemma {:induction false} DigitsOfRun(s: seq<Byte>, tail: seq<Byte>, base: nat)
    requires Base(base) && AllDigits(s, base) && (tail != [] ==> Digit(tail[0]) >= base)
    ensures Digits(s + tail, base) == s
    decreases |s|
  {
    if s == [] {
      assert s + tail == tail;
    } else {
      assert (s + tail)[1..] == s[1..] + tail;
      DigitsOfRun(s[1..], tail, base);
    }
  }

  /** The letters of a hexadecimal number may be in either case. */
  lemma {:induction false} SpelledNumeral(s: seq<Byte>, t: seq<Byte>, base: nat)
    requires Base(base) && SameLetters(s, t) && AllDigits(t, base) && Plain(t)
    ensures Value(s, base) == Value(t, base) && AllDigits(s, base) && Plain(s)
    decreases |s|
  {
    forall i | 0 <= i < |s| ensures Digit(s[i]) == Digit(t[i]) && PlainByte(s[i]) { assert LetterAt(s, t, i); }
    if s != [] {
      var s', t' := s[..|s| - 1], t[..|t| - 1];
      forall i | 0 <= i < |s'| ensures LetterAt(s', t', i) { assert LetterAt(s, t, i); }
      SpelledNumeral(s', t', base);
    }
  }

  /** strtoul undoes a numeral, in either case and whatever non-digit follows it. */
  lemma {:induction false} NumeralRoundTrip(n: nat, base: nat, s: seq<Byte>, tail: seq<Byte>)
    requires Base(base) && n <= ULONG_MAX && SameLetters(s, Numeral(n, base))
    requires tail != [] ==> Digit(tail[0]) >= base && tail[0] != 120 && tail[0] != 88
    ensures StrToUL(s + tail, base) == n
  {
    NumeralReads(n, base);
    SpelledNumeral(s, Numeral(n, base), base);
    DigitsOfRun(s, tail, base);
    UnsignedValue(s + tail, base, n);
  }

  lemma {:induction false} SameText(s: seq<Byte>)
    ensures SameLetters(s, s)
  {
    forall i | 0 <= i < |s| ensures LetterAt(s, s, i) { }
  }

  lemma {:induction false} UnsignedValue(s: seq<Byte>, base: nat, n: nat)
    requires Base(base) && s != [] && PlainByte(s[0]) && (|s| > 1 ==> s[1] != 120 && s[1] != 88)
    requires Value(Digits(s, base), base) == n <= ULONG_MAX
    ensures StrToUL(s, base) == n
  {
    assert SkipSpace(s) == s && SkipSign(s) == s && SkipPrefix(s, base) == s;
  }

  lemma {:induction false} StatusRoundTrip(n: nat)
    requires 100 <= n <= 599
    ensures AToI(Numeral(n, 10)) == n
  {
    NumeralReads(n, 10);
    var s := Numeral(n, 10);
    DigitsOfRun(s, [], 10);
    assert s + [] == s;
    assert SkipSpace(s) == s && SkipSign(s) == s;
  }

  // ---- numbers in any text ------------------------------------------------------------------

  lemma {:induction false} SpaceSkipped(lead: seq<Byte>, s: seq<Byte>)
    requires (forall i :: 0 <= i < |lead| ==> lead[i] == 32 || 9 <= lead[i] <= 13) && (s != [] ==> s[0] != 32 && !(9 <= s[0] <= 13))
    ensures SkipSpace(lead + s) == s
    decreases |lead|
  {
    if lead == [] {
      assert lead + s == s;
    } else {
      assert (lead + s)[1..] == lead[1..] + s;
      SpaceSkipped(lead[1..], s);
    }
  }

  /** White space, a sign and digits, and then something that is no digit. */
  ghost predicate NumberText(lead: seq<Byte>, sign: seq<Byte>, digits: seq<Byte>, tail: seq<Byte>, base: nat)
    requires Base(base)
  {
    && (forall i :: 0 <= i < |lead| ==> lead[i] == 32 || 9 <= lead[i] <= 13)
    && (sign == [] || sign == [43] || sign == [45]) && digits != [] && AllDigits(digits, base)
    && (tail != [] ==> Digit(tail[0]) >= base && tail[0] != 120 && tail[0] != 88)
  }

  /** What strtoul makes of any number: one out of range saturates, and a minus sign
      negates modulo 2^32; in base 16 it may have a prefix. */
  lemma {:induction false} NumberReads(lead: seq<Byte>, sign: seq<Byte>, prefix: seq<Byte>, digits: seq<Byte>, tail: seq<Byte>, base: nat)
    requires Base(base) && NumberText(lead, sign, digits, tail, base)
    requires prefix == [] || (base == 16 && (prefix == [48, 120] || prefix == [48, 88]))
    ensures var n := Value(digits, base);
      StrToUL(lead + (sign + (prefix + (digits + tail))), base) ==
        if n > 0xFFFF_FFFF then 0xFFFF_FFFF else if sign == [45] && n > 0 then 0x1_0000_0000 - n else n
  {
    var s := prefix + (digits + tail);
    assert digits[0] == (digits + tail)[0] && Digit(digits[0]) < base;
    if prefix != [] { assert s[0] == 48; } else { assert s == digits + tail; }
    SpaceSkipped(lead, sign + s);
    if sign == [] { assert sign + s == s; } else { assert (sign + s)[1..] == s; }
    assert SkipSign(sign + s) == s;
    assert SkipPrefix(s, base) == digits + tail by {
      if prefix != [] {
        assert s[2..] == digits + tail;
      } else if |digits| > 1 {
        assert s[1] == digits[1] && Digit(digits[1]) < base;
      } else if tail != [] {
        assert s[1] == tail[0];
      }
    }
    DigitsOfRun(digits, tail, base);
  }

  /** What atoi makes of any number. */
  lemma {:induction false} IntegerReads(lead: seq<Byte>, sign: seq<Byte>, digits: seq<Byte>, tail: seq<Byte>)
    requires NumberText(lead, sign, digits, tail, 10)
    ensures var n := Value(digits, 10);
      AToI(lead + (sign + (digits + tail))) == if sign == [45] then -Min(n, 0x8000_0000) else Min(n, 0x7FFF_FFFF)
  {
    var s := digits + tail;
    assert digits[0] == s[0] && Digit(digits[0]) < 10;
    SpaceSkipped(lead, sign + s);
    if sign == [] { assert sign + s == s; } else { assert (sign + s)[1..] == s; }
    DigitsOfRun(digits, tail, 10);
  }

  /** Text that does not start with a digit counts as 0. */
  lemma {:induction false} NoNumberIsZero(lead: seq<Byte>, s: seq<Byte>, base: nat)
    requires Base(base) && (forall i :: 0 <= i < |lead| ==> lead[i] == 32 || 9 <= lead[i] <= 13)
    requires s != [] ==> Digit(s[0]) >= base && s[0] != 32 && !(9 <= s[0] <= 13) && s[0] != 43 && s[0] != 45
    ensures StrToUL(lead + s, base) == 0 && (base == 10 ==> AToI(lead + s) == 0)
  {
    SpaceSkipped(lead, s);
    assert Digits(s, base) == [] && Value([], base) == 0;
  }
}
