/** stbrp__skyline_find_best_pos: the two scans, and what they find. */
module SkylineSearch {
  import opened Bytes
  import opened Skyline

  datatype Heuristic = BottomLeft | BestFit

  /** The parts of a packing context that a search reads. */
  datatype Target = Target(width: int, height: int, align: int, heuristic: Heuristic) {
    predicate Ok() { 0 < width < TOP && 0 <= height < TOP && align >= 1 }
  }

  /** The width rounded up to a multiple of the alignment. */
  function Quantise(w: int, align: int): (q: int)
    requires align >= 1
    ensures w > 0 ==> w <= q < w + align && (align == 1 ==> q == w)
    decreases w
  {
    if w <= 0 then 0 else align + Quantise(w - align, align)
  }

  /** It is what find_best_pos computes: w + align - 1 less its remainder. */
  lemma {:induction false} QuantiseIsRemainder(w: nat, align: int)
    requires align >= 1
    ensures var up := w + align - 1; Quantise(w, align) == up - up % align
    decreases w
  {
    var up := w + align - 1;
    if w == 0 {
      QuotientIsUnique(up, align, 0, up);
    } else if w <= align {
      assert Quantise(w - align, align) == 0;
      QuotientIsUnique(up, align, 1, w - 1);
    } else {
      QuantiseIsRemainder(w - align, align);
      var m := up - align;
      assert up == align * (m / align + 1) + m % align by { assert m == align * (m / align) + m % align; }
      QuotientIsUnique(up, align, m / align + 1, m % align);
    }
  }

  /** The best position so far: the node it starts in, its place, and its waste. */
  datatype Best = Best(node: Option<nat>, x: int, y: int, waste: int)

  const NOTHING: Best := Best(None, 0, TOP, TOP)

  function TakeLeft(t: Target, h: int, i: nat, x: int, f: Fit, best: Best): Best {
    if t.heuristic.BottomLeft? then
      if f.y < best.y then Best(Some(i), x, f.y, best.waste) else best
    else
      if f.y + h <= t.height && (f.y < best.y || (f.y == best.y && f.waste < best.waste))
      then Best(Some(i), x, f.y, f.waste) else best
  }

  /** The left-aligned scan from node `i` on. */
  function ScanLeft(sky: seq<Seg>, t: Target, w: int, h: int, i: nat, best: Best): Best
    requires Shape(sky, t.width) && i < |sky| && w > 0
    decreases |sky| - i
  {
    if sky[i].x + w <= t.width then
      ScanLeft(sky, t, w, h, i + 1, TakeLeft(t, h, i, sky[i].x, MinY(sky, i, sky[i].x, w), best))
    else best
  }

  /** The first node at or beyond column `w`. */
  function FirstTail(sky: seq<Seg>, width: int, w: int, i: nat): (k: nat)
    requires Shape(sky, width) && i < |sky| && w <= width
    ensures i <= k < |sky| && sky[k].x >= w
    decreases |sky| - i
  {
    if sky[i].x < w then FirstTail(sky, width, w, i + 1) else i
  }

  function TakeRight(t: Target, h: int, i: nat, x: int, f: Fit, best: Best): Best {
    if f.y + h <= t.height && f.y <= best.y
       && (f.y < best.y || f.waste < best.waste || (f.waste == best.waste && x < best.x))
    then Best(Some(i), x, f.y, f.waste) else best
  }

  /** The right-aligned scan: the window ends at node `tail`, and `node` has not
      passed its left edge. */
  function ScanRight(sky: seq<Seg>, t: Target, w: int, h: int, tail: nat, node: nat, best: Best): Best
    requires Shape(sky, t.width) && w > 0 && tail <= |sky|
    requires tail < |sky| ==> sky[tail].x >= w && node < |sky| - 1 && sky[node].x <= sky[tail].x - w
    decreases |sky| - tail
  {
    if tail == |sky| then best
    else
      var x := sky[tail].x - w;
      BeforeSentinel(sky, t.width, tail);
      var k := NodeAt(sky, node, x);
      assert tail + 1 < |sky| ==> sky[tail].x < sky[tail + 1].x by {
        if tail + 1 < |sky| { Ordered(sky, t.width, tail, tail + 1); }
      }
      ScanRight(sky, t, w, h, tail + 1, k, TakeRight(t, h, k, x, MinY(sky, k, x, w), best))
  }

  lemma {:induction false} BeforeSentinel(sky: seq<Seg>, width: int, i: nat)
    requires Shape(sky, width) && i < |sky|
    ensures 0 <= sky[i].x <= width
  {
    Ordered(sky, width, 0, i);
    Ordered(sky, width, i, |sky| - 1);
  }

  /** The search proper, for a width already rounded. */
  function SearchFor(sky: seq<Seg>, t: Target, q: int, h: int): Best
    requires Shape(sky, t.width) && q > 0
  {
    if q > t.width || h > t.height then Best(None, 0, 0, 0)
    else
      var left := ScanLeft(sky, t, q, h, 0, NOTHING);
      if t.heuristic.BestFit? then ScanRight(sky, t, q, h, FirstTail(sky, t.width, q, 0), 0, left) else left
  }

  function FindBest(sky: seq<Seg>, t: Target, w: int, h: int): Best
    requires Shape(sky, t.width) && t.Ok() && w > 0
  {
    SearchFor(sky, t, Quantise(w, t.align), h)
  }

  // ---- what a search returns -----------------------------------------------------

  /** The window starts at the node under its left edge or reaches beyond that node. */
  predicate Anchored(sky: seq<Seg>, w: int, k: nat, x: int) {
    k < |sky| - 1 && (x == sky[k].x || sky[k + 1].x <= x + w)
  }

  /** A position for a window of width `w`: inside the target, with the node under
      its left edge and the height it would rest at. */
  ghost predicate Position(sky: seq<Seg>, width: int, w: int, b: Best) {
    b.node.Some? ==>
      && Covers(sky, b.node.value, b.x) && 0 <= b.x && b.x + w <= width
      && Anchored(sky, w, b.node.value, b.x)
      && Window(sky, b.x, b.x + w) && b.y == TopOver(sky, b.x, b.x + w)
  }

  lemma {:induction false} NodePosition(sky: seq<Seg>, width: int, i: nat, w: int)
    requires Shape(sky, width) && i < |sky| && w > 0 && sky[i].x + w <= width
    ensures i < |sky| - 1 && Covers(sky, i, sky[i].x) && 0 <= sky[i].x
    ensures Window(sky, sky[i].x, sky[i].x + w)
    ensures MinY(sky, i, sky[i].x, w).y == TopOver(sky, sky[i].x, sky[i].x + w)
  {
    BeforeSentinel(sky, width, i);
    assert i < |sky| - 1;
    Ordered(sky, width, i, i + 1);
    MinYIsTop(sky, width, i, sky[i].x, w);
  }

  lemma {:induction false} LeftPosition(sky: seq<Seg>, t: Target, w: int, h: int, i: nat, best: Best)
    requires Shape(sky, t.width) && i < |sky| && w > 0 && Position(sky, t.width, w, best)
    ensures Position(sky, t.width, w, ScanLeft(sky, t, w, h, i, best))
    decreases |sky| - i
  {
    if sky[i].x + w <= t.width {
      NodePosition(sky, t.width, i, w);
      LeftPosition(sky, t, w, h, i + 1, TakeLeft(t, h, i, sky[i].x, MinY(sky, i, sky[i].x, w), best));
    }
  }

  lemma {:induction false} TailPosition(sky: seq<Seg>, width: int, w: int, tail: nat, node: nat)
    requires Shape(sky, width) && w > 0 && tail < |sky| && sky[tail].x >= w && node < |sky| - 1 && sky[node].x <= sky[tail].x - w
    ensures var x := sky[tail].x - w;
      && x < sky[|sky| - 1].x
      && var k := NodeAt(sky, node, x);
         && Covers(sky, k, x) && 0 <= x && x + w <= width && Window(sky, x, x + w) && Anchored(sky, w, k, x)
         && MinY(sky, k, x, w).y == TopOver(sky, x, x + w)
         && (tail + 1 < |sky| ==> sky[tail + 1].x >= w && sky[k].x <= sky[tail + 1].x - w)
  {
    BeforeSentinel(sky, width, tail);
    var x := sky[tail].x - w;
    var k := NodeAt(sky, node, x);
    MinYIsTop(sky, width, k, x, w);
    LeftOf(sky, width, k, tail);
    Ordered(sky, width, k + 1, tail);
    if tail + 1 < |sky| { Ordered(sky, width, tail, tail + 1); }
  }

  /** Where the right-aligned scan goes from one tail to the next. */
  lemma {:induction false} RightStep(sky: seq<Seg>, t: Target, w: int, h: int, tail: nat, node: nat, best: Best) returns (k: nat, next: Best)
    requires Shape(sky, t.width) && w > 0 && tail < |sky|
    requires sky[tail].x >= w && node < |sky| - 1 && sky[node].x <= sky[tail].x - w
    ensures var x := sky[tail].x - w;
      && Covers(sky, k, x) && 0 <= x && x + w <= t.width && Window(sky, x, x + w) && Anchored(sky, w, k, x)
      && MinY(sky, k, x, w).y == TopOver(sky, x, x + w)
      && next == TakeRight(t, h, k, x, MinY(sky, k, x, w), best)
    ensures tail + 1 < |sky| ==> sky[tail + 1].x >= w && sky[k].x <= sky[tail + 1].x - w
    ensures ScanRight(sky, t, w, h, tail, node, best) == ScanRight(sky, t, w, h, tail + 1, k, next)
  {
    TailPosition(sky, t.width, w, tail, node);
    var x := sky[tail].x - w;
    k := NodeAt(sky, node, x);
    next := TakeRight(t, h, k, x, MinY(sky, k, x, w), best);
  }

  lemma {:induction false} TakenPosition(sky: seq<Seg>, t: Target, w: int, h: int, tail: nat, k: nat, best: Best, next: Best)
    requires Position(sky, t.width, w, best) && tail < |sky|
    requires var x := sky[tail].x - w;
      && Covers(sky, k, x) && 0 <= x && x + w <= t.width && Window(sky, x, x + w) && Anchored(sky, w, k, x)
      && MinY(sky, k, x, w).y == TopOver(sky, x, x + w)
      && next == TakeRight(t, h, k, x, MinY(sky, k, x, w), best)
    ensures Position(sky, t.width, w, next)
  {
  }

  lemma {:induction false} RightPosition(sky: seq<Seg>, t: Target, w: int, h: int, tail: nat, node: nat, best: Best)
    requires Shape(sky, t.width) && w > 0 && tail <= |sky| && Position(sky, t.width, w, best)
    requires tail < |sky| ==> sky[tail].x >= w && node < |sky| - 1 && sky[node].x <= sky[tail].x - w
    ensures Position(sky, t.width, w, ScanRight(sky, t, w, h, tail, node, best))
    decreases |sky| - tail
  {
    if tail < |sky| {
      var k, next := RightStep(sky, t, w, h, tail, node, best);
      TakenPosition(sky, t, w, h, tail, k, best, next);
      RightPosition(sky, t, w, h, tail + 1, k, next);
    }
  }

  /** Whatever the heuristic, a search returns a place in the target for the rounded
      width, resting on the skyline. */
  lemma {:induction false} SearchIsSound(sky: seq<Seg>, t: Target, q: int, h: int)
    requires Shape(sky, t.width) && q > 0
    ensures Position(sky, t.width, q, SearchFor(sky, t, q, h))
  {
    if q <= t.width && h <= t.height {
      LeftPosition(sky, t, q, h, 0, NOTHING);
      if t.heuristic.BestFit? {
        var tail := FirstTail(sky, t.width, q, 0);
        RightPosition(sky, t, q, h, tail, 0, ScanLeft(sky, t, q, h, 0, NOTHING));
      }
    }
  }

  // ---- positions in general ------------------------------------------------------

  /** A column at which a window of width `w` lies inside the target. */
  predicate Room(sky: seq<Seg>, width: int, w: int, x: int) {
    0 <= x && x + w <= width && Window(sky, x, x + w)
  }

  /** The height a window of width `w` at column `x` rests at. */
  function Rest(sky: seq<Seg>, w: int, x: int): int
    requires Window(sky, x, x + w)
  {
    TopOver(sky, x, x + w)
  }

  lemma {:induction false} RoomEverywhere(sky: seq<Seg>, width: int, w: int, x: int)
    requires Shape(sky, width) && 0 <= x && w > 0 && x + w <= width
    ensures Room(sky, width, w, x)
  {
  }

  lemma {:induction false} RestBelowSentinel(sky: seq<Seg>, width: int, w: int, x: int)
    requires Shape(sky, width) && Room(sky, width, w, x)
    ensures 0 <= Rest(sky, w, x) < TOP
  {
    TopIsMaximum(sky, x, x + w);
    var z :| x <= z < x + w && Column(sky, z) && Height(sky, z) == Rest(sky, w, x);
    var k := NodeAt(sky, 0, z);
    assert k < |sky| - 1;
  }

  /** A window anywhere is no lower than the one at the node under its left edge. */
  lemma {:induction false} NodeUnder(sky: seq<Seg>, width: int, w: int, x: int, n: nat) returns (k: nat)
    requires Shape(sky, width) && Room(sky, width, w, x) && n < |sky| && sky[n].x + w > width
    ensures k < n && sky[k].x <= x
    ensures Room(sky, width, w, sky[k].x) && Rest(sky, w, sky[k].x) <= Rest(sky, w, x)
  {
    k := NodeAt(sky, 0, x);
    SlideLeft(sky, width, k, x, w);
    BeforeSentinel(sky, width, k);
    LeftOf(sky, width, k, n);
  }

  lemma {:induction false} LeftOf(sky: seq<Seg>, width: int, k: nat, n: nat)
    requires Shape(sky, width) && k < |sky| && n < |sky| && sky[k].x < sky[n].x
    ensures k < n
  {
    if n <= k { Ordered(sky, width, n, k); }
  }

  // ---- bottom-left is globally optimal ----------------------------------------------

  /** A window at node `j` rests at `y` or higher; strictly higher if `strict`. */
  ghost predicate NoLower(sky: seq<Seg>, w: int, j: nat, y: int, strict: bool)
    requires j < |sky|
  {
    && Window(sky, sky[j].x, sky[j].x + w)
    && y <= Rest(sky, w, sky[j].x) && (strict ==> y < Rest(sky, w, sky[j].x))
  }

  /** Among the nodes before `i`, `best` is the lowest and the first such. */
  ghost predicate LowestLeft(sky: seq<Seg>, w: int, i: nat, best: Best) {
    && i <= |sky|
    && (forall j {:trigger NoLower(sky, w, j, best.y, false)} :: 0 <= j < i ==> NoLower(sky, w, j, best.y, false))
    && (best.node.None? ==> i == 0 && best.y == TOP)
    && (best.node.Some? ==>
          && best.node.value < i && best.x == sky[best.node.value].x
          && forall j {:trigger NoLower(sky, w, j, best.y, true)} :: 0 <= j < best.node.value ==> NoLower(sky, w, j, best.y, true))
  }

  lemma {:induction false} LowestStep(sky: seq<Seg>, w: int, i: nat, best: Best, y: int, next: Best)
    requires LowestLeft(sky, w, i, best) && i < |sky| && Window(sky, sky[i].x, sky[i].x + w)
    requires y == Rest(sky, w, sky[i].x) < TOP
    requires next == if y < best.y then Best(Some(i), sky[i].x, y, best.waste) else best
    ensures LowestLeft(sky, w, i + 1, next)
  {
    forall j | 0 <= j < i + 1 ensures NoLower(sky, w, j, next.y, false) {
      if j < i { assert NoLower(sky, w, j, best.y, false); }
    }
    forall j | 0 <= j < next.node.value ensures NoLower(sky, w, j, next.y, true) {
      assert NoLower(sky, w, j, best.y, false);
      if y >= best.y { assert NoLower(sky, w, j, best.y, true); }
    }
  }

  lemma {:induction false} TakeLowest(sky: seq<Seg>, t: Target, w: int, h: int, i: nat, best: Best) returns (next: Best)
    requires Shape(sky, t.width) && i < |sky| && w > 0 && t.heuristic.BottomLeft?
    requires LowestLeft(sky, w, i, best) && sky[i].x + w <= t.width
    ensures i + 1 < |sky| && LowestLeft(sky, w, i + 1, next)
    ensures ScanLeft(sky, t, w, h, i, best) == ScanLeft(sky, t, w, h, i + 1, next)
  {
    NodePosition(sky, t.width, i, w);
    RestBelowSentinel(sky, t.width, w, sky[i].x);
    var f := MinY(sky, i, sky[i].x, w);
    next := TakeLeft(t, h, i, sky[i].x, f, best);
    LowestStep(sky, w, i, best, f.y, next);
  }

  lemma {:induction false} ScanLowest(sky: seq<Seg>, t: Target, w: int, h: int, i: nat, best: Best) returns (n: nat, b: Best)
    requires Shape(sky, t.width) && i < |sky| && w > 0 && t.heuristic.BottomLeft?
    requires LowestLeft(sky, w, i, best)
    ensures b == ScanLeft(sky, t, w, h, i, best)
    ensures i <= n < |sky| && sky[n].x + w > t.width && LowestLeft(sky, w, n, b)
    decreases |sky| - i
  {
    if sky[i].x + w <= t.width {
      var next := TakeLowest(sky, t, w, h, i, best);
      n, b := ScanLowest(sky, t, w, h, i + 1, next);
    } else {
      n, b := i, best;
    }
  }

  /** Bottom-left search is globally optimal: over every column, not only node
      positions, no window rests lower, and every window further left rests higher. */
  lemma {:induction false} BottomLeftOptimal(sky: seq<Seg>, t: Target, q: int, h: int)
    requires Shape(sky, t.width) && q > 0 && t.heuristic.BottomLeft?
    ensures var b := SearchFor(sky, t, q, h);
      && (b.node.Some? <==> q <= t.width && h <= t.height)
      && Position(sky, t.width, q, b)
      && (b.node.Some? ==>
            forall x :: Room(sky, t.width, q, x) ==>
              b.y <= Rest(sky, q, x) && (x < b.x ==> b.y < Rest(sky, q, x)))
  {
    var b := SearchFor(sky, t, q, h);
    SearchIsSound(sky, t, q, h);
    if q <= t.width && h <= t.height {
      var n, low := ScanLowest(sky, t, q, h, 0, NOTHING);
      forall x | Room(sky, t.width, q, x) ensures b.y <= Rest(sky, q, x) && (x < b.x ==> b.y < Rest(sky, q, x)) {
        LowestBeats(sky, t.width, q, n, b, x);
      }
    }
  }

  lemma {:induction false} LowestBeats(sky: seq<Seg>, width: int, q: int, n: nat, b: Best, x: int)
    requires Shape(sky, width) && Room(sky, width, q, x) && n < |sky| && sky[n].x + q > width
    requires LowestLeft(sky, q, n, b) && b.node.Some?
    ensures b.y <= Rest(sky, q, x) && (x < b.x ==> b.y < Rest(sky, q, x))
  {
    var k := NodeUnder(sky, width, q, x, n);
    assert NoLower(sky, q, k, b.y, false);
    if x < b.x {
      LeftOf(sky, width, k, b.node.value);
      assert NoLower(sky, q, k, b.y, true);
    }
  }

  // ---- best-fit ---------------------------------------------------------------------

  /** What find_min_y says of the window at column `x`. */
  function FitAt(sky: seq<Seg>, w: int, x: int): Fit
    requires Window(sky, x, x + w)
  {
    MinY(sky, NodeAt(sky, 0, x), x, w)
  }

  lemma {:induction false} FitAtIs(sky: seq<Seg>, width: int, w: int, k: nat, x: int)
    requires Shape(sky, width) && Room(sky, width, w, x) && Covers(sky, k, x)
    ensures FitAt(sky, w, x) == MinY(sky, k, x, w) && FitAt(sky, w, x).y == Rest(sky, w, x)
  {
    NodeIsUnique(sky, width, NodeAt(sky, 0, x), k, x);
    MinYIsTop(sky, width, k, x, w);
  }

  /** `b` is at least as good as a window at `x` that fits as `f` says, in the order
      best-fit compares: height, then waste, then column; windows that do not fit
      under the lid do not compete. */
  predicate Beats(t: Target, h: int, b: Best, f: Fit, x: int) {
    f.y + h <= t.height ==>
      b.node.Some? && (b.y < f.y || (b.y == f.y && (b.waste < f.waste || (b.waste == f.waste && b.x <= x))))
  }

  predicate Sane(t: Target, h: int, b: Best) {
    if b.node.Some? then b.y + h <= t.height else b == NOTHING
  }

  ghost predicate KeepsBeating(t: Target, h: int, best: Best, b: Best) {
    forall g: Fit, x: int {:trigger Beats(t, h, b, g, x)} :: Beats(t, h, best, g, x) ==> Beats(t, h, b, g, x)
  }

  lemma {:induction false} TakingLeft(t: Target, h: int, i: nat, x: int, f: Fit, best: Best)
    requires t.Ok() && h > 0 && t.heuristic.BestFit? && Sane(t, h, best) && 0 <= f.y && (best.node.Some? ==> best.x <= x)
    ensures var b := TakeLeft(t, h, i, x, f, best);
      Sane(t, h, b) && Beats(t, h, b, f, x) && KeepsBeating(t, h, best, b)
  {
  }

  lemma {:induction false} TakingRight(t: Target, h: int, i: nat, x: int, f: Fit, best: Best)
    requires t.Ok() && h > 0 && Sane(t, h, best) && 0 <= f.y
    ensures var b := TakeRight(t, h, i, x, f, best);
      Sane(t, h, b) && Beats(t, h, b, f, x) && KeepsBeating(t, h, best, b)
  {
  }

  /** The best position so far carries the figures find_min_y gave for it. */
  ghost predicate Reported(sky: seq<Seg>, w: int, b: Best) {
    b.node.Some? ==> Window(sky, b.x, b.x + w) && FitAt(sky, w, b.x) == Fit(b.y, b.waste)
  }

  ghost predicate BeatsAt(sky: seq<Seg>, t: Target, w: int, h: int, x: int, b: Best) {
    Window(sky, x, x + w) && Beats(t, h, b, FitAt(sky, w, x), x)
  }

  /** What the left-aligned scan has achieved before node `i`. */
  ghost predicate BeatsNodes(sky: seq<Seg>, t: Target, w: int, h: int, i: nat, b: Best) {
    && i <= |sky| && Sane(t, h, b) && Reported(sky, w, b)
    && forall j {:trigger BeatsAt(sky, t, w, h, sky[j].x, b)} :: 0 <= j < i ==> BeatsAt(sky, t, w, h, sky[j].x, b)
  }

  lemma {:induction false} KeptAt(sky: seq<Seg>, t: Target, w: int, h: int, x: int, best: Best, b: Best)
    requires BeatsAt(sky, t, w, h, x, best) && KeepsBeating(t, h, best, b)
    ensures BeatsAt(sky, t, w, h, x, b)
  {
  }

  lemma {:induction false} TakeNode(sky: seq<Seg>, t: Target, w: int, h: int, i: nat, best: Best) returns (next: Best)
    requires Shape(sky, t.width) && i < |sky| && w > 0 && h > 0 && t.Ok() && t.heuristic.BestFit?
    requires BeatsNodes(sky, t, w, h, i, best) && sky[i].x + w <= t.width && (best.node.Some? ==> best.x <= sky[i].x)
    ensures i + 1 < |sky| && BeatsNodes(sky, t, w, h, i + 1, next) && (next.node.Some? ==> next.x <= sky[i + 1].x)
    ensures ScanLeft(sky, t, w, h, i, best) == ScanLeft(sky, t, w, h, i + 1, next)
  {
    NodePosition(sky, t.width, i, w);
    FitAtIs(sky, t.width, w, i, sky[i].x);
    RestBelowSentinel(sky, t.width, w, sky[i].x);
    Ordered(sky, t.width, i, i + 1);
    var f := MinY(sky, i, sky[i].x, w);
    next := TakeLeft(t, h, i, sky[i].x, f, best);
    TakingLeft(t, h, i, sky[i].x, f, best);
    forall j | 0 <= j < i + 1 ensures BeatsAt(sky, t, w, h, sky[j].x, next) {
      if j < i { KeptAt(sky, t, w, h, sky[j].x, best, next); }
    }
  }

  lemma {:induction false} ScanBeats(sky: seq<Seg>, t: Target, w: int, h: int, i: nat, best: Best) returns (n: nat, b: Best)
    requires Shape(sky, t.width) && i < |sky| && w > 0 && h > 0 && t.Ok() && t.heuristic.BestFit?
    requires BeatsNodes(sky, t, w, h, i, best) && (best.node.Some? ==> best.x <= sky[i].x)
    ensures b == ScanLeft(sky, t, w, h, i, best)
    ensures i <= n < |sky| && sky[n].x + w > t.width && BeatsNodes(sky, t, w, h, n, b)
    decreases |sky| - i
  {
    if sky[i].x + w <= t.width {
      var next := TakeNode(sky, t, w, h, i, best);
      n, b := ScanBeats(sky, t, w, h, i + 1, next);
    } else {
      n, b := i, best;
    }
  }

  ghost predicate BeatsTails(sky: seq<Seg>, t: Target, w: int, h: int, tail: nat, b: Best) {
    forall j {:trigger BeatsAt(sky, t, w, h, sky[j].x - w, b)} :: tail <= j < |sky| ==> BeatsAt(sky, t, w, h, sky[j].x - w, b)
  }

  lemma {:induction false} TakeTail(sky: seq<Seg>, t: Target, w: int, h: int, tail: nat, k: nat, best: Best, next: Best)
    requires Shape(sky, t.width) && w > 0 && h > 0 && t.Ok() && tail < |sky| && Sane(t, h, best) && Reported(sky, w, best)
    requires var x := sky[tail].x - w;
      Covers(sky, k, x) && Room(sky, t.width, w, x) && next == TakeRight(t, h, k, x, MinY(sky, k, x, w), best)
    ensures Sane(t, h, next) && Reported(sky, w, next) && KeepsBeating(t, h, best, next)
    ensures BeatsAt(sky, t, w, h, sky[tail].x - w, next)
  {
    var x := sky[tail].x - w;
    FitAtIs(sky, t.width, w, k, x);
    RestBelowSentinel(sky, t.width, w, x);
    TakingRight(t, h, k, x, MinY(sky, k, x, w), best);
  }

  /** The right-aligned scan keeps beating whatever it started out beating, and beats
      every window it looks at. */
  lemma {:induction false} RightBeats(sky: seq<Seg>, t: Target, w: int, h: int, tail: nat, node: nat, best: Best) returns (b: Best)
    requires Shape(sky, t.width) && w > 0 && h > 0 && t.Ok() && tail <= |sky|
    requires tail < |sky| ==> sky[tail].x >= w && node < |sky| - 1 && sky[node].x <= sky[tail].x - w
    requires Sane(t, h, best) && Reported(sky, w, best)
    ensures b == ScanRight(sky, t, w, h, tail, node, best)
    ensures Sane(t, h, b) && Reported(sky, w, b) && KeepsBeating(t, h, best, b) && BeatsTails(sky, t, w, h, tail, b)
    decreases |sky| - tail
  {
    if tail < |sky| {
      var k, next := RightStep(sky, t, w, h, tail, node, best);
      TakeTail(sky, t, w, h, tail, k, best, next);
      b := RightBeats(sky, t, w, h, tail + 1, k, next);
      KeptAt(sky, t, w, h, sky[tail].x - w, next, b);
    } else {
      b := best;
    }
  }

  /** A window that starts or ends at a node. */
  ghost predicate Aligned(sky: seq<Seg>, w: int, x: int) {
    exists j :: 0 <= j < |sky| && (x == sky[j].x || x == sky[j].x - w)
  }

  /** Best-fit: of the windows that start or end at a node and fit under the lid, the
      one found is the first in the order height, waste find_min_y reports, column;
      over every column none that fits rests lower. */
  lemma {:induction false} BestFitOptimal(sky: seq<Seg>, t: Target, q: int, h: int)
    requires Shape(sky, t.width) && q > 0 && h > 0 && t.Ok() && t.heuristic.BestFit?
    ensures var b := SearchFor(sky, t, q, h);
      && Position(sky, t.width, q, b) && Reported(sky, q, b) && (b.node.Some? ==> b.y + h <= t.height)
      && (forall x :: Room(sky, t.width, q, x) && Rest(sky, q, x) + h <= t.height ==>
            b.node.Some? && b.y <= Rest(sky, q, x))
      && (forall x :: Room(sky, t.width, q, x) && Aligned(sky, q, x) ==> Beats(t, h, b, FitAt(sky, q, x), x))
  {
    var b := SearchFor(sky, t, q, h);
    SearchIsSound(sky, t, q, h);
    if q <= t.width && h <= t.height {
      var tail := FirstTail(sky, t.width, q, 0);
      var n, left := ScanBeats(sky, t, q, h, 0, NOTHING);
      var best := RightBeats(sky, t, q, h, tail, 0, left);
      forall j | 0 <= j < n ensures BeatsAt(sky, t, q, h, sky[j].x, best) {
        KeptAt(sky, t, q, h, sky[j].x, left, best);
      }
      BeatsEverywhere(sky, t, q, h, n, tail, best);
    } else {
      NothingFits(sky, t, q, h, b);
    }
  }

  lemma {:induction false} NothingFits(sky: seq<Seg>, t: Target, q: int, h: int, b: Best)
    requires Shape(sky, t.width) && q > 0 && (q > t.width || h > t.height)
    ensures forall x :: Room(sky, t.width, q, x) ==> Rest(sky, q, x) + h > t.height && Beats(t, h, b, FitAt(sky, q, x), x)
  {
    forall x | Room(sky, t.width, q, x)
      ensures Rest(sky, q, x) + h > t.height && Beats(t, h, b, FitAt(sky, q, x), x)
    {
      RestBelowSentinel(sky, t.width, q, x);
      FitAtIs(sky, t.width, q, NodeAt(sky, 0, x), x);
    }
  }

  lemma {:induction false} TailsFrom(sky: seq<Seg>, width: int, q: int, i: nat, j: nat)
    requires Shape(sky, width) && q <= width && i <= j < |sky| && sky[j].x >= q
    ensures FirstTail(sky, width, q, i) <= j
    decreases |sky| - i
  {
    if sky[i].x < q { TailsFrom(sky, width, q, i + 1, j); }
  }

  lemma {:induction false} BeatsEverywhere(sky: seq<Seg>, t: Target, q: int, h: int, n: nat, tail: nat, b: Best)
    requires Shape(sky, t.width) && 0 < q <= t.width && tail == FirstTail(sky, t.width, q, 0)
    requires n < |sky| && sky[n].x + q > t.width
    requires forall j {:trigger BeatsAt(sky, t, q, h, sky[j].x, b)} :: 0 <= j < n ==> BeatsAt(sky, t, q, h, sky[j].x, b)
    requires BeatsTails(sky, t, q, h, tail, b)
    ensures forall x :: Room(sky, t.width, q, x) && Rest(sky, q, x) + h <= t.height ==>
      b.node.Some? && b.y <= Rest(sky, q, x)
    ensures forall x :: Room(sky, t.width, q, x) && Aligned(sky, q, x) ==> Beats(t, h, b, FitAt(sky, q, x), x)
  {
    forall x | Room(sky, t.width, q, x) && Rest(sky, q, x) + h <= t.height
      ensures b.node.Some? && b.y <= Rest(sky, q, x)
    {
      var k := NodeUnder(sky, t.width, q, x, n);
      assert BeatsAt(sky, t, q, h, sky[k].x, b);
      NodePosition(sky, t.width, k, q);
      FitAtIs(sky, t.width, q, k, sky[k].x);
    }
    forall x | Room(sky, t.width, q, x) && Aligned(sky, q, x) ensures Beats(t, h, b, FitAt(sky, q, x), x) {
      var j :| 0 <= j < |sky| && (x == sky[j].x || x == sky[j].x - q);
      if x == sky[j].x {
        LeftOf(sky, t.width, j, n);
        assert BeatsAt(sky, t, q, h, sky[j].x, b);
      } else {
        TailsFrom(sky, t.width, q, 0, j);
        assert BeatsAt(sky, t, q, h, sky[j].x - q, b);
      }
    }
  }

  /** With either heuristic the position found is usable exactly when some position
      is: a rectangle is refused for want of space only when there is none. */
  lemma {:induction false} FindsIffFits(sky: seq<Seg>, t: Target, q: int, h: int)
    requires Shape(sky, t.width) && q > 0 && h > 0 && t.Ok()
    ensures var b := SearchFor(sky, t, q, h);
      b.node.Some? && b.y + h <= t.height <==>
        exists x :: Room(sky, t.width, q, x) && Rest(sky, q, x) + h <= t.height
  {
    var b := SearchFor(sky, t, q, h);
    SearchIsSound(sky, t, q, h);
    if b.node.Some? && b.y + h <= t.height {
      assert Room(sky, t.width, q, b.x) && Rest(sky, q, b.x) == b.y;
    }
    if x :| Room(sky, t.width, q, x) && Rest(sky, q, x) + h <= t.height {
      RestBelowSentinel(sky, t.width, q, x);
      if t.heuristic.BottomLeft? { BottomLeftOptimal(sky, t, q, h); } else { BestFitOptimal(sky, t, q, h); }
    }
  }
}
