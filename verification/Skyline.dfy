/** The skyline of external/imgui/imstb_rectpack.h as a value: a list of nodes, the
    height function it stands for, and the greatest height over a window. */
module Skyline {
  import opened Bytes

  /** A node: from `x` up to the next node's x the skyline is at height `y`. */
  datatype Seg = Seg(x: int, y: int)

  /** The sentinel's height, and the initial best height of a search (1 << 30). */
  const TOP: int := 0x4000_0000

  /** Strictly increasing nodes from column 0, ending in the sentinel at the width. */
  predicate Shape(sky: seq<Seg>, width: int) {
    && |sky| >= 2 && sky[0].x == 0 && sky[|sky| - 1] == Seg(width, TOP)
    && (forall i, j {:trigger Before(sky, i, j)} :: 0 <= i < j < |sky| ==> Before(sky, i, j))
    && (forall i :: 0 <= i < |sky| - 1 ==> 0 <= sky[i].y < TOP)
  }

  predicate Before(sky: seq<Seg>, i: int, j: int)
    requires 0 <= i < |sky| && 0 <= j < |sky|
  {
    sky[i].x < sky[j].x
  }

  lemma {:induction false} Ordered(sky: seq<Seg>, width: int, i: nat, j: nat)
    requires Shape(sky, width) && i <= j < |sky|
    ensures sky[i].x <= sky[j].x && (i < j ==> sky[i].x < sky[j].x)
  {
    if i < j { assert Before(sky, i, j); }
  }

  predicate Covers(sky: seq<Seg>, i: int, x: int) {
    0 <= i < |sky| - 1 && sky[i].x <= x < sky[i + 1].x
  }

  /** The node covering a column. */
  function NodeAt(sky: seq<Seg>, i: nat, x: int): (k: nat)
    requires i < |sky| - 1 && sky[i].x <= x < sky[|sky| - 1].x
    ensures i <= k && Covers(sky, k, x)
    decreases |sky| - i
  {
    if x < sky[i + 1].x then i else NodeAt(sky, i + 1, x)
  }

  lemma {:induction false} NodeIsUnique(sky: seq<Seg>, width: int, i: nat, j: nat, x: int)
    requires Shape(sky, width) && Covers(sky, i, x) && Covers(sky, j, x)
    ensures i == j
  {
    if i < j {
      Ordered(sky, width, i + 1, j);
    } else if j < i {
      Ordered(sky, width, j + 1, i);
    }
  }

  predicate Column(sky: seq<Seg>, x: int) {
    |sky| >= 2 && sky[0].x <= x < sky[|sky| - 1].x
  }

  /** The height of the skyline at a column. */
  function Height(sky: seq<Seg>, x: int): int
    requires Column(sky, x)
  {
    sky[NodeAt(sky, 0, x)].y
  }

  lemma {:induction false} HeightOfNode(sky: seq<Seg>, width: int, k: nat, x: int)
    requires Shape(sky, width) && Covers(sky, k, x)
    ensures Column(sky, x) && Height(sky, x) == sky[k].y
  {
    Ordered(sky, width, 0, k);
    Ordered(sky, width, k + 1, |sky| - 1);
    NodeIsUnique(sky, width, NodeAt(sky, 0, x), k, x);
  }

  predicate Window(sky: seq<Seg>, x0: int, x1: int) {
    |sky| >= 2 && sky[0].x <= x0 < x1 <= sky[|sky| - 1].x
  }

  /** The greatest height over the columns [x0, x1). */
  function TopOver(sky: seq<Seg>, x0: int, x1: int): int
    requires Window(sky, x0, x1)
    decreases x1 - x0
  {
    var h := Height(sky, x1 - 1);
    if x1 == x0 + 1 then h
    else
      var rest := TopOver(sky, x0, x1 - 1);
      if rest < h then h else rest
  }

  /** TopOver is an upper bound, and it is attained. */
  lemma {:induction false} TopIsMaximum(sky: seq<Seg>, x0: int, x1: int)
    requires Window(sky, x0, x1)
    ensures forall x :: x0 <= x < x1 ==> Column(sky, x) && Height(sky, x) <= TopOver(sky, x0, x1)
    ensures exists x :: x0 <= x < x1 && Column(sky, x) && Height(sky, x) == TopOver(sky, x0, x1)
    decreases x1 - x0
  {
    if x1 > x0 + 1 {
      TopIsMaximum(sky, x0, x1 - 1);
    }
    assert Column(sky, x1 - 1);
  }

  lemma {:induction false} TopBounds(sky: seq<Seg>, x0: int, x1: int, x: int)
    requires Window(sky, x0, x1) && x0 <= x < x1
    ensures Column(sky, x) && Height(sky, x) <= TopOver(sky, x0, x1)
  {
    TopIsMaximum(sky, x0, x1);
  }

  /** Any bound attained over a window is its TopOver. */
  lemma {:induction false} TopIsUnique(sky: seq<Seg>, x0: int, x1: int, m: int, at: int)
    requires Window(sky, x0, x1) && x0 <= at < x1 && Column(sky, at) && Height(sky, at) == m
    requires forall x :: x0 <= x < x1 ==> Column(sky, x) && Height(sky, x) <= m
    ensures TopOver(sky, x0, x1) == m
  {
    TopIsMaximum(sky, x0, x1);
  }

  /** If every height over one window occurs over another, its top is no higher. */
  lemma {:induction false} TopMonotone(sky: seq<Seg>, x0: int, x1: int, z0: int, z1: int)
    requires Window(sky, x0, x1) && Window(sky, z0, z1)
    requires forall x :: x0 <= x < x1 ==> Column(sky, x) && Height(sky, x) <= TopOver(sky, z0, z1)
    ensures TopOver(sky, x0, x1) <= TopOver(sky, z0, z1)
  {
    TopIsMaximum(sky, x0, x1);
  }

  /** Sliding a window left to the start of the node under its left edge never raises
      its top: so node positions are the only candidates a search needs. */
  lemma {:induction false} SlideLeft(sky: seq<Seg>, width: int, k: nat, x: int, w: int)
    requires Shape(sky, width) && Covers(sky, k, x) && w > 0 && x + w <= width
    ensures Window(sky, x, x + w) && Window(sky, sky[k].x, sky[k].x + w)
    ensures TopOver(sky, sky[k].x, sky[k].x + w) <= TopOver(sky, x, x + w)
  {
    var x0 := sky[k].x;
    FromStart(sky, width, k, x);
    FromStart(sky, width, k, x0);
    forall z | x0 <= z < x ensures Column(sky, z) && Height(sky, z) == Height(sky, x) {
      SameNode(sky, width, k, x, z);
    }
    SlideFlat(sky, x0, x, w);
  }

  lemma {:induction false} SlideFlat(sky: seq<Seg>, x0: int, x: int, w: int)
    requires x0 <= x && w > 0 && Window(sky, x, x + w) && Window(sky, x0, x0 + w)
    requires forall z :: x0 <= z < x ==> Column(sky, z) && Height(sky, z) == Height(sky, x)
    ensures TopOver(sky, x0, x0 + w) <= TopOver(sky, x, x + w)
  {
    TopIsMaximum(sky, x, x + w);
    TopMonotone(sky, x0, x0 + w, x, x + w);
  }

  lemma {:induction false} SameNode(sky: seq<Seg>, width: int, k: nat, x: int, z: int)
    requires Shape(sky, width) && Covers(sky, k, x) && Covers(sky, k, z)
    ensures Column(sky, x) && Column(sky, z) && Height(sky, x) == Height(sky, z)
  {
    HeightOfNode(sky, width, k, x);
    HeightOfNode(sky, width, k, z);
  }

  // ---- wasted area -------------------------------------------------------------

  /** The area between the skyline and height `y` over [x0, x1). */
  function WasteArea(sky: seq<Seg>, x0: int, x1: int, y: int): int
    requires x0 < x1 ==> Window(sky, x0, x1)
    decreases x1 - x0
  {
    if x1 <= x0 then 0 else WasteArea(sky, x0, x1 - 1, y) + (y - Height(sky, x1 - 1))
  }

  lemma {:induction false} MulSuccessor(n: int, d: int)
    ensures n * d + d == (n + 1) * d
  {
  }

  lemma {:induction false} WasteRaise(sky: seq<Seg>, x0: int, x1: int, y: int, d: int)
    requires x0 <= x1 && (x0 < x1 ==> Window(sky, x0, x1))
    ensures WasteArea(sky, x0, x1, y + d) == WasteArea(sky, x0, x1, y) + (x1 - x0) * d
    decreases x1 - x0
  {
    if x0 < x1 {
      WasteRaise(sky, x0, x1 - 1, y, d);
      MulSuccessor(x1 - 1 - x0, d);
    }
  }

  lemma {:induction false} WasteLevel(sky: seq<Seg>, x0: int, a: int, b: int, y: int, h: int)
    requires x0 <= a <= b && (x0 < b ==> Window(sky, x0, b))
    requires forall x :: a <= x < b ==> Column(sky, x) && Height(sky, x) == h
    ensures WasteArea(sky, x0, b, y) == WasteArea(sky, x0, a, y) + (b - a) * (y - h)
    decreases b - a
  {
    if a < b {
      WasteLevel(sky, x0, a, b - 1, y, h);
      assert Height(sky, b - 1) == h;
      MulSuccessor(b - 1 - a, y - h);
    }
  }

  /** Over part of one node the waste is a rectangle. */
  lemma {:induction false} WasteFlat(sky: seq<Seg>, width: int, k: nat, x0: int, a: int, b: int, y: int)
    requires Shape(sky, width) && k < |sky| - 1 && 0 <= x0 <= a <= b <= sky[k + 1].x && sky[k].x <= a
    ensures x0 < b ==> Window(sky, x0, b)
    ensures x0 < a ==> Window(sky, x0, a)
    ensures WasteArea(sky, x0, b, y) == WasteArea(sky, x0, a, y) + (b - a) * (y - sky[k].y)
  {
    Ordered(sky, width, k + 1, |sky| - 1);
    forall x | a <= x < b ensures Column(sky, x) && Height(sky, x) == sky[k].y {
      HeightOfNode(sky, width, k, x);
    }
    WasteLevel(sky, x0, a, b, y, sky[k].y);
  }

  // ---- stbrp__skyline_find_min_y ---------------------------------------------------

  datatype Fit = Fit(y: int, waste: int)

  /** The loop of find_min_y from node `i` on, with its three accumulators. */
  function MinYFrom(sky: seq<Seg>, i: nat, x0: int, w: int, minY: int, visited: int, waste: int): Fit
    requires i < |sky| && x0 + w <= sky[|sky| - 1].x
    decreases |sky| - i
  {
    if sky[i].x < x0 + w then
      if i + 1 == |sky| then Fit(minY, waste)
      else if sky[i].y > minY then
        var step := if sky[i].x < x0 then sky[i + 1].x - x0 else sky[i + 1].x - sky[i].x;
        MinYFrom(sky, i + 1, x0, w, sky[i].y, visited + step, waste + visited * (sky[i].y - minY))
      else
        var under := sky[i + 1].x - sky[i].x;
        var clipped := if under + visited > w then w - visited else under;
        MinYFrom(sky, i + 1, x0, w, minY, visited + clipped, waste + clipped * (minY - sky[i].y))
    else Fit(minY, waste)
  }

  function MinY(sky: seq<Seg>, i: nat, x0: int, w: int): Fit
    requires i < |sky| && x0 + w <= sky[|sky| - 1].x
  {
    MinYFrom(sky, i, x0, w, 0, 0, 0)
  }

  /** The height find_min_y computes, without the waste. */
  function TopFrom(sky: seq<Seg>, i: nat, x1: int, minY: int): int
    requires i < |sky|
    decreases |sky| - i
  {
    if sky[i].x < x1 && i + 1 < |sky| then TopFrom(sky, i + 1, x1, if sky[i].y > minY then sky[i].y else minY)
    else minY
  }

  lemma {:induction false} MinYFromTop(sky: seq<Seg>, i: nat, x0: int, w: int, minY: int, visited: int, waste: int)
    requires i < |sky| && x0 + w <= sky[|sky| - 1].x
    ensures MinYFrom(sky, i, x0, w, minY, visited, waste).y == TopFrom(sky, i, x0 + w, minY)
    decreases |sky| - i
  {
    if sky[i].x < x0 + w && i + 1 < |sky| {
      if sky[i].y > minY {
        var step := if sky[i].x < x0 then sky[i + 1].x - x0 else sky[i + 1].x - sky[i].x;
        MinYFromTop(sky, i + 1, x0, w, sky[i].y, visited + step, waste + visited * (sky[i].y - minY));
      } else {
        var under := sky[i + 1].x - sky[i].x;
        var clipped := if under + visited > w then w - visited else under;
        MinYFromTop(sky, i + 1, x0, w, minY, visited + clipped, waste + clipped * (minY - sky[i].y));
      }
    }
  }

  /** `m` bounds the heights over [a, x1), and is attained there unless it is `least`. */
  ghost predicate IsTop(sky: seq<Seg>, a: int, x1: int, least: int, m: int) {
    && m >= least
    && (forall x :: a <= x < x1 ==> Column(sky, x) && Height(sky, x) <= m)
    && (m == least || exists x :: a <= x < x1 && Column(sky, x) && Height(sky, x) == m)
  }

  /** One node's share of the loop. */
  lemma {:induction false} TopOfNode(sky: seq<Seg>, width: int, i: nat, a: int, x1: int, least: int, m: int)
    requires Shape(sky, width) && Covers(sky, i, a) && a < x1
    requires IsTop(sky, sky[i + 1].x, x1, if sky[i].y > least then sky[i].y else least, m)
    ensures IsTop(sky, a, x1, least, m)
  {
    forall x | a <= x < x1 ensures Column(sky, x) && Height(sky, x) <= m {
      if x < sky[i + 1].x { HeightOfNode(sky, width, i, x); }
    }
    HeightOfNode(sky, width, i, a);
  }

  lemma {:induction false} TopFromIsTop(sky: seq<Seg>, width: int, i: nat, a: int, x1: int, least: int)
    requires Shape(sky, width) && 0 <= a && x1 <= width
    requires if a < x1 then Covers(sky, i, a) else i < |sky| && sky[i].x >= x1
    ensures IsTop(sky, a, x1, least, TopFrom(sky, i, x1, least))
    decreases |sky| - i
  {
    if a < x1 {
      var next := if sky[i].y > least then sky[i].y else least;
      var b := sky[i + 1].x;
      if b < x1 { NextNode(sky, width, i); }
      TopFromIsTop(sky, width, i + 1, b, x1, next);
      TopOfNode(sky, width, i, a, x1, least, TopFrom(sky, i, x1, least));
    }
  }

  lemma {:induction false} NextNode(sky: seq<Seg>, width: int, i: nat)
    requires Shape(sky, width) && i + 1 < |sky| && sky[i + 1].x < width
    ensures Covers(sky, i + 1, sky[i + 1].x)
  {
    if i + 2 < |sky| { Ordered(sky, width, i + 1, i + 2); }
  }

  /** find_min_y returns the greatest height over the window, whichever node covers
      its left edge. */
  lemma {:induction false} MinYIsTop(sky: seq<Seg>, width: int, i: nat, x0: int, w: int)
    requires Shape(sky, width) && w > 0 && x0 + w <= width && Covers(sky, i, x0)
    ensures Window(sky, x0, x0 + w) && MinY(sky, i, x0, w).y == TopOver(sky, x0, x0 + w)
  {
    FromStart(sky, width, i, x0);
    MinYFromTop(sky, i, x0, w, 0, 0, 0);
    TopFromIsTop(sky, width, i, x0, x0 + w, 0);
    HeightOfNode(sky, width, i, x0);
    TopOfWindow(sky, x0, x0 + w, MinY(sky, i, x0, w).y);
  }

  lemma {:induction false} FromStart(sky: seq<Seg>, width: int, i: nat, x: int)
    requires Shape(sky, width) && Covers(sky, i, x)
    ensures 0 <= x < width
  {
    Ordered(sky, width, 0, i);
    Ordered(sky, width, i + 1, |sky| - 1);
  }

  lemma {:induction false} TopOfWindow(sky: seq<Seg>, x0: int, x1: int, m: int)
    requires Window(sky, x0, x1) && IsTop(sky, x0, x1, 0, m) && Height(sky, x0) >= 0
    ensures TopOver(sky, x0, x1) == m
  {
    if m == 0 {
      TopIsUnique(sky, x0, x1, 0, x0);
    } else {
      var x :| x0 <= x < x1 && Column(sky, x) && Height(sky, x) == m;
      TopIsUnique(sky, x0, x1, m, x);
    }
  }

  // ---- waste ---------------------------------------------------------------------

  /** The loop's accumulators are exact: `visited` is the columns before node `i`,
      `waste` the area over them up to `minY`. */
  ghost predicate Accounted(sky: seq<Seg>, i: nat, x0: int, w: int, minY: int, visited: int, waste: int) {
    && i < |sky| && x0 <= sky[i].x
    && var end := Min(sky[i].x, x0 + w);
       && (sky[i].x < x0 + w ==> visited == sky[i].x - x0)
       && (x0 < end ==> Window(sky, x0, end)) && waste == WasteArea(sky, x0, end, minY)
  }

  lemma {:induction false} AccountRaise(sky: seq<Seg>, width: int, i: nat, x0: int, w: int, minY: int, visited: int, waste: int)
    requires Shape(sky, width) && 0 <= x0 && x0 + w <= width && Accounted(sky, i, x0, w, minY, visited, waste)
    requires i + 1 < |sky| && sky[i].x < x0 + w && sky[i].y > minY
    ensures Accounted(sky, i + 1, x0, w, sky[i].y, visited + (sky[i + 1].x - sky[i].x), waste + visited * (sky[i].y - minY))
  {
    var y := sky[i].y;
    Ordered(sky, width, i, i + 1);
    WasteRaise(sky, x0, sky[i].x, minY, y - minY);
    WasteFlat(sky, width, i, x0, sky[i].x, Min(sky[i + 1].x, x0 + w), y);
  }

  lemma {:induction false} AccountUnder(sky: seq<Seg>, width: int, i: nat, x0: int, w: int, minY: int, visited: int, waste: int)
    requires Shape(sky, width) && 0 <= x0 && x0 + w <= width && Accounted(sky, i, x0, w, minY, visited, waste)
    requires i + 1 < |sky| && sky[i].x < x0 + w
    ensures var under := sky[i + 1].x - sky[i].x;
      var clipped := if under + visited > w then w - visited else under;
      Accounted(sky, i + 1, x0, w, minY, visited + clipped, waste + clipped * (minY - sky[i].y))
  {
    Ordered(sky, width, i, i + 1);
    WasteFlat(sky, width, i, x0, sky[i].x, Min(sky[i + 1].x, x0 + w), minY);
  }

  lemma {:induction false} WasteAtEnd(sky: seq<Seg>, i: nat, x0: int, w: int, minY: int, visited: int, waste: int)
    requires w > 0 && Accounted(sky, i, x0, w, minY, visited, waste) && sky[i].x >= x0 + w
    ensures Window(sky, x0, x0 + w) && waste == WasteArea(sky, x0, x0 + w, minY)
  {
  }

  lemma {:induction false} UnfoldRaise(sky: seq<Seg>, i: nat, x0: int, w: int, minY: int, visited: int, waste: int)
    requires i + 1 < |sky| && x0 <= sky[i].x < x0 + w <= sky[|sky| - 1].x && sky[i].y > minY
    ensures MinYFrom(sky, i, x0, w, minY, visited, waste) ==
      MinYFrom(sky, i + 1, x0, w, sky[i].y, visited + (sky[i + 1].x - sky[i].x), waste + visited * (sky[i].y - minY))
  {
  }

  lemma {:induction false} UnfoldUnder(sky: seq<Seg>, i: nat, x0: int, w: int, minY: int, visited: int, waste: int)
    requires i + 1 < |sky| && sky[i].x < x0 + w <= sky[|sky| - 1].x && sky[i].y <= minY
    ensures var under := sky[i + 1].x - sky[i].x;
      var clipped := if under + visited > w then w - visited else under;
      MinYFrom(sky, i, x0, w, minY, visited, waste) ==
        MinYFrom(sky, i + 1, x0, w, minY, visited + clipped, waste + clipped * (minY - sky[i].y))
  {
  }

  lemma {:induction false} AccountStep(sky: seq<Seg>, width: int, i: nat, x0: int, w: int, minY: int, visited: int, waste: int)
    returns (m: int, v: int, u: int)
    requires Shape(sky, width) && 0 <= x0 && x0 + w <= width && Accounted(sky, i, x0, w, minY, visited, waste)
    requires i + 1 < |sky| && sky[i].x < x0 + w
    ensures Accounted(sky, i + 1, x0, w, m, v, u)
    ensures MinYFrom(sky, i, x0, w, minY, visited, waste) == MinYFrom(sky, i + 1, x0, w, m, v, u)
  {
    if sky[i].y > minY {
      m, v, u := sky[i].y, visited + (sky[i + 1].x - sky[i].x), waste + visited * (sky[i].y - minY);
      AccountRaise(sky, width, i, x0, w, minY, visited, waste);
      UnfoldRaise(sky, i, x0, w, minY, visited, waste);
    } else {
      var under := sky[i + 1].x - sky[i].x;
      var clipped := if under + visited > w then w - visited else under;
      m, v, u := minY, visited + clipped, waste + clipped * (minY - sky[i].y);
      AccountUnder(sky, width, i, x0, w, minY, visited, waste);
      UnfoldUnder(sky, i, x0, w, minY, visited, waste);
    }
  }

  /** Accounting once exact stays exact to the end of the loop. */
  lemma {:induction false} WasteFrom(sky: seq<Seg>, width: int, i: nat, x0: int, w: int, minY: int, visited: int, waste: int)
    requires Shape(sky, width) && 0 <= x0 && w > 0 && x0 + w <= width
    requires Accounted(sky, i, x0, w, minY, visited, waste)
    ensures Window(sky, x0, x0 + w)
    ensures var r := MinYFrom(sky, i, x0, w, minY, visited, waste);
      r.waste == WasteArea(sky, x0, x0 + w, r.y)
    decreases |sky| - i
  {
    if sky[i].x >= x0 + w {
      WasteAtEnd(sky, i, x0, w, minY, visited, waste);
    } else {
      assert i < |sky| - 1;
      var m, v, u := AccountStep(sky, width, i, x0, w, minY, visited, waste);
      WasteFrom(sky, width, i + 1, x0, w, m, v, u);
    }
  }

  /** find_min_y reports the area its window would cover up. */
  ghost predicate WasteExact(sky: seq<Seg>, i: nat, x0: int, w: int)
    requires i < |sky| && Window(sky, x0, x0 + w)
  {
    var r := MinY(sky, i, x0, w);
    r.waste == WasteArea(sky, x0, x0 + w, r.y)
  }

  /** Exact when the window starts at its node, or that node is above the ground. */
  lemma {:induction false} WasteExactFrom(sky: seq<Seg>, width: int, i: nat, x0: int, w: int)
    requires Shape(sky, width) && Covers(sky, i, x0) && w > 0 && x0 + w <= width
    requires x0 == sky[i].x || sky[i].y > 0
    ensures Window(sky, x0, x0 + w) && WasteExact(sky, i, x0, w)
  {
    FromStart(sky, width, i, x0);
    if x0 == sky[i].x {
      WasteFrom(sky, width, i, x0, w, 0, 0, 0);
    } else {
      WasteFlat(sky, width, i, x0, x0, Min(sky[i + 1].x, x0 + w), sky[i].y);
      WasteFrom(sky, width, i + 1, x0, w, sky[i].y, sky[i + 1].x - x0, 0);
    }
  }

  /** Exact on the ground: nothing is covered up and nothing is charged. */
  lemma {:induction false} WasteGround(sky: seq<Seg>, width: int, i: nat, x0: int, w: int, visited: int)
    requires Shape(sky, width) && i < |sky| && x0 + w <= width
    requires forall j :: i <= j < |sky| - 1 ==> sky[j].y == 0
    ensures MinYFrom(sky, i, x0, w, 0, visited, 0) == Fit(0, 0)
    decreases |sky| - i
  {
    if sky[i].x < x0 + w {
      assert i < |sky| - 1;
      var under := sky[i + 1].x - sky[i].x;
      var clipped := if under + visited > w then w - visited else under;
      WasteGround(sky, width, i + 1, x0, w, visited + clipped);
    }
  }

  lemma {:induction false} GroundArea(sky: seq<Seg>, width: int, i: nat, x0: int, w: int)
    requires Shape(sky, width) && Covers(sky, i, x0) && w > 0 && x0 + w <= width
    requires forall j :: i <= j < |sky| - 1 ==> sky[j].y == 0
    ensures Window(sky, x0, x0 + w) && WasteArea(sky, x0, x0 + w, 0) == 0
  {
    FromStart(sky, width, i, x0);
    forall x | x0 <= x < x0 + w ensures Column(sky, x) && Height(sky, x) == 0 {
      var k := NodeAt(sky, i, x);
      HeightOfNode(sky, width, k, x);
    }
    WasteLevel(sky, x0, x0, x0 + w, 0, 0);
  }

  /** Walking over ground nodes up to node `j`, starting left of the window, fills
      `visited` to the brim one column too early. */
  lemma {:induction false} GroundRun(sky: seq<Seg>, width: int, i: nat, j: nat, x0: int, w: int, visited: int)
    requires Shape(sky, width) && i <= j < |sky| - 1 && x0 + w == sky[j].x + 1 <= width && sky[j].y > 0
    requires forall k :: i <= k < j ==> sky[k].y == 0
    requires 0 <= visited <= w && visited + (sky[j].x - sky[i].x) >= w
    ensures MinYFrom(sky, i, x0, w, 0, visited, 0) == Fit(sky[j].y, w * sky[j].y)
    decreases j - i
  {
    if i < j {
      Ordered(sky, width, i, i + 1);
      Ordered(sky, width, i + 1, j);
      var under := sky[i + 1].x - sky[i].x;
      var clipped := if under + visited > w then w - visited else under;
      GroundRun(sky, width, i + 1, j, x0, w, visited + clipped);
    } else {
      Ordered(sky, width, j, j + 1);
    }
  }

  lemma {:induction false} FirstRaised(sky: seq<Seg>, i: nat) returns (j: nat)
    requires exists k :: i < k < |sky| - 1 && sky[k].y != 0
    ensures i < j < |sky| - 1 && sky[j].y != 0 && forall k :: i < k < j ==> sky[k].y == 0
  {
    j := i + 1;
    while sky[j].y == 0
      invariant i < j < |sky| - 1 && forall k :: i < k < j ==> sky[k].y == 0
      decreases |sky| - j
    {
      j := j + 1;
    }
  }

  /** Otherwise some window is overcharged: a column left of it is counted. */
  lemma {:induction false} WasteOvercounted(sky: seq<Seg>, width: int, i: nat, x0: int) returns (w: int)
    requires Shape(sky, width) && Covers(sky, i, x0) && sky[i].x < x0 && sky[i].y == 0
    requires exists k :: i < k < |sky| - 1 && sky[k].y != 0
    ensures w > 0 && x0 + w <= width && Window(sky, x0, x0 + w) && !WasteExact(sky, i, x0, w)
  {
    FromStart(sky, width, i, x0);
    var j := FirstRaised(sky, i);
    Ordered(sky, width, j, |sky| - 1);
    Ordered(sky, width, i + 1, j);
    w := sky[j].x + 1 - x0;
    GroundRun(sky, width, i, j, x0, w, 0);
    forall x | x0 <= x < sky[j].x ensures Column(sky, x) && Height(sky, x) == 0 {
      var k := NodeAt(sky, i, x);
      if k >= j { Ordered(sky, width, j, k); }
      HeightOfNode(sky, width, k, x);
    }
    Ordered(sky, width, j, j + 1);
    HeightOfNode(sky, width, j, sky[j].x);
    WasteLevel(sky, x0, x0, sky[j].x, sky[j].y, 0);
    MulSuccessor(w - 1, sky[j].y);
  }

  ghost predicate ExactIfFits(sky: seq<Seg>, width: int, i: nat, x0: int, w: int)
    requires i < |sky|
  {
    w > 0 && x0 + w <= width ==> Window(sky, x0, x0 + w) && WasteExact(sky, i, x0, w)
  }

  /** find_min_y's waste is exact for every window at x0 if and only if x0 is a node
      start, or the node under it is above the ground, or nothing to its right is. */
  lemma {:induction false} WasteExactIff(sky: seq<Seg>, width: int, i: nat, x0: int)
    requires Shape(sky, width) && Covers(sky, i, x0)
    ensures (forall w :: ExactIfFits(sky, width, i, x0, w))
            <==> x0 == sky[i].x || sky[i].y > 0 || forall j :: i < j < |sky| - 1 ==> sky[j].y == 0
  {
    if x0 == sky[i].x || sky[i].y > 0 {
      forall w ensures ExactIfFits(sky, width, i, x0, w) {
        if w > 0 && x0 + w <= width { WasteExactFrom(sky, width, i, x0, w); }
      }
    } else if forall j :: i < j < |sky| - 1 ==> sky[j].y == 0 {
      forall w ensures ExactIfFits(sky, width, i, x0, w) {
        if w > 0 && x0 + w <= width {
          WasteGround(sky, width, i, x0, w, 0);
          GroundArea(sky, width, i, x0, w);
        }
      }
    } else {
      var w := WasteOvercounted(sky, width, i, x0);
      assert !ExactIfFits(sky, width, i, x0, w);
    }
  }
}
