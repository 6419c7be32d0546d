/** The skylines a packer can reach. Rectangles are put on the ground from left to right,
    so only the last node can still be at height 0; on such a skyline find_min_y's waste
    is the area wasted, and best-fit is optimal in it over every column. */
module SkylineReach {
  import opened Bytes
  import opened Skyline
  import opened SkylineSearch
  import opened SkylinePacking

  /** Every node but the last one before the sentinel is above the ground. */
  ghost predicate GroundLast(sky: seq<Seg>) {
    forall i :: 0 <= i < |sky| - 2 ==> sky[i].y > 0
  }

  // ---- what a search finds on the ground ---------------------------------------------------

  /** A window on the ground lies in the last node. */
  lemma {:induction false} GroundWindow(sky: seq<Seg>, width: int, k: nat, x: int, w: int)
    requires Shape(sky, width) && GroundLast(sky) && Covers(sky, k, x) && w > 0 && x + w <= width
    requires Window(sky, x, x + w) && TopOver(sky, x, x + w) == 0
    ensures k == |sky| - 2 && sky[k].y == 0
  {
    TopBounds(sky, x, x + w, x);
    HeightOfNode(sky, width, k, x);
  }

  /** On the last node, at height 0, find_min_y gives 0 and 0. */
  lemma {:induction false} GroundFit(sky: seq<Seg>, width: int, x: int, w: int)
    requires Shape(sky, width) && sky[|sky| - 2].y == 0 && sky[|sky| - 2].x <= x && w > 0 && x + w <= width
    ensures Room(sky, width, w, x) && FitAt(sky, w, x) == Fit(0, 0) && Rest(sky, w, x) == 0
  {
    var k := |sky| - 2;
    BeforeSentinel(sky, width, k);
    RoomEverywhere(sky, width, w, x);
    FitAtIs(sky, width, w, k, x);
    WasteGround(sky, width, k, x, w, 0);
  }

  /** A position found at height 0 is the start of the last node. */
  lemma {:induction false} SearchOnGround(sky: seq<Seg>, t: Target, q: int, h: int)
    requires Shape(sky, t.width) && GroundLast(sky) && q > 0 && h > 0 && t.Ok()
    ensures var b := SearchFor(sky, t, q, h);
      b.node.Some? && b.y == 0 ==> b.node.value == |sky| - 2 && b.x == sky[|sky| - 2].x
  {
    var b := SearchFor(sky, t, q, h);
    SearchIsSound(sky, t, q, h);
    if b.node.Some? && b.y == 0 {
      var z := sky[|sky| - 2].x;
      GroundWindow(sky, t.width, b.node.value, b.x, q);
      BeforeSentinel(sky, t.width, |sky| - 2);
      GroundFit(sky, t.width, z, q);
      if t.heuristic.BottomLeft? {
        BottomLeftOptimal(sky, t, q, h);
      } else {
        GroundFit(sky, t.width, b.x, q);
        BestFitOptimal(sky, t, q, h);
        assert Aligned(sky, q, z);
      }
    }
  }

  // ---- every run keeps the ground last ---------------------------------------------------------

  lemma {:induction false} PlaceGround(sky: seq<Seg>, width: int, k: nat, x: int, w: int, top: int)
    requires Spliceable(sky, width, k, x, w) && GroundLast(sky) && 0 < top < TOP
    requires k == |sky| - 2 && sky[k].y == 0 ==> x == sky[k].x
    ensures Kept(sky, k, x) < |sky| && GroundLast(Place(sky, k, x, w, top))
  {
    SpliceFacts(sky, width, k, x, w);
    PlaceParts(sky, k, x, w, top);
    var a := Kept(sky, k, x);
    var c, n := Survivor(sky, a, x + w), Place(sky, k, x, w, top);
    forall i | 0 <= i < |n| - 2 ensures n[i].y > 0 {
      if i < a {
        assert n[i] == sky[i];
        if i == |sky| - 2 { assert i == k && sky[k].x < x && sky[k].y > 0; }
      } else if i > a + 1 {
        assert n[i] == sky[i - a - 1 + c];
      }
    }
  }

  lemma {:induction false} PackGround(p: Packing, w: int, h: int)
    requires p.Ok() && w > 0 && h > 0 && GroundLast(p.sky)
    ensures GroundLast(Pack(p, w, h).0.sky)
  {
    var q := Quantise(w, p.t.align);
    var b := FindBest(p.sky, p.t, w, h);
    SearchFinds(p, w, h);
    SearchOnGround(p.sky, p.t, q, h);
    if Pack(p, w, h).1.Some? {
      var k := b.node.value;
      Splices(p, w, h, b);
      if k == |p.sky| - 2 && p.sky[k].y == 0 {
        GroundFit(p.sky, p.t.width, b.x, q);
      }
      PlaceGround(p.sky, p.t.width, k, b.x, w, b.y + h);
    }
  }

  /** Whatever is packed, with whatever settings, only the last node is ever on the ground. */
  lemma {:induction false} RunGround(p: Packing, ops: seq<Op>)
    requires p.Ok() && GroundLast(p.sky)
    ensures GroundLast(RunOps(p, ops).sky)
  {
    if ops != [] {
      var front, op := ops[..|ops| - 1], ops[|ops| - 1];
      RunGround(p, front);
      if op.Insert? && op.w > 0 && op.h > 0 { PackGround(RunOps(p, front), op.w, op.h); }
    }
  }

  /** find_min_y reports exactly the area wasted, for every window of every skyline
      any run on a fresh target reaches. */
  lemma {:induction false} WasteAlwaysExact(width: int, height: int, nodes: nat, ops: seq<Op>, i: nat, x0: int, w: int)
    requires 0 < width < TOP && 0 <= height < TOP && nodes > 0
    ensures Fresh(width, height, nodes).Ok()
    ensures var sky := RunOps(Fresh(width, height, nodes), ops).sky;
      Covers(sky, i, x0) && w > 0 && x0 + w <= width ==> Window(sky, x0, x0 + w) && WasteExact(sky, i, x0, w)
  {
    FreshOk(width, height, nodes);
    RunGround(Fresh(width, height, nodes), ops);
    var sky := RunOps(Fresh(width, height, nodes), ops).sky;
    if Covers(sky, i, x0) && w > 0 && x0 + w <= width { GroundExact(sky, width, i, x0, w); }
  }

  lemma {:induction false} GroundExact(sky: seq<Seg>, width: int, i: nat, x0: int, w: int)
    requires Shape(sky, width) && GroundLast(sky) && Covers(sky, i, x0) && w > 0 && x0 + w <= width
    ensures Window(sky, x0, x0 + w) && WasteExact(sky, i, x0, w)
  {
    WasteExactIff(sky, width, i, x0);
    assert ExactIfFits(sky, width, i, x0, w);
  }

  // ---- sliding a window to an edge ----------------------------------------------------------------

  lemma {:induction false} WasteFront(sky: seq<Seg>, x0: int, x1: int, y: int)
    requires Window(sky, x0, x1)
    ensures WasteArea(sky, x0, x1, y) == (y - Height(sky, x0)) + WasteArea(sky, x0 + 1, x1, y)
    decreases x1 - x0
  {
    if x0 + 1 < x1 { WasteFront(sky, x0, x1 - 1, y); }
  }

  ghost predicate LevelAt(sky: seq<Seg>, z: int, h: int) { Column(sky, z) && Height(sky, z) == h }

  /** The skyline is at height `h` over [a, b). */
  ghost predicate Level(sky: seq<Seg>, a: int, b: int, h: int) {
    forall z {:trigger LevelAt(sky, z, h)} :: a <= z < b ==> LevelAt(sky, z, h)
  }

  lemma {:induction false} SlideOne(sky: seq<Seg>, x: int, w: int, y: int)
    requires w > 0 && Window(sky, x - 1, x + w)
    ensures WasteArea(sky, x - 1, x - 1 + w, y) == WasteArea(sky, x, x + w, y) + Height(sky, x - 1 + w) - Height(sky, x - 1)
  {
    WasteFront(sky, x - 1, x + w, y);
  }

  /** Moving a window left over level ground on both sides changes its waste by the
      difference in level, column by column. */
  lemma {:induction false} SlideWaste(sky: seq<Seg>, e: int, x: int, w: int, y: int, left: int, right: int)
    requires e <= x && w > 0 && Window(sky, e, x + w) && Level(sky, e, x, left) && Level(sky, e + w, x + w, right)
    ensures WasteArea(sky, e, e + w, y) == WasteArea(sky, x, x + w, y) + (x - e) * (right - left)
    decreases x - e
  {
    if e < x {
      SlideWaste(sky, e, x - 1, w, y, left, right);
      assert LevelAt(sky, x - 1, left) && LevelAt(sky, x - 1 + w, right);
      SlideOne(sky, x, w, y);
      MulSuccessor(x - 1 - e, right - left);
    }
  }

  /** A window can be slid to a node edge without raising it and without wasting more,
      and to the left if nothing is gained. */
  lemma {:induction false} SlideToEdge(sky: seq<Seg>, width: int, w: int, x: int) returns (e: int)
    requires Shape(sky, width) && w > 0 && Room(sky, width, w, x)
    ensures Room(sky, width, w, e) && Aligned(sky, w, e) && Rest(sky, w, e) <= Rest(sky, w, x)
    ensures var y := Rest(sky, w, x); var a, b := WasteArea(sky, e, e + w, y), WasteArea(sky, x, x + w, y);
      a < b || (a == b && e <= x)
  {
    if Aligned(sky, w, x) {
      e := x;
    } else {
      var i := NodeAt(sky, 0, x);
      assert x != sky[|sky| - 1].x - w;
      var j := NodeAt(sky, 0, x + w);
      assert sky[i].x < x && sky[j].x < x + w by { assert x != sky[i].x && x != sky[j].x - w; }
      if sky[i].y >= sky[j].y {
        e := SlideBack(sky, width, w, x, i, j);
      } else {
        e := SlideOn(sky, width, w, x, i, j);
      }
    }
  }

  lemma {:induction false} NodeLevel(sky: seq<Seg>, width: int, k: nat, a: int, b: int)
    requires Shape(sky, width) && k < |sky| - 1 && sky[k].x <= a && b <= sky[k + 1].x
    ensures Level(sky, a, b, sky[k].y)
  {
    forall z | a <= z < b ensures LevelAt(sky, z, sky[k].y) { HeightOfNode(sky, width, k, z); }
  }

  /** A window that only takes in columns as high as one of another is no higher. */
  lemma {:induction false} NoHigher(sky: seq<Seg>, width: int, w: int, x: int, e: int, a: int, b: int, h: int, at: int)
    requires w > 0 && Room(sky, width, w, x) && Room(sky, width, w, e) && Level(sky, a, b, h) && x <= at < x + w && a <= at < b
    requires (a <= e <= x <= b) || (x <= e && a <= x + w <= e + w <= b)
    ensures Rest(sky, w, e) <= Rest(sky, w, x)
  {
    TopBounds(sky, x, x + w, at);
    assert LevelAt(sky, at, h);
    forall z | e <= z < e + w ensures Column(sky, z) && Height(sky, z) <= Rest(sky, w, x) {
      if x <= z < x + w { TopBounds(sky, x, x + w, z); } else { assert LevelAt(sky, z, h); }
    }
    TopMonotone(sky, e, e + w, x, x + w);
  }

  lemma {:induction false} SlideBack(sky: seq<Seg>, width: int, w: int, x: int, i: nat, j: nat) returns (e: int)
    requires Shape(sky, width) && w > 0 && Room(sky, width, w, x) && x + w < width
    requires Covers(sky, i, x) && Covers(sky, j, x + w) && sky[i].x < x && sky[j].x < x + w && sky[i].y >= sky[j].y
    ensures e < x && Room(sky, width, w, e) && Aligned(sky, w, e) && Rest(sky, w, e) <= Rest(sky, w, x)
    ensures var y := Rest(sky, w, x); WasteArea(sky, e, e + w, y) <= WasteArea(sky, x, x + w, y)
  {
    e := if sky[i].x < sky[j].x - w then sky[j].x - w else sky[i].x;
    BeforeSentinel(sky, width, i);
    RoomEverywhere(sky, width, w, e);
    assert e == sky[i].x || e == sky[j].x - w;
    NodeLevel(sky, width, i, e, x + 1);
    NodeLevel(sky, width, j, e + w, x + w);
    NoHigher(sky, width, w, x, e, e, x + 1, sky[i].y, x);
    SlideWaste(sky, e, x, w, Rest(sky, w, x), sky[i].y, sky[j].y);
    Signs(x - e, sky[j].y - sky[i].y);
  }

  lemma {:induction false} SlideOn(sky: seq<Seg>, width: int, w: int, x: int, i: nat, j: nat) returns (e: int)
    requires Shape(sky, width) && w > 0 && Room(sky, width, w, x) && x + w < width
    requires Covers(sky, i, x) && Covers(sky, j, x + w) && sky[i].x < x && sky[j].x < x + w && sky[i].y < sky[j].y
    ensures x < e && Room(sky, width, w, e) && Aligned(sky, w, e) && Rest(sky, w, e) <= Rest(sky, w, x)
    ensures var y := Rest(sky, w, x); WasteArea(sky, e, e + w, y) < WasteArea(sky, x, x + w, y)
  {
    e := if sky[i + 1].x < sky[j + 1].x - w then sky[i + 1].x else sky[j + 1].x - w;
    BeforeSentinel(sky, width, j + 1);
    RoomEverywhere(sky, width, w, e);
    assert e == sky[i + 1].x || e == sky[j + 1].x - w;
    NodeLevel(sky, width, i, x, e);
    NodeLevel(sky, width, j, x + w - 1, e + w);
    NoHigher(sky, width, w, x, e, x + w - 1, e + w, sky[j].y, x + w - 1);
    SlideWaste(sky, x, e, w, Rest(sky, w, x), sky[i].y, sky[j].y);
    Signs(e - x, sky[j].y - sky[i].y);
  }

  lemma {:induction false} Signs(n: int, d: int)
    requires n > 0
    ensures (d <= 0 ==> n * d <= 0) && (d > 0 ==> n * d > 0)
  {
  }

  // ---- best-fit wastes least ------------------------------------------------------------------------

  /** The window at `b` comes no later than the one at `x` in the order height, wasted
      area, column. */
  ghost predicate NoLater(sky: seq<Seg>, w: int, b: int, x: int)
    requires Window(sky, b, b + w) && Window(sky, x, x + w)
  {
    var y, z := Rest(sky, w, b), Rest(sky, w, x);
    || y < z
    || (y == z && var u, v := WasteArea(sky, b, b + w, y), WasteArea(sky, x, x + w, z); u < v || (u == v && b <= x))
  }

  lemma {:induction false} FitIsExact(sky: seq<Seg>, width: int, w: int, x: int)
    requires Shape(sky, width) && GroundLast(sky) && w > 0 && Room(sky, width, w, x)
    ensures FitAt(sky, w, x) == Fit(Rest(sky, w, x), WasteArea(sky, x, x + w, Rest(sky, w, x)))
  {
    var k := NodeAt(sky, 0, x);
    FitAtIs(sky, width, w, k, x);
    GroundExact(sky, width, k, x, w);
  }

  /** On a skyline with its ground last, best-fit finds the first window in the order
      height, wasted area, column, of all that fit under the lid at any column. */
  lemma {:induction false} BestFitLeast(sky: seq<Seg>, t: Target, q: int, h: int, x: int)
    requires Shape(sky, t.width) && GroundLast(sky) && q > 0 && h > 0 && t.Ok() && t.heuristic.BestFit?
    requires Room(sky, t.width, q, x) && Rest(sky, q, x) + h <= t.height
    ensures var b := SearchFor(sky, t, q, h);
      b.node.Some? && Room(sky, t.width, q, b.x) && b.y == Rest(sky, q, b.x) && NoLater(sky, q, b.x, x)
  {
    var b := SearchFor(sky, t, q, h);
    BestFitOptimal(sky, t, q, h);
    var e := SlideToEdge(sky, t.width, q, x);
    assert Beats(t, h, b, FitAt(sky, q, e), e);
    FitIsExact(sky, t.width, q, e);
    FitIsExact(sky, t.width, q, b.x);
  }

  /** So for every target any run reaches. */
  lemma {:induction false} BestFitWastesLeast(width: int, height: int, nodes: nat, ops: seq<Op>, w: int, h: int, x: int)
    requires 0 < width < TOP && 0 <= height < TOP && nodes > 0 && w > 0 && h > 0
    ensures Fresh(width, height, nodes).Ok()
    ensures var p := RunOps(Fresh(width, height, nodes), ops);
      var q := Quantise(w, p.t.align);
      p.t.heuristic.BestFit? && Room(p.sky, width, q, x) && Rest(p.sky, q, x) + h <= height ==>
        var b := FindBest(p.sky, p.t, w, h);
        b.node.Some? && Room(p.sky, width, q, b.x) && b.y == Rest(p.sky, q, b.x) && NoLater(p.sky, q, b.x, x)
  {
    FreshOk(width, height, nodes);
    RunGround(Fresh(width, height, nodes), ops);
    var p := RunOps(Fresh(width, height, nodes), ops);
    var q := Quantise(w, p.t.align);
    if p.t.heuristic.BestFit? && Room(p.sky, width, q, x) && Rest(p.sky, q, x) + h <= height {
      BestFitLeast(p.sky, p.t, q, h, x);
    }
  }
}
