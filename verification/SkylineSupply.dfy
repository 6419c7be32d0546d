/** When the packer can run out of nodes. stbrp_init_target promises that widths are
    rounded so that the node array always suffices; the rounding is applied to the
    search only, and the promise holds exactly when there is a node per column. */
module SkylineSupply {
  import opened Bytes
  import opened Skyline
  import opened SkylineSearch
  import opened SkylinePacking

  /** Nodes have distinct columns, so a skyline has at most one per column and the
      sentinel. */
  lemma {:induction false} NodeColumn(sky: seq<Seg>, width: int, i: nat)
    requires Shape(sky, width) && i < |sky|
    ensures sky[i].x >= i
  {
    if i > 0 {
      NodeColumn(sky, width, i - 1);
      Ordered(sky, width, i - 1, i);
    }
  }

  lemma {:induction false} StepConserves(p: Packing, op: Op)
    requires p.Ok()
    ensures var n := Step(p, op); |n.sky| + n.free == |p.sky| + p.free
  {
    if op.Insert? && op.w > 0 && op.h > 0 { SearchFinds(p, op.w, op.h); }
  }

  /** Nodes are neither lost nor invented: active and free nodes always add up to
      those given to stbrp_init_target and the two in the context. */
  lemma {:induction false} NodesConserved(p: Packing, ops: seq<Op>)
    requires p.Ok()
    ensures var n := RunOps(p, ops); |n.sky| + n.free == |p.sky| + p.free
  {
    if ops != [] {
      NodesConserved(p, ops[..|ops| - 1]);
      StepConserves(RunOps(p, ops[..|ops| - 1]), ops[|ops| - 1]);
    }
  }

  /** With a node per column there is a free node after any run. */
  lemma {:induction false} SupplyLasts(width: int, height: int, nodes: nat, ops: seq<Op>)
    requires 0 < width < TOP && 0 <= height < TOP && nodes >= width
    ensures Fresh(width, height, nodes).Ok() && RunOps(Fresh(width, height, nodes), ops).free > 0
  {
    FreshOk(width, height, nodes);
    var n := RunOps(Fresh(width, height, nodes), ops);
    NodesConserved(Fresh(width, height, nodes), ops);
    NodeColumn(n.sky, width, |n.sky| - 1);
  }

  // ---- the run that exhausts the supply ------------------------------------------------

  /** The skyline after `k` unit squares side by side on the ground. */
  function UnitSky(k: nat, width: int): (s: seq<Seg>)
    ensures |s| == k + 2
  {
    seq(k, i => Seg(i, 1)) + [Seg(k, 0), Seg(width, TOP)]
  }

  lemma {:induction false} UnitSkyNodes(k: nat, width: int)
    ensures var s := UnitSky(k, width);
      && (forall i :: 0 <= i < k ==> s[i] == Seg(i, 1)) && s[k] == Seg(k, 0) && s[k + 1] == Seg(width, TOP)
  {
  }

  lemma {:induction false} UnitSkyShape(k: nat, width: int)
    requires k < width
    ensures Shape(UnitSky(k, width), width)
  {
    UnitSkyNodes(k, width);
    var s := UnitSky(k, width);
    forall i, j | 0 <= i < j < |s| ensures Before(s, i, j) { }
  }

  lemma {:induction false} UnitHeights(k: nat, width: int, z: int)
    requires 0 <= z < width && k < width
    ensures Column(UnitSky(k, width), z) && Height(UnitSky(k, width), z) == if z < k then 1 else 0
  {
    UnitSkyShape(k, width);
    UnitSkyNodes(k, width);
    HeightOfNode(UnitSky(k, width), width, if z < k then z else k, z);
  }

  lemma {:induction false} UnitRest(k: nat, width: int, q: int, x: int)
    requires k < width && Room(UnitSky(k, width), width, q, x)
    ensures x < k ==> Rest(UnitSky(k, width), q, x) >= 1
    ensures x >= k ==> Rest(UnitSky(k, width), q, x) == 0
  {
    var s := UnitSky(k, width);
    UnitHeights(k, width, x);
    if x < k {
      TopBounds(s, x, x + q, x);
    } else {
      forall z | x <= z < x + q ensures Column(s, z) && Height(s, z) <= 0 { UnitHeights(k, width, z); }
      TopIsUnique(s, x, x + q, 0, x);
    }
  }

  /** Bottom-left search puts the next unit square beside the last. */
  lemma {:induction false} UnitSearch(k: nat, t: Target, q: int)
    requires 0 < t.width && t.height >= 1 && t.heuristic.BottomLeft? && q > 0 && k + q <= t.width
    ensures Shape(UnitSky(k, t.width), t.width)
    ensures var b := SearchFor(UnitSky(k, t.width), t, q, 1); b.node == Some(k) && b.x == k && b.y == 0
  {
    var s := UnitSky(k, t.width);
    UnitSkyShape(k, t.width);
    UnitSkyNodes(k, t.width);
    BottomLeftOptimal(s, t, q, 1);
    var b := SearchFor(s, t, q, 1);
    RoomEverywhere(s, t.width, q, k);
    UnitRest(k, t.width, q, k);
    RoomEverywhere(s, t.width, q, b.x);
    UnitRest(k, t.width, q, b.x);
    RestBelowSentinel(s, t.width, q, b.x);
    NodeIsUnique(s, t.width, b.node.value, k, k);
  }

  lemma {:induction false} UnitPlace(k: nat, width: int)
    requires k + 1 < width
    ensures Kept(UnitSky(k, width), k, k) < |UnitSky(k, width)|
    ensures Place(UnitSky(k, width), k, k, 1, 1) == UnitSky(k + 1, width)
  {
    var s, n := UnitSky(k, width), UnitSky(k + 1, width);
    UnitSkyNodes(k, width);
    UnitSkyNodes(k + 1, width);
    PlaceParts(s, k, k, 1, 1);
    assert Survivor(s, k, k + 1) == k;
    var p := Place(s, k, k, 1, 1);
    assert |p| == |n|;
    forall i | 0 <= i < |n| ensures p[i] == n[i] { }
  }

  lemma {:induction false} QuantisedUnit(align: int)
    requires align >= 1
    ensures Quantise(1, align) == align
  {
    assert Quantise(1 - align, align) == 0;
  }

  /** One more unit square uses up one more node. */
  lemma {:induction false} UnitStep(k: nat, t: Target, free: nat)
    requires t.Ok() && t.height >= 1 && t.heuristic.BottomLeft? && k + t.align <= t.width && k + 1 < t.width && free > 0
    ensures var p := Packing(t, UnitSky(k, t.width), free);
      && p.Ok() && Step(p, Insert(1, 1)) == Packing(t, UnitSky(k + 1, t.width), free - 1)
  {
    var p := Packing(t, UnitSky(k, t.width), free);
    QuantisedUnit(t.align);
    UnitSearch(k, t, t.align);
    UnitPlace(k, t.width);
    SearchFinds(p, 1, 1);
  }

  function UnitSquares(k: nat): seq<Op> {
    seq(k, _ => Insert(1, 1))
  }

  lemma {:induction false} UnitRunFrom(t: Target, nodes: nat, k: nat)
    requires t.Ok() && t.height >= 1 && t.heuristic.BottomLeft? && k <= nodes < t.width && nodes - 1 + t.align <= t.width
    ensures var p := Packing(t, UnitSky(0, t.width), nodes);
      && p.Ok() && RunOps(p, UnitSquares(k)) == Packing(t, UnitSky(k, t.width), nodes - k)
  {
    var p := Packing(t, UnitSky(0, t.width), nodes);
    UnitSkyShape(0, t.width);
    if k > 0 {
      UnitRunFrom(t, nodes, k - 1);
      UnitExtend(p, k - 1, t, nodes - k + 1);
    }
  }

  lemma {:induction false} OneMoreSquare(k: nat)
    ensures UnitSquares(k + 1) == UnitSquares(k) + [Insert(1, 1)]
  {
  }

  lemma {:induction false} RunOneMore(p: Packing, k: nat)
    requires p.Ok()
    ensures RunOps(p, UnitSquares(k + 1)) == Step(RunOps(p, UnitSquares(k)), Insert(1, 1))
  {
    OneMoreSquare(k);
    RunLast(p, UnitSquares(k), Insert(1, 1));
  }

  lemma {:induction false} UnitExtend(p: Packing, k: nat, t: Target, free: nat)
    requires p.Ok() && t.Ok() && t.height >= 1 && t.heuristic.BottomLeft? && k + t.align <= t.width && k + 1 < t.width && free > 0
    requires RunOps(p, UnitSquares(k)) == Packing(t, UnitSky(k, t.width), free)
    ensures RunOps(p, UnitSquares(k + 1)) == Packing(t, UnitSky(k + 1, t.width), free - 1)
  {
    RunOneMore(p, k);
    UnitStep(k, t, free);
  }

  lemma {:induction false} UnitRun(width: int, height: int, nodes: nat, k: nat)
    requires 0 < width < TOP && 1 <= height < TOP && 0 < nodes < width && k <= nodes
    ensures Fresh(width, height, nodes).Ok()
    ensures RunOps(Fresh(width, height, nodes), UnitSquares(k)) ==
      Packing(Fresh(width, height, nodes).t, UnitSky(k, width), nodes - k)
  {
    var f := Fresh(width, height, nodes);
    FreshOk(width, height, nodes);
    DefaultAlignBounds(width, nodes);
    UnitRunFrom(f.t, nodes, k);
    assert UnitSky(0, width) == f.sky;
  }

  /** The node supply never runs out, over all runs on a freshly initialised target,
      if and only if there are at least as many nodes as columns. */
  lemma {:induction false} SupplyNeverRunsOutIff(width: int, height: int, nodes: nat)
    requires 0 < width < TOP && 1 <= height < TOP && nodes > 0
    ensures Fresh(width, height, nodes).Ok()
    ensures (forall ops: seq<Op> :: RunOps(Fresh(width, height, nodes), ops).free > 0) <==> nodes >= width
  {
    FreshOk(width, height, nodes);
    if nodes >= width {
      forall ops: seq<Op> ensures RunOps(Fresh(width, height, nodes), ops).free > 0 {
        SupplyLasts(width, height, nodes, ops);
      }
    } else {
      UnitRun(width, height, nodes, nodes);
      assert RunOps(Fresh(width, height, nodes), UnitSquares(nodes)).free == 0;
    }
  }

  /** With fewer nodes than columns, the rounding notwithstanding, a unit square that
      has a place under the lid is refused. */
  lemma {:induction false} UnitRefused(width: int, height: int, nodes: nat)
    requires 0 < width < TOP && 2 <= height < TOP && 0 < nodes < width
    ensures Fresh(width, height, nodes).Ok()
    ensures var p := RunOps(Fresh(width, height, nodes), UnitSquares(nodes));
      && Pack(p, 1, 1).1.None?
      && exists x :: Room(p.sky, width, p.t.align, x) && Rest(p.sky, p.t.align, x) + 1 <= height
  {
    FreshOk(width, height, nodes);
    DefaultAlignBounds(width, nodes);
    UnitRun(width, height, nodes, nodes);
    var p := RunOps(Fresh(width, height, nodes), UnitSquares(nodes));
    SearchFinds(p, 1, 1);
    RoomEverywhere(p.sky, width, p.t.align, 0);
    RestAtMostOne(nodes, width, p.t.align);
  }

  lemma {:induction false} RestAtMostOne(k: nat, width: int, q: int)
    requires k < width && Room(UnitSky(k, width), width, q, 0)
    ensures Rest(UnitSky(k, width), q, 0) <= 1
  {
    var s := UnitSky(k, width);
    TopIsMaximum(s, 0, q);
    var z :| 0 <= z < q && Column(s, z) && Height(s, z) == TopOver(s, 0, q);
    UnitHeights(k, width, z);
  }
}
