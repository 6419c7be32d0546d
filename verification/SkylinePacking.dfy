/** stbrp__skyline_pack_rectangle on values: splicing a rectangle into the skyline,
    and what any sequence of packings keeps. */
module SkylinePacking {
  import opened Bytes
  import opened Skyline
  import opened SkylineSearch

  // ---- splicing ---------------------------------------------------------------------

  /** How many nodes stay in front of the new one. */
  function Kept(sky: seq<Seg>, k: nat, x: int): nat
    requires k < |sky|
  {
    if sky[k].x < x then k + 1 else k
  }

  /** The first node from `c` on that is not wholly covered up to column `r`. */
  function Survivor(sky: seq<Seg>, c: nat, r: int): (s: nat)
    requires c < |sky|
    ensures c <= s < |sky| && (s + 1 < |sky| ==> sky[s + 1].x > r) && (s > c ==> sky[s].x <= r)
    decreases |sky| - c
  {
    if c + 1 < |sky| && sky[c + 1].x <= r then Survivor(sky, c + 1, r) else c
  }

  function Greatest(a: int, b: int): int { if a < b then b else a }

  /** The skyline after a rectangle [x, x + w) is put on it with its top at `top`. */
  function Place(sky: seq<Seg>, k: nat, x: int, w: int, top: int): seq<Seg>
    requires k < |sky| && Kept(sky, k, x) < |sky|
  {
    var a := Kept(sky, k, x);
    var c := Survivor(sky, a, x + w);
    sky[..a] + [Seg(x, top), Seg(Greatest(sky[c].x, x + w), sky[c].y)] + sky[c + 1..]
  }

  /** The column up to which the new height reaches. */
  function PlaceEnd(sky: seq<Seg>, k: nat, x: int, w: int): int
    requires k < |sky| && Kept(sky, k, x) < |sky|
  {
    Greatest(sky[Survivor(sky, Kept(sky, k, x), x + w)].x, x + w)
  }

  lemma {:induction false} PlaceParts(sky: seq<Seg>, k: nat, x: int, w: int, top: int)
    requires k < |sky| && Kept(sky, k, x) < |sky|
    ensures var a := Kept(sky, k, x); var c := Survivor(sky, a, x + w); var n := Place(sky, k, x, w, top);
      && |n| == a + 2 + (|sky| - c - 1)
      && (forall i :: 0 <= i < a ==> n[i] == sky[i])
      && n[a] == Seg(x, top) && n[a + 1] == Seg(PlaceEnd(sky, k, x, w), sky[c].y)
      && (forall i :: a + 2 <= i < |n| ==> n[i] == sky[i - a - 1 + c])
  {
  }

  ghost predicate Spliceable(sky: seq<Seg>, width: int, k: nat, x: int, w: int) {
    Shape(sky, width) && Covers(sky, k, x) && w > 0 && x + w <= width
  }

  lemma {:induction false} SpliceFacts(sky: seq<Seg>, width: int, k: nat, x: int, w: int)
    requires Spliceable(sky, width, k, x, w)
    ensures var a := Kept(sky, k, x);
      && a < |sky| && (a > 0 ==> sky[a - 1].x < x) && (a == 0 ==> x == 0)
      && var c := Survivor(sky, a, x + w); var e := PlaceEnd(sky, k, x, w);
         && x < e <= width && (c + 1 < |sky| ==> e < sky[c + 1].x) && sky[c].x <= e
         && (c + 1 == |sky| ==> e == width)
  {
    if k > 0 { Ordered(sky, width, k - 1, k); }
    BeforeSentinel(sky, width, Survivor(sky, Kept(sky, k, x), x + w));
    FromStart(sky, width, k, x);
    var c := Survivor(sky, Kept(sky, k, x), x + w);
    if c + 1 < |sky| { Ordered(sky, width, c, c + 1); }
  }

  /** Splicing keeps the list a skyline of the same target. */
  lemma {:induction false} PlaceKeepsShape(sky: seq<Seg>, width: int, k: nat, x: int, w: int, top: int)
    requires Spliceable(sky, width, k, x, w) && 0 <= top < TOP
    ensures Kept(sky, k, x) < |sky| && Shape(Place(sky, k, x, w, top), width)
    ensures |Place(sky, k, x, w, top)| <= |sky| + 1
  {
    SpliceFacts(sky, width, k, x, w);
    PlaceParts(sky, k, x, w, top);
    var a := Kept(sky, k, x);
    SplicedOrder(sky, Place(sky, k, x, w, top), width, a, Survivor(sky, a, x + w));
  }

  lemma {:induction false} SplicedOrder(sky: seq<Seg>, n: seq<Seg>, width: int, a: nat, c: nat)
    requires Shape(sky, width) && a <= c < |sky| && |n| == a + 2 + (|sky| - c - 1)
    requires forall i :: 0 <= i < a ==> n[i] == sky[i]
    requires forall i :: a + 2 <= i < |n| ==> n[i] == sky[i - a - 1 + c]
    requires (a > 0 ==> sky[a - 1].x < n[a].x) && (a == 0 ==> n[a].x == 0)
    requires 0 <= n[a].y < TOP && n[a].x < n[a + 1].x && n[a + 1].y == sky[c].y
    requires (c + 1 < |sky| ==> n[a + 1].x < sky[c + 1].x) && (c + 1 == |sky| ==> n[a + 1].x == width)
    ensures Shape(n, width)
  {
    forall i {:trigger Before(n, i, i + 1)} | 0 <= i < |n| - 1 ensures Before(n, i, i + 1) {
      if i + 1 < a {
        Ordered(sky, width, i, i + 1);
      } else if i > a + 1 {
        Ordered(sky, width, i - a - 1 + c, i - a + c);
      }
    }
    forall i, j | 0 <= i < j < |n| ensures Before(n, i, j) {
      Increasing(n, i, j);
    }
  }

  lemma {:induction false} Increasing(n: seq<Seg>, i: nat, j: nat)
    requires i < j < |n|
    requires forall k {:trigger Before(n, k, k + 1)} :: 0 <= k < |n| - 1 ==> Before(n, k, k + 1)
    ensures Before(n, i, j)
    decreases j - i
  {
    assert Before(n, i, i + 1);
    if i + 1 < j { Increasing(n, i + 1, j); }
  }

  lemma {:induction false} HeightUnder(sky: seq<Seg>, width: int, k: nat, x: int, w: int, top: int, z: int)
    requires Spliceable(sky, width, k, x, w) && 0 <= top < TOP && Kept(sky, k, x) < |sky|
    requires x <= z < PlaceEnd(sky, k, x, w)
    ensures var n := Place(sky, k, x, w, top); Column(n, z) && Height(n, z) == top
  {
    PlaceParts(sky, k, x, w, top);
    PlaceKeepsShape(sky, width, k, x, w, top);
    HeightOfNode(Place(sky, k, x, w, top), width, Kept(sky, k, x), z);
  }

  lemma {:induction false} HeightLeft(sky: seq<Seg>, width: int, k: nat, x: int, w: int, top: int, z: int)
    requires Spliceable(sky, width, k, x, w) && 0 <= top < TOP && Kept(sky, k, x) < |sky| && 0 <= z < x
    ensures var n := Place(sky, k, x, w, top); Column(sky, z) && Column(n, z) && Height(n, z) == Height(sky, z)
  {
    FromStart(sky, width, k, x);
    PlaceParts(sky, k, x, w, top);
    PlaceKeepsShape(sky, width, k, x, w, top);
    var j := NodeAt(sky, 0, z);
    LeftOfSplice(sky, width, k, x, j, z);
    HeightOfNode(Place(sky, k, x, w, top), width, j, z);
  }

  lemma {:induction false} PlaceTail(sky: seq<Seg>, k: nat, x: int, w: int, top: int, j: nat)
    requires k < |sky| && Kept(sky, k, x) < |sky|
    requires Survivor(sky, Kept(sky, k, x), x + w) <= j < |sky|
    ensures var a := Kept(sky, k, x); var c := Survivor(sky, a, x + w); var n := Place(sky, k, x, w, top);
      var i := j - c + a + 1;
      && i < |n| && n[i].y == sky[j].y
      && n[i].x == if j == c then PlaceEnd(sky, k, x, w) else sky[j].x
  {
    PlaceParts(sky, k, x, w, top);
  }

  lemma {:induction false} HeightRight(sky: seq<Seg>, width: int, k: nat, x: int, w: int, top: int, z: int)
    requires Spliceable(sky, width, k, x, w) && 0 <= top < TOP && Kept(sky, k, x) < |sky|
    requires PlaceEnd(sky, k, x, w) <= z < width
    ensures var n := Place(sky, k, x, w, top); Column(sky, z) && Column(n, z) && Height(n, z) == Height(sky, z)
  {
    FromStart(sky, width, k, x);
    PlaceKeepsShape(sky, width, k, x, w, top);
    var a := Kept(sky, k, x);
    var c := Survivor(sky, a, x + w);
    var j := NodeAt(sky, 0, z);
    RightOfSplice(sky, width, c, j, z);
    PlaceTail(sky, k, x, w, top, j);
    PlaceTail(sky, k, x, w, top, j + 1);
    HeightOfNode(Place(sky, k, x, w, top), width, j - c + a + 1, z);
  }

  /** The height function changes on [x, PlaceEnd) only, where it becomes `top`. */
  lemma {:induction false} PlaceHeights(sky: seq<Seg>, width: int, k: nat, x: int, w: int, top: int, z: int)
    requires Spliceable(sky, width, k, x, w) && 0 <= top < TOP && 0 <= z < width
    ensures Kept(sky, k, x) < |sky|
    ensures var n := Place(sky, k, x, w, top);
      && Column(sky, z) && Column(n, z)
      && Height(n, z) == if x <= z < PlaceEnd(sky, k, x, w) then top else Height(sky, z)
  {
    if z < x {
      HeightLeft(sky, width, k, x, w, top, z);
    } else if z < PlaceEnd(sky, k, x, w) {
      HeightUnder(sky, width, k, x, w, top, z);
    } else {
      HeightRight(sky, width, k, x, w, top, z);
    }
  }

  lemma {:induction false} LeftOfSplice(sky: seq<Seg>, width: int, k: nat, x: int, j: nat, z: int)
    requires Shape(sky, width) && Covers(sky, k, x) && Covers(sky, j, z) && z < x
    ensures var a := Kept(sky, k, x); j < a && (j + 1 < a ==> z < sky[j + 1].x)
  {
    if j > k { Ordered(sky, width, k + 1, j); }
    if j == k { assert sky[k].x < x; }
  }

  lemma {:induction false} RightOfSplice(sky: seq<Seg>, width: int, c: nat, j: nat, z: int)
    requires Shape(sky, width) && c < |sky| && Covers(sky, j, z) && sky[c].x <= z
    ensures j >= c
  {
    if j < c { Ordered(sky, width, j + 1, c); }
  }

  /** Where the new height may reach: exactly the rectangle when the window searched
      for is the rectangle's own width, and never beyond the window. */
  lemma {:induction false} PlaceEndWithin(sky: seq<Seg>, width: int, k: nat, x: int, w: int, q: int)
    requires Spliceable(sky, width, k, x, w) && w <= q && Anchored(sky, q, k, x)
    ensures Kept(sky, k, x) < |sky|
    ensures x + w <= PlaceEnd(sky, k, x, w) <= x + q
  {
    SpliceFacts(sky, width, k, x, w);
  }

  // ---- packing one rectangle --------------------------------------------------------------

  datatype Spot = Spot(x: int, y: int)

  /** A packing context as a value: target, active list, number of free nodes. */
  datatype Packing = Packing(t: Target, sky: seq<Seg>, free: nat) {
    ghost predicate Ok() { t.Ok() && Shape(sky, t.width) }
  }

  /** A search result a rectangle can be packed at. */
  ghost predicate Found(p: Packing, w: int, h: int, b: Best) {
    && p.Ok() && 0 < w <= Quantise(w, p.t.align) && h > 0
    && Position(p.sky, p.t.width, Quantise(w, p.t.align), b)
  }

  lemma {:induction false} Splices(p: Packing, w: int, h: int, b: Best)
    requires p.Ok() && w > 0 && h > 0 && Found(p, w, h, b) && b.node.Some? && b.y + h <= p.t.height
    ensures Spliceable(p.sky, p.t.width, b.node.value, b.x, w) && 0 <= b.y && 0 <= b.y + h < TOP
    ensures Kept(p.sky, b.node.value, b.x) < |p.sky|
    ensures Shape(Place(p.sky, b.node.value, b.x, w, b.y + h), p.t.width)
    ensures |Place(p.sky, b.node.value, b.x, w, b.y + h)| <= |p.sky| + 1
  {
    RestBelowSentinel(p.sky, p.t.width, Quantise(w, p.t.align), b.x);
    PlaceKeepsShape(p.sky, p.t.width, b.node.value, b.x, w, b.y + h);
  }

  /** stbrp__skyline_pack_rectangle after the search: refuse, or take a free node for
      the new top edge and give back the nodes it covers. */
  function PackAt(p: Packing, w: int, h: int, b: Best): (Packing, Option<Spot>)
    requires p.Ok() && w > 0 && h > 0 && Found(p, w, h, b)
  {
    if b.node.None? || b.y + h > p.t.height || p.free == 0 then (p, None)
    else
      Splices(p, w, h, b);
      var sky := Place(p.sky, b.node.value, b.x, w, b.y + h);
      (p.(sky := sky, free := p.free + |p.sky| - |sky|), Some(Spot(b.x, b.y)))
  }

  lemma {:induction false} SearchFinds(p: Packing, w: int, h: int)
    requires p.Ok() && w > 0 && h > 0
    ensures Found(p, w, h, FindBest(p.sky, p.t, w, h))
  {
    SearchIsSound(p.sky, p.t, Quantise(w, p.t.align), h);
  }

  /** stbrp__skyline_pack_rectangle. */
  function Pack(p: Packing, w: int, h: int): (Packing, Option<Spot>)
    requires p.Ok() && w > 0 && h > 0
  {
    SearchFinds(p, w, h);
    PackAt(p, w, h, FindBest(p.sky, p.t, w, h))
  }

  /** There is a node for the rectangle and a position for its window under the lid. */
  ghost predicate CanPack(p: Packing, w: int, h: int)
    requires p.Ok() && w > 0 && h > 0
  {
    var q := Quantise(w, p.t.align);
    p.free > 0 && exists x :: Room(p.sky, p.t.width, q, x) && Rest(p.sky, q, x) + h <= p.t.height
  }

  /** A rectangle is packed if and only if it can be, with either heuristic: it is refused
      only when no free node is left or no position at any column has the height. */
  lemma {:induction false} PackedIff(p: Packing, w: int, h: int)
    requires p.Ok() && w > 0 && h > 0
    ensures Pack(p, w, h).1.Some? <==> CanPack(p, w, h)
  {
    SearchFinds(p, w, h);
    FindsIffFits(p.sky, p.t, Quantise(w, p.t.align), h);
  }

  lemma {:induction false} PackAtKeepsOk(p: Packing, w: int, h: int, b: Best)
    requires p.Ok() && w > 0 && h > 0 && Found(p, w, h, b)
    ensures var r := PackAt(p, w, h, b);
      && r.0.Ok() && r.0.t == p.t
      && match r.1
         case None => r.0 == p
         case Some(s) =>
           0 <= s.x && s.x + Quantise(w, p.t.align) <= p.t.width && 0 <= s.y && s.y + h <= p.t.height
  {
    if PackAt(p, w, h, b).1.Some? { Splices(p, w, h, b); }
  }

  lemma {:induction false} PackAtRaises(p: Packing, w: int, h: int, b: Best, z: int)
    requires p.Ok() && w > 0 && h > 0 && Found(p, w, h, b) && 0 <= z < p.t.width
    ensures var r := PackAt(p, w, h, b);
      match r.1
      case None => r.0 == p
      case Some(s) => RaisedAt(p.sky, r.0.sky, s.x, s.y, w, Quantise(w, p.t.align), h, z)
  {
    if PackAt(p, w, h, b).1.Some? {
      Splices(p, w, h, b);
      RaisedBy(p.sky, p.t.width, b, w, Quantise(w, p.t.align), h, z);
    }
  }

  lemma {:induction false} PackKeepsOk(p: Packing, w: int, h: int)
    requires p.Ok() && w > 0 && h > 0
    ensures Pack(p, w, h).0.Ok() && Pack(p, w, h).0.t == p.t
    ensures match Pack(p, w, h).1
            case None => Pack(p, w, h).0 == p
            case Some(s) =>
              0 <= s.x && s.x + Quantise(w, p.t.align) <= p.t.width && 0 <= s.y && s.y + h <= p.t.height
  {
    SearchFinds(p, w, h);
    PackAtKeepsOk(p, w, h, FindBest(p.sky, p.t, w, h));
  }

  /** A successful pack puts the rectangle on the skyline: heights never fall, become
      y + h over the rectangle, and are unchanged outside the window searched for,
      which with align 1 is the rectangle itself. */
  lemma {:induction false} PackRaises(p: Packing, w: int, h: int, z: int)
    requires p.Ok() && w > 0 && h > 0 && 0 <= z < p.t.width
    ensures match Pack(p, w, h).1
            case None => Pack(p, w, h).0 == p
            case Some(s) => RaisedAt(p.sky, Pack(p, w, h).0.sky, s.x, s.y, w, Quantise(w, p.t.align), h, z)
  {
    SearchFinds(p, w, h);
    PackAtRaises(p, w, h, FindBest(p.sky, p.t, w, h), z);
  }

  /** `n` is `sky` raised by a rectangle of width `w`, found as a window of width
      `q`, as seen at column `z`. */
  ghost predicate RaisedAt(sky: seq<Seg>, n: seq<Seg>, x: int, y: int, w: int, q: int, h: int, z: int) {
    && Column(sky, z) && Column(n, z) && Height(n, z) >= Height(sky, z)
    && (x <= z < x + q ==> Height(sky, z) <= y)
    && (x <= z < x + w ==> Height(n, z) == y + h)
    && (!(x <= z < x + q) ==> Height(n, z) == Height(sky, z))
  }

  lemma {:induction false} RaisedWhere(sky: seq<Seg>, n: seq<Seg>, x: int, y: int, w: int, q: int, h: int, z: int, e: int)
    requires Column(sky, z) && Column(n, z) && 0 < w <= q && h > 0 && x + w <= e <= x + q
    requires Height(n, z) == if x <= z < e then y + h else Height(sky, z)
    requires x <= z < x + q ==> Height(sky, z) <= y
    ensures RaisedAt(sky, n, x, y, w, q, h, z)
  {
  }

  lemma {:induction false} RaisedBy(sky: seq<Seg>, width: int, b: Best, w: int, q: int, h: int, z: int)
    requires Shape(sky, width) && 0 < w <= q && h > 0 && 0 <= z < width
    requires b.node.Some? && Position(sky, width, q, b) && 0 <= b.y && b.y + h < TOP
    ensures Kept(sky, b.node.value, b.x) < |sky|
    ensures RaisedAt(sky, Place(sky, b.node.value, b.x, w, b.y + h), b.x, b.y, w, q, h, z)
  {
    var k := b.node.value;
    PlaceHeights(sky, width, k, b.x, w, b.y + h, z);
    PlaceEndWithin(sky, width, k, b.x, w, q);
    if b.x <= z < b.x + q { TopBounds(sky, b.x, b.x + q, z); }
    RaisedWhere(sky, Place(sky, k, b.x, w, b.y + h), b.x, b.y, w, q, h, z, PlaceEnd(sky, k, b.x, w));
  }

  // ---- what every run keeps -----------------------------------------------------------------

  datatype Rect = Rect(x: int, y: int, w: int, h: int)

  predicate Disjoint(a: Rect, b: Rect) {
    a.x + a.w <= b.x || b.x + b.w <= a.x || a.y + a.h <= b.y || b.y + b.h <= a.y
  }

  predicate Inside(r: Rect, t: Target) {
    0 <= r.x && 0 <= r.y && 0 < r.w && 0 < r.h && r.x + r.w <= t.width && r.y + r.h <= t.height
  }

  /** The skyline runs above a rectangle wherever the rectangle is. */
  ghost predicate Below(r: Rect, sky: seq<Seg>) {
    forall z :: r.x <= z < r.x + r.w ==> Column(sky, z) && r.y + r.h <= Height(sky, z)
  }

  ghost predicate Sound(p: Packing, placed: seq<Rect>) {
    && (forall i :: 0 <= i < |placed| ==> Inside(placed[i], p.t) && Below(placed[i], p.sky))
    && (forall i, j :: 0 <= i < j < |placed| ==> Disjoint(placed[i], placed[j]))
  }

  lemma {:induction false} StaysBelow(p: Packing, w: int, h: int, r: Rect)
    requires p.Ok() && w > 0 && h > 0 && Inside(r, p.t) && Below(r, p.sky)
    ensures Below(r, Pack(p, w, h).0.sky)
  {
    forall z | r.x <= z < r.x + r.w
      ensures Column(Pack(p, w, h).0.sky, z) && r.y + r.h <= Height(Pack(p, w, h).0.sky, z)
    {
      PackRaises(p, w, h, z);
    }
  }

  lemma {:induction false} NewIsDisjoint(p: Packing, w: int, h: int, r: Rect)
    requires p.Ok() && w > 0 && h > 0 && Inside(r, p.t) && Below(r, p.sky) && Pack(p, w, h).1.Some?
    ensures var s := Pack(p, w, h).1.value; Disjoint(r, Rect(s.x, s.y, w, h))
  {
    var s := Pack(p, w, h).1.value;
    var z := if r.x < s.x then s.x else r.x;
    if r.x <= z < r.x + r.w && s.x <= z < s.x + w {
      PackRaises(p, w, h, z);
    }
  }

  lemma {:induction false} NewIsBelow(p: Packing, w: int, h: int)
    requires p.Ok() && w > 0 && h > 0 && Pack(p, w, h).1.Some?
    ensures var s := Pack(p, w, h).1.value; var r := Rect(s.x, s.y, w, h);
      Inside(r, p.t) && Below(r, Pack(p, w, h).0.sky)
  {
    var s := Pack(p, w, h).1.value;
    PackKeepsOk(p, w, h);
    forall z | s.x <= z < s.x + w
      ensures Column(Pack(p, w, h).0.sky, z) && s.y + h <= Height(Pack(p, w, h).0.sky, z)
    {
      PackRaises(p, w, h, z);
    }
  }

  /** The rectangles placed so far, after one more attempt. */
  function Placed(p: Packing, w: int, h: int, placed: seq<Rect>): seq<Rect>
    requires p.Ok() && w > 0 && h > 0
  {
    match Pack(p, w, h).1
    case None => placed
    case Some(s) => placed + [Rect(s.x, s.y, w, h)]
  }

  lemma {:induction false} PackKeepsSound(p: Packing, w: int, h: int, placed: seq<Rect>)
    requires p.Ok() && w > 0 && h > 0 && Sound(p, placed)
    ensures Pack(p, w, h).0.Ok() && Sound(Pack(p, w, h).0, Placed(p, w, h, placed))
  {
    PackKeepsOk(p, w, h);
    var n, all := Pack(p, w, h).0, Placed(p, w, h, placed);
    forall i | 0 <= i < |placed| ensures Inside(placed[i], n.t) && Below(placed[i], n.sky) {
      StaysBelow(p, w, h, placed[i]);
    }
    if Pack(p, w, h).1.Some? {
      NewIsBelow(p, w, h);
      forall i | 0 <= i < |placed| ensures Disjoint(placed[i], all[|placed|]) {
        NewIsDisjoint(p, w, h, placed[i]);
      }
    }
  }

  /** One step of a run: a rectangle of a pack_rects call, or a change of settings. */
  datatype Op = Insert(w: nat, h: nat) | UseHeuristic(heuristic: Heuristic) | UseAlign(align: int)

  /** A target as stbrp_init_target leaves it. */
  function Fresh(width: int, height: int, nodes: nat): Packing
    requires nodes > 0
  {
    Packing(Target(width, height, DefaultAlign(width, nodes), BottomLeft), [Seg(0, 0), Seg(width, TOP)], nodes)
  }

  /** The alignment set up when running out of nodes is not allowed: ceil(width / nodes). */
  function DefaultAlign(width: int, nodes: nat): int
    requires nodes > 0
  {
    (width + nodes - 1) / nodes
  }

  lemma {:induction false} DefaultAlignBounds(width: int, nodes: nat)
    requires nodes > 0 && width > 0
    ensures DefaultAlign(width, nodes) >= 1
    ensures nodes >= width ==> DefaultAlign(width, nodes) == 1
    ensures nodes < width ==> nodes - 1 + DefaultAlign(width, nodes) <= width
  {
    var up, d := width + nodes - 1, width - nodes + 1;
    QuotientAtLeast(up, nodes, 1);
    if nodes >= width {
      QuotientAtMost(up, nodes, 1);
    } else {
      LongProduct(nodes, d);
      QuotientAtMost(up, nodes, d);
    }
  }

  /** It is the least alignment with which `nodes` windows cover the width. */
  lemma {:induction false} DefaultAlignLeast(width: int, nodes: nat, a: int)
    requires nodes > 0 && width > 0
    ensures nodes * DefaultAlign(width, nodes) >= width && (nodes * a >= width ==> a >= DefaultAlign(width, nodes))
  {
    var up, d := width + nodes - 1, DefaultAlign(width, nodes);
    assert up == nodes * d + up % nodes;
    if nodes * a >= width {
      assert nodes * (a + 1) == nodes * a + nodes;
      QuotientAtMost(up, nodes, a);
    }
  }

  lemma {:induction false} LongProduct(n: nat, d: nat)
    requires n > 0 && d > 0
    ensures n * (d + 1) >= 2 * n + d - 1
  {
    var e, f := n - 1, d - 1;
    assert n * (d + 1) == e * f + 2 * n + d - 1;
  }

  lemma {:induction false} FactorOrder(n: nat, a: int, b: int)
    requires n > 0 && n * a < n * b
    ensures a < b
  {
  }

  lemma {:induction false} QuotientAtLeast(m: int, n: nat, c: int)
    requires n > 0 && n * c <= m
    ensures m / n >= c
  {
    assert m == n * (m / n) + m % n;
    FactorOrder(n, c, m / n + 1);
  }

  lemma {:induction false} QuotientAtMost(m: int, n: nat, c: int)
    requires n > 0 && m < n * (c + 1)
    ensures m / n <= c
  {
    assert m == n * (m / n) + m % n;
    FactorOrder(n, m / n, c + 1);
  }

  function Step(p: Packing, op: Op): Packing
    requires p.Ok()
  {
    match op
    case Insert(w, h) => if w == 0 || h == 0 then p else Pack(p, w, h).0
    case UseHeuristic(heuristic) => p.(t := p.t.(heuristic := heuristic))
    case UseAlign(align) => if align >= 1 then p.(t := p.t.(align := align)) else p
  }

  lemma {:induction false} StepOk(p: Packing, op: Op)
    requires p.Ok()
    ensures Step(p, op).Ok() && Step(p, op).t.width == p.t.width && Step(p, op).t.height == p.t.height
  {
    if op.Insert? && op.w > 0 && op.h > 0 { PackKeepsOk(p, op.w, op.h); }
  }

  ghost function RunOps(p: Packing, ops: seq<Op>): (n: Packing)
    requires p.Ok()
    ensures n.Ok() && n.t.width == p.t.width && n.t.height == p.t.height
  {
    if ops == [] then p
    else
      var m := RunOps(p, ops[..|ops| - 1]);
      StepOk(m, ops[|ops| - 1]);
      Step(m, ops[|ops| - 1])
  }

  lemma {:induction false} RunLast(p: Packing, ops: seq<Op>, op: Op)
    requires p.Ok()
    ensures RunOps(p, ops + [op]) == Step(RunOps(p, ops), op)
  {
    assert (ops + [op])[..|ops|] == ops;
  }

  /** Every non-empty rectangle a run has packed, in order. */
  ghost function AllPlaced(p: Packing, ops: seq<Op>): seq<Rect>
    requires p.Ok()
  {
    if ops == [] then []
    else
      var front, last := ops[..|ops| - 1], ops[|ops| - 1];
      if last.Insert? && last.w > 0 && last.h > 0
      then Placed(RunOps(p, front), last.w, last.h, AllPlaced(p, front))
      else AllPlaced(p, front)
  }

  lemma {:induction false} RunIsSound(p: Packing, ops: seq<Op>)
    requires p.Ok()
    ensures Sound(RunOps(p, ops), AllPlaced(p, ops))
  {
    if ops != [] {
      var front, last := ops[..|ops| - 1], ops[|ops| - 1];
      RunIsSound(p, front);
      if last.Insert? && last.w > 0 && last.h > 0 {
        PackKeepsSound(RunOps(p, front), last.w, last.h, AllPlaced(p, front));
      }
    }
  }

  lemma {:induction false} FreshOk(width: int, height: int, nodes: nat)
    requires 0 < width < TOP && 0 <= height < TOP && nodes > 0
    ensures Fresh(width, height, nodes).Ok()
  {
    DefaultAlignBounds(width, nodes);
  }

  /** Packing is sound over any run on one target: any rectangles, in any order, in
      any number of calls, with any settings changed between them. All packed
      rectangles lie inside the target and are pairwise disjoint. */
  lemma {:induction false} PackingIsSound(width: int, height: int, nodes: nat, ops: seq<Op>)
    requires 0 < width < TOP && 0 <= height < TOP && nodes > 0
    ensures Fresh(width, height, nodes).Ok()
    ensures var rects := AllPlaced(Fresh(width, height, nodes), ops);
      && (forall i :: 0 <= i < |rects| ==>
            && 0 <= rects[i].x && rects[i].x + rects[i].w <= width
            && 0 <= rects[i].y && rects[i].y + rects[i].h <= height)
      && (forall i, j :: 0 <= i < j < |rects| ==> Disjoint(rects[i], rects[j]))
  {
    FreshOk(width, height, nodes);
    RunIsSound(Fresh(width, height, nodes), ops);
  }
}
