/** The packer as code: nodes in an array, linked through indices, with an active and
    a free list relinked in place. Each method is proved against its function. */
module SkylinePacker {
  import opened Bytes
  import opened Skyline
  import opened SkylineSearch
  import opened SkylinePacking

  const NULL: int := -1

  // ---- linked lists over a link array -------------------------------------------------

  function First(list: seq<int>, end: int): int {
    if list == [] then end else list[0]
  }

  /** Following `next` from the head of `list` visits it and then arrives at `end`. */
  ghost predicate Linked(next: seq<int>, list: seq<int>, end: int) {
    list == [] || (
      && 0 <= list[0] < |next| && next[list[0]] == First(list[1..], end)
      && Linked(next, list[1..], end))
  }

  lemma {:induction false} LinkedFrame(next: seq<int>, list: seq<int>, end: int, n: int, v: int)
    requires Linked(next, list, end) && 0 <= n < |next| && n !in list
    ensures Linked(next[n := v], list, end)
  {
    if list != [] {
      LinkedFrame(next, list[1..], end, n, v);
    }
  }

  lemma {:induction false} LinkedSplit(next: seq<int>, a: seq<int>, b: seq<int>, end: int)
    ensures Linked(next, a + b, end) <==> Linked(next, a, First(b, end)) && Linked(next, b, end)
  {
    if a == [] {
      assert a + b == b;
    } else {
      LinkedSplit(next, a[1..], b, end);
      assert (a + b)[1..] == a[1..] + b;
    }
  }

  lemma {:induction false} LinkedAt(next: seq<int>, list: seq<int>, end: int, i: nat)
    requires Linked(next, list, end) && i < |list|
    ensures 0 <= list[i] < |next| && next[list[i]] == First(list[i + 1..], end)
  {
    if i > 0 {
      LinkedAt(next, list[1..], end, i - 1);
      assert list[1..][i..] == list[i + 1..];
    }
  }

  lemma {:induction false} LinkedHead(next: seq<int>, list: seq<int>)
    requires Linked(next, list, NULL)
    ensures First(list, NULL) == NULL <==> list == []
  {
  }

  /** Pointing the last node of a list somewhere else. */
  lemma {:induction false} LinkedRetarget(next: seq<int>, front: seq<int>, last: int, end: int, v: int)
    requires Linked(next, front + [last], end) && last !in front
    ensures 0 <= last < |next| && Linked(next[last := v], front + [last], v)
  {
    LinkedSplit(next, front, [last], end);
    LinkedFrame(next, front, last, last, v);
    LinkedSplit(next[last := v], front, [last], v);
  }

  /** No node occurs twice. */
  ghost predicate Once(m: multiset<int>) {
    forall i {:trigger AtMostOne(m, i)} :: AtMostOne(m, i)
  }

  ghost predicate AtMostOne(m: multiset<int>, i: int) { m[i] <= 1 }

  ghost function SkyOf(xs: seq<int>, ys: seq<int>, active: seq<int>): (s: seq<Seg>)
    requires |xs| == |ys| && InRange(active, |xs|)
    ensures |s| == |active|
  {
    seq(|active|, i requires 0 <= i < |active| => SegAt(xs, ys, active, i))
  }

  ghost function SegAt(xs: seq<int>, ys: seq<int>, active: seq<int>, i: nat): Seg
    requires |xs| == |ys| && InRange(active, |xs|) && i < |active|
  {
    assert Within(active, i, |xs|);
    Seg(xs[active[i]], ys[active[i]])
  }

  ghost predicate InRange(list: seq<int>, n: nat) {
    forall i {:trigger Within(list, i, n)} :: 0 <= i < |list| ==> Within(list, i, n)
  }

  ghost predicate Within(list: seq<int>, i: nat, n: nat) {
    i < |list| && 0 <= list[i] < n
  }

  /** The rounding at the head of find_best_pos. */
  method Rounded(w: int, align: int) returns (q: int)
    requires w > 0 && align >= 1
    ensures q == Quantise(w, align)
  {
    q := w + align - 1;
    q := q - q % align;
    QuantiseIsRemainder(w, align);
  }

  /** stbrp_rect; `tag` is was_packed. */
  datatype Box = Box(id: int, w: nat, h: nat, x: int, y: int, tag: int)

  const MAXVAL: int := 0x7fff_ffff

  predicate IsPacked(b: Box) { !(b.x == MAXVAL && b.y == MAXVAL) }

  /** The rectangle a box occupies, if it is not empty and was packed. */
  function PackedOf(b: Box): seq<Rect> {
    if b.w > 0 && b.h > 0 && IsPacked(b) then [Rect(b.x, b.y, b.w, b.h)] else []
  }

  function AllPacked(boxes: seq<Box>): seq<Rect> {
    if boxes == [] then [] else AllPacked(boxes[..|boxes| - 1]) + PackedOf(boxes[|boxes| - 1])
  }

  lemma {:induction false} AllPackedLast(boxes: seq<Box>, b: Box)
    ensures AllPacked(boxes + [b]) == AllPacked(boxes) + PackedOf(b)
  {
    assert (boxes + [b])[..|boxes|] == boxes;
  }

  lemma {:induction false} PackedSoFar(before: seq<Rect>, done: seq<Box>, r: Box)
    ensures before + AllPacked(done) + PackedOf(r) == before + AllPacked(done + [r])
  {
    AllPackedLast(done, r);
  }

  function Inserts(boxes: seq<Box>): seq<Op> {
    seq(|boxes|, i requires 0 <= i < |boxes| => Insert(boxes[i].w, boxes[i].h))
  }

  /** Equal but for position. */
  predicate SameBox(a: Box, b: Box) { a == b.(x := a.x, y := a.y) }

  /** The position a box gets: empty boxes the origin, refused ones MAXVAL. */
  function SpotFor(p: Packing, w: nat, h: nat): Spot
    requires p.Ok()
  {
    if w == 0 || h == 0 then Spot(0, 0)
    else match Pack(p, w, h).1
         case None => Spot(MAXVAL, MAXVAL)
         case Some(s) => s
  }

  predicate SameAt(a: seq<Box>, b: seq<Box>, i: nat)
    requires i < |a| && i < |b|
  {
    SameBox(a[i], b[i])
  }

  predicate SameBoxes(a: seq<Box>, b: seq<Box>) {
    |a| <= |b| && forall i {:trigger SameAt(a, b, i)} :: 0 <= i < |a| ==> SameAt(a, b, i)
  }

  lemma {:induction false} SameLast(a: seq<Box>, b: seq<Box>, r: Box)
    requires SameBoxes(a, b) && |a| < |b| && SameBox(r, b[|a|])
    ensures SameBoxes(a + [r], b)
  {
    var c := a + [r];
    forall i | 0 <= i < |c| ensures SameAt(c, b, i) {
      if i < |a| { assert SameAt(a, b, i); }
    }
  }

  ghost predicate StepAt(trace: seq<Packing>, boxes: seq<Box>, i: nat)
    requires i + 1 < |trace| && i < |boxes|
  {
    && trace[i].Ok() && trace[i + 1] == Step(trace[i], Insert(boxes[i].w, boxes[i].h))
    && Spot(boxes[i].x, boxes[i].y) == SpotFor(trace[i], boxes[i].w, boxes[i].h)
  }

  /** `trace` is the states of a run that inserts the boxes in turn and gives them
      their positions. */
  ghost predicate IsRun(trace: seq<Packing>, boxes: seq<Box>) {
    && |trace| == |boxes| + 1
    && forall i {:trigger StepAt(trace, boxes, i)} :: 0 <= i < |boxes| ==> StepAt(trace, boxes, i)
  }

  lemma {:induction false} RunExtends(trace: seq<Packing>, boxes: seq<Box>, b: Box, p: Packing)
    requires IsRun(trace, boxes) && trace[|boxes|].Ok()
    requires p == Step(trace[|boxes|], Insert(b.w, b.h)) && Spot(b.x, b.y) == SpotFor(trace[|boxes|], b.w, b.h)
    ensures IsRun(trace + [p], boxes + [b])
  {
    var longer, more := trace + [p], boxes + [b];
    forall i | 0 <= i < |more| ensures StepAt(longer, more, i) {
      if i < |boxes| { assert StepAt(trace, boxes, i); }
    }
  }

  /** Such a trace ends where the run of the same insertions ends. */
  lemma {:induction false} TraceIsRun(trace: seq<Packing>, boxes: seq<Box>, n: nat)
    requires IsRun(trace, boxes) && n < |trace| && trace[0].Ok()
    ensures trace[n] == RunOps(trace[0], Inserts(boxes[..n]))
  {
    if n == 0 {
      assert Inserts(boxes[..0]) == [];
    } else {
      TraceIsRun(trace, boxes, n - 1);
      assert StepAt(trace, boxes, n - 1);
      OneMoreBox(boxes, n - 1);
      RunLast(trace[0], Inserts(boxes[..n - 1]), Insert(boxes[n - 1].w, boxes[n - 1].h));
    }
  }

  lemma {:induction false} OneMoreBox(boxes: seq<Box>, i: nat)
    requires i < |boxes|
    ensures Inserts(boxes[..i + 1]) == Inserts(boxes[..i]) + [Insert(boxes[i].w, boxes[i].h)]
  {
  }

  /** An empty box is put at the origin; any other one is packed if and only if it can be
      when its turn comes. */
  ghost predicate RightAt(trace: seq<Packing>, boxes: seq<Box>, i: nat) {
    && i < |trace| && i < |boxes| && trace[i].Ok()
    && var b := boxes[i];
       if b.w == 0 || b.h == 0 then b.x == 0 && b.y == 0 else RightSpot(trace[i], b)
  }

  /** A box that cannot be packed is put at the greatest coordinates. */
  ghost predicate RightSpot(p: Packing, b: Box)
    requires p.Ok() && b.w > 0 && b.h > 0
  {
    (IsPacked(b) <==> CanPack(p, b.w, b.h)) && (!CanPack(p, b.w, b.h) ==> b.x == 0x7fff_ffff && b.y == 0x7fff_ffff)
  }

  ghost predicate AllRight(trace: seq<Packing>, boxes: seq<Box>) {
    forall i {:trigger RightAt(trace, boxes, i)} :: 0 <= i < |boxes| ==> RightAt(trace, boxes, i)
  }

  lemma {:induction false} StepIsRight(p: Packing, b: Box)
    requires p.Ok() && Spot(b.x, b.y) == SpotFor(p, b.w, b.h)
    ensures if b.w == 0 || b.h == 0 then b.x == 0 && b.y == 0 else RightSpot(p, b)
  {
    if b.w > 0 && b.h > 0 {
      PackedIff(p, b.w, b.h);
      PackKeepsOk(p, b.w, b.h);
    }
  }

  lemma {:induction false} RunIsRight(trace: seq<Packing>, boxes: seq<Box>)
    requires IsRun(trace, boxes)
    ensures AllRight(trace, boxes)
  {
    forall i | 0 <= i < |boxes| ensures RightAt(trace, boxes, i) {
      assert StepAt(trace, boxes, i);
      StepIsRight(trace[i], boxes[i]);
    }
  }

  /** A stbrp_node**: none, the active head, or the link out of a node. */
  datatype Link = NoLink | Head | After(node: int)

  class Packer {
    const count: nat            // num_nodes
    const xs: array<int>        // node columns; the last two are context->extra
    const ys: array<int>        // node heights
    const next: array<int>      // node links
    const width: int
    const height: int
    var align: int
    var heuristic: Heuristic
    var activeHead: int
    var freeHead: int
    ghost var active: seq<int>
    ghost var free: seq<int>
    ghost var placed: seq<Rect> // every non-empty rectangle packed so far

    ghost predicate Arrays()
    {
      && count > 0 && xs.Length == ys.Length == next.Length == count + 2
      && xs != ys && xs != next && ys != next
    }

    ghost predicate Lists()
      requires Arrays()
      reads this, next
    {
      && activeHead == First(active, NULL) && Linked(next[..], active, NULL)
      && freeHead == First(free, NULL) && Linked(next[..], free, NULL)
      && InRange(active, count + 2) && InRange(free, count + 2)
      && Once(multiset(active) + multiset(free)) && |active| + |free| == count + 2
    }

    ghost function T(): Target
      reads this
    {
      Target(width, height, align, heuristic)
    }

    /** The context as a value. */
    ghost function View(): Packing
      requires Arrays() && InRange(active, count + 2)
      reads this, xs, ys
    {
      Packing(T(), SkyOf(xs[..], ys[..], active), |free|)
    }

    ghost predicate Valid()
      reads this, xs, ys, next
    {
      Arrays() && Lists() && View().Ok()
    }

    lemma {:induction false} ActiveNode(i: nat)
      requires Arrays() && Lists() && i < |active|
      ensures 0 <= active[i] < count + 2
      ensures next[active[i]] == if i + 1 < |active| then active[i + 1] else NULL
      ensures SkyOf(xs[..], ys[..], active)[i] == Seg(xs[active[i]], ys[active[i]])
    {
      LinkedAt(next[..], active, NULL, i);
    }

    /** stbrp__skyline_find_min_y. */
    method FindMinY(first: int, x0: int, w: int, ghost k: nat) returns (y: int, waste: int)
      requires Valid() && k < |active| && first == active[k] && x0 + w <= width
      ensures Fit(y, waste) == MinY(View().sky, k, x0, w)
    {
      ghost var sky, i := View().sky, k;
      var node, x1 := first, x0 + w;
      var visited := 0;
      y, waste := 0, 0;
      ActiveNode(i);
      while xs[node] < x1
        invariant i < |active| && node == active[i] && 0 <= node < count + 2
        invariant xs[node] == sky[i].x && ys[node] == sky[i].y
        invariant next[node] == if i + 1 < |active| then active[i + 1] else NULL
        invariant MinYFrom(sky, i, x0, w, y, visited, waste) == MinY(sky, k, x0, w)
        decreases |active| - i
      {
        assert i + 1 < |active| && sky[i + 1] == Seg(xs[next[node]], ys[next[node]]) by { ActiveNode(i + 1); }
        if ys[node] > y {
          waste := waste + visited * (ys[node] - y);
          y := ys[node];
          if xs[node] < x0 {
            visited := visited + (xs[next[node]] - x0);
          } else {
            visited := visited + (xs[next[node]] - xs[node]);
          }
        } else {
          var underWidth := xs[next[node]] - xs[node];
          if underWidth + visited > w {
            underWidth := w - visited;
          }
          waste := waste + underWidth * (y - ys[node]);
          visited := visited + underWidth;
        }
        node := next[node];
        i := i + 1;
        ActiveNode(i);
      }
    }

    /** The link through which position `k` of the active list is reached. */
    ghost function LinkTo(k: Option<nat>): Link
      reads this
    {
      match k
      case None => NoLink
      case Some(k) => if 0 < k <= |active| then After(active[k - 1]) else Head
    }

    lemma {:induction false} Fields(i: nat)
      requires Valid() && i < |active|
      ensures 0 <= active[i] < count + 2
      ensures xs[active[i]] == View().sky[i].x && ys[active[i]] == View().sky[i].y
      ensures next[active[i]] == if i + 1 < |active| then active[i + 1] else NULL
    {
      ActiveNode(i);
    }

    /** The left-aligned scan of stbrp__skyline_find_best_pos. */
    method LeftScan(w: int, h: int) returns (link: Link, y: int, waste: int, ghost best: Best)
      requires Valid() && w > 0
      ensures best == ScanLeft(View().sky, T(), w, h, 0, NOTHING)
      ensures link == LinkTo(best.node) && y == best.y && waste == best.waste
      ensures best.node.Some? ==> best.node.value < |active| && best.x == View().sky[best.node.value].x
      ensures best.node.None? ==> best.x == 0
    {
      ghost var sky, i := View().sky, 0;
      var node, prev := activeHead, Head;
      link, y, waste, best := NoLink, TOP, TOP, NOTHING;
      Fields(0);
      while xs[node] + w <= width
        invariant i < |active| && node == active[i] && 0 <= node < count + 2 && prev == LinkTo(Some(i))
        invariant xs[node] == sky[i].x && next[node] == if i + 1 < |active| then active[i + 1] else NULL
        invariant ScanLeft(sky, T(), w, h, i, best) == ScanLeft(sky, T(), w, h, 0, NOTHING)
        invariant link == LinkTo(best.node) && y == best.y && waste == best.waste
        invariant best.node.Some? ==> best.node.value < |active| && best.x == sky[best.node.value].x
        invariant best.node.None? ==> best.x == 0
        decreases |active| - i
      {
        var y1, waste1 := FindMinY(node, xs[node], w, i);
        ghost var f := Fit(y1, waste1);
        if heuristic.BottomLeft? {
          if y1 < y {
            y, link := y1, prev;
          }
        } else if y1 + h <= height {
          if y1 < y || (y1 == y && waste1 < waste) {
            y, waste, link := y1, waste1, prev;
          }
        }
        best := TakeLeft(T(), h, i, sky[i].x, f, best);
        prev := After(node);
        node := next[node];
        i := i + 1;
        Fields(i);
      }
    }

    /** The first node the right-aligned scan can end at. */
    method FindTail(w: int) returns (tail: int, ghost t: nat)
      requires Valid() && w <= width
      ensures t == FirstTail(View().sky, width, w, 0) && tail == active[t]
    {
      ghost var sky := View().sky;
      tail, t := activeHead, 0;
      Fields(0);
      while xs[tail] < w
        invariant t < |active| && tail == active[t] && 0 <= tail < count + 2
        invariant xs[tail] == sky[t].x && next[tail] == if t + 1 < |active| then active[t + 1] else NULL
        invariant FirstTail(sky, width, w, t) == FirstTail(sky, width, w, 0)
        decreases |active| - t
      {
        tail := next[tail];
        t := t + 1;
        Fields(t);
      }
    }

    /** Where the right-aligned scan stands: at node `t`, with node `i` covering the column
        before it, and the best position so far. */
    ghost predicate RightState(sky: seq<Seg>, w: int, tail: int, t: nat, node: int, prev: Link, i: nat)
      reads this, xs, ys, next
    {
      && Valid() && sky == View().sky
      && t <= |active| && tail == (if t < |active| then active[t] else NULL)
      && i < |active| - 1 && node == active[i] && prev == LinkTo(Some(i))
      && (t < |active| ==> sky[t].x >= w && sky[i].x <= sky[t].x - w)
    }

    /** The right-aligned scan, starting from what the left-aligned one found. */
    method RightScan(w: int, h: int, link0: Link, x0: int, y0: int, waste0: int, ghost best0: Best)
      returns (link: Link, x: int, y: int, ghost best: Best)
      requires Valid() && 0 < w <= width
      requires link0 == LinkTo(best0.node) && x0 == best0.x && y0 == best0.y && waste0 == best0.waste
      ensures best == ScanRight(View().sky, T(), w, h, FirstTail(View().sky, width, w, 0), 0, best0)
      ensures link == LinkTo(best.node) && x == best.x && y == best.y
    {
      ghost var sky := View().sky;
      var tail;
      ghost var t, i;
      tail, t := FindTail(w);
      i := 0;
      var node, prev := activeHead, Head;
      var waste;
      link, x, y, waste, best := link0, x0, y0, waste0, best0;
      ghost var all := ScanRight(sky, T(), w, h, t, 0, best0);
      while tail != NULL
        invariant RightState(sky, w, tail, t, node, prev, i)
        invariant all == ScanRight(sky, T(), w, h, t, i, best)
        invariant link == LinkTo(best.node) && x == best.x && y == best.y && waste == best.waste
        decreases |active| - t
      {
        tail, node, prev, link, x, y, waste, i, best := VisitTail(tail, node, prev, w, h, link, x, y, waste, sky, t, i, best, all);
        t := t + 1;
      }
      if t < |active| { Fields(t); }
    }

    /** One iteration of the right-aligned scan. */
    method VisitTail(tail: int, node0: int, prev0: Link, w: int, h: int, link0: Link, x0: int, y0: int, waste0: int,
                     ghost sky: seq<Seg>, ghost t: nat, ghost i0: nat, ghost best0: Best, ghost all: Best)
      returns (after: int, node: int, prev: Link, link: Link, x: int, y: int, waste: int, ghost i: nat, ghost best: Best)
      requires RightState(sky, w, tail, t, node0, prev0, i0) && w > 0 && t < |active|
      requires all == ScanRight(sky, T(), w, h, t, i0, best0)
      requires link0 == LinkTo(best0.node) && x0 == best0.x && y0 == best0.y && waste0 == best0.waste
      ensures RightState(sky, w, after, t + 1, node, prev, i)
      ensures all == ScanRight(sky, T(), w, h, t + 1, i, best)
      ensures link == LinkTo(best.node) && x == best.x && y == best.y && waste == best.waste
    {
      Fields(t);
      var xpos := xs[tail] - w;
      BeforeSentinel(sky, width, t);
      node, prev, i := Advance(node0, prev0, xpos, i0);
      RightStepTo(sky, T(), w, h, t, i0, i, best0);
      best := TakeRight(T(), h, i, xpos, MinY(sky, i, xpos, w), best0);
      link, x, y, waste := TryTail(node, prev, xpos, w, h, link0, x0, y0, waste0, i, best0);
      after := next[tail];
    }

    /** One right-aligned candidate against the best so far. */
    method TryTail(node: int, prev: Link, xpos: int, w: int, h: int, link0: Link, x0: int, y0: int, waste0: int,
                   ghost i: nat, ghost best: Best)
      returns (link: Link, x: int, y: int, waste: int)
      requires Valid() && i < |active| - 1 && node == active[i] && prev == LinkTo(Some(i)) && xpos + w <= width
      requires link0 == LinkTo(best.node) && x0 == best.x && y0 == best.y && waste0 == best.waste
      ensures var b := TakeRight(T(), h, i, xpos, MinY(View().sky, i, xpos, w), best);
        link == LinkTo(b.node) && x == b.x && y == b.y && waste == b.waste
    {
      link, x, y, waste := link0, x0, y0, waste0;
      var y1, waste1 := FindMinY(node, xpos, w, i);
      if y1 + h <= height {
        if y1 <= y {
          if y1 < y || waste1 < waste || (waste1 == waste && xpos < x) {
            link, x, y, waste := prev, xpos, y1, waste1;
          }
        }
      }
    }

    /** Walks on to the node covering a column. */
    method Advance(node0: int, prev0: Link, xpos: int, ghost i0: nat) returns (node: int, prev: Link, ghost i: nat)
      requires Valid() && i0 < |active| - 1 && node0 == active[i0] && prev0 == LinkTo(Some(i0))
      requires View().sky[i0].x <= xpos < width
      ensures i < |active| - 1 && node == active[i] && prev == LinkTo(Some(i)) && Covers(View().sky, i, xpos)
    {
      ghost var sky := View().sky;
      node, prev, i := node0, prev0, i0;
      Fields(i);
      Fields(i + 1);
      while xs[next[node]] <= xpos
        invariant i < |active| - 1 && node == active[i] && prev == LinkTo(Some(i)) && sky[i].x <= xpos
        invariant 0 <= node < count + 2 && next[node] == active[i + 1] && 0 <= next[node] < count + 2 && xs[next[node]] == sky[i + 1].x
        decreases |active| - i
      {
        prev := After(node);
        node := next[node];
        i := i + 1;
        Fields(i);
        Fields(i + 1);
      }
    }

    /** stbrp__skyline_find_best_pos. */
    method FindBestPos(width0: int, h: int, ghost p: Packing) returns (link: Link, x: int, y: int, ghost best: Best)
      requires Valid() && p == View() && width0 > 0
      ensures Valid() && p == View() && best == FindBest(p.sky, p.t, width0, h)
      ensures link == LinkTo(best.node) && x == best.x && y == best.y
    {
      var w := Rounded(width0, align);
      if w > width || h > height {
        return NoLink, 0, 0, Best(None, 0, 0, 0);
      }
      var waste;
      link, y, waste, best := LeftScan(w, h);
      x := 0;
      if link != NoLink {
        ghost var k := best.node.value;
        Fields(k);
        if k > 0 { Fields(k - 1); }
        x := xs[if link.Head? then activeHead else next[link.node]];
      }
      if heuristic.BestFit? {
        link, x, y, best := RightScan(w, h, link, x, y, waste, best);
      }
    }

    // ---- relinking ----------------------------------------------------------------------

    /** While a rectangle is being spliced in, the active list is in three parts: the
        nodes kept in front, the new node, and the old nodes not yet dealt with. */
    ghost predicate Split(front: seq<int>, node: int, back: seq<int>, free: seq<int>)
      requires Arrays()
      reads this, next
    {
      && activeHead == First(front, node) && Linked(next[..], front, node)
      && back != [] && Linked(next[..], back, NULL)
      && freeHead == First(free, NULL) && Linked(next[..], free, NULL)
      && InRange(front, count + 2) && InRange([node], count + 2) && InRange(back, count + 2) && InRange(free, count + 2)
      && Once(multiset(front) + multiset([node]) + multiset(back) + multiset(free))
    }

    /** Makes the link before position `a` of the active list point to `node`. */
    method Redirect(link: Link, keep: bool, node: int, ghost k: nat) returns (cur: int)
      requires Valid() && k < |active| - 1 && link == LinkTo(Some(k))
      modifies `activeHead, next
      ensures var a := if keep then k + 1 else k;
        && (a > 0 ==> Within(active, a - 1, count + 2))
        && next[..] == (if a > 0 then old(next[..])[active[a - 1] := node] else old(next[..]))
        && activeHead == (if a > 0 then old(activeHead) else node)
        && cur == active[a]
    {
      Fields(k);
      if k > 0 { Fields(k - 1); }
      cur := if link.Head? then activeHead else next[link.node];
      if keep {
        var after := next[cur];
        next[cur] := node;
        cur := after;
      } else if link.Head? {
        activeHead := node;
      } else {
        next[link.node] := node;
      }
    }

    /** Takes the first free node and hooks it in behind the nodes kept in front. */
    method Hook(link: Link, x: int, top: int, ghost k: nat) returns (node: int, cur: int, ghost a: nat)
      requires Valid() && free != [] && k < |active| - 1 && link == LinkTo(Some(k))
      modifies `activeHead, `freeHead, xs, ys, next
      ensures a == Kept(old(View()).sky, k, x) && a < |active| && node == free[0] && cur == active[a]
      ensures Split(active[..a], node, active[a..], free[1..])
      ensures xs[..] == old(xs[..])[node := x] && ys[..] == old(ys[..])[node := top]
    {
      ghost var n0 := next[..];
      Fields(k);
      if k > 0 { Fields(k - 1); }
      LinkedAt(n0, free, NULL, 0);
      InRangeParts(free, 1, count + 2);
      node := freeHead;
      var rest := next[node];
      var keep := xs[if link.Head? then activeHead else next[link.node]] < x;
      a := if keep then k + 1 else k;
      HookedLinks(n0, active, free, a, node);
      InRangeParts(active, a, count + 2);
      cur := Redirect(link, keep, node, k);
      freeHead := rest;
      xs[node], ys[node] := x, top;
    }

    /** Moves the first old node to the free list. */
    method ReleaseOne(cur: int, ghost front: seq<int>, ghost node: int, ghost back: seq<int>, ghost free0: seq<int>)
      returns (after: int)
      requires Arrays() && Split(front, node, back, free0) && cur == back[0] && |back| >= 2
      modifies `freeHead, next
      ensures Split(front, node, back[1..], [cur] + free0) && after == back[1]
    {
      LinkedAt(next[..], back, NULL, 0);
      assert Within(back, 0, count + 2);
      ReleasedLinks(next[..], front, node, back, free0);
      InRangeParts(back, 1, count + 2);
      assert InRange([cur], count + 2);
      InRangeJoin([cur], free0, count + 2);
      after := next[cur];
      next[cur] := freeHead;
      freeHead := cur;
    }

    lemma {:induction false} BackHead(front: seq<int>, node: int, back: seq<int>, free0: seq<int>)
      requires Arrays() && Split(front, node, back, free0)
      ensures 0 <= back[0] < count + 2 && next[back[0]] == if |back| > 1 then back[1] else NULL
      ensures |back| > 1 ==> 0 <= back[1] < count + 2
    {
      LinkedAt(next[..], back, NULL, 0);
      assert |back| > 1 ==> Within(back, 1, count + 2);
    }

    /** Gives every old node that is wholly covered up to column `r` back to the free
        list; `back` is the old nodes from position `a` of the old skyline on. */
    method Release(cur0: int, r: int, ghost front: seq<int>, ghost node: int, ghost back: seq<int>, ghost free0: seq<int>,
                   ghost sky: seq<Seg>, ghost a: nat)
      returns (cur: int, ghost c: nat, ghost freed: seq<int>)
      requires Arrays() && Split(front, node, back, free0) && cur0 == back[0]
      requires ColumnsFrom(xs[..], back, sky, a)
      modifies `freeHead, next
      ensures c < |back| && a + c == Survivor(sky, a, r) && cur == back[c]
      ensures Split(front, node, back[c..], freed) && |freed| == |free0| + c
    {
      cur, c, freed := cur0, 0, free0;
      ghost var rest := back;
      BackHead(front, node, rest, freed);
      assert |rest| > 1 ==> ColumnAt(xs[..], back, sky, a, 1);
      while next[cur] != NULL && xs[next[cur]] <= r
        invariant c < |back| && rest == back[c..] && cur == rest[0] && 0 <= cur < count + 2
        invariant Split(front, node, rest, freed) && |freed| == |free0| + c
        invariant next[cur] == if |rest| > 1 then rest[1] else NULL
        invariant |rest| > 1 ==> 0 <= rest[1] < count + 2 && xs[rest[1]] == sky[a + c + 1].x
        invariant Survivor(sky, a + c, r) == Survivor(sky, a, r)
        decreases |back| - c
      {
        var after := ReleaseOne(cur, front, node, rest, freed);
        freed := [cur] + freed;
        cur := after;
        c := c + 1;
        TailTail(back, c);
        rest := rest[1..];
        BackHead(front, node, rest, freed);
        assert |rest| > 1 ==> ColumnAt(xs[..], back, sky, a, c + 1);
      }
    }

    /** Makes one active list of the three parts, and moves the first old node's left
        edge up to column `r`. */
    method Join(node: int, cur: int, r: int, ghost front: seq<int>, ghost back: seq<int>, ghost freed: seq<int>)
      requires Arrays() && Split(front, node, back, freed) && cur == back[0]
      requires |front| + 1 + |back| + |freed| == count + 2
      modifies `active, `free, xs, next
      ensures Lists() && active == front + [node] + back && free == freed
      ensures xs[..] == old(xs[..])[cur := Greatest(old(xs[cur]), r)]
    {
      assert Within([node], 0, count + 2) && Within(back, 0, count + 2);
      JoinedLinks(next[..], front, node, back, freed);
      InRangeJoin(front, [node], count + 2);
      InRangeJoin(front + [node], back, count + 2);
      next[node] := cur;
      if xs[cur] < r {
        xs[cur] := r;
      }
      active, free := front + [node] + back, freed;
    }

    /** Hooks a free node in behind the nodes kept in front, and gives the nodes the
        rectangle covers back to the free list. */
    method Detach(link: Link, x: int, w: int, top: int, ghost k: nat) returns (node: int, cur: int, ghost a: nat, ghost c: nat, ghost freed: seq<int>)
      requires Valid() && free != [] && k < |active| - 1 && link == LinkTo(Some(k)) && Kept(View().sky, k, x) < |active|
      modifies `activeHead, `freeHead, xs, ys, next
      ensures a == Kept(old(View().sky), k, x) && a + c == Survivor(old(View().sky), a, x + w) && a + c < |active|
      ensures node == free[0] && cur == active[a..][c] && |freed| == |free| - 1 + c
      ensures Split(active[..a], node, active[a..][c..], freed)
      ensures xs[..] == old(xs[..])[node := x] && ys[..] == old(ys[..])[node := top]
    {
      ghost var xs0, ys0 := xs[..], ys[..];
      HookFacts(active, free, k);
      node, cur, a := Hook(link, x, top, k);
      BackColumns(xs0, ys0, active, node, x, a);
      cur, c, freed := Release(cur, x + w, active[..a], node, active[a..], free[1..], SkyOf(xs0, ys0, active), a);
    }

    /** Relinks the lists around a rectangle's top edge: the nodes in front of it stay, a
        free node takes its place, and the nodes it covers go back to the free list. */
    method Relink(link: Link, x: int, w: int, top: int, ghost k: nat) returns (ghost node: int, ghost a: nat, ghost c: nat)
      requires Valid() && free != [] && k < |active| - 1 && link == LinkTo(Some(k)) && Kept(View().sky, k, x) < |active|
      modifies `activeHead, `freeHead, `active, `free, xs, ys, next
      ensures Lists() && |free| + |active| == old(|free| + |active|)
      ensures a == Kept(old(View().sky), k, x) && a + c == Survivor(old(View().sky), a, x + w) && a + c < |old(active)|
      ensures node == old(free[0]) && active == old(active)[..a] + [node] + old(active)[a..][c..]
      ensures ys[..] == old(ys[..])[node := top]
      ensures var cur, moved := old(active)[a..][c], old(xs[..])[node := x];
        0 <= cur < |moved| && xs[..] == moved[cur := Greatest(moved[cur], x + w)]
    {
      var taken, cur;
      ghost var freed;
      taken, cur, a, c, freed := Detach(link, x, w, top, k);
      node := taken;
      Join(taken, cur, x + w, active[..a], active[a..][c..], freed);
    }

    /** Splices a rectangle's top edge in at a position a search has found. */
    method Splice(link: Link, x: int, w: int, top: int, ghost k: nat)
      requires Valid() && free != [] && k < |active| - 1 && link == LinkTo(Some(k)) && Kept(View().sky, k, x) < |active|
      modifies `activeHead, `freeHead, `active, `free, xs, ys, next
      ensures Lists() && View().sky == Place(old(View().sky), k, x, w, top)
      ensures |free| + |active| == old(|free| + |active|)
    {
      ghost var list, spare, xs0, ys0 := active, free, xs[..], ys[..];
      HookFacts(list, spare, k);
      OnceFirst(list, spare);
      ghost var node, a, c := Relink(link, x, w, top, k);
      SplicedSky(xs0, ys0, list, node, k, x, w, top, xs[..], active, a, c);
    }

    /** Packs at what the search found, unless there is nothing, no height or no node left. */
    method Commit(link: Link, x: int, y: int, w: int, h: int, ghost best: Best) returns (packed: bool)
      requires Valid() && link == LinkTo(best.node) && x == best.x && y == best.y
      requires !Refused(View(), h, best) ==> best.node.value < |active| - 1 && Kept(View().sky, best.node.value, x) < |active|
      modifies `activeHead, `freeHead, `active, `free, xs, ys, next
      ensures Lists() && packed == !Refused(old(View()), h, best)
      ensures !packed ==> View() == old(View())
      ensures packed ==> View().sky == Place(old(View().sky), best.node.value, x, w, y + h) && |free| + |active| == old(|free| + |active|)
    {
      LinkedHead(next[..], free);
      packed := !(link == NoLink || y + h > height || freeHead == NULL);
      if packed {
        Splice(link, x, w, y + h, best.node.value);
      }
    }

    /** stbrp__skyline_pack_rectangle. */
    method PackRectangle(w: int, h: int) returns (packed: bool, x: int, y: int)
      requires Valid() && w > 0 && h > 0
      modifies `activeHead, `freeHead, `active, `free, xs, ys, next
      ensures Valid() && (View(), if packed then Some(Spot(x, y)) else None) == Pack(old(View()), w, h)
    {
      ghost var p, best := View(), NOTHING;
      var link;
      link, x, y, best := FindBestPos(w, h, p);
      if !Refused(p, h, best) { Packable(p, w, h, best); }
      packed := Commit(link, x, y, w, h, best);
      ghost var n, spot := View(), if packed then Some(Spot(x, y)) else None;
      PackIs(p, w, h, best, n, spot);
    }

    // ---- setting up ----------------------------------------------------------------------

    /** stbrp_init_target. */
    constructor (width: int, height: int, count: nat)
      requires 0 < width < TOP && 0 <= height < TOP && count > 0
      ensures Sound() && View() == Fresh(width, height, count) && placed == []
      ensures fresh(xs) && fresh(ys) && fresh(next)
    {
      this.count, this.width, this.height := count, width, height;
      xs, ys, next := new int[count + 2], new int[count + 2], new int[count + 2];
      heuristic, align := BottomLeft, DefaultAlign(width, count);
      freeHead, activeHead := 0, count;
      active, free, placed := [count, count + 1], Range(0, count), [];
      new;
      InitLinks(next, count);
      xs[count], ys[count] := 0, 0;
      xs[count + 1], ys[count + 1] := width, TOP;
      FreshOk(width, height, count);
      FreshSky(xs[..], ys[..], count, width);
    }

    /** Valid, and everything packed so far is inside the target, pairwise disjoint
        and below the skyline. */
    ghost predicate Sound()
      reads this, xs, ys, next
    {
      Valid() && SkylinePacking.Sound(View(), placed)
    }

    /** stbrp_setup_heuristic. */
    method SetupHeuristic(choice: Heuristic)
      requires Sound()
      modifies `heuristic
      ensures Sound() && View() == Step(old(View()), UseHeuristic(choice))
    {
      heuristic := choice;
      assert View().sky == old(View().sky);
    }

    /** stbrp_setup_allow_out_of_mem. */
    method SetupAllowOutOfMem(allow: bool)
      requires Sound()
      modifies `align
      ensures Sound() && View() == Step(old(View()), UseAlign(if allow then 1 else DefaultAlign(width, count)))
      ensures align == (if allow then 1 else DefaultAlign(width, count))
    {
      DefaultAlignBounds(width, count);
      align := if allow then 1 else DefaultAlign(width, count);
      assert View().sky == old(View().sky);
    }

    // ---- stbrp_pack_rects ------------------------------------------------------------------

    /** One rectangle of the packing loop. */
    method PackBox(b: Box) returns (r: Box)
      requires Sound()
      modifies `activeHead, `freeHead, `active, `free, `placed, xs, ys, next
      ensures Sound() && View() == Step(old(View()), Insert(b.w, b.h))
      ensures SameBox(r, b) && Spot(r.x, r.y) == SpotFor(old(View()), b.w, b.h)
      ensures placed == old(placed) + PackedOf(r)
    {
      if b.w == 0 || b.h == 0 {
        return b.(x := 0, y := 0);
      }
      ghost var p := View();
      var packed, x, y := PackRectangle(b.w, b.h);
      PackKeepsSound(p, b.w, b.h, placed);
      PackKeepsOk(p, b.w, b.h);
      r := if packed then b.(x := x, y := y) else b.(x := MAXVAL, y := MAXVAL);
      placed := placed + PackedOf(r);
    }

    /** The same, as the next step of a run. */
    method PackNext(b: Box, ghost trace: seq<Packing>, ghost done: seq<Box>) returns (r: Box)
      requires Sound() && IsRun(trace, done) && View() == trace[|done|]
      modifies `activeHead, `freeHead, `active, `free, `placed, xs, ys, next
      ensures Sound() && IsRun(trace + [View()], done + [r])
      ensures SameBox(r, b) && placed == old(placed) + PackedOf(r)
    {
      r := PackBox(b);
      RunExtends(trace, done, r, View());
    }

    /** The packing loop of stbrp_pack_rects, in the order the boxes are in. */
    method PackBoxes(rects: array<Box>) returns (ghost trace: seq<Packing>)
      requires Sound()
      modifies `activeHead, `freeHead, `active, `free, `placed, xs, ys, next, rects
      ensures Sound() && placed == old(placed) + AllPacked(rects[..])
      ensures SameBoxes(rects[..], old(rects[..]))
      ensures IsRun(trace, rects[..]) && trace[0] == old(View()) && trace[rects.Length] == View()
    {
      ghost var before, boxes, done := placed, rects[..], [];
      trace := [View()];
      for i := 0 to rects.Length
        invariant Sound() && |done| == i && placed == before + AllPacked(done) && SameBoxes(done, boxes)
        invariant IsRun(trace, done) && trace[0] == old(View()) && trace[i] == View()
        invariant rects[..i] == done && rects[i..] == boxes[i..]
      {
        assert rects[i] == boxes[i..][0];
        var r := PackNext(rects[i], trace, done);
        rects[i] := r;
        assert rects[..i + 1] == rects[..i] + [r] && rects[i + 1..] == boxes[i..][1..];
        trace := trace + [View()];
        PackedSoFar(before, done, r);
        SameLast(done, boxes, r);
        done := done + [r];
      }
      assert rects[..] == done;
    }

    /** stbrp_pack_rects. qsort is a parameter: `order` is any order it may leave the
        boxes in by height, and `back` any order by tag. */
    method PackRects(rects: array<Box>, order: seq<nat>, back: seq<nat>) returns (all: bool, ghost trace: seq<Packing>)
      requires Sound() && IsOrder(order, rects.Length)
      requires forall i, j :: 0 <= i < j < rects.Length ==> HeightCompare(rects[order[i]], rects[order[j]]) <= 0
      requires IsOrder(back, rects.Length) && ByTag(order, back)
      modifies `activeHead, `freeHead, `active, `free, `placed, xs, ys, next, rects
      ensures Sound() && old(placed) <= placed
      ensures AllAnswered(T(), old(placed), old(rects[..]), rects[..])
      ensures all <==> forall i :: 0 <= i < rects.Length ==> rects[i].tag == 1
      ensures ByHeight(rects[..], order)
      ensures IsRun(trace, InOrder(rects[..], order)) && trace[0] == old(View()) && trace[rects.Length] == View()
      ensures AllRight(trace, InOrder(rects[..], order))
    {
      SortedByHeight(rects[..], order);
      ghost var given, before := rects[..], placed;
      TagAll(rects);
      ghost var tagged := rects[..];
      Rearrange(rects, order);
      ghost var sorted := rects[..];
      trace := PackBoxes(rects);
      ghost var packed := rects[..];
      Rearrange(rects, back);
      ghost var unsorted := rects[..];
      all := SetFlags(rects);
      Answered(View(), before, given, tagged, sorted, packed, unsorted, rects[..], order, back);
      RunInOrder(trace, packed, unsorted, rects[..], order, back);
      StillByHeight(given, rects[..], order);
      RunIsRight(trace, InOrder(rects[..], order));
    }
  }

  lemma {:induction false} OnceSum(a: multiset<int>, b: multiset<int>, v: int)
    requires Once(a + b)
    ensures a[v] + b[v] <= 1
  {
    assert AtMostOne(a + b, v);
  }

  /** Membership consequences of no node occurring twice. */
  lemma {:induction false} HookFacts(active: seq<int>, free: seq<int>, k: nat)
    requires Once(multiset(active) + multiset(free)) && free != [] && k < |active|
    ensures free[0] !in active
  {
    OnceSum(multiset(active), multiset(free), free[0]);
    assert free[0] in multiset(free);
  }

  /** The three parts and the free list after redirecting the link before position `a`. */
  lemma {:induction false} HookedLinks(next: seq<int>, active: seq<int>, free: seq<int>, a: nat, node: int)
    requires Linked(next, active, NULL) && Linked(next, free, NULL) && (a > 0 ==> Within(active, a - 1, |next|))
    requires Once(multiset(active) + multiset(free)) && free != [] && a < |active| && node == free[0] && 0 <= node < |next|
    ensures var n := if a > 0 then next[active[a - 1] := node] else next;
      && Linked(n, active[..a], node) && Linked(n, active[a..], NULL) && Linked(n, free[1..], NULL)
      && Once(multiset(active[..a]) + multiset([node]) + multiset(active[a..]) + multiset(free[1..]))
      && next[node] == First(free[1..], NULL)
  {
    var front, back, rest := active[..a], active[a..], free[1..];
    assert active == front + back && free == [node] + rest;
    assert multiset(active) + multiset(free) == multiset(front) + multiset([node]) + multiset(back) + multiset(rest);
    LinkedSplit(next, front, back, NULL);
    if a > 0 {
      var last, init := active[a - 1], active[..a - 1];
      assert front == init + [last];
      NotElsewhere(init, last, back, rest, node);
      LinkedRetarget(next, init, last, First(back, NULL), node);
      LinkedFrame(next, back, NULL, last, node);
      LinkedFrame(next, rest, NULL, last, node);
    }
  }

  lemma {:induction false} NotElsewhere(init: seq<int>, last: int, back: seq<int>, rest: seq<int>, node: int)
    requires Once(multiset(init + [last]) + multiset([node]) + multiset(back) + multiset(rest))
    ensures last !in init && last !in back && last !in rest && last != node
  {
    var m := multiset(init + [last]) + multiset([node]) + multiset(back) + multiset(rest);
    assert multiset(init + [last]) == multiset(init) + multiset([last]);
    assert AtMostOne(m, last);
    assert m[last] == multiset(init)[last] + 1 + multiset([node])[last] + multiset(back)[last] + multiset(rest)[last];
  }

  /** Moving the head of the old nodes to the front of the free list. */
  lemma {:induction false} ReleasedLinks(next: seq<int>, front: seq<int>, node: int, back: seq<int>, free: seq<int>)
    requires Linked(next, front, node) && Linked(next, back, NULL) && Linked(next, free, NULL) && |back| >= 2
    requires Within(back, 0, |next|)
    requires Once(multiset(front) + multiset([node]) + multiset(back) + multiset(free))
    ensures var n := next[back[0] := First(free, NULL)];
      && Linked(n, front, node) && Linked(n, back[1..], NULL) && Linked(n, [back[0]] + free, NULL)
      && Once(multiset(front) + multiset([node]) + multiset(back[1..]) + multiset([back[0]] + free))
  {
    var cur, rest := back[0], back[1..];
    assert back == [cur] + rest;
    assert multiset(front) + multiset([node]) + multiset(rest) + multiset([cur] + free)
        == multiset(front) + multiset([node]) + multiset(back) + multiset(free);
    HeadApart(front, node, cur, rest, free);
    LinkedFrame(next, front, node, cur, First(free, NULL));
    LinkedFrame(next, rest, NULL, cur, First(free, NULL));
    LinkedFrame(next, free, NULL, cur, First(free, NULL));
    assert ([cur] + free)[1..] == free;
  }

  lemma {:induction false} HeadApart(front: seq<int>, node: int, cur: int, rest: seq<int>, free: seq<int>)
    requires Once(multiset(front) + multiset([node]) + multiset([cur] + rest) + multiset(free))
    ensures cur !in front && cur !in rest && cur !in free && cur != node
  {
    var m := multiset(front) + multiset([node]) + multiset([cur] + rest) + multiset(free);
    assert multiset([cur] + rest) == multiset([cur]) + multiset(rest);
    assert AtMostOne(m, cur);
    assert m[cur] == multiset(front)[cur] + multiset([node])[cur] + 1 + multiset(rest)[cur] + multiset(free)[cur];
  }

  /** Linking the new node to the first surviving old one makes one list again. */
  lemma {:induction false} JoinedLinks(next: seq<int>, front: seq<int>, node: int, back: seq<int>, free: seq<int>)
    requires Linked(next, front, node) && Linked(next, back, NULL) && Linked(next, free, NULL) && back != []
    requires 0 <= node < |next|
    requires Once(multiset(front) + multiset([node]) + multiset(back) + multiset(free))
    ensures var n := next[node := back[0]];
      && Linked(n, front + [node] + back, NULL) && Linked(n, free, NULL)
      && Once(multiset(front + [node] + back) + multiset(free))
  {
    var n := next[node := back[0]];
    var m := multiset(front) + multiset([node]) + multiset(back) + multiset(free);
    assert m == multiset(front + [node] + back) + multiset(free);
    assert AtMostOne(m, node);
    assert m[node] == multiset(front)[node] + 1 + multiset(back)[node] + multiset(free)[node];
    LinkedFrame(next, front, node, node, back[0]);
    LinkedFrame(next, back, NULL, node, back[0]);
    LinkedFrame(next, free, NULL, node, back[0]);
    LinkedSplit(n, [node], back, NULL);
    LinkedSplit(n, front, [node] + back, NULL);
    assert front + [node] + back == front + ([node] + back);
  }

  lemma {:induction false} InRangeParts(list: seq<int>, a: nat, n: nat)
    requires InRange(list, n) && a <= |list|
    ensures InRange(list[..a], n) && InRange(list[a..], n)
  {
    forall i | 0 <= i < a ensures Within(list[..a], i, n) { assert Within(list, i, n); }
    forall i | 0 <= i < |list| - a ensures Within(list[a..], i, n) { assert Within(list, a + i, n); }
  }

  lemma {:induction false} InRangeJoin(a: seq<int>, b: seq<int>, n: nat)
    requires InRange(a, n) && InRange(b, n)
    ensures InRange(a + b, n)
  {
    forall i | 0 <= i < |a + b| ensures Within(a + b, i, n) {
      if i < |a| { assert Within(a, i, n); } else { assert Within(b, i - |a|, n); }
    }
  }

  ghost predicate ColumnAt(xs: seq<int>, back: seq<int>, sky: seq<Seg>, a: nat, i: nat) {
    a + i < |sky| && i < |back| && 0 <= back[i] < |xs| && xs[back[i]] == sky[a + i].x
  }

  /** The nodes not yet dealt with still start where the rest of the old skyline does. */
  ghost predicate ColumnsFrom(xs: seq<int>, back: seq<int>, sky: seq<Seg>, a: nat) {
    && a + |back| == |sky|
    && forall i {:trigger ColumnAt(xs, back, sky, a, i)} :: 0 <= i < |back| ==> ColumnAt(xs, back, sky, a, i)
  }

  lemma {:induction false} BackColumns(xs: seq<int>, ys: seq<int>, active: seq<int>, node: int, x: int, a: nat)
    requires |xs| == |ys| && InRange(active, |xs|) && 0 <= node < |xs| && node !in active && a <= |active|
    ensures ColumnsFrom(xs[node := x], active[a..], SkyOf(xs, ys, active), a)
  {
    var back, sky := active[a..], SkyOf(xs, ys, active);
    var xs2 := xs[node := x];
    forall i | 0 <= i < |back| ensures ColumnAt(xs2, back, sky, a, i) {
      assert Within(active, a + i, |xs|) && back[i] == active[a + i];
    }
  }

  lemma {:induction false} TailTail(list: seq<int>, c: nat)
    requires 0 < c < |list|
    ensures list[c - 1..][1..] == list[c..] && list[c..][1..] == list[c + 1..]
  {
  }

  lemma {:induction false} DropDrop(list: seq<int>, a: nat, c: nat)
    requires a + c < |list|
    ensures list[a..][c..] == list[a + c..] && list[a..][c] == list[a + c]
  {
  }

  /** The relinked nodes describe the spliced skyline. */
  lemma {:induction false} SplicedSky(xs: seq<int>, ys: seq<int>, active: seq<int>, node: int, k: nat, x: int, w: int, top: int,
                   xs2: seq<int>, list: seq<int>, a: nat, c: nat)
    requires |xs| == |ys| && InRange(active, |xs|) && 0 <= node < |xs| && node !in active && k < |active|
    requires Once(multiset(active)) && a == Kept(SkyOf(xs, ys, active), k, x) < |active|
    requires a + c == Survivor(SkyOf(xs, ys, active), a, x + w) && a + c < |active|
    requires list == active[..a] + [node] + active[a..][c..] && 0 <= active[a..][c] < |xs|
    requires xs2 == xs[node := x][active[a..][c] := Greatest(xs[node := x][active[a..][c]], x + w)]
    ensures InRange(list, |xs|) && |xs2| == |xs|
    ensures SkyOf(xs2, ys[node := top], list) == Place(SkyOf(xs, ys, active), k, x, w, top)
  {
    DropDrop(active, a, c);
    var cur := active[a + c];
    assert xs[node := x][cur] == xs[cur];
    SplicedAt(xs, ys, active, node, k, x, w, top);
  }

  lemma {:induction false} SplicedAt(xs: seq<int>, ys: seq<int>, active: seq<int>, node: int, k: nat, x: int, w: int, top: int)
    requires |xs| == |ys| && InRange(active, |xs|) && 0 <= node < |xs| && node !in active && k < |active|
    requires Once(multiset(active)) && Kept(SkyOf(xs, ys, active), k, x) < |active|
    ensures var sky := SkyOf(xs, ys, active);
      var a := Kept(sky, k, x); var c := Survivor(sky, a, x + w); var cur := active[c];
      var list := active[..a] + [node] + active[c..];
      && InRange(list, |xs|) && 0 <= cur < |xs|
      && SkyOf(xs[node := x][cur := Greatest(xs[cur], x + w)], ys[node := top], list) == Place(sky, k, x, w, top)
  {
    var sky := SkyOf(xs, ys, active);
    var a := Kept(sky, k, x);
    var c := Survivor(sky, a, x + w);
    var cur, list := active[c], active[..a] + [node] + active[c..];
    assert Within(active, c, |xs|);
    InRangeParts(active, a, |xs|);
    InRangeParts(active, c, |xs|);
    assert InRange([node], |xs|);
    InRangeJoin(active[..a], [node], |xs|);
    InRangeJoin(active[..a] + [node], active[c..], |xs|);
    PlaceParts(sky, k, x, w, top);
    var n := SkyOf(xs[node := x][cur := Greatest(xs[cur], x + w)], ys[node := top], list);
    forall i | 0 <= i < |n| ensures n[i] == Place(sky, k, x, w, top)[i] {
      if i < a {
        assert Within(active, i, |xs|);
        OnceApart(active, i, c);
      } else if i > a + 1 {
        assert list[i] == active[i - a - 1 + c] && Within(active, i - a - 1 + c, |xs|);
        OnceApart(active, c, i - a - 1 + c);
      }
    }
  }

  lemma {:induction false} OnceApart(list: seq<int>, i: nat, j: nat)
    requires Once(multiset(list)) && i < j < |list|
    ensures list[i] != list[j]
  {
    assert list == list[..j] + list[j..];
    assert multiset(list) == multiset(list[..j]) + multiset(list[j..]);
    assert list[..j][i] == list[i] && list[j..][0] == list[j];
    assert AtMostOne(multiset(list), list[i]);
  }

  lemma {:induction false} OnceFirst(a: seq<int>, b: seq<int>)
    requires Once(multiset(a) + multiset(b))
    ensures Once(multiset(a))
  {
    forall i ensures AtMostOne(multiset(a), i) {
      assert AtMostOne(multiset(a) + multiset(b), i);
    }
  }

  predicate Refused(p: Packing, h: int, b: Best) {
    b.node.None? || b.y + h > p.t.height || p.free == 0
  }

  lemma {:induction false} Packable(p: Packing, w: int, h: int, b: Best)
    requires p.Ok() && w > 0 && h > 0 && b == FindBest(p.sky, p.t, w, h) && !Refused(p, h, b)
    ensures b.node.value < |p.sky| - 1 && Kept(p.sky, b.node.value, b.x) < |p.sky|
  {
    SearchFinds(p, w, h);
    Splices(p, w, h, b);
    FoundNode(p, w, h, b);
  }

  /** The two outcomes of a pack, by what the search found. */
  lemma {:induction false} PackIs(p: Packing, w: int, h: int, b: Best, n: Packing, spot: Option<Spot>)
    requires p.Ok() && w > 0 && h > 0 && b == FindBest(p.sky, p.t, w, h)
    requires Refused(p, h, b) ==> n == p && spot == None
    requires !Refused(p, h, b) ==>
      && b.node.value < |p.sky| - 1 && Kept(p.sky, b.node.value, b.x) < |p.sky|
      && n.sky == Place(p.sky, b.node.value, b.x, w, b.y + h) && n.t == p.t && n.free + |n.sky| == p.free + |p.sky|
      && spot == Some(Spot(b.x, b.y))
    ensures n.Ok() && (n, spot) == Pack(p, w, h)
  {
    SearchFinds(p, w, h);
    if !Refused(p, h, b) { Splices(p, w, h, b); }
  }

  lemma {:induction false} FoundNode(p: Packing, w: int, h: int, b: Best)
    requires p.Ok() && w > 0 && Found(p, w, h, b) && b.node.Some?
    ensures b.node.value < |p.sky| - 1
  {
  }

  // ---- sorting and unsorting ---------------------------------------------------------------

  /** rect_height_compare. */
  function HeightCompare(p: Box, q: Box): int {
    if p.h > q.h then -1
    else if p.h < q.h then 1
    else if p.w > q.w then -1 else if p.w < q.w then 1 else 0
  }

  /** `order` lists each index below `n` once. */
  predicate IsOrder(order: seq<nat>, n: nat) {
    && |order| == n && (forall i :: 0 <= i < n ==> order[i] < n)
    && (forall i, j :: 0 <= i < j < n ==> order[i] != order[j])
  }

  /** Taller boxes first, and wider ones first among those of equal height. */
  predicate ByHeight(boxes: seq<Box>, order: seq<nat>)
    requires IsOrder(order, |boxes|)
  {
    forall i, j :: 0 <= i < j < |boxes| ==>
      var p, q := boxes[order[i]], boxes[order[j]];
      p.h >= q.h && (p.h == q.h ==> p.w >= q.w)
  }

  /** The orders a sort with that comparison can produce are exactly these. */
  lemma {:induction false} SortedByHeight(boxes: seq<Box>, order: seq<nat>)
    requires IsOrder(order, |boxes|)
    ensures ByHeight(boxes, order) <==>
      forall i, j :: 0 <= i < j < |boxes| ==> HeightCompare(boxes[order[i]], boxes[order[j]]) <= 0
  {
    forall i, j | 0 <= i < j < |boxes|
      ensures var p, q := boxes[order[i]], boxes[order[j]];
        HeightCompare(p, q) <= 0 <==> p.h >= q.h && (p.h == q.h ==> p.w >= q.w)
    {
    }
  }

  lemma {:induction false} StillByHeight(given: seq<Box>, out: seq<Box>, order: seq<nat>)
    requires IsOrder(order, |given|) && ByHeight(given, order) && |out| == |given|
    requires forall i :: 0 <= i < |out| ==> Answers(out[i], given[i])
    ensures ByHeight(out, order)
  {
    forall i, j | 0 <= i < j < |out|
      ensures var p, q := out[order[i]], out[order[j]]; p.h >= q.h && (p.h == q.h ==> p.w >= q.w)
    {
      assert Answers(out[order[i]], given[order[i]]) && Answers(out[order[j]], given[order[j]]);
    }
  }

  /** `back` sorts boxes whose tags are their positions in `order`. */
  predicate ByTag(order: seq<nat>, back: seq<nat>)
    requires IsOrder(order, |order|) && IsOrder(back, |order|)
  {
    forall i, j :: 0 <= i < j < |order| ==> order[back[i]] <= order[back[j]]
  }

  lemma {:induction false} TagAtLeast(order: seq<nat>, back: seq<nat>, i: nat)
    requires IsOrder(order, |order|) && IsOrder(back, |order|) && ByTag(order, back) && i < |order|
    ensures order[back[i]] >= i
  {
    if i > 0 {
      TagAtLeast(order, back, i - 1);
      assert back[i - 1] != back[i];
    }
  }

  lemma {:induction false} TagAtMost(order: seq<nat>, back: seq<nat>, i: nat)
    requires IsOrder(order, |order|) && IsOrder(back, |order|) && ByTag(order, back) && i < |order|
    ensures order[back[i]] <= i
    decreases |order| - i
  {
    if i + 1 < |order| {
      TagAtMost(order, back, i + 1);
      assert back[i] != back[i + 1];
    }
  }

  /** Sorting by tag puts every box back where it came from. */
  lemma {:induction false} BackInverts(order: seq<nat>, back: seq<nat>, i: nat)
    requires IsOrder(order, |order|) && IsOrder(back, |order|) && ByTag(order, back) && i < |order|
    ensures order[back[i]] == i
  {
    TagAtLeast(order, back, i);
    TagAtMost(order, back, i);
  }

  method TagAll(rects: array<Box>)
    modifies rects
    ensures Tagged(rects[..], old(rects[..]))
  {
    for i := 0 to rects.Length
      invariant forall j :: 0 <= j < rects.Length ==> rects[j] == if j < i then old(rects[j]).(tag := j) else old(rects[j])
    {
      rects[i] := rects[i].(tag := i);
    }
  }

  /** What a sort does to the array. */
  method Rearrange(rects: array<Box>, order: seq<nat>)
    requires IsOrder(order, rects.Length)
    modifies rects
    ensures Arranged(rects[..], old(rects[..]), order)
  {
    var boxes := rects[..];
    for i := 0 to rects.Length
      invariant forall j :: 0 <= j < i ==> rects[j] == boxes[order[j]]
    {
      rects[i] := boxes[order[i]];
    }
  }

  /** The final was_packed flags. */
  method SetFlags(rects: array<Box>) returns (all: bool)
    modifies rects
    ensures Flagged(rects[..], old(rects[..]))
    ensures all <==> forall i :: 0 <= i < rects.Length ==> rects[i].tag == 1
  {
    all := true;
    for i := 0 to rects.Length
      invariant forall j :: 0 <= j < rects.Length ==>
        rects[j] == if j < i then old(rects[j]).(tag := if IsPacked(old(rects[j])) then 1 else 0) else old(rects[j])
      invariant all <==> forall j :: 0 <= j < i ==> rects[j].tag == 1
    {
      rects[i] := rects[i].(tag := if IsPacked(rects[i]) then 1 else 0);
      if rects[i].tag == 0 {
        all := false;
      }
    }
  }

  // ---- what a call answers -------------------------------------------------------------------

  /** The box handed in, in its place, with the flag telling whether it has a position. */
  predicate Answers(out: Box, given: Box) {
    && out.id == given.id && out.w == given.w && out.h == given.h
    && out.tag == if IsPacked(out) then 1 else 0
  }

  /** A packed, non-empty box lies inside the target and clear of earlier rectangles. */
  predicate WellPlaced(t: Target, before: seq<Rect>, b: Box) {
    b.w > 0 && b.h > 0 && IsPacked(b) ==>
      var r := Rect(b.x, b.y, b.w, b.h);
      Inside(r, t) && forall k :: 0 <= k < |before| ==> Disjoint(before[k], r)
  }

  /** Two packed, non-empty boxes do not overlap. */
  predicate Apart(a: Box, b: Box) {
    a.w > 0 && a.h > 0 && IsPacked(a) && b.w > 0 && b.h > 0 && IsPacked(b) ==>
      Disjoint(Rect(a.x, a.y, a.w, a.h), Rect(b.x, b.y, b.w, b.h))
  }

  ghost predicate AllAnswered(t: Target, before: seq<Rect>, given: seq<Box>, out: seq<Box>) {
    && |out| == |given|
    && (forall i :: 0 <= i < |out| ==> Answers(out[i], given[i]) && WellPlaced(t, before, out[i]))
    && (forall i, j :: 0 <= i < j < |out| ==> Apart(out[i], out[j]))
  }

  /** `out` is `boxes` rearranged. */
  predicate Arranged(out: seq<Box>, boxes: seq<Box>, order: seq<nat>)
    requires IsOrder(order, |boxes|)
  {
    |out| == |boxes| && forall i :: 0 <= i < |out| ==> out[i] == boxes[order[i]]
  }

  predicate Tagged(out: seq<Box>, boxes: seq<Box>) {
    |out| == |boxes| && forall i :: 0 <= i < |out| ==> out[i] == boxes[i].(tag := i)
  }

  predicate Flagged(out: seq<Box>, boxes: seq<Box>) {
    |out| == |boxes| && forall i :: 0 <= i < |out| ==> out[i] == boxes[i].(tag := if IsPacked(boxes[i]) then 1 else 0)
  }

  function InOrder(boxes: seq<Box>, order: seq<nat>): seq<Box>
    requires IsOrder(order, |boxes|)
  {
    seq(|order|, i requires 0 <= i < |order| => boxes[order[i]])
  }

  lemma {:induction false} OrderInverts(order: seq<nat>, back: seq<nat>, i: nat)
    requires IsOrder(order, |order|) && IsOrder(back, |order|) && ByTag(order, back) && i < |order|
    ensures back[order[i]] == i
  {
    BackInverts(order, back, order[i]);
  }

  /** The answers, taken in the sorted order, are the run's. */
  lemma {:induction false} RunInOrder(trace: seq<Packing>, packed: seq<Box>, unsorted: seq<Box>, out: seq<Box>, order: seq<nat>, back: seq<nat>)
    requires IsRun(trace, packed) && IsOrder(order, |packed|) && IsOrder(back, |packed|) && ByTag(order, back)
    requires Arranged(unsorted, packed, back) && Flagged(out, unsorted)
    ensures IsRun(trace, InOrder(out, order))
  {
    var boxes := InOrder(out, order);
    forall i | 0 <= i < |boxes| ensures StepAt(trace, boxes, i) {
      OrderInverts(order, back, i);
      assert StepAt(trace, packed, i);
    }
  }

  /** Tagging, sorting, packing, unsorting and flagging answer every box in its place. */
  lemma {:induction false} Answered(p: Packing, before: seq<Rect>, given: seq<Box>, tagged: seq<Box>, sorted: seq<Box>, packed: seq<Box>,
                 unsorted: seq<Box>, out: seq<Box>, order: seq<nat>, back: seq<nat>)
    requires SkylinePacking.Sound(p, before + AllPacked(packed))
    requires IsOrder(order, |given|) && IsOrder(back, |given|) && ByTag(order, back)
    requires Tagged(tagged, given) && Arranged(sorted, tagged, order) && |packed| == |given| && SameBoxes(packed, sorted)
    requires Arranged(unsorted, packed, back) && Flagged(out, unsorted)
    ensures AllAnswered(p.t, before, given, out)
  {
    forall i | 0 <= i < |out| ensures Answers(out[i], given[i]) && WellPlaced(p.t, before, out[i]) {
      BackInverts(order, back, i);
      assert SameAt(packed, sorted, back[i]);
      PackedWell(p, before, packed, back[i]);
    }
    forall i, j | 0 <= i < j < |out| ensures Apart(out[i], out[j]) {
      PackedApart(p, before, packed, back[i], back[j]);
    }
  }

  lemma {:induction false} AllPackedAt(boxes: seq<Box>, i: nat)
    requires i < |boxes|
    ensures AllPacked(boxes[..i]) + PackedOf(boxes[i]) <= AllPacked(boxes)
  {
    if i == |boxes| - 1 {
    } else {
      var front := boxes[..|boxes| - 1];
      AllPackedAt(front, i);
      assert front[..i] == boxes[..i];
    }
  }

  lemma {:induction false} PackedWell(p: Packing, before: seq<Rect>, boxes: seq<Box>, i: nat)
    requires SkylinePacking.Sound(p, before + AllPacked(boxes)) && i < |boxes|
    ensures WellPlaced(p.t, before, boxes[i])
  {
    AllPackedAt(boxes, i);
    if PackedOf(boxes[i]) != [] {
      var all, at := before + AllPacked(boxes), |before| + |AllPacked(boxes[..i])|;
      assert all[at] == PackedOf(boxes[i])[0];
      forall k | 0 <= k < |before| ensures Disjoint(before[k], all[at]) {
        assert all[k] == before[k];
      }
    }
  }

  lemma {:induction false} PackedApart(p: Packing, before: seq<Rect>, boxes: seq<Box>, i: nat, j: nat)
    requires SkylinePacking.Sound(p, before + AllPacked(boxes)) && i < |boxes| && j < |boxes| && i != j
    ensures Apart(boxes[i], boxes[j])
  {
    if i > j {
      PackedApart(p, before, boxes, j, i);
    } else {
      AllPackedAt(boxes, i);
      AllPackedAt(boxes, j);
      AllPackedAt(boxes[..j], i);
      assert boxes[..j][..i] == boxes[..i];
      if PackedOf(boxes[i]) != [] && PackedOf(boxes[j]) != [] {
        var all := before + AllPacked(boxes);
        var ati, atj := |before| + |AllPacked(boxes[..i])|, |before| + |AllPacked(boxes[..j])|;
        assert all[ati] == PackedOf(boxes[i])[0] && all[atj] == PackedOf(boxes[j])[0];
      }
    }
  }

  /** The links of a fresh target: every user node free, the two extra ones active. */
  method InitLinks(next: array<int>, n: nat)
    requires next.Length == n + 2 && n > 0
    modifies next
    ensures Linked(next[..], [n, n + 1], NULL) && Linked(next[..], Range(0, n), NULL)
    ensures Once(multiset([n, n + 1]) + multiset(Range(0, n)))
  {
    for i := 0 to n - 1
      invariant forall j :: 0 <= j < i ==> next[j] == j + 1
    {
      next[i] := i + 1;
    }
    next[n - 1] := NULL;
    next[n] := n + 1;
    next[n + 1] := NULL;
    FreshLists(next[..], n);
  }

  lemma {:induction false} FreshSky(xs: seq<int>, ys: seq<int>, n: nat, width: int)
    requires |xs| == |ys| == n + 2 && xs[n] == 0 && ys[n] == 0 && xs[n + 1] == width && ys[n + 1] == TOP
    ensures InRange([n, n + 1], n + 2) && SkyOf(xs, ys, [n, n + 1]) == [Seg(0, 0), Seg(width, TOP)]
  {
  }

  // ---- the lists of a fresh target --------------------------------------------------------

  ghost function Range(i: nat, n: nat): (r: seq<int>)
    requires i <= n
    ensures |r| == n - i && forall j :: 0 <= j < |r| ==> r[j] == i + j
    decreases n - i
  {
    if i == n then [] else [i] + Range(i + 1, n)
  }

  lemma {:induction false} RangeLinked(next: seq<int>, i: nat, n: nat)
    requires i <= n < |next| && (n > 0 ==> next[n - 1] == NULL)
    requires forall j :: 0 <= j < n - 1 ==> next[j] == j + 1
    ensures Linked(next, Range(i, n), NULL)
    decreases n - i
  {
    if i < n {
      RangeLinked(next, i + 1, n);
      assert Range(i, n)[1..] == Range(i + 1, n);
    }
  }

  lemma {:induction false} RangeOnce(i: nat, n: nat, v: int)
    requires i <= n
    ensures multiset(Range(i, n))[v] == if i <= v < n then 1 else 0
    decreases n - i
  {
    if i < n {
      RangeOnce(i + 1, n, v);
      CountFirst(i, Range(i + 1, n), v);
    }
  }

  lemma {:induction false} CountFirst(x: int, s: seq<int>, v: int)
    ensures multiset([x] + s)[v] == multiset(s)[v] + if x == v then 1 else 0
  {
    assert multiset([x] + s) == multiset([x]) + multiset(s);
  }

  lemma {:induction false} FreshLists(next: seq<int>, n: nat)
    requires |next| == n + 2 && n > 0
    requires forall i :: 0 <= i < n + 2 ==> next[i] == if i == n - 1 || i == n + 1 then NULL else i + 1
    ensures Linked(next, [n, n + 1], NULL) && Linked(next, Range(0, n), NULL)
    ensures Once(multiset([n, n + 1]) + multiset(Range(0, n)))
  {
    assert [n, n + 1][1..] == [n + 1] && [n + 1][1..] == [];
    assert Linked(next, [n + 1], NULL);
    RangeLinked(next, 0, n);
    var m := multiset([n, n + 1]) + multiset(Range(0, n));
    forall v ensures m[v] <= 1 {
      RangeOnce(0, n, v);
    }
  }

  /** The step of the right-aligned scan, given the node it comes to. */
  lemma {:induction false} RightStepTo(sky: seq<Seg>, t: Target, w: int, h: int, tail: nat, node: nat, i: nat, best: Best)
    requires Shape(sky, t.width) && w > 0 && tail < |sky|
    requires sky[tail].x >= w && node < |sky| - 1 && sky[node].x <= sky[tail].x - w && Covers(sky, i, sky[tail].x - w)
    requires sky[tail].x <= sky[|sky| - 1].x
    ensures tail + 1 < |sky| ==> sky[tail + 1].x >= w && sky[i].x <= sky[tail + 1].x - w
    ensures ScanRight(sky, t, w, h, tail, node, best) ==
      ScanRight(sky, t, w, h, tail + 1, i, TakeRight(t, h, i, sky[tail].x - w, MinY(sky, i, sky[tail].x - w, w), best))
  {
    var k, next := RightStep(sky, t, w, h, tail, node, best);
    NodeIsUnique(sky, t.width, i, k, sky[tail].x - w);
  }
}
