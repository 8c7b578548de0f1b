// The rectangle packer: a skyline kept as a linked list of nodes, with the unused nodes
// threaded on a free list, both edited in place.
module RectPacker {
  import opened Counting
  import opened Skyline
  import opened Packing
  import opened Search
  import opened NodeLists

  // A pointer to the pointer through which a list node is reached.
  datatype Link = NoLink | Head | After(node: int)

  function LinkAt(active: seq<int>, k: int): Link
    requires k <= |active|
  {
    if k < 0 then NoLink else if k == 0 then Head else After(active[k-1])
  }

  // The packer widens boxes to a multiple of its alignment before it looks for a place.
  function RoundUp(w: int, align: int): (r: int)
    requires align >= 1
    ensures w <= r < w + align
  {
    w + align - 1 - (w + align - 1) % align
  }

  lemma RoundUpIs(w: int, align: int)
    requires align >= 1
    ensures RoundUp(w, align) == w + align - 1 - (w + align - 1) % align
  {
  }

  // The settings that a target keeps while boxes are placed.
  datatype Target = Target(width: int, height: int, numNodes: int, align: int, bestFit: bool)

  // The skyline and the number of nodes left.
  datatype PackState = PackState(sky: seq<Step>, free: int)

  ghost predicate IsState(t: Target, st: PackState) {
    && t.numNodes >= 1 && t.align >= 1
    && 1 <= t.width <= 0x7fff_ffff && 0 <= t.height <= SENTINEL_Y
    && IsSkyline(st.sky, t.width, t.height) && FilledFromLeft(st.sky)
    && 0 <= st.free && |st.sky| + st.free == t.numNodes + 2
  }

  // What a request asks of the search.
  function QueryOf(t: Target, w: int, h: int): Query
    requires t.align >= 1
  {
    Query(RoundUp(w, t.align), h, t.height, t.bestFit)
  }

  // One request: the state after it and the box placed, if any.
  function PackStep(t: Target, st: PackState, w: int, h: int): (PackState, seq<Box>)
    requires |st.sky| >= 2 && Increasing(st.sky) && st.sky[0].x == 0 && t.align >= 1 && 0 < w
  {
    var b := FindBest(st.sky, QueryOf(t, w, h));
    if b.k < 0 || b.k + 1 >= |st.sky| || b.y + h > t.height || st.free == 0 then (st, [])
    else
      var sky := Place(st.sky, b.k, b.x, w, b.y + h);
      (PackState(sky, st.free + |st.sky| - |sky|), [Box(b.x, b.y, w, h)])
  }

  // A box put where the search says extends the packing and leaves a skyline behind.
  lemma BoxPlaced(s: seq<Step>, width: int, height: int, placed: seq<Box>, q: Query, b: Best, w: int)
    requires IsSkyline(s, width, height) && IsPacking(placed, Profile(s), height)
    requires 0 < w <= q.w && 0 < q.h && q.height == height && b.y + q.h <= height
    requires Searchable(s, q) && IsPlace(s, q, b)
    ensures var t := Place(s, b.k, b.x, w, b.y + q.h);
      IsSkyline(t, width, height) && IsPacking(placed + [Box(b.x, b.y, w, q.h)], Profile(t), height)
  {
    hide Profile, Place, IsPacking, RestAt;
    var e, p, top := RaisedTo(s, b.k, b.x, w), Profile(s), b.y + q.h;
    PlaceRaisesProfile(s, width, height, b.k, b.x, w, top);
    RestIsMax(p, b.x, q.w);
    RestingMonotone(p, b.x, e, b.x + q.w);
    PackingGrows(placed, p, height, Box(b.x, b.y, w, q.h), e);
  }

  // Every request keeps the packer's state and its packing sound, and is met exactly when a
  // node is left and some place fits.
  lemma PackStepMeaning(t: Target, st: PackState, w: int, h: int, placed: seq<Box>)
    requires IsState(t, st) && 0 < w && 0 < h && IsPacking(placed, Profile(st.sky), t.height)
    ensures var b := FindBest(st.sky, QueryOf(t, w, h));
      var (st', bs) := PackStep(t, st, w, h);
      && IsState(t, st') && IsPacking(placed + bs, Profile(st'.sky), t.height)
      && (bs != [] <==> st.free > 0 && Fits(Profile(st.sky), t.height, RoundUp(w, t.align), h))
      && (bs != [] <==> b.k >= 0 && b.y + h <= t.height && st.free > 0)
      && (bs == [] ==> st' == st)
      && (bs != [] ==>
            && b.k + 1 < |st.sky| && bs == [Box(b.x, b.y, w, h)]
            && st'.sky == Place(st.sky, b.k, b.x, w, b.y + h)
            && st'.free >= st.free - 1)
  {
    hide IsSkyline, IsPacking, Profile, Place, FindBest, Fits, RoundUp, Increasing, IsLowest, IsTightest, IsBottomLeft,
         RestAt, StopAt, FilledFromLeft;
    var s, q := st.sky, QueryOf(t, w, h);
    SkylineIsIncreasing(s, t.width, t.height);
    SkylineAboveGround(s, t.width, t.height);
    FindBestMeaning(s, q);
    BestKeepsFilled(s, q, w);
    var b := FindBest(s, q);
    assert placed + [] == placed;
    if b.k >= 0 && b.y + h <= t.height && st.free > 0 {
      BoxPlaced(s, t.width, t.height, placed, q, b, w);
      PlaceShape(s, b.k, b.x, w, b.y + h);
    }
  }

  // A request that is met gets the lowest of all places: the leftmost of them, or the one that
  // leaves the least area of those tried.
  lemma PackStepIsBest(t: Target, st: PackState, w: int, h: int)
    requires IsState(t, st) && 0 < w && 0 < h
    ensures var q, bs := QueryOf(t, w, h), PackStep(t, st, w, h).1;
      bs != [] ==>
        && Searchable(st.sky, q) && 0 <= bs[0].x && bs[0].x + q.w <= |Profile(st.sky)|
        && bs[0].y == RestAt(Profile(st.sky), bs[0].x, q.w) && IsLowest(Profile(st.sky), q.w, bs[0].y)
        && if t.bestFit then IsEdge(st.sky, q, bs[0].x) && IsSnug(st.sky, q, FindBest(st.sky, q))
           else IsBottomLeft(Profile(st.sky), q.w, bs[0].x, bs[0].y)
  {
    hide IsSkyline, Profile, Place, FindBest, RoundUp, Increasing, IsLowest, IsTightest, IsBottomLeft, RestAt,
         FilledFromLeft, IsSnug, IsEdge, WasteAt;
    var s, q := st.sky, QueryOf(t, w, h);
    SkylineIsIncreasing(s, t.width, t.height);
    SkylineAboveGround(s, t.width, t.height);
    FindBestMeaning(s, q);
    if PackStep(t, st, w, h).1 != [] && t.bestFit { TightestIsSnug(s, q, FindBest(s, q)); }
  }

  lemma RestIsMax(p: seq<int>, x: int, w: int)
    requires 0 <= x && 0 <= w && x + w <= |p|
    ensures RestAt(p, x, w) == MaxOver(p, x, x + w) >= 0
  {
  }

  function Iota(n: nat): (s: seq<int>)
    ensures |s| == n && forall i :: 0 <= i < n ==> s[i] == i
  {
    seq(n, i => i)
  }

  lemma InitialLists(ns: seq<Node>, n: nat)
    requires n >= 1 && |ns| == n + 2
    requires (forall j :: 0 <= j < n - 1 ==> ns[j].next == j + 1) && ns[n-1].next == NIL
    requires ns[n].next == n + 1 && ns[n+1].next == NIL
    ensures Run(ns, n, [n, n + 1], NIL) && Run(ns, 0, Iota(n), NIL)
    ensures Partition([n, n + 1], Iota(n), n + 2)
  {
    var f := Iota(n);
    forall i | 0 <= i < |f| ensures ns[f[i]].next == Successor(f, i, NIL) {
      assert f[i] == i;
      if i + 1 < |f| { assert f[i+1] == i + 1; }
    }
    assert f[0] == 0;
  }

  lemma InitialPacking(width: int, height: int)
    requires 1 <= width && 0 <= height
    ensures var s := [Step(0, 0), Step(width, SENTINEL_Y)];
      IsSkyline(s, width, height) && FilledFromLeft(s) && IsPacking([], Profile(s), height)
  {
    var s := [Step(0, 0), Step(width, SENTINEL_Y)];
    SegmentIsFlat(s, 0);
    SumOfConstant(Profile(s), 0, width, 0);
  }

  // The default rounding is the least number that, times the nodes, covers the width.
  lemma AlignIsLeast(width: int, numNodes: int)
    requires 1 <= width && 1 <= numNodes
    ensures var a := (width + numNodes - 1) / numNodes;
      a >= 1 && numNodes * a >= width && numNodes * (a - 1) < width
  {
    var m := width + numNodes - 1;
    assert m == numNodes * (m / numNodes) + m % numNodes;
    assert numNodes * (m / numNodes - 1) == numNodes * (m / numNodes) - numNodes;
  }

  class Context {
    const width: int
    const height: int
    const numNodes: int
    var align: int
    var bestFit: bool
    const nodes: array<Node>   // the caller's nodes, then the two extra ones
    var activeHead: int
    var freeHead: int

    ghost var active: seq<int>
    ghost var free: seq<int>
    ghost var placed: seq<Box>

    ghost predicate Linked()
      reads this`activeHead, this`freeHead, this`active, this`free, nodes
    {
      && nodes.Length == numNodes + 2
      && Chain(nodes[..], activeHead, active)
      && Chain(nodes[..], freeHead, free)
      && Partition(active, free, numNodes + 2)
    }

    ghost function Sky(): (s: seq<Step>)
      requires Linked()
      reads this`activeHead, this`freeHead, this`active, this`free, nodes
      ensures |s| == |active|
    {
      Steps(nodes[..], active)
    }

    ghost predicate Valid()
      reads this, nodes
    {
      && numNodes >= 1 && align >= 1
      && 1 <= width <= 0x7fff_ffff && 0 <= height <= SENTINEL_Y
      && Linked()
      && IsSkyline(Sky(), width, height) && FilledFromLeft(Sky())
      && IsPacking(placed, Profile(Sky()), height)
    }

    // An empty target: one node for the whole floor, one sentinel, the rest free.
    constructor (width: int, height: int, numNodes: int)
      requires 1 <= width <= 0x7fff_ffff && 0 <= height <= SENTINEL_Y && numNodes >= 1
      ensures Valid() && fresh(nodes)
      ensures this.width == width && this.height == height && this.numNodes == numNodes
      ensures align == (width + numNodes - 1) / numNodes && !bestFit
      ensures numNodes * align >= width && numNodes * (align - 1) < width
      ensures Sky() == [Step(0, 0), Step(width, SENTINEL_Y)] && placed == [] && |free| == numNodes
    {
      hide Linked, Sky, IsSkyline, IsPacking, Profile, Iota;
      var ns := new Node[numNodes + 2];
      var i := 0;
      while i < numNodes - 1
        invariant 0 <= i <= numNodes - 1
        invariant forall j :: 0 <= j < i ==> ns[j].next == j + 1
      {
        ns[i] := ns[i].(next := i + 1);
        i := i + 1;
      }
      ns[i] := ns[i].(next := NIL);
      ns[numNodes] := Node(0, 0, numNodes + 1);
      ns[numNodes + 1] := Node(width, SENTINEL_Y, NIL);
      this.width, this.height, this.numNodes, nodes := width, height, numNodes, ns;
      bestFit := false;
      align := (width + numNodes - 1) / numNodes;
      freeHead, activeHead := 0, numNodes;
      active, free, placed := [numNodes, numNodes + 1], Iota(numNodes), [];
      new;
      AlignIsLeast(width, numNodes);
      Established();
    }

    lemma Established()
      requires 1 <= width <= 0x7fff_ffff && 0 <= height <= SENTINEL_Y && numNodes >= 1 && align >= 1
      requires nodes.Length == numNodes + 2 && freeHead == 0 && activeHead == numNodes
      requires active == [numNodes, numNodes + 1] && free == Iota(numNodes) && placed == []
      requires forall j :: 0 <= j < numNodes - 1 ==> nodes[j].next == j + 1
      requires nodes[numNodes-1].next == NIL
      requires nodes[numNodes] == Node(0, 0, numNodes + 1) && nodes[numNodes+1] == Node(width, SENTINEL_Y, NIL)
      ensures Valid() && Sky() == [Step(0, 0), Step(width, SENTINEL_Y)]
    {
      hide IsSkyline, IsPacking, Profile, Run, Partition, Iota;
      InitialLists(nodes[..], numNodes);
      InitialPacking(width, height);
      assert Sky() == [Step(0, 0), Step(width, SENTINEL_Y)];
    }

    method SetupAllowOutOfMem(allow: bool)
      requires Valid()
      modifies this`align
      ensures Valid()
      ensures if allow then align == 1 else numNodes * align >= width && numNodes * (align - 1) < width
      ensures Sky() == old(Sky())
    {
      hide Linked, Sky, IsPacking, IsSkyline, Profile;
      AlignIsLeast(width, numNodes);
      if allow {
        align := 1;
      } else {
        align := (width + numNodes - 1) / numNodes;
      }
    }

    method SetupHeuristic(fit: bool)
      requires Valid()
      modifies this`bestFit
      ensures Valid() && bestFit == fit && Sky() == old(Sky())
    {
      bestFit := fit;
    }

    lemma LinkedParts()
      requires Linked()
      ensures Run(nodes[..], activeHead, active, NIL) && Run(nodes[..], freeHead, free, NIL)
      ensures InRange(active, nodes.Length) && Sky() == Steps(nodes[..], active) && |Sky()| == |active|
      ensures Distinct(active) && Distinct(free) && Apart(active, free)
      ensures nodes.Length == numNodes + 2 == |active| + |free|
    {
    }

    lemma LinkedWhole()
      requires nodes.Length == numNodes + 2
      requires Run(nodes[..], activeHead, active, NIL) && Run(nodes[..], freeHead, free, NIL)
      requires InRange(active, nodes.Length) && Partition(active, free, numNodes + 2)
      ensures Linked() && Sky() == Steps(nodes[..], active)
    {
    }

    ghost function Settings(): Target
      reads this`align, this`bestFit
    {
      Target(width, height, numNodes, align, bestFit)
    }

    ghost function State(): PackState
      requires Linked()
      reads this`activeHead, this`freeHead, this`active, this`free, nodes
    {
      PackState(Sky(), |free|)
    }

    // What node k of the active list holds, and where it points.
    lemma ActiveNode(k: nat)
      requires Linked() && k < |active|
      ensures 0 <= active[k] < nodes.Length
      ensures nodes[active[k]].next == Successor(active, k, NIL)
      ensures Sky()[k] == Step(nodes[active[k]].x, nodes[active[k]].y)
    {
      assert nodes[..][active[k]].next == Successor(active, k, NIL);
    }

    // Lowest resting height from column x0 on, with the area wasted below it.
    method FindMinY(first: int, x0: int, w: int, ghost k: nat) returns (minY: int, waste: int)
      requires Linked()
      requires Spans(Sky(), k, x0, w) && first == active[k]
      ensures var t := Scan(Sky(), k, x0, w, Tally(0, 0, 0)); minY == t.minY && waste == t.waste
    {
      hide Linked, Sky, Visit, Area;
      var node := first;
      var x1 := x0 + w;
      var visitedWidth := 0;
      minY, waste := 0, 0;
      ghost var s, i := Sky(), k;
      ghost var goal := Scan(s, k, x0, w, Tally(0, 0, 0));
      ActiveNode(k);
      while nodes[node].x < x1
        invariant k <= i < |s| && |active| == |s|
        invariant node == active[i] && 0 <= node < nodes.Length && s[i] == Step(nodes[node].x, nodes[node].y)
        invariant Scan(s, i, x0, w, Tally(minY, visitedWidth, waste)) == goal
        decreases |s| - i
      {
        ActiveNode(i);
        ActiveNode(i + 1);
        VisitCases(Tally(minY, visitedWidth, waste), s[i], s[i+1].x, x0, w);
        var next := nodes[node].next;
        if nodes[node].y > minY {
          waste := waste + Area(visitedWidth, nodes[node].y - minY);
          minY := nodes[node].y;
          if nodes[node].x < x0 {
            visitedWidth := visitedWidth + nodes[next].x - x0;
          } else {
            visitedWidth := visitedWidth + nodes[next].x - nodes[node].x;
          }
        } else {
          var underWidth := nodes[next].x - nodes[node].x;
          if underWidth + visitedWidth > w {
            underWidth := w - visitedWidth;
          }
          waste := waste + Area(underWidth, minY - nodes[node].y);
          visitedWidth := visitedWidth + underWidth;
        }
        node := next;
        i := i + 1;
      }
    }

    // The node that a link leads to.
    function Deref(l: Link): int
      requires l.After? ==> 0 <= l.node < nodes.Length
      requires l != NoLink
      reads this, nodes
    {
      if l == Head then activeHead else nodes[l.node].next
    }

    lemma LinkLeadsTo(k: nat)
      requires Linked() && k < |active|
      ensures var l := LinkAt(active, k);
        l != NoLink && (l.After? ==> 0 <= l.node < nodes.Length) && Deref(l) == active[k]
    {
      if k > 0 { ActiveNode(k - 1); }
    }

    // Every breakpoint as a left edge.
    method FindLeft(w: int, h: int, ghost q: Query)
      returns (best: Link, bestX: int, bestY: int, bestWaste: int, ghost gb: Best)
      requires Linked() && Searchable(Sky(), q) && q == Query(w, h, height, bestFit)
      requires Sky()[|Sky()|-1].x == width
      ensures gb == SearchLeft(Sky(), q, 0, NOWHERE)
      ensures gb.k < |active| && best == LinkAt(active, gb.k) && bestX == gb.x && bestY == gb.y && bestWaste == gb.waste
    {
      hide Linked, Sky, Scan, RoundUp, Deref;
      ghost var s, k := Sky(), 0;
      gb := NOWHERE;
      ghost var goal := SearchLeft(s, q, 0, gb);
      bestWaste, bestY := SENTINEL_Y, SENTINEL_Y;
      best := NoLink;
      LinkLeadsTo(0);
      ActiveNode(0);
      var node := Deref(Head);
      var prev := Head;
      while nodes[node].x + w <= width
        invariant k < |s| && |s| == |active| && node == active[k] && prev == LinkAt(active, k)
        invariant 0 <= node < nodes.Length && s[k] == Step(nodes[node].x, nodes[node].y)
        invariant SearchLeft(s, q, k, gb) == goal
        invariant gb.k < k && best == LinkAt(active, gb.k) && bestY == gb.y && bestWaste == gb.waste
        invariant gb.x == if gb.k < 0 then 0 else s[gb.k].x
        decreases |s| - k
      {
        ActiveNode(k);
        ActiveNode(k + 1);
        var y, waste := FindMinY(node, nodes[node].x, w, k);
        ghost var t := Probe(s, q, k, s[k].x);
        if !bestFit {
          if y < bestY {
            bestY := y;
            best := prev;
          }
        } else {
          if y + h <= height {
            if y < bestY || (y == bestY && waste < bestWaste) {
              bestY := y;
              bestWaste := waste;
              best := prev;
            }
          }
        }
        gb := PreferLeft(q, gb, k, s[k].x, t);
        prev := After(node);
        node := nodes[node].next;
        k := k + 1;
      }
      bestX := 0;
      if best != NoLink {
        LinkLeadsTo(gb.k);
        ActiveNode(gb.k);
        bestX := nodes[Deref(best)].x;
      }
    }

    // The first node that can be a right edge.
    method FindTail(w: int) returns (tail: int, ghost t: nat)
      requires Linked() && |Sky()| >= 2 && 0 < w <= Sky()[|Sky()|-1].x
      ensures t == FirstRight(Sky(), w, 0) && t < |active| && tail == active[t]
    {
      hide Linked, Sky, Deref;
      ghost var s := Sky();
      LinkLeadsTo(0);
      ActiveNode(0);
      tail, t := Deref(Head), 0;
      while nodes[tail].x < w
        invariant t < |s| == |active| && tail == active[t]
        invariant 0 <= tail < nodes.Length && s[t] == Step(nodes[tail].x, nodes[tail].y)
        invariant FirstRight(s, w, t) == FirstRight(s, w, 0)
        decreases |s| - t
      {
        ActiveNode(t);
        ActiveNode(t + 1);
        tail := nodes[tail].next;
        t := t + 1;
      }
    }

    // Every breakpoint as a right edge, starting from the best place found so far.
    method FindRight(w: int, h: int, ghost q: Query, best0: Link, bestX0: int, bestY0: int, bestWaste0: int,
                     ghost gb0: Best)
      returns (best: Link, bestX: int, bestY: int, ghost gb: Best)
      requires Linked() && Searchable(Sky(), q) && q == Query(w, h, height, bestFit)
      requires Sky()[|Sky()|-1].x == width
      requires gb0.k < |active| && best0 == LinkAt(active, gb0.k)
      requires bestX0 == gb0.x && bestY0 == gb0.y && bestWaste0 == gb0.waste
      ensures gb == SearchRight(Sky(), q, FirstRight(Sky(), w, 0), 0, gb0)
      ensures gb.k < |active| && best == LinkAt(active, gb.k) && bestX == gb.x && bestY == gb.y
    {
      hide Linked, Sky, Scan, RoundUp, Deref, FirstRight, Advance, SearchRight, Increasing;
      best, bestX, bestY, gb := best0, bestX0, bestY0, gb0;
      var bestWaste := bestWaste0;
      ghost var s := Sky();
      LinkLeadsTo(0);
      var tail, t := FindTail(w);
      ActiveNode(t);
      var node, prev := Deref(Head), Head;
      ghost var n: nat := 0;
      ghost var goal := SearchRight(s, q, t, 0, gb);
      while tail != NIL
        invariant t <= |s| && |s| == |active|
        invariant if t < |s| then tail == active[t] && tail >= 0 else tail == NIL
        invariant n + 1 < |s| && node == active[n] && prev == LinkAt(active, n)
        invariant t < |s| ==> s[n].x <= s[t].x - w
        invariant SearchRight(s, q, t, n, gb) == goal
        invariant gb.k < |s| && best == LinkAt(active, gb.k) && bestX == gb.x && bestY == gb.y && bestWaste == gb.waste
        decreases |s| - t
      {
        ActiveNode(t);
        SearchRightStep(s, q, t, n, gb);
        var xpos := nodes[tail].x - w;
        node, prev, n := FindSegment(xpos, node, prev, n);
        var y, waste := FindMinY(node, xpos, w, n);
        if y + h <= height {
          if y <= bestY {
            if y < bestY || waste < bestWaste || (waste == bestWaste && xpos < bestX) {
              bestX := xpos;
              bestY := y;
              bestWaste := waste;
              best := prev;
            }
          }
        }
        gb := PreferRight(q, gb, n, xpos, Probe(s, q, n, xpos));
        tail := nodes[tail].next;
        t := t + 1;
        if t < |s| { ActiveNode(t); }
      }
      SearchRightStep(s, q, t, n, gb);
    }

    // Walk on to the segment that holds column xpos.
    method FindSegment(xpos: int, node0: int, prev0: Link, ghost n0: nat) returns (node: int, prev: Link, ghost n: nat)
      requires Linked() && n0 + 1 < |active| && node0 == active[n0] && prev0 == LinkAt(active, n0)
      requires Increasing(Sky()) && Sky()[n0].x <= xpos < Sky()[|Sky()|-1].x
      ensures n == Advance(Sky(), n0, xpos) && n + 1 < |active| && node == active[n] && prev == LinkAt(active, n)
    {
      hide Linked, Sky, Increasing;
      node, prev, n := node0, prev0, n0;
      ghost var s := Sky();
      ActiveNode(n);
      ActiveNode(n + 1);
      while nodes[nodes[node].next].x <= xpos
        invariant n + 1 < |s| == |active| && node == active[n] && prev == LinkAt(active, n) && s[n].x <= xpos
        invariant 0 <= node < nodes.Length && nodes[node].next == active[n+1]
        invariant 0 <= active[n+1] < nodes.Length && s[n+1].x == nodes[active[n+1]].x
        invariant Advance(s, n, xpos) == Advance(s, n0, xpos)
        decreases |s| - n
      {
        prev := After(node);
        node := nodes[node].next;
        n := n + 1;
        ActiveNode(n);
        ActiveNode(n + 1);
      }
    }

    // Where a box of width w and height h goes; a link into the list stands for the segment.
    method FindBestPos(w: int, h: int) returns (prevLink: Link, x: int, y: int, ghost b: Best)
      requires Valid() && 0 < w && 0 < h
      ensures b == FindBest(Sky(), QueryOf(Settings(), w, h))
      ensures b.k < |active| && prevLink == LinkAt(active, FindBest(Sky(), QueryOf(Settings(), w, h)).k)
      ensures prevLink != NoLink ==> Best(b.k, x, y, b.waste) == FindBest(Sky(), QueryOf(Settings(), w, h))
    {
      hide Linked, Sky, RoundUp, IsPacking, Profile;
      var rw := w + align - 1;
      rw := rw - rw % align;
      assert rw == RoundUp(w, align) by { RoundUpIs(w, align); }
      ghost var q := QueryOf(Settings(), w, h);
      if rw > width || h > height {
        return NoLink, 0, 0, NOWHERE;
      }
      var bestWaste;
      prevLink, x, y, bestWaste, b := FindLeft(rw, h, q);
      if bestFit {
        prevLink, x, y, b := FindRight(rw, h, q, prevLink, x, y, bestWaste, b);
      }
    }

    // Push the covered nodes of run r, up to the first whose successor starts beyond e.
    method FreeCovered(cur0: int, e: int, ghost r: seq<int>) returns (cur: int, ghost j: nat)
      requires r != [] && Distinct(r) && Distinct(free) && Apart(r, free)
      requires Run(nodes[..], cur0, r, NIL) && Chain(nodes[..], freeHead, free)
      modifies this`freeHead, this`free, nodes
      ensures j == StopAt(old(Steps(nodes[..], r)), 0, e) && cur == r[j]
      ensures Run(nodes[..], cur, r[j..], NIL)
      ensures Chain(nodes[..], freeHead, free) && free == Pushed(r, j, old(free))
      ensures Relinked(old(nodes[..]), nodes[..], r[..j])
    {
      hide Run, Distinct, Apart, Pushed, Relinked;
      cur, j := cur0, 0;
      RunHead(nodes[..], cur, r, NIL);
      RunAt(nodes[..], cur, r, NIL, 0);
      ghost var ns0, ns, s, free0 := nodes[..], nodes[..], Steps(nodes[..], r), free;
      assert Relinked(ns, ns, r[..0]) by { UnchangedLinks(ns, r); }
      assert free == Pushed(r, 0, free0) by { PushedNone(r, free0); }
      while nodes[cur].next != NIL && nodes[nodes[cur].next].x <= e
        invariant ns == nodes[..] && j < |r| && Relinked(ns0, ns, r[..j])
        invariant cur == r[j] && 0 <= cur < nodes.Length && ns[cur].next == Successor(r, j, NIL)
        invariant StopAt(s, j, e) == StopAt(s, 0, e)
        invariant Run(ns, cur, r[j..], NIL) && Run(ns, freeHead, free, NIL) && free == Pushed(r, j, free0)
        decreases |r| - j
      {
        RelinkedAt(ns0, ns, r[..j], r[j+1]);
        FreeStep(ns, r, j, free0, free, freeHead);
        RelinkOne(ns0, ns, r, j, freeHead);
        var next := nodes[cur].next;
        nodes[cur] := nodes[cur].(next := freeHead);
        ns := ns[cur := ns[cur].(next := freeHead)];
        freeHead := cur;
        free := [cur] + free;
        cur := next;
        j := j + 1;
      }
      if j + 1 < |r| { RelinkedAt(ns0, ns, r[..j], r[j+1]); }
    }

    // Take a free node for a box resting up to `top` and point the link to segment k at it.
    method Open(prevLink: Link, x: int, top: int, ghost k: nat) returns (node: int, cur: int, ghost n: nat)
      requires Linked() && free != [] && k + 1 < |active| && prevLink == LinkAt(active, k)
      modifies this`activeHead, this`freeHead, this`free, nodes
      ensures n == Kept(old(Sky()), k, x) && n < |active|
      ensures node == old(free)[0] && free == old(free)[1..] && cur == active[n]
      ensures Opened(nodes[..], activeHead, active[..n], node, cur, active[n..], freeHead, free)
      ensures SameSteps(old(nodes[..]), nodes[..], node) && nodes[node].x == x && nodes[node].y == top
    {
      hide Run, Distinct, Apart;
      n := Kept(Sky(), k, x);
      LinkLeadsTo(k);
      ActiveNode(k);
      ActiveNode(k + 1);
      OpenAt(nodes[..], activeHead, active, freeHead, free, n, x, top);
      node := freeHead;
      cur := Deref(prevLink);
      nodes[node] := Node(x, top, nodes[node].next);
      freeHead := nodes[node].next;
      if nodes[cur].x < x {
        var next := nodes[cur].next;
        nodes[cur] := nodes[cur].(next := node);
        cur := next;
      } else if prevLink == Head {
        activeHead := node;
      } else {
        nodes[prevLink.node] := nodes[prevLink.node].(next := node);
      }
      free := free[1..];
    }

    // Lead the fresh node on to the first node not covered, which starts no earlier than e.
    method Stitch(node: int, cur: int, e: int)
      requires 0 <= node < nodes.Length && 0 <= cur < nodes.Length && node != cur
      modifies nodes
      ensures var ns := old(nodes[..])[node := old(nodes[node]).(next := cur)];
        nodes[..] == ns[cur := ns[cur].(x := Max(ns[cur].x, e))]
    {
      nodes[node] := nodes[node].(next := cur);
      if nodes[cur].x < e {
        nodes[cur] := nodes[cur].(x := e);
      }
    }

    // Splice a box into the skyline at segment k: link in its node, free those it covers and
    // move the first one it does not cover to the box's right edge.
    method Insert(prevLink: Link, x: int, top: int, w: int, ghost k: nat)
      requires Linked() && free != [] && k + 1 < |active| && prevLink == LinkAt(active, k)
      modifies this`activeHead, this`freeHead, this`active, this`free, nodes
      ensures Linked()
      ensures Sky() == old(Place(Sky(), k, x, w, top))
    {
      hide Run, Distinct, Apart, Pushed, Relinked, Separate, Place, StopAt, Steps, SameSteps, Opened, Linked, Sky, Kept,
           LinkAt, Partition, InRange;
      LinkedParts();
      ghost var ns0, a0, f0, n := nodes[..], active, free, Kept(Sky(), k, x);
      var node, cur;
      node, cur, n := Open(prevLink, x, top, k);
      ghost var ns2, r, freeHead2, f2 := nodes[..], a0[n..], freeHead, free;
      SeparateParts(a0, f0, n);
      OpenedParts(ns2, activeHead, a0[..n], node, cur, r, freeHead, free, f0, a0);
      StepsAgree(ns0, ns2, a0, n, node);
      ghost var j: nat;
      cur, j := FreeCovered(cur, x + w, r);
      ghost var ns3 := nodes[..];
      CloseAt(ns2, ns3, activeHead, a0[..n], node, r, freeHead2, f2, freeHead, j, Max(ns3[r[j]].x, x + w));
      ClosedPartition(a0[..n], node, r, f2, j, numNodes + 2);
      Stitch(node, cur, x + w);
      active := a0[..n] + [node] + r[j..];
      SplicedValues(ns0, ns2, ns3, nodes[..], a0, k, node, r, j, x, w, top);
      LinkedWhole();
    }

    // Place one box, if some place fits and a node is left for it.
    method PackRectangle(w: int, h: int) returns (ok: bool, x: int, y: int)
      requires Valid() && 0 < w && 0 < h
      modifies this`activeHead, this`freeHead, this`active, this`free, this`placed, nodes
      ensures Valid()
      ensures ok == (old(free) != [] && Fits(old(Profile(Sky())), height, RoundUp(w, align), h))
      ensures var (st, bs) := PackStep(Settings(), old(State()), w, h);
        State() == st && placed == old(placed) + bs && bs == if ok then [Box(x, y, w, h)] else []
    {
      hide Linked, Sky, Profile, FindBest, Fits, IsPacking, IsSkyline, Place, RoundUp, Increasing, PackStep;
      ghost var t, st, placed0 := Settings(), State(), placed;
      LinkedParts();
      RunHead(nodes[..], freeHead, free, NIL);
      SkylineIsIncreasing(Sky(), width, height);
      PackStepMeaning(t, st, w, h, placed0);
      var link;
      ghost var b;
      link, x, y, b := FindBestPos(w, h);
      if link == NoLink || y + h > height || freeHead == NIL {
        return false, x, y;
      }
      ok := true;
      Insert(link, x, y + h, w, b.k);
      LinkedParts();
      placed := placed + [Box(x, y, w, h)];
    }
  }
}
