// What holds over every sequence of requests made of one target: safety, area, and when the
// packer can run out of nodes.
module PackerRuns {
  import opened Skyline
  import opened Packing
  import opened Search
  import opened RectPacker

  datatype Request = Request(w: int, h: int)

  ghost predicate AllPositive(reqs: seq<Request>) {
    forall i :: 0 <= i < |reqs| ==> 0 < reqs[i].w && 0 < reqs[i].h
  }

  ghost predicate IsTarget(t: Target) {
    t.numNodes >= 1 && t.align >= 1 && 1 <= t.width <= 0x7fff_ffff && 0 <= t.height <= SENTINEL_Y
  }

  function Empty(t: Target): PackState {
    PackState([Step(0, 0), Step(t.width, SENTINEL_Y)], t.numNodes)
  }

  // The state after a sequence of requests, and the boxes placed.
  ghost function Run(t: Target, reqs: seq<Request>): (r: (PackState, seq<Box>))
    requires IsTarget(t) && AllPositive(reqs)
    ensures IsState(t, r.0) && IsPacking(r.1, Profile(r.0.sky), t.height)
    decreases |reqs|
  {
    if reqs == [] then
      InitialPacking(t.width, t.height);
      (Empty(t), [])
    else
      var n := |reqs| - 1;
      var (st, placed) := Run(t, reqs[..n]);
      PackStepMeaning(t, st, reqs[n].w, reqs[n].h, placed);
      var (st', bs) := PackStep(t, st, reqs[n].w, reqs[n].h);
      (st', placed + bs)
  }

  lemma ColumnsInTarget(s: seq<Step>, width: int, height: int)
    requires IsSkyline(s, width, height)
    ensures |Profile(s)| == width && forall c :: 0 <= c < width ==> 0 <= Profile(s)[c] <= height
  {
    hide Profile;
    forall c | 0 <= c < width ensures 0 <= Profile(s)[c] <= height {
      var k := Locate(s, c, 0);
      SegmentIsFlat(s, k);
    }
  }

  // Over every run: the boxes placed lie in the target, never overlap, and so never cover more
  // than it.
  lemma RunIsSafe(t: Target, reqs: seq<Request>)
    requires IsTarget(t) && AllPositive(reqs)
    ensures var bs := Run(t, reqs).1;
      && (forall i :: 0 <= i < |bs| ==> Inside(bs[i], t.width, t.height))
      && PairwiseDisjoint(bs)
      && AreaOf(bs) <= t.width * t.height
  {
    hide Run, Profile, Disjoint;
    var (st, bs) := Run(t, reqs);
    ColumnsInTarget(st.sky, t.width, t.height);
    AreaFits(bs, Profile(st.sky), t.height);
  }

  // Area of the target lying under the skyline.
  ghost function AreaUnder(s: seq<Step>): int {
    if |s| >= 2 && Increasing(s) && s[0].x == 0 then Sum(Profile(s), 0, |Profile(s)|) else 0
  }

  // The waste that the search reckons for a box of width w at column x.
  ghost function WasteBelow(s: seq<Step>, x: int, w: int): int {
    if |s| >= 2 && Increasing(s) && s[0].x == 0 && 0 <= x && 0 < w && x + w <= s[|s|-1].x then WasteAt(s, x, w) else 0
  }

  // Whatever was asked of the packer before, it reckons the waste below any box exactly.
  lemma WasteIsExact(t: Target, reqs: seq<Request>, x: int, w: int)
    requires IsTarget(t) && AllPositive(reqs) && 0 <= x && 0 < w && x + w <= t.width
    ensures var s := Run(t, reqs).0.sky;
      WasteBelow(s, x, w) == AreaLeftBelow(s, x, w)
  {
    hide Run, Profile, WasteAt, AreaLeft, FilledFromLeft;
    StateWaste(t, Run(t, reqs).0, x, w);
  }

  lemma StateWaste(t: Target, st: PackState, x: int, w: int)
    requires IsState(t, st) && 0 <= x && 0 < w && x + w <= t.width
    ensures WasteBelow(st.sky, x, w) == AreaLeftBelow(st.sky, x, w)
  {
    hide Profile, WasteAt, AreaLeft, FilledFromLeft;
    SkylineIsIncreasing(st.sky, t.width, t.height);
    SkylineAboveGround(st.sky, t.width, t.height);
    FilledWasteIsExact(st.sky, x, w);
  }

  ghost function AreaLeftBelow(s: seq<Step>, x: int, w: int): int {
    if |s| < 2 || !Increasing(s) || s[0].x != 0 || x < 0 || w <= 0 || s[|s|-1].x < x + w then 0
    else AreaLeft(Profile(s), x, w)
  }

  // The area under the skyline grows by at least the box and, without rounding, by exactly the
  // box and the waste that the search reckoned.
  lemma StepArea(t: Target, st: PackState, w: int, h: int)
    requires IsState(t, st) && 0 < w && 0 < h
    ensures var r := PackStep(t, st, w, h);
      r.1 != [] ==>
        && AreaUnder(r.0.sky) >= AreaUnder(st.sky) + Area(w, h)
        && (t.align == 1 ==>
              AreaUnder(r.0.sky) == AreaUnder(st.sky) + Area(w, h) + WasteBelow(st.sky, r.1[0].x, w))
  {
    hide Profile, Sum, RestAt, Place, FindBest, RoundUp, IsTightest, IsLowest, PackStep, IsPacking, Fits, WasteAt,
         IsPlace, Increasing, Area;
    var s, q := st.sky, QueryOf(t, w, h);
    SkylineIsIncreasing(s, t.width, t.height);
    StateIsPacking(t, st);
    PackStepMeaning(t, st, w, h, []);
    FindBestMeaning(s, q);
    if PackStep(t, st, w, h).1 != [] {
      var b := FindBest(s, q);
      PlaceArea(s, t.width, t.height, q, b, w);
      if t.align == 1 {
        RoundUpOne(w);
        StateWaste(t, st, b.x, w);
      }
    }
  }

  lemma StateIsPacking(t: Target, st: PackState)
    requires IsState(t, st)
    ensures IsPacking([], Profile(st.sky), t.height)
  {
    hide Profile;
    ColumnsInTarget(st.sky, t.width, t.height);
    SumAtLeast(Profile(st.sky), 0, t.width);
  }

  lemma {:induction false} SumAtLeast(p: seq<int>, a: int, b: int)
    requires 0 <= a <= b <= |p| && forall c :: a <= c < b ==> 0 <= p[c]
    ensures 0 <= Sum(p, a, b)
    decreases b - a
  {
    if a < b { SumAtLeast(p, a, b - 1); }
  }

  lemma RoundUpOne(w: int)
    ensures RoundUp(w, 1) == w
  {
  }

  lemma PlaceArea(s: seq<Step>, width: int, height: int, q: Query, b: Best, w: int)
    requires IsSkyline(s, width, height)
    requires 0 < w <= q.w && 0 < q.h && q.height == height && b.y + q.h <= height
    requires Searchable(s, q) && IsPlace(s, q, b)
    ensures AreaUnder(Place(s, b.k, b.x, w, b.y + q.h)) >= AreaUnder(s) + Area(w, q.h)
    ensures w == q.w ==>
      AreaUnder(Place(s, b.k, b.x, w, b.y + q.h)) == AreaUnder(s) + Area(w, q.h) + AreaLeftBelow(s, b.x, w)
  {
    hide Profile, Place, RestAt, Sum, WasteAt, Area, Scan;
    var e, p, top := RaisedTo(s, b.k, b.x, w), Profile(s), b.y + q.h;
    PlaceRaisesProfile(s, width, height, b.k, b.x, w, top);
    RestIsMax(p, b.x, q.w);
    RestingMonotone(p, b.x, e, b.x + q.w);
    RaiseAddsArea(p, b.x, w, q.h, e, b.y);
    if w == q.w { assert e == b.x + w; }
  }

  /** Running out of nodes */

  lemma {:induction false} BreakpointsSpread(s: seq<Step>, i: nat)
    requires Increasing(s) && i < |s| && s[0].x == 0
    ensures i <= s[i].x
  {
    if i > 0 { BreakpointsSpread(s, i - 1); }
  }

  // With as many nodes as columns there is always a node left.
  lemma NodesToSpare(t: Target, st: PackState)
    requires IsState(t, st) && t.numNodes >= t.width
    ensures st.free >= 1
  {
    BreakpointsSpread(st.sky, |st.sky| - 1);
  }

  // The packer turns a request away although some place fits.
  ghost predicate RunsOut(t: Target, st: PackState, w: int, h: int)
    requires IsState(t, st)
  {
    st.free == 0 && Fits(Profile(st.sky), t.height, RoundUp(w, t.align), h)
  }

  // A target with the default rounding, and either heuristic.
  function RoundingTarget(width: int, height: int, numNodes: int, bestFit: bool): Target
    requires numNodes >= 1
  {
    Target(width, height, numNodes, (width + numNodes - 1) / numNodes, bestFit)
  }

  // No sequence of requests leads to a request turned away for want of a node.
  ghost predicate NeverRunsOut(t: Target)
    requires IsTarget(t)
  {
    forall reqs: seq<Request>, w: int, h: int ::
      AllPositive(reqs) && 0 < w && 0 < h ==> !RunsOut(t, Run(t, reqs).0, w, h)
  }

  // k unit boxes side by side on the floor, one breakpoint each.
  function Comb(k: nat, width: int): (s: seq<Step>)
    ensures |s| == k + 2
    ensures forall i :: 0 <= i < k ==> s[i] == Step(i, 1)
    ensures s[k] == Step(k, 0) && s[k+1] == Step(width, SENTINEL_Y)
  {
    seq(k, i => Step(i, 1)) + [Step(k, 0), Step(width, SENTINEL_Y)]
  }

  function Units(k: nat): (r: seq<Request>)
    ensures |r| == k && AllPositive(r)
  {
    seq(k, i => Request(1, 1))
  }

  lemma RoundUpUnit(align: int)
    requires align >= 1
    ensures RoundUp(1, align) == align
  {
  }

  // A unit box asked to keep `align` columns clear goes to the first column off the comb.
  lemma CombBest(k: nat, width: int, height: int, q: Query)
    requires IsSkyline(Comb(k, width), width, height)
    requires q.h == 1 <= q.height <= SENTINEL_Y && 0 < q.w && k + q.w <= width
    ensures var b := FindBest(Comb(k, width), q); b.k == k && b.x == k && b.y == 0
  {
    hide Profile, FindBest, Comb, IsTightest, IsBottomLeft;
    var s := Comb(k, width);
    var p := Profile(s);
    FindBestMeaning(s, q);
    SegmentIsFlat(s, k);
    MaxBounds(p, k, k + q.w, 0);
    assert RestAt(p, k, q.w) == 0;
    assert FitsAt(p, q.height, q.w, 1, k);
    SkylineAboveGround(s, width, height);
    FloorPlace(s, q);
    assert FindBest(s, q).y <= RestAt(p, k, q.w);
  }

  lemma CombIsSkyline(k: nat, width: int, height: int)
    requires k < width && 1 <= height
    ensures IsSkyline(Comb(k, width), width, height)
  {
  }

  lemma CombGrows(k: nat, width: int)
    requires k + 1 < width
    ensures Place(Comb(k, width), k, k, 1, 1) == Comb(k + 1, width)
  {
    var s := Comb(k, width);
    assert StopAt(s, k, k + 1) == k;
    PlaceShape(s, k, k, 1, 1);
  }

  lemma CombStep(t: Target, k: nat)
    requires IsTarget(t) && t.height >= 1 && k < t.numNodes
    requires k + t.align <= t.width && k + 1 < t.width
    ensures IsSkyline(Comb(k, t.width), t.width, t.height)
    ensures PackStep(t, PackState(Comb(k, t.width), t.numNodes - k), 1, 1)
         == (PackState(Comb(k + 1, t.width), t.numNodes - k - 1), [Box(k, 0, 1, 1)])
  {
    hide FindBest, Place, Comb, RoundUp;
    CombIsSkyline(k, t.width, t.height);
    RoundUpUnit(t.align);
    CombBest(k, t.width, t.height, QueryOf(t, 1, 1));
    CombGrows(k, t.width);
  }

  lemma {:induction false} CombRun(t: Target, k: nat)
    requires IsTarget(t) && t.height >= 1 && k <= t.numNodes
    requires t.align >= 2 && t.numNodes - 1 + t.align <= t.width
    ensures Run(t, Units(k)).0 == PackState(Comb(k, t.width), t.numNodes - k)
  {
    hide PackStep, Comb;
    if k == 0 {
      CombZero(t.width);
    } else {
      CombRun(t, k - 1);
      assert Units(k)[..k-1] == Units(k - 1);
      CombStep(t, k - 1);
    }
  }

  lemma CombZero(width: int)
    ensures Comb(0, width) == [Step(0, 0), Step(width, SENTINEL_Y)]
  {
  }

  // A full comb leaves room beside it, or for a second row.
  lemma CombStillFits(t: Target)
    requires IsTarget(t) && t.numNodes < t.width && t.align <= t.width
    requires t.height >= 2 || (t.height == 1 && t.numNodes + t.align <= t.width)
    ensures IsSkyline(Comb(t.numNodes, t.width), t.width, t.height)
    ensures Fits(Profile(Comb(t.numNodes, t.width)), t.height, RoundUp(1, t.align), 1)
  {
    hide Profile, RoundUp, Comb;
    var k, w := t.numNodes, t.align;
    CombIsSkyline(k, t.width, t.height);
    RoundUpUnit(w);
    var s := Comb(k, t.width);
    var p := Profile(s);
    var x, y := if t.height >= 2 then 0 else k, if t.height >= 2 then 1 else 0;
    forall c | x <= c < x + w ensures p[c] <= y {
      var i := Locate(s, c, 0);
      SegmentIsFlat(s, i);
    }
    MaxBounds(p, x, x + w, y);
    assert FitsAt(p, t.height, w, 1, x);
  }

  /** A target one row high */

  lemma RowNeverRunsOut(t: Target, st: PackState, w: int, h: int)
    requires IsState(t, st) && t.height == 1 && 0 < w && 0 < h
    requires t.numNodes + t.align > t.width
    ensures !RunsOut(t, st, w, h)
  {
    hide Profile;
    if RunsOut(t, st, w, h) {
      RoundUpAtLeast(w, t.align);
      var x :| FitsAt(Profile(st.sky), t.height, RoundUp(w, t.align), h, x);
      hide RestAt, RoundUp;
      FloorIsRight(st.sky, x, RoundUp(w, t.align));
      BreakpointsSpread(st.sky, |st.sky| - 2);
    }
  }

  lemma RoundUpAtLeast(w: int, align: int)
    requires w >= 1 && align >= 1
    ensures RoundUp(w, align) >= align
  {
    // Below `align` there is no positive multiple of it.
    if w < align {
      assert (w + align - 1) % align == w - 1;
    }
  }

  /** When the quantized packer keeps its promise */

  // ceil(width / n) leaves n unit boxes room to start: the product (n - 1) * (width - n) is
  // not negative.
  lemma AlignBound(width: int, n: int)
    requires 1 <= n < width
    ensures var a := (width + n - 1) / n; a >= 2 && n - 1 + a <= width
  {
    QuotientBounds(width + n - 1, n);
    BetweenMultiples(width, n, (width + n - 1) / n);
  }

  lemma BetweenMultiples(width: int, n: int, a: int)
    requires 1 <= n < width && n * a <= width + n - 1 < n * (a + 1)
    ensures a >= 2 && n - 1 + a <= width
  {
    var m := width - n;
    if a <= 1 { Times(n, a + 1, 2); }
    TimesMore(n, m);
    Times(m, 1, n);
    if a >= m + 2 { Times(n, m + 2, a); }
  }

  lemma TimesMore(n: int, m: int)
    ensures n * (m + 2) == m * n + 2 * n
  {
  }

  lemma QuotientBounds(m: int, n: int)
    requires n > 0
    ensures n * (m / n) <= m < n * (m / n + 1)
  {
  }

  lemma Times(n: int, a: int, b: int)
    requires n >= 0 && a <= b
    ensures n * a <= n * b
  {
  }

  // The quantized packer promises never to run out of nodes. With either heuristic it keeps
  // that promise exactly when it has at least as many nodes as columns, or a target too low to show the difference.
  lemma OutOfNodesIff(width: int, height: int, numNodes: int, bestFit: bool)
    requires numNodes >= 1 && IsTarget(RoundingTarget(width, height, numNodes, bestFit))
    ensures var t := RoundingTarget(width, height, numNodes, bestFit);
      NeverRunsOut(t) <==>
        || numNodes >= width
        || height == 0
        || (height == 1 && numNodes + t.align > width)
  {
    hide Run, Profile, RoundUp, Fits, Comb, FilledFromLeft;
    var t := RoundingTarget(width, height, numNodes, bestFit);
    if numNodes >= width || height == 0 || (height == 1 && numNodes + t.align > width) {
      forall reqs: seq<Request>, w: int, h: int | AllPositive(reqs) && 0 < w && 0 < h
        ensures !RunsOut(t, Run(t, reqs).0, w, h)
      {
        if numNodes >= width {
          NodesToSpare(t, Run(t, reqs).0);
        } else if height == 0 {
          NoFit(Profile(Run(t, reqs).0.sky), height, RoundUp(w, t.align), h);
        } else {
          RowNeverRunsOut(t, Run(t, reqs).0, w, h);
        }
      }
    } else {
      AlignBound(width, numNodes);
      CombRun(t, numNodes);
      CombStillFits(t);
      assert RunsOut(t, Run(t, Units(numNodes)).0, 1, 1);
    }
  }

  // For instance: with two nodes for four columns, two unit boxes use up the nodes and the
  // third is turned away from a target with six free cells.
  lemma QuantizedRunsOut(bestFit: bool)
    ensures var t := RoundingTarget(4, 2, 2, bestFit);
      && IsTarget(t) && t.align == 2
      && RunsOut(t, Run(t, Units(2)).0, 1, 1)
      && Run(t, Units(2)).1 == [Box(0, 0, 1, 1), Box(1, 0, 1, 1)]
  {
    hide PackStep, Comb, Profile, RoundUp, Fits;
    var t := RoundingTarget(4, 2, 2, bestFit);
    CombRun(t, 2);
    CombStillFits(t);
    CombRun(t, 1);
    CombZero(4);
    CombStep(t, 0);
    CombStep(t, 1);
    assert Units(2)[..1] == Units(1) && Units(1)[..0] == [];
    assert Run(t, []).1 == [];
    assert Run(t, Units(1)).1 == [Box(0, 0, 1, 1)];
  }
}
