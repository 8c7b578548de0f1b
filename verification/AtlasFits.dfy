// When all live rectangles of the atlas fit a texture of some size: the packer's run over them,
// in the order of their entries, places every one.
module AtlasFits {
  import opened Skyline
  import opened Packing
  import opened RectPacker
  import opened PackerRuns
  import PackRects
  import opened AtlasHandles
  import opened AtlasSizes
  import opened Common

  // The rectangle that a used entry leads to.
  function RectOf(rects: seq<TexRect>, e: Entry): TexRect {
    if 0 <= e.target < |rects| then rects[e.target] else TexRect(0, 0, 0, 0)
  }

  // What a repack asks of the packer.
  function Sizes(rects: seq<TexRect>, index: seq<Entry>, padding: int): seq<Request> {
    if index == [] then []
    else
      var e := index[|index|-1];
      var r := RectOf(rects, e);
      Sizes(rects, index[..|index|-1], padding) + if e.used then [Request(r.w + padding, r.h + padding)] else []
  }

  // The packer that an atlas makes for a texture of this size.
  function TargetFor(w: int, h: int): Target
    requires w >= 2
  {
    RoundingTarget(w, h, w / 2, false)
  }

  ghost predicate AllPlaced(t: Target, reqs: seq<Request>) {
    IsTarget(t) && AllPositive(reqs) && |Run(t, reqs).1| == |reqs|
  }

  // Do all live rectangles fit a w by h texture?
  ghost predicate AllFit(w: int, h: int, rects: seq<TexRect>, index: seq<Entry>, padding: int) {
    w >= 2 && AllPlaced(TargetFor(w, h), Sizes(rects, index, padding))
  }

  // One request has been made of the packer.
  ghost predicate PackedBy(t: Target, st: PackState, w: int, h: int, st': PackState, ok: bool) {
    && IsState(t, st) && |st.sky| >= 2 && Increasing(st.sky) && st.sky[0].x == 0 && 0 < w
    && st' == PackStep(t, st, w, h).0 && (ok <==> PackStep(t, st, w, h).1 != [])
  }

  // Is a node left, and a place that holds a w by h box?
  ghost predicate PlaceFor(t: Target, st: PackState, w: int, h: int) {
    && t.align >= 1 && st.free > 0 && |st.sky| >= 2 && Increasing(st.sky) && st.sky[0].x == 0
    && Fits(Profile(st.sky), t.height, RoundUp(w, t.align), h)
  }

  lemma PackedIffRoom(t: Target, st: PackState, w: int, h: int, st': PackState, ok: bool)
    requires PackedBy(t, st, w, h, st', ok) && 0 < h
    ensures ok <==> PlaceFor(t, st, w, h)
    ensures !ok ==> st' == st
  {
    hide Increasing, IsPacking, Profile, Fits, PackStep;
    StateIsPacking(t, st);
    PackStepMeaning(t, st, w, h, []);
  }

  // The packer has placed all of the first n entries' rectangles.
  ghost predicate Placing(t: Target, st: PackState, rects: seq<TexRect>, index: seq<Entry>, n: nat, padding: int) {
    n <= |index| && AllPlaced(t, Sizes(rects, index[..n], padding)) && Run(t, Sizes(rects, index[..n], padding)).0 == st
  }

  lemma PlacingNone(w: int, h: int, rects: seq<TexRect>, index: seq<Entry>, padding: int)
    requires 2 <= w <= 0x7fff_ffff && 0 <= h <= SENTINEL_Y
    ensures Placing(TargetFor(w, h), Empty(TargetFor(w, h)), rects, index, 0, padding)
  {
    AlignIsLeast(w, w / 2);
  }

  lemma PlacingPlaced(t: Target, st: PackState, rects: seq<TexRect>, index: seq<Entry>, n: nat, padding: int)
    requires Placing(t, st, rects, index, n, padding)
    ensures n <= |index| && AllPlaced(t, Sizes(rects, index[..n], padding))
  {
  }

  lemma SizesNext(rects: seq<TexRect>, index: seq<Entry>, n: nat, padding: int)
    requires n < |index|
    ensures var r := RectOf(rects, index[n]);
      Sizes(rects, index[..n+1], padding) ==
        Sizes(rects, index[..n], padding) + if index[n].used then [Request(r.w + padding, r.h + padding)] else []
  {
    assert index[..n+1][..n] == index[..n];
  }

  // A run over one more request.
  lemma RunNext(t: Target, reqs: seq<Request>, q: Request)
    requires IsTarget(t) && AllPositive(reqs) && 0 < q.w && 0 < q.h
    ensures AllPositive(reqs + [q])
    ensures var (st, placed) := Run(t, reqs);
      && |st.sky| >= 2 && Increasing(st.sky) && st.sky[0].x == 0
      && Run(t, reqs + [q]) == (PackStep(t, st, q.w, q.h).0, placed + PackStep(t, st, q.w, q.h).1)
      && |PackStep(t, st, q.w, q.h).1| <= 1
  {
    hide IsPacking, Profile, PackStep, Increasing, IsState;
    var st := Run(t, reqs).0;
    PackRects.StateIsSearchable(t, st);
    StateIsPacking(t, st);
    PackStepMeaning(t, st, q.w, q.h, []);
    assert (reqs + [q])[..|reqs|] == reqs;
  }

  lemma PlacingNext(t: Target, st: PackState, rects: seq<TexRect>, index: seq<Entry>, n: nat, padding: nat,
                    st': PackState, ok: bool)
    requires Placing(t, st, rects, index, n, padding) && n < |index| && index[n].used
    requires
      var r := RectOf(rects, index[n]);
      0 < r.w && 0 < r.h && PackedBy(t, st, r.w + padding, r.h + padding, st', ok)
    ensures ok ==> Placing(t, st', rects, index, n + 1, padding)
    ensures !ok ==> !AllPlaced(t, Sizes(rects, index[..n+1], padding))
  {
    hide Sizes, PackStep, IsState, Run, Increasing, RectOf;
    var r := RectOf(rects, index[n]);
    SizesNext(rects, index, n, padding);
    RunNext(t, Sizes(rects, index[..n], padding), Request(r.w + padding, r.h + padding));
  }

  lemma PlacingSkip(t: Target, st: PackState, rects: seq<TexRect>, index: seq<Entry>, n: nat, padding: int)
    requires Placing(t, st, rects, index, n, padding) && n < |index| && !index[n].used
    ensures Placing(t, st, rects, index, n + 1, padding)
  {
    hide Sizes, Run, IsTarget, AllPositive, RectOf;
    SizesNext(rects, index, n, padding);
    assert Sizes(rects, index[..n], padding) + [] == Sizes(rects, index[..n], padding);
  }

  lemma {:induction false} RunAtMost(t: Target, reqs: seq<Request>)
    requires IsTarget(t) && AllPositive(reqs)
    ensures |Run(t, reqs).1| <= |reqs|
  {
    hide Run, PackStep, Increasing, IsTarget;
    if reqs == [] {
      RunNone(t);
    } else {
      var n := |reqs| - 1;
      RunAtMost(t, reqs[..n]);
      RunNext(t, reqs[..n], reqs[n]);
      assert reqs == reqs[..n] + [reqs[n]];
    }
  }

  lemma RunNone(t: Target)
    requires IsTarget(t)
    ensures Run(t, []).1 == []
  {
  }

  // What does not all fit does not all fit with more.
  lemma {:induction false} NeverAllPlaced(t: Target, reqs: seq<Request>, more: seq<Request>)
    requires AllPlaced(t, reqs + more)
    ensures AllPlaced(t, reqs)
    decreases |more|
  {
    hide Run, PackStep, Increasing, IsTarget;
    if more == [] {
      assert reqs + more == reqs;
    } else {
      var n := |more| - 1;
      var all := reqs + more[..n];
      assert reqs + more == all + [more[n]];
      assert forall i :: 0 <= i < |all| ==> all[i] == (reqs + more)[i];
      assert more[n] == (reqs + more)[|all|];
      RunNext(t, all, more[n]);
      RunAtMost(t, all);
      NeverAllPlaced(t, reqs, more[..n]);
    }
  }

  lemma {:induction false} SizesGrow(rects: seq<TexRect>, index: seq<Entry>, n: nat, m: nat, padding: int)
    returns (more: seq<Request>)
    requires n <= m <= |index|
    ensures Sizes(rects, index[..m], padding) == Sizes(rects, index[..n], padding) + more
    decreases m
  {
    hide Sizes;
    if m == n {
      more := [];
    } else {
      more := SizesGrow(rects, index, n, m - 1, padding);
      SizesNext(rects, index, m - 1, padding);
      var r := RectOf(rects, index[m-1]);
      more := more + if index[m-1].used then [Request(r.w + padding, r.h + padding)] else [];
    }
  }

  // The packer turned a rectangle away, so not all fit.
  lemma TurnedAway(w: int, h: int, rects: seq<TexRect>, index: seq<Entry>, n: nat, padding: int)
    requires w >= 2 && n <= |index| && !AllPlaced(TargetFor(w, h), Sizes(rects, index[..n], padding))
    ensures !AllFit(w, h, rects, index, padding)
  {
    hide Sizes, AllPlaced;
    var more := SizesGrow(rects, index, n, |index|, padding);
    assert index[..|index|] == index;
    if AllFit(w, h, rects, index, padding) {
      NeverAllPlaced(TargetFor(w, h), Sizes(rects, index[..n], padding), more);
    }
  }

  // A batch of one is one request.
  lemma OneBatch(t: Target, st: PackState, p: PackRects.Rect, st': PackState, rs: seq<PackRects.Rect>)
    requires PackRects.IsBatch(t, st, [p], [0], st', rs) && p.w > 0 && p.h > 0
    ensures PackedBy(t, st, p.w, p.h, st', rs != [] && rs[0].wasPacked != 0)
  {
    hide IsState, Increasing, PackStep, IsPacking, Profile, PackRects.PlacedEach;
    assert PackRects.Reorder([p], [0]) == [p];
    PackRects.NonePlaced(t, st, []);
    assert [p][..0] == [] && [p][..1] == [p];
    PackRects.PlacedNext(t, st, [p], 0);
    StateIsPacking(t, st);
    PackStepMeaning(t, st, p.w, p.h, []);
    if PackStep(t, st, p.w, p.h).1 != [] {
      PlacedInTarget(t, PackStep(t, st, p.w, p.h).0, PackStep(t, st, p.w, p.h).1);
    }
  }

  lemma PlacedInTarget(t: Target, st: PackState, bs: seq<Box>)
    requires IsState(t, st) && bs != [] && IsPacking([] + bs, Profile(st.sky), t.height)
    ensures bs[0].x < PackRects.MAXVAL
  {
    hide Profile;
    ColumnsInTarget(st.sky, t.width, t.height);
    assert [] + bs == bs;
  }

  /** The chain of sizes */

  // The largest width and height among the entries' rectangles.
  function Widest(rects: seq<TexRect>, index: seq<Entry>): nat {
    if index == [] then 0
    else
      var e := index[|index|-1];
      Max(Widest(rects, index[..|index|-1]), if e.used then RectOf(rects, e).w else 0)
  }

  function Highest(rects: seq<TexRect>, index: seq<Entry>): nat {
    if index == [] then 0
    else
      var e := index[|index|-1];
      Max(Highest(rects, index[..|index|-1]), if e.used then RectOf(rects, e).h else 0)
  }

  lemma MaximaNext(rects: seq<TexRect>, index: seq<Entry>, n: nat)
    requires n < |index|
    ensures Widest(rects, index[..n+1]) ==
      Max(Widest(rects, index[..n]), if index[n].used then RectOf(rects, index[n]).w else 0)
    ensures Highest(rects, index[..n+1]) ==
      Max(Highest(rects, index[..n]), if index[n].used then RectOf(rects, index[n]).h else 0)
  {
    assert index[..n+1][..n] == index[..n];
  }

  // How many entries, n of which are placed, a repack gets through before it gives up.
  ghost function Tried(t: Target, rects: seq<TexRect>, index: seq<Entry>, padding: int, n: nat): (m: nat)
    requires n <= |index|
    ensures n <= m <= |index|
    decreases |index| - n
  {
    if n == |index| || !AllPlaced(t, Sizes(rects, index[..n], padding)) then n
    else Tried(t, rects, index, padding, n + 1)
  }

  lemma {:induction false} TriedIs(t: Target, rects: seq<TexRect>, index: seq<Entry>, padding: int, m: nat, n: nat)
    requires m <= n < |index|
    requires AllPlaced(t, Sizes(rects, index[..n], padding)) && !AllPlaced(t, Sizes(rects, index[..n+1], padding))
    ensures Tried(t, rects, index, padding, m) == n + 1
    decreases n - m
  {
    hide Sizes, AllPlaced;
    var more := SizesGrow(rects, index, m, n, padding);
    NeverAllPlaced(t, Sizes(rects, index[..m], padding), more);
    if m < n { TriedIs(t, rects, index, padding, m + 1, n); }
  }

  lemma GrowsWithin(b: Bounds, w: int, h: int, needW: int, needH: int)
    requires IsBounds(b) && IsSize(b, w, h)
    ensures var n := Grown(b, w, h, needW, needH); IsSize(b, n.0, n.1) && w <= n.0 <= b.maxW && h <= n.1 <= b.maxH
  {
    hide PowerOfTwo, UpperPowerOfTwo;
    GrownIsSize(b, w, h, needW, needH);
  }

  // The size that is tried after w by h has failed: it makes room for the rectangles seen there.
  ghost function NextSize(b: Bounds, w: int, h: int, rects: seq<TexRect>, index: seq<Entry>, padding: int)
    : (n: (int, int))
    requires IsBounds(b) && IsSize(b, w, h)
    ensures IsSize(b, n.0, n.1) && w <= n.0 <= b.maxW && h <= n.1 <= b.maxH
  {
    hide IsBounds, IsSize, Grown, Tried, Widest, Highest, TargetFor;
    SizeRange(b, w, h);
    var seen := index[..Tried(TargetFor(w, h), rects, index, padding, 0)];
    GrowsWithin(b, w, h, Widest(rects, seen) + padding, Highest(rects, seen) + padding);
    Grown(b, w, h, Widest(rects, seen) + padding, Highest(rects, seen) + padding)
  }

  // The first size, from w by h on, that all rectangles fit; none if growth ends before.
  ghost function FirstFit(b: Bounds, w: int, h: int, rects: seq<TexRect>, index: seq<Entry>, padding: int)
    : (r: Option<(int, int)>)
    requires IsBounds(b) && IsSize(b, w, h)
    ensures r.Some? ==>
      && IsSize(b, r.value.0, r.value.1) && w <= r.value.0 && h <= r.value.1
      && AllFit(r.value.0, r.value.1, rects, index, padding)
    decreases b.maxW + b.maxH - w - h
  {
    if AllFit(w, h, rects, index, padding) then Some((w, h))
    else
      var n := NextSize(b, w, h, rects, index, padding);
      if n == (w, h) then None else FirstFit(b, n.0, n.1, rects, index, padding)
  }

  lemma FitsAtOnce(b: Bounds, w: int, h: int, rects: seq<TexRect>, index: seq<Entry>, padding: int)
    requires IsBounds(b) && IsSize(b, w, h) && AllFit(w, h, rects, index, padding)
    ensures FirstFit(b, w, h, rects, index, padding) == Some((w, h))
  {
    hide AllFit;
  }

  // What a size that fails leads to.
  lemma FitAfter(b: Bounds, w: int, h: int, rects: seq<TexRect>, index: seq<Entry>, padding: int)
    requires IsBounds(b) && IsSize(b, w, h) && !AllFit(w, h, rects, index, padding)
    ensures var n := NextSize(b, w, h, rects, index, padding);
      && IsSize(b, n.0, n.1)
      && FirstFit(b, w, h, rects, index, padding) ==
           if n == (w, h) then None else FirstFit(b, n.0, n.1, rects, index, padding)
  {
    hide AllFit, IsSize, IsBounds, NextSize;
  }
}
