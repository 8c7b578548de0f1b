// What a packing is, and what resting one more box on the skyline does to it.
module Packing {
  import opened Skyline

  datatype Box = Box(x: int, y: int, w: int, h: int)

  ghost predicate Inside(b: Box, width: int, height: int) {
    0 <= b.x && 0 <= b.y && 0 < b.w && 0 < b.h && b.x + b.w <= width && b.y + b.h <= height
  }

  predicate Disjoint(a: Box, b: Box) {
    a.x + a.w <= b.x || b.x + b.w <= a.x || a.y + a.h <= b.y || b.y + b.h <= a.y
  }

  ghost predicate Under(b: Box, p: seq<int>) {
    0 <= b.x && b.x + b.w <= |p| && forall c :: b.x <= c < b.x + b.w ==> b.y + b.h <= p[c]
  }

  function AreaOf(bs: seq<Box>): int {
    if bs == [] then 0 else AreaOf(bs[..|bs|-1]) + Area(bs[|bs|-1].w, bs[|bs|-1].h)
  }

  ghost predicate Supported(bs: seq<Box>, p: seq<int>, height: int) {
    forall i :: 0 <= i < |bs| ==> Inside(bs[i], |p|, height) && Under(bs[i], p)
  }

  ghost predicate PairwiseDisjoint(bs: seq<Box>) {
    forall i, j :: 0 <= i < j < |bs| ==> Disjoint(bs[i], bs[j])
  }

  // The boxes placed so far, seen against the column heights they have left.
  ghost predicate IsPacking(bs: seq<Box>, p: seq<int>, height: int) {
    && Supported(bs, p, height)
    && PairwiseDisjoint(bs)
    && AreaOf(bs) <= Sum(p, 0, |p|)
  }

  // Where a box of width w with its left edge at column x comes to rest.
  function RestAt(p: seq<int>, x: int, w: int): (y: int)
    requires 0 <= x && 0 <= w && x + w <= |p|
    ensures y >= 0
  {
    MaxOver(p, x, x + w)
  }

  lemma SumOfRaise(p: seq<int>, a: int, b: int, top: int)
    requires 0 <= a <= b <= |p|
    ensures Sum(Raise(p, a, b, top), 0, |p|) == Sum(p, 0, |p|) + (b - a) * top - Sum(p, a, b)
  {
    var q := Raise(p, a, b, top);
    SumSplit(p, 0, a, |p|); SumSplit(p, a, b, |p|);
    SumSplit(q, 0, a, |p|); SumSplit(q, a, b, |p|);
    SumAgrees(p, q, 0, a); SumAgrees(p, q, b, |p|);
    SumOfConstant(q, a, b, top);
  }

  // The area under the skyline grows by the box, the slack beside it, and the waste below.
  lemma RaiseAddsArea(p: seq<int>, x: int, w: int, h: int, e: int, y: int)
    requires 0 <= x && 0 <= w && x + w <= e <= |p| && 0 <= h
    requires MaxOver(p, x, e) <= y
    ensures Sum(Raise(p, x, e, y + h), 0, |p|)
         == Sum(p, 0, |p|) + Area(w, h) + Area(e - x - w, h) + (Area(e - x, y) - Sum(p, x, e))
    ensures Area(e - x - w, h) >= 0 && Area(e - x, y) >= Sum(p, x, e)
    ensures e == x + w ==> Area(e - x - w, h) == 0
  {
    SumOfRaise(p, x, e, y + h);
    MaxBounds(p, x, e, y);
    SumAtMost(p, x, e, y);
    hide Sum, Raise, MaxOver;
    BoxSlackWaste(e - x, w, h, y);
  }

  lemma BoxSlackWaste(n: int, w: int, h: int, y: int)
    requires 0 <= w <= n && 0 <= h
    ensures n * (y + h) == w * h + (n - w) * h + n * y
    ensures (n - w) * h >= 0
  {
    assert n * h == w * h + (n - w) * h;
    assert n * (y + h) == n * y + n * h;
  }

  lemma RestingMonotone(p: seq<int>, x: int, e: int, e': int)
    requires 0 <= x <= e <= e' <= |p|
    ensures MaxOver(p, x, e) <= MaxOver(p, x, e')
  {
    MaxSplit(p, x, e, e');
  }

  // A box lying under the skyline keeps clear of one resting on it.
  lemma RestingIsDisjoint(a: Box, b: Box, p: seq<int>)
    requires Under(a, p) && 0 < a.w && 0 < b.w && 0 <= b.x && b.x + b.w <= |p|
    requires forall c :: b.x <= c < b.x + b.w ==> p[c] <= b.y
    ensures Disjoint(a, b)
  {
    if a.x < b.x + b.w && b.x < a.x + a.w {
      var c := Max(a.x, b.x);
      assert a.y + a.h <= p[c] <= b.y;
    }
  }

  lemma UnderMonotone(a: Box, p: seq<int>, q: seq<int>)
    requires Under(a, p) && |p| == |q| && forall c :: 0 <= c < |p| ==> p[c] <= q[c]
    ensures Under(a, q)
  {
  }

  // Raising the skyline under a box that rests on it keeps the packing a packing.
  lemma PackingGrows(bs: seq<Box>, p: seq<int>, height: int, b: Box, e: int)
    requires IsPacking(bs, p, height)
    requires Inside(b, |p|, height) && b.x + b.w <= e <= |p|
    requires MaxOver(p, b.x, e) <= b.y
    ensures IsPacking(bs + [b], Raise(p, b.x, e, b.y + b.h), height)
  {
    hide MaxOver, Sum, Disjoint, Supported, PairwiseDisjoint, Under, Raise, AreaOf;
    var q := Raise(p, b.x, e, b.y + b.h);
    RaisedAbove(p, b, e);
    RaiseAddsArea(p, b.x, b.w, b.h, e, b.y);
    AreaOfMore(bs, b);
    SupportedGrows(bs, p, q, height, b);
    DisjointGrows(bs, p, height, b);
  }

  // Raising never lowers a column, and leaves the box that rests there below the skyline.
  lemma RaisedAbove(p: seq<int>, b: Box, e: int)
    requires 0 <= b.x && 0 < b.w && 0 < b.h && b.x + b.w <= e <= |p| && MaxOver(p, b.x, e) <= b.y
    ensures var q := Raise(p, b.x, e, b.y + b.h);
      |q| == |p| && Under(b, q) && forall c :: 0 <= c < |p| ==> p[c] <= q[c]
    ensures forall c :: b.x <= c < b.x + b.w ==> p[c] <= b.y
  {
    hide MaxOver;
    MaxBounds(p, b.x, e, b.y);
  }

  lemma AreaOfMore(bs: seq<Box>, b: Box)
    ensures AreaOf(bs + [b]) == AreaOf(bs) + Area(b.w, b.h)
  {
    assert (bs + [b])[..|bs|] == bs;
  }

  lemma SupportedGrows(bs: seq<Box>, p: seq<int>, q: seq<int>, height: int, b: Box)
    requires Supported(bs, p, height) && Inside(b, |q|, height) && Under(b, q)
    requires |p| == |q| && forall c :: 0 <= c < |p| ==> p[c] <= q[c]
    ensures Supported(bs + [b], q, height)
  {
    forall i | 0 <= i < |bs| ensures Under(bs[i], q) { UnderMonotone(bs[i], p, q); }
  }

  lemma DisjointGrows(bs: seq<Box>, p: seq<int>, height: int, b: Box)
    requires Supported(bs, p, height) && PairwiseDisjoint(bs) && Inside(b, |p|, height)
    requires forall c :: b.x <= c < b.x + b.w ==> p[c] <= b.y
    ensures PairwiseDisjoint(bs + [b])
  {
    forall i | 0 <= i < |bs| ensures Disjoint(bs[i], b) { RestingIsDisjoint(bs[i], b, p); }
  }

  // No packing covers more than the target.
  lemma AreaFits(bs: seq<Box>, p: seq<int>, height: int)
    requires IsPacking(bs, p, height)
    requires forall c :: 0 <= c < |p| ==> p[c] <= height
    ensures AreaOf(bs) <= |p| * height
  {
    SumAtMost(p, 0, |p|, height);
  }

  /** Where a box should go */

  // Lowest resting place of all; leftmost among those.
  ghost predicate IsBottomLeft(p: seq<int>, w: int, x: int, y: int) {
    && 0 <= x && 0 <= w && x + w <= |p| && y == RestAt(p, x, w)
    && (forall x' :: 0 <= x' <= |p| - w ==> y <= RestAt(p, x', w))
    && (forall x' :: 0 <= x' < x ==> y < RestAt(p, x', w))
  }

  // Resting at column x keeps the box inside the target.
  predicate FitsAt(p: seq<int>, height: int, w: int, h: int, x: int) {
    0 <= x && 0 <= w && x + w <= |p| && RestAt(p, x, w) + h <= height
  }

  // Some position lets a box of width w and height h rest on the skyline inside the target.
  ghost predicate Fits(p: seq<int>, height: int, w: int, h: int) {
    exists x :: FitsAt(p, height, w, h, x)
  }

  // Sliding a box left to the breakpoint under its left edge never lifts it.
  lemma SlideLeft(s: seq<Step>, x: int, w: int) returns (k: nat)
    requires |s| >= 2 && Increasing(s) && s[0].x == 0
    requires 0 <= x && 0 < w && x + w <= s[|s|-1].x
    ensures k + 1 < |s| && s[k].x <= x && s[k].x + w <= s[|s|-1].x && 0 <= s[k].x
    ensures RestAt(Profile(s), s[k].x, w) <= RestAt(Profile(s), x, w)
  {
    k := Locate(s, x, 0);
    SegmentIsFlat(s, k);
    SlideLeftOver(Profile(s), s[k].x, x, w);
  }

  lemma SlideLeftOver(p: seq<int>, x': int, x: int, w: int)
    requires 0 <= x' <= x && 0 < w && x + w <= |p|
    requires forall c :: x' <= c <= x ==> p[c] == p[x]
    ensures RestAt(p, x', w) <= RestAt(p, x, w)
  {
    var m := MaxOver(p, x, x + w);
    MaxBounds(p, x, x + w, m);
    MaxBounds(p, x', x' + w, m);
    hide MaxOver;
    forall c | x' <= c < x' + w ensures p[c] <= m {
      if c < x { assert p[c] == p[x]; }
    }
  }
}
