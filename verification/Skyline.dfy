// The skyline as a mathematical value: the breakpoints that the packer keeps in a linked
// list, the column heights they stand for, and the laws connecting the two.
module Skyline {

  datatype Step = Step(x: int, y: int)

  const SENTINEL_Y: int := 0x4000_0000

  function Max(a: int, b: int): int { if a > b then a else b }

  function Area(w: int, h: int): int { w * h }

  ghost predicate Increasing(s: seq<Step>) {
    forall i, j :: 0 <= i < j < |s| ==> s[i].x < s[j].x
  }

  // Breakpoints run strictly rightwards from column 0 to the sentinel at `width`.
  ghost predicate IsSkyline(s: seq<Step>, width: int, height: int) {
    && |s| >= 2
    && s[0].x == 0
    && s[|s|-1] == Step(width, SENTINEL_Y)
    && Increasing(s)
    && forall i :: 0 <= i < |s| - 1 ==> 0 <= s[i].y <= height
  }

  lemma SkylineIsIncreasing(s: seq<Step>, width: int, height: int)
    requires IsSkyline(s, width, height)
    ensures |s| >= 2 && Increasing(s) && s[0].x == 0 && s[|s|-1].x == width
  {
  }

  // Only the last stretch of floor can still be free.
  ghost predicate FilledFromLeft(s: seq<Step>) {
    forall i :: 0 <= i < |s| - 2 ==> s[i].y >= 1
  }

  /** Column heights */

  function Locate(s: seq<Step>, c: int, k: nat): (i: nat)
    requires Increasing(s) && k + 1 < |s| && s[k].x <= c < s[|s|-1].x
    ensures i + 1 < |s| && s[i].x <= c < s[i+1].x
    decreases |s| - k
  {
    if c < s[k+1].x then k else Locate(s, c, k + 1)
  }

  // The height of every column 0 .. width-1.
  function Profile(s: seq<Step>): (p: seq<int>)
    requires |s| >= 2 && Increasing(s) && s[0].x == 0
    ensures |p| == s[|s|-1].x
  {
    seq(s[|s|-1].x, c requires 0 <= c < s[|s|-1].x => s[Locate(s, c, 0)].y)
  }

  lemma SegmentIsFlat(s: seq<Step>, k: nat)
    requires |s| >= 2 && Increasing(s) && s[0].x == 0 && k + 1 < |s|
    ensures 0 <= s[k].x && s[k+1].x <= s[|s|-1].x
    ensures forall c :: s[k].x <= c < s[k+1].x ==> Profile(s)[c] == s[k].y
  {
    forall c | s[k].x <= c < s[k+1].x ensures Profile(s)[c] == s[k].y {
      assert Locate(s, c, 0) == k;
    }
  }

  function MaxOver(p: seq<int>, a: int, b: int): (m: int)
    requires 0 <= a <= b <= |p|
    ensures m >= 0
    decreases b - a
  {
    if a == b then 0 else Max(MaxOver(p, a, b - 1), p[b-1])
  }

  function Sum(p: seq<int>, a: int, b: int): int
    requires 0 <= a <= b <= |p|
    decreases b - a
  {
    if a == b then 0 else Sum(p, a, b - 1) + p[b-1]
  }

  lemma {:induction false} SumSplit(p: seq<int>, a: int, m: int, b: int)
    requires 0 <= a <= m <= b <= |p|
    ensures Sum(p, a, b) == Sum(p, a, m) + Sum(p, m, b)
    decreases b - m
  {
    if m < b { SumSplit(p, a, m, b - 1); }
  }

  lemma {:induction false} SumOfConstant(p: seq<int>, a: int, b: int, v: int)
    requires 0 <= a <= b <= |p|
    requires forall c :: a <= c < b ==> p[c] == v
    ensures Sum(p, a, b) == (b - a) * v
    decreases b - a
  {
    if a < b { SumOfConstant(p, a, b - 1, v); }
  }

  lemma {:induction false} SumAgrees(p: seq<int>, q: seq<int>, a: int, b: int)
    requires 0 <= a <= b <= |p| && b <= |q|
    requires forall c :: a <= c < b ==> p[c] == q[c]
    ensures Sum(p, a, b) == Sum(q, a, b)
    decreases b - a
  {
    if a < b { SumAgrees(p, q, a, b - 1); }
  }

  lemma {:induction false} SumAtMost(p: seq<int>, a: int, b: int, v: int)
    requires 0 <= a <= b <= |p|
    requires forall c :: a <= c < b ==> p[c] <= v
    ensures Sum(p, a, b) <= (b - a) * v
    decreases b - a
  {
    if a < b { SumAtMost(p, a, b - 1, v); }
  }

  lemma {:induction false} MaxSplit(p: seq<int>, a: int, m: int, b: int)
    requires 0 <= a <= m <= b <= |p|
    ensures MaxOver(p, a, b) == Max(MaxOver(p, a, m), MaxOver(p, m, b))
    decreases b - m
  {
    if m < b { MaxSplit(p, a, m, b - 1); }
  }

  /** Scanning a span: the resting height, and the area wasted below it */

  // What the scan carries along: the resting height so far, the width seen, the waste below.
  datatype Tally = Tally(minY: int, visited: int, waste: int)

  // One breakpoint of the scan; `right` is where the next one starts.
  function Visit(t: Tally, node: Step, right: int, x0: int, width: int): (r: Tally)
    ensures r.minY == Max(t.minY, node.y)
  {
    if node.y > t.minY then
      Tally(node.y,
            t.visited + right - Max(node.x, x0),
            t.waste + Area(t.visited, node.y - t.minY))
    else
      var span := right - node.x;
      var under := if span + t.visited > width then width - t.visited else span;
      Tally(t.minY, t.visited + under, t.waste + Area(under, t.minY - node.y))
  }

  lemma VisitCases(t: Tally, node: Step, right: int, x0: int, width: int)
    ensures node.y > t.minY ==>
      Visit(t, node, right, x0, width)
         == Tally(node.y, t.visited + right - Max(node.x, x0), t.waste + Area(t.visited, node.y - t.minY))
    ensures node.y <= t.minY ==>
      var under := if right - node.x + t.visited > width then width - t.visited else right - node.x;
      Visit(t, node, right, x0, width) == Tally(t.minY, t.visited + under, t.waste + Area(under, t.minY - node.y))
  {
  }

  // The packer's left-to-right scan from breakpoint k over columns x0 .. x0+width-1.
  function Scan(s: seq<Step>, k: nat, x0: int, width: int, t: Tally): (r: Tally)
    requires Increasing(s) && k < |s| && x0 + width <= s[|s|-1].x
    decreases |s| - k
  {
    if s[k].x >= x0 + width then t
    else Scan(s, k + 1, x0, width, Visit(t, s[k], s[k+1].x, x0, width))
  }

  ghost predicate Spans(s: seq<Step>, k: nat, x0: int, width: int) {
    && |s| >= 2 && Increasing(s) && s[0].x == 0
    && k + 1 < |s| && s[k].x <= x0 < s[k+1].x
    && 0 < width && x0 + width <= s[|s|-1].x
  }

  // Starting at a breakpoint, or on raised ground.
  predicate ExactStart(s: seq<Step>, k: nat, x0: int) requires k < |s| {
    s[k].x == x0 || s[k].y > 0
  }

  function Min(a: int, b: int): int { if a < b then a else b }

  lemma {:induction false} MaxOfConstant(p: seq<int>, a: int, b: int, v: int)
    requires 0 <= a < b <= |p|
    requires forall c :: a <= c < b ==> p[c] == v
    ensures MaxOver(p, a, b) == Max(0, v)
    decreases b - a
  {
    if a + 1 < b { MaxOfConstant(p, a, b - 1, v); }
  }

  // Columns of the span x0 .. x1-1 that lie left of breakpoint k.
  function Seen(s: seq<Step>, k: nat, x0: int, x1: int): (c: int)
    requires k < |s| && x0 <= x1
    ensures x0 <= c <= x1
  {
    Min(Max(s[k].x, x0), x1)
  }

  lemma {:induction false} ScanFromIsMax(s: seq<Step>, k: nat, x0: int, width: int, t: Tally)
    requires |s| >= 2 && Increasing(s) && s[0].x == 0
    requires k < |s| && 0 <= x0 && 0 < width && x0 + width <= s[|s|-1].x
    requires k + 1 < |s| ==> x0 < s[k+1].x
    requires t.minY == MaxOver(Profile(s), x0, Seen(s, k, x0, x0 + width))
    ensures Scan(s, k, x0, width, t).minY == MaxOver(Profile(s), x0, x0 + width)
    decreases |s| - k
  {
    hide Visit, MaxOver;
    var p, x1 := Profile(s), x0 + width;
    if s[k].x < x1 {
      var a, b := Seen(s, k, x0, x1), Seen(s, k + 1, x0, x1);
      SegmentIsFlat(s, k);
      MaxSplit(p, x0, a, b);
      MaxOfConstant(p, a, b, s[k].y);
      ScanFromIsMax(s, k + 1, x0, width, Visit(t, s[k], s[k+1].x, x0, width));
    }
  }

  // What the scan is for: the lowest y at which a box over those columns clears the skyline,
  // and, from a breakpoint or raised ground, the empty area it would leave below.
  lemma ScanMeaning(s: seq<Step>, k: nat, x0: int, width: int)
    requires Spans(s, k, x0, width)
    ensures var t := Scan(s, k, x0, width, Tally(0, 0, 0));
      && t.minY == MaxOver(Profile(s), x0, x0 + width)
      && (ExactStart(s, k, x0) ==> t.waste == Area(width, t.minY) - Sum(Profile(s), x0, x0 + width))
  {
    var t := Tally(0, 0, 0);
    assert Seen(s, k, x0, x0 + width) == x0;
    ScanFromIsMax(s, k, x0, width, t);
    if ExactStart(s, k, x0) { ExactFromStart(s, k, x0, width); }
  }

  lemma ExactFromStart(s: seq<Step>, k: nat, x0: int, width: int)
    requires Spans(s, k, x0, width) && ExactStart(s, k, x0)
    ensures var t := Scan(s, k, x0, width, Tally(0, 0, 0));
      t.waste == Area(width, t.minY) - Sum(Profile(s), x0, x0 + width)
  {
    hide Sum, Area, MaxOver, Landing, Profile, Landings;
    var t, p, x1 := Tally(0, 0, 0), Profile(s), x0 + width;
    AreaSums(0, 0, 0, 0);
    AreaOfConstant(0, s[k].y);
    if s[k].x == x0 {
      NoLandings(s, k, x0, x1);
      NothingBefore(p, x0);
      ScanIsOff(s, k, x0, width, t, 0);
    } else {
      var b := Min(s[k+1].x, x1);
      SegmentIsFlat(s, k);
      MaxOfConstant(p, x0, b, s[k].y);
      SumOfConstant(p, x0, b, s[k].y);
      AreaOfConstant(b - x0, s[k].y);
      NoLandings(s, k + 1, x0, x1);
      ScanIsOff(s, k + 1, x0, width, Visit(t, s[k], s[k+1].x, x0, width), 0);
    }
  }

  lemma NothingBefore(p: seq<int>, a: int)
    requires 0 <= a <= |p|
    ensures MaxOver(p, a, a) == 0 && Sum(p, a, a) == 0
  {
  }

  /** How far the waste is off */

  // Heights are never negative.
  ghost predicate AboveGround(s: seq<Step>) {
    forall i :: 0 <= i < |s| ==> s[i].y >= 0
  }

  // Columns that the scan takes to lie in the first segment although they lie behind it: it
  // measures a segment on the ground from its own start and not from where the box starts.
  function Surplus(s: seq<Step>, k: nat, x0: int, width: int): (d: int)
    requires k + 1 < |s|
    ensures 0 <= d && (0 < width ==> d <= Max(0, x0 + width - s[k+1].x))
  {
    if ExactStart(s, k, x0) || s[k+1].x >= x0 + width then 0
    else Max(0, Min(s[k+1].x - s[k].x, width) - (s[k+1].x - x0))
  }

  // The height of the first segment, from i on, that reaches past column c and does not rise
  // above the columns of the span before it; of the whole span if there is none.
  function Landing(s: seq<Step>, i: nat, x0: int, x1: int, c: int): (y: int)
    requires |s| >= 2 && Increasing(s) && s[0].x == 0
    requires i < |s| && 0 <= x0 <= s[i].x && x0 <= x1 <= s[|s|-1].x
    decreases |s| - i
  {
    if s[i].x >= x1 then MaxOver(Profile(s), x0, x1)
    else if c < s[i+1].x && s[i].y <= MaxOver(Profile(s), x0, s[i].x) then s[i].y
    else Landing(s, i + 1, x0, x1, c)
  }

  // The landings of the last e columns.
  function Landings(s: seq<Step>, i: nat, x0: int, x1: int, e: nat): int
    requires |s| >= 2 && Increasing(s) && s[0].x == 0
    requires i < |s| && 0 <= x0 <= s[i].x && x0 <= x1 <= s[|s|-1].x
  {
    if e == 0 then 0 else Landings(s, i, x0, x1, e - 1) + Landing(s, i, x0, x1, x1 - e)
  }

  lemma {:induction false} LandingsAtEnd(s: seq<Step>, i: nat, x0: int, x1: int, e: nat)
    requires |s| >= 2 && Increasing(s) && s[0].x == 0
    requires i < |s| && 0 <= x0 <= s[i].x && x0 <= x1 <= s[|s|-1].x && s[i].x >= x1
    ensures Landings(s, i, x0, x1, e) == Area(e, MaxOver(Profile(s), x0, x1))
  {
    hide Profile, MaxOver;
    if e > 0 { LandingsAtEnd(s, i, x0, x1, e - 1); }
  }

  // A segment that rises decides no landing.
  lemma {:induction false} LandingsRise(s: seq<Step>, i: nat, x0: int, x1: int, e: nat)
    requires |s| >= 2 && Increasing(s) && s[0].x == 0
    requires i < |s| && 0 <= x0 <= s[i].x < x1 <= s[|s|-1].x && s[i].y > MaxOver(Profile(s), x0, s[i].x)
    ensures i + 1 < |s| && Landings(s, i, x0, x1, e) == Landings(s, i + 1, x0, x1, e)
  {
    hide Profile, MaxOver;
    if e > 0 { LandingsRise(s, i, x0, x1, e - 1); }
  }

  // A segment that does not rise decides all but those of the columns behind it.
  lemma {:induction false} LandingsFall(s: seq<Step>, i: nat, x0: int, x1: int, e: nat, e': nat)
    requires |s| >= 2 && Increasing(s) && s[0].x == 0
    requires i + 1 < |s| && 0 <= x0 <= s[i].x < x1 <= s[|s|-1].x && s[i].y <= MaxOver(Profile(s), x0, s[i].x)
    requires e' == Min(e, Max(0, x1 - s[i+1].x))
    ensures Landings(s, i, x0, x1, e) == Landings(s, i + 1, x0, x1, e') + Area(e - e', s[i].y)
    decreases e
  {
    hide Profile, MaxOver, Landing, Area;
    AreaSums(0, 0, s[i].y, 0);
    if e > 0 {
      var m := Min(e - 1, Max(0, x1 - s[i+1].x));
      LandingsFall(s, i, x0, x1, e - 1, m);
      LandingFall(s, i, x0, x1, x1 - e);
      AreaSums(e - 1 - m, 1, s[i].y, 0);
      AreaOfConstant(1, s[i].y);
    }
  }

  lemma LandingFall(s: seq<Step>, i: nat, x0: int, x1: int, c: int)
    requires |s| >= 2 && Increasing(s) && s[0].x == 0
    requires i + 1 < |s| && 0 <= x0 <= s[i].x < x1 <= s[|s|-1].x && s[i].y <= MaxOver(Profile(s), x0, s[i].x)
    ensures Landing(s, i, x0, x1, c) == if c < s[i+1].x then s[i].y else Landing(s, i + 1, x0, x1, c)
  {
    hide Profile, MaxOver;
  }

  // How far the waste of a tally is off over the columns left of b.
  function Off(t: Tally, p: seq<int>, a: int, b: int): int
    requires 0 <= a <= b <= |p|
  {
    t.waste - (Area(b - a, t.minY) - Sum(p, a, b))
  }

  lemma AreaSums(n: int, k: int, y: int, z: int)
    ensures Area(n + k, y) == Area(n, y) + Area(k, y) && Area(n - k, y) == Area(n, y) - Area(k, y)
    ensures Area(n, y - z) == Area(n, y) - Area(n, z) && Area(n, 0) == 0
  {
  }

  // A segment that rises: every surplus column is counted from the old height to the new one.
  lemma VisitRise(t: Tally, p: seq<int>, node: Step, right: int, x0: int, width: int, e: nat)
    requires 0 <= x0 <= node.x < right && node.x < x0 + width <= |p| && node.y > t.minY
    requires t.visited == node.x - x0 + e
    requires forall c :: node.x <= c < right && 0 <= c < |p| ==> p[c] == node.y
    ensures var t' := Visit(t, node, right, x0, width);
      && Off(t', p, x0, Min(right, x0 + width)) - Area(e, t'.minY) == Off(t, p, x0, node.x) - Area(e, t.minY)
      && t'.visited == right - x0 + e
  {
    var a, b, y := node.x, Min(right, x0 + width), node.y;
    SumSplit(p, x0, a, b);
    SumOfConstant(p, a, b, y);
    hide Sum, Area;
    AreaOfConstant(b - a, y);
    AreaSums(a - x0, b - a, y, t.minY);
    AreaSums(a - x0, e, y - t.minY, t.minY);
    AreaSums(e, 0, y, t.minY);
  }

  lemma AreaOfConstant(n: int, y: int)
    ensures Area(n, y) == n * y
  {
  }

  // A segment that does not rise: surplus columns beyond those still to come are dropped, each
  // with the segment's height too much.
  lemma VisitFall(t: Tally, p: seq<int>, node: Step, right: int, x0: int, width: int, e: nat, e': nat)
    requires 0 <= x0 <= node.x < right && node.x < x0 + width <= |p| && node.y <= t.minY
    requires t.visited == node.x - x0 + e
    requires forall c :: node.x <= c < right && 0 <= c < |p| ==> p[c] == node.y
    requires e' == Min(e, Max(0, x0 + width - right))
    ensures var t' := Visit(t, node, right, x0, width);
      && Off(t', p, x0, Min(right, x0 + width)) - Area(e', t'.minY)
           == Off(t, p, x0, node.x) - Area(e, t.minY) + Area(e - e', node.y)
      && (right < x0 + width ==> t'.visited == right - x0 + e')
  {
    var a, b, y := node.x, Min(right, x0 + width), node.y;
    SumSplit(p, x0, a, b);
    SumOfConstant(p, a, b, y);
    hide Sum, Area;
    var under := if right - node.x + t.visited > width then width - t.visited else right - node.x;
    assert under == (b - a) - (e - e');
    AreaOfConstant(b - a, y);
    AreaSums(a - x0, b - a, t.minY, y);
    AreaSums(b - a, e - e', t.minY - y, y);
    AreaSums(b - a, 0, t.minY, y);
    AreaSums(e - e', 0, t.minY, y);
    AreaSums(e, e', t.minY, y);
  }

  // The scan from breakpoint i on, with e columns counted twice so far.
  lemma {:induction false} ScanIsOff(s: seq<Step>, i: nat, x0: int, width: int, t: Tally, e: nat)
    requires |s| >= 2 && Increasing(s) && s[0].x == 0
    requires i < |s| && 0 <= x0 <= s[i].x && 0 < width && x0 + width <= s[|s|-1].x
    requires t.minY == MaxOver(Profile(s), x0, Min(s[i].x, x0 + width))
    requires s[i].x < x0 + width ==> t.visited == s[i].x - x0 + e
    ensures var p, x1 := Profile(s), x0 + width;
      Off(Scan(s, i, x0, width, t), p, x0, x1)
        == Off(t, p, x0, Min(s[i].x, x1)) - Area(e, t.minY) + Landings(s, i, x0, x1, e)
    decreases |s| - i
  {
    hide Visit, Off, Sum, Area, MaxOver, Landing, Landings, Profile;
    var p, x1 := Profile(s), x0 + width;
    if s[i].x >= x1 {
      LandingsAtEnd(s, i, x0, x1, e);
    } else {
      SegmentIsFlat(s, i);
      var t' := Visit(t, s[i], s[i+1].x, x0, width);
      var b := Min(s[i+1].x, x1);
      MaxSplit(p, x0, s[i].x, b);
      MaxOfConstant(p, s[i].x, b, s[i].y);
      MaxNatural(p, x0, s[i].x);
      if s[i].y > t.minY {
        LandingsRise(s, i, x0, x1, e);
        VisitRise(t, p, s[i], s[i+1].x, x0, width, e);
        ScanIsOff(s, i + 1, x0, width, t', e);
      } else {
        var e' := Min(e, Max(0, x1 - s[i+1].x));
        LandingsFall(s, i, x0, x1, e, e');
        VisitFall(t, p, s[i], s[i+1].x, x0, width, e, e');
        ScanIsOff(s, i + 1, x0, width, t', e');
      }
    }
  }

  // The waste is the area left, and the landings of the surplus columns on top of it.
  lemma WasteIs(s: seq<Step>, k: nat, x0: int, width: int)
    requires Spans(s, k, x0, width) && AboveGround(s)
    ensures var t, x1 := Scan(s, k, x0, width, Tally(0, 0, 0)), x0 + width;
      t.waste == Area(width, t.minY) - Sum(Profile(s), x0, x1) + Landings(s, k + 1, x0, x1, Surplus(s, k, x0, width))
  {
    hide Sum, Area, MaxOver, Landing, Profile, Landings;
    var t, p, x1 := Tally(0, 0, 0), Profile(s), x0 + width;
    NoLandings(s, k + 1, x0, x1);
    if ExactStart(s, k, x0) {
      ScanMeaning(s, k, x0, width);
    } else {
      var b, d := Min(s[k+1].x, x1), Surplus(s, k, x0, width);
      var t' := Visit(t, s[k], s[k+1].x, x0, width);
      SegmentIsFlat(s, k);
      MaxOfConstant(p, x0, b, 0);
      SumOfConstant(p, x0, b, 0);
      var under := Min(s[k+1].x - s[k].x, width);
      AreaSums(under, 0, 0, 0);
      AreaSums(b - x0, 0, 0, 0);
      AreaSums(d, 0, 0, 0);
      assert t' == Tally(0, under, 0) by { assert s[k].y == 0; }
      ScanIsOff(s, k + 1, x0, width, t', d);
    }
  }

  lemma NoLandings(s: seq<Step>, i: nat, x0: int, x1: int)
    requires |s| >= 2 && Increasing(s) && s[0].x == 0
    requires i < |s| && 0 <= x0 <= s[i].x && x0 <= x1 <= s[|s|-1].x
    ensures Landings(s, i, x0, x1, 0) == 0
  {
  }

  lemma {:induction false} LandingNatural(s: seq<Step>, i: nat, x0: int, x1: int, c: int)
    requires |s| >= 2 && Increasing(s) && s[0].x == 0 && AboveGround(s)
    requires i < |s| && 0 <= x0 <= s[i].x && x0 <= x1 <= s[|s|-1].x
    ensures 0 <= Landing(s, i, x0, x1, c)
    decreases |s| - i
  {
    hide Profile, MaxOver;
    MaxNatural(Profile(s), x0, x1);
    if s[i].x < x1 { LandingNatural(s, i + 1, x0, x1, c); }
  }

  // Do the last e columns of the span all land on the ground?
  ghost predicate LandOnGround(s: seq<Step>, i: nat, x0: int, x1: int, e: nat)
    requires |s| >= 2 && Increasing(s) && s[0].x == 0
    requires i < |s| && 0 <= x0 <= s[i].x && x0 <= x1 <= s[|s|-1].x
  {
    forall c :: x1 - e <= c < x1 ==> Landing(s, i, x0, x1, c) == 0
  }

  lemma {:induction false} LandingsZero(s: seq<Step>, i: nat, x0: int, x1: int, e: nat)
    requires |s| >= 2 && Increasing(s) && s[0].x == 0 && AboveGround(s)
    requires i < |s| && 0 <= x0 <= s[i].x && x0 <= x1 <= s[|s|-1].x
    ensures 0 <= Landings(s, i, x0, x1, e)
    ensures Landings(s, i, x0, x1, e) == 0 <==> LandOnGround(s, i, x0, x1, e)
  {
    hide Profile, MaxOver, Landing;
    if e > 0 {
      LandingsZero(s, i, x0, x1, e - 1);
      LandingNatural(s, i, x0, x1, x1 - e);
    }
  }

  // The waste reckoned is never less than the area left, and is exactly that if and only if
  // every surplus column lands on the ground; with no surplus it always is.
  lemma WasteExactIff(s: seq<Step>, k: nat, x0: int, width: int)
    requires Spans(s, k, x0, width) && AboveGround(s)
    ensures var t, x1 := Scan(s, k, x0, width, Tally(0, 0, 0)), x0 + width;
      var left := Area(width, t.minY) - Sum(Profile(s), x0, x1);
      && t.waste >= left >= 0
      && (t.waste == left <==> LandOnGround(s, k + 1, x0, x1, Surplus(s, k, x0, width)))
  {
    hide Sum, Area, MaxOver, Landing, Profile, Landings, Scan, Surplus, LandOnGround;
    WasteIs(s, k, x0, width);
    LandingsZero(s, k + 1, x0, x0 + width, Surplus(s, k, x0, width));
    ScanMeaning(s, k, x0, width);
    MaxCoversSum(Profile(s), x0, x0 + width);
  }

  lemma MaxCoversSum(p: seq<int>, a: int, b: int)
    requires 0 <= a <= b <= |p|
    ensures Area(b - a, MaxOver(p, a, b)) >= Sum(p, a, b)
  {
    MaxBounds(p, a, b, MaxOver(p, a, b));
    SumAtMost(p, a, b, MaxOver(p, a, b));
  }

  lemma MaxNatural(p: seq<int>, a: int, b: int)
    requires 0 <= a <= b <= |p|
    ensures MaxOver(p, a, b) >= 0
  {
  }

  // Starting inside a segment on the ground the scan counts columns left of the span too: over
  // columns of height 0 and 1 it reports 2 wasted cells where there is 1. The packer never leaves
  // such a skyline behind, since its floor is not filled from the left.
  lemma InexactWaste()
    ensures var s := [Step(0, 0), Step(2, 1), Step(3, SENTINEL_Y)];
      && Spans(s, 0, 1, 2) && !ExactStart(s, 0, 1) && !FilledFromLeft(s)
      && Scan(s, 0, 1, 2, Tally(0, 0, 0)) == Tally(1, 3, 2)
      && 2 * 1 - Sum(Profile(s), 1, 3) == 1
  {
    hide Scan, Visit, Sum, Profile, Area;
    var s := [Step(0, 0), Step(2, 1), Step(3, SENTINEL_Y)];
    assert s[0].y == 0;
    var p := Profile(s);
    AreaSums(0, 0, 0, 0);
    AreaOfConstant(2, 0);
    AreaOfConstant(2, 1);
    VisitCases(Tally(0, 0, 0), s[0], 2, 1, 2);
    VisitCases(Tally(0, 2, 0), s[1], 3, 1, 2);
    ScanNext(s, 0, 1, 2, Tally(0, 0, 0));
    ScanNext(s, 1, 1, 2, Tally(0, 2, 0));
    ScanNext(s, 2, 1, 2, Tally(1, 3, 2));
    SegmentIsFlat(s, 0);
    SegmentIsFlat(s, 1);
    SumOfTwo(p, 1);
  }

  lemma ScanNext(s: seq<Step>, k: nat, x0: int, width: int, t: Tally)
    requires Increasing(s) && k < |s| && x0 + width <= s[|s|-1].x
    ensures Scan(s, k, x0, width, t) ==
      if s[k].x >= x0 + width then t else Scan(s, k + 1, x0, width, Visit(t, s[k], s[k+1].x, x0, width))
  {
    hide Visit;
  }

  lemma SumOfTwo(p: seq<int>, a: nat)
    requires a + 2 <= |p|
    ensures Sum(p, a, a + 2) == p[a] + p[a+1]
  {
    assert Sum(p, a, a + 1) == Sum(p, a, a) + p[a];
  }

  lemma {:induction false} MaxBounds(p: seq<int>, a: int, b: int, v: int)
    requires 0 <= a <= b <= |p|
    ensures MaxOver(p, a, b) <= v <==> 0 <= v && forall c :: a <= c < b ==> p[c] <= v
    decreases b - a
  {
    if a < b { MaxBounds(p, a, b - 1, v); }
  }

  /** Placing a box on the skyline */

  // The breakpoint at which the packer stops freeing covered ones.
  function StopAt(s: seq<Step>, j: nat, e: int): (r: nat)
    requires j < |s|
    ensures j <= r < |s|
    ensures r + 1 < |s| ==> s[r+1].x > e
    ensures j < r ==> s[r].x <= e
    decreases |s| - j
  {
    if j + 1 < |s| && s[j+1].x <= e then StopAt(s, j + 1, e) else j
  }

  // How many breakpoints survive to the left of a box whose left edge lies in segment k.
  function Kept(s: seq<Step>, k: nat, x: int): nat
    requires k < |s|
  {
    if s[k].x < x then k + 1 else k
  }

  function Place(s: seq<Step>, k: nat, x: int, w: int, top: int): (t: seq<Step>)
    requires k + 1 < |s|
  {
    var j := StopAt(s, Kept(s, k, x), x + w);
    s[..Kept(s, k, x)] + [Step(x, top), Step(Max(s[j].x, x + w), s[j].y)] + s[j+1..]
  }

  // The right end of the columns that the box raises: its own right edge, or the next
  // breakpoint when the box sits strictly inside a segment that reaches further.
  function RaisedTo(s: seq<Step>, k: nat, x: int, w: int): int
    requires k + 1 < |s|
  {
    Max(x + w, s[Kept(s, k, x)].x)
  }

  function Raise(p: seq<int>, a: int, b: int, top: int): (q: seq<int>)
    requires 0 <= a <= b <= |p|
    ensures |q| == |p|
    ensures forall c :: 0 <= c < |p| ==> q[c] == if a <= c < b then top else p[c]
  {
    p[..a] + seq(b - a, _ => top) + p[b..]
  }

  ghost predicate CanPlace(s: seq<Step>, width: int, height: int, k: nat, x: int, w: int, top: int) {
    && IsSkyline(s, width, height)
    && k + 1 < |s| && s[k].x <= x < s[k+1].x
    && 0 < w && x + w <= width && 0 <= top <= height
  }

  lemma PlaceShape(s: seq<Step>, k: nat, x: int, w: int, top: int)
    requires k + 1 < |s|
    ensures var t, n, j := Place(s, k, x, w, top), Kept(s, k, x), StopAt(s, Kept(s, k, x), x + w);
      && n <= j < |s| && |t| == n + 1 + |s| - j
      && (forall i :: 0 <= i < n ==> t[i] == s[i])
      && t[n] == Step(x, top) && t[n+1] == Step(Max(s[j].x, x + w), s[j].y)
      && (forall i :: n + 2 <= i < |t| ==> t[i] == s[i - n - 1 + j])
  {
  }

  lemma IncreasingConcat(a: seq<Step>, b: seq<Step>)
    requires Increasing(a) && Increasing(b)
    requires a != [] && b != [] ==> a[|a|-1].x < b[0].x
    ensures Increasing(a + b)
  {
    forall i, j | 0 <= i < j < |a + b| ensures (a + b)[i].x < (a + b)[j].x {
      if i < |a| <= j {
        assert a[i].x <= a[|a|-1].x && b[0].x <= b[j - |a|].x;
      }
    }
  }

  lemma PlaceKeepsSkyline(s: seq<Step>, width: int, height: int, k: nat, x: int, w: int, top: int)
    requires CanPlace(s, width, height, k, x, w, top)
    ensures IsSkyline(Place(s, k, x, w, top), width, height)
  {
    hide StopAt;
    var n, j := Kept(s, k, x), StopAt(s, Kept(s, k, x), x + w);
    var mid := [Step(x, top), Step(Max(s[j].x, x + w), s[j].y)];
    IncreasingConcat(s[..n], mid);
    assert (s[..n] + mid)[|s[..n] + mid| - 1] == mid[1];
    IncreasingConcat(s[..n] + mid, s[j+1..]);
    PlaceEnds(s, width, height, k, x, w, top);
  }

  lemma PlaceEnds(s: seq<Step>, width: int, height: int, k: nat, x: int, w: int, top: int)
    requires CanPlace(s, width, height, k, x, w, top)
    ensures var t := Place(s, k, x, w, top);
      && |t| >= 2 && t[0].x == 0 && t[|t|-1] == s[|s|-1]
      && forall i :: 0 <= i < |t| - 1 ==> 0 <= t[i].y <= height
  {
    hide Place, StopAt;
    PlaceShape(s, k, x, w, top);
  }

  lemma PlaceRaisesProfile(s: seq<Step>, width: int, height: int, k: nat, x: int, w: int, top: int)
    requires CanPlace(s, width, height, k, x, w, top)
    ensures IsSkyline(Place(s, k, x, w, top), width, height)
    ensures x + w <= RaisedTo(s, k, x, w) <= width
    ensures Profile(Place(s, k, x, w, top)) == Raise(Profile(s), x, RaisedTo(s, k, x, w), top)
  {
    PlaceKeepsSkyline(s, width, height, k, x, w, top);
    var e := RaisedTo(s, k, x, w);
    var p, q := Profile(s), Profile(Place(s, k, x, w, top));
    forall c | 0 <= c < width ensures q[c] == Raise(p, x, e, top)[c] {
      PlaceAtColumn(s, width, height, k, x, w, top, c);
    }
  }

  // Segments compare as the columns they start at.
  lemma SegmentOrder(s: seq<Step>, i: nat, j: nat)
    requires Increasing(s) && i < |s| && j < |s|
    ensures s[i].x < s[j].x <==> i < j
    ensures i + 1 < |s| && s[j].x < s[i+1].x ==> j <= i
  {
  }

  // Segment m of the new skyline covers the column that segment i of the old one covered.
  lemma PlaceSegment(s: seq<Step>, width: int, height: int, k: nat, x: int, w: int, top: int, c: int, i: nat)
    returns (m: nat)
    requires CanPlace(s, width, height, k, x, w, top)
    requires i + 1 < |s| && s[i].x <= c < s[i+1].x
    ensures var t := Place(s, k, x, w, top);
      && m + 1 < |t| && t[m].x <= c < t[m+1].x
      && t[m].y == if x <= c < RaisedTo(s, k, x, w) then top else s[i].y
  {
    hide Place, StopAt;
    if c < x {
      PlaceShape(s, k, x, w, top);
      SegmentOrder(s, i, Kept(s, k, x));
      m := i;
    } else {
      m := PlaceSegmentRight(s, width, height, k, x, w, top, c, i);
    }
  }

  lemma PlaceSegmentRight(s: seq<Step>, width: int, height: int, k: nat, x: int, w: int, top: int, c: int, i: nat)
    returns (m: nat)
    requires CanPlace(s, width, height, k, x, w, top)
    requires x <= c && i + 1 < |s| && s[i].x <= c < s[i+1].x
    ensures var t := Place(s, k, x, w, top);
      && m + 1 < |t| && t[m].x <= c < t[m+1].x
      && t[m].y == if c < RaisedTo(s, k, x, w) then top else s[i].y
  {
    hide Place, StopAt, Increasing;
    PlaceShape(s, k, x, w, top);
    var n := Kept(s, k, x);
    var j := StopAt(s, n, x + w);
    SegmentOrder(s, i, n);
    SegmentOrder(s, i, j);
    if j + 1 < |s| { SegmentOrder(s, i, j + 1); }
    m := if c < RaisedTo(s, k, x, w) then n else if i <= j then n + 1 else i + 1 + n - j;
  }

  lemma PlaceAtColumn(s: seq<Step>, width: int, height: int, k: nat, x: int, w: int, top: int, c: int)
    requires CanPlace(s, width, height, k, x, w, top)
    requires IsSkyline(Place(s, k, x, w, top), width, height)
    requires 0 <= c < width
    ensures Profile(Place(s, k, x, w, top))[c]
         == if x <= c < RaisedTo(s, k, x, w) then top else Profile(s)[c]
  {
    hide Place;
    var t, i := Place(s, k, x, w, top), Locate(s, c, 0);
    var m := PlaceSegment(s, width, height, k, x, w, top, c, i);
    SegmentIsFlat(s, i);
    SegmentIsFlat(t, m);
  }

  // Placing keeps the floor filled from the left, unless it starts a gap in the last stretch.
  lemma PlaceKeepsFilled(s: seq<Step>, k: nat, x: int, w: int, top: int)
    requires k + 1 < |s| && FilledFromLeft(s) && top >= 1
    requires k == |s| - 2 ==> x <= s[k].x || s[k].y >= 1
    ensures FilledFromLeft(Place(s, k, x, w, top))
  {
  }
}
