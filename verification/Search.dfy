// The search for the place of one box: every breakpoint as a left edge and, for best fit,
// every breakpoint as a right edge.
module Search {
  import opened Skyline
  import opened Packing

  // A box of (rounded) width w and height h for a target of the given height.
  datatype Query = Query(w: int, h: int, height: int, bestFit: bool)

  // The best place so far: the segment under its left edge, its corner, its waste.
  datatype Best = Best(k: int, x: int, y: int, waste: int)

  const NOWHERE: Best := Best(-1, 0, SENTINEL_Y, SENTINEL_Y)

  // Keep the better of `best` and a box with its left edge at breakpoint k.
  function PreferLeft(q: Query, best: Best, k: nat, x: int, t: Tally): Best {
    if !q.bestFit then
      if t.minY < best.y then best.(k := k, x := x, y := t.minY) else best
    else if t.minY + q.h <= q.height && (t.minY < best.y || (t.minY == best.y && t.waste < best.waste)) then
      Best(k, x, t.minY, t.waste)
    else best
  }

  // Keep the better of `best` and a box with its right edge at a breakpoint.
  function PreferRight(q: Query, best: Best, k: nat, x: int, t: Tally): Best {
    if t.minY + q.h <= q.height && t.minY <= best.y
       && (t.minY < best.y || t.waste < best.waste || (t.waste == best.waste && x < best.x))
    then Best(k, x, t.minY, t.waste)
    else best
  }

  ghost predicate Searchable(s: seq<Step>, q: Query) {
    && |s| >= 2 && Increasing(s) && s[0].x == 0
    && 0 < q.w <= s[|s|-1].x
  }

  // What the scan reports for a box whose left edge is at column x, in segment k.
  function Probe(s: seq<Step>, q: Query, k: nat, x: int): Tally
    requires Searchable(s, q) && k < |s| && x + q.w <= s[|s|-1].x
  {
    Scan(s, k, x, q.w, Tally(0, 0, 0))
  }

  function SearchLeft(s: seq<Step>, q: Query, k: nat, best: Best): Best
    requires Searchable(s, q) && k < |s|
    decreases |s| - k
  {
    if s[k].x + q.w <= s[|s|-1].x then
      SearchLeft(s, q, k + 1, PreferLeft(q, best, k, s[k].x, Probe(s, q, k, s[k].x)))
    else best
  }

  // The first breakpoint from n on whose segment reaches past column x.
  function Advance(s: seq<Step>, n: nat, x: int): (r: nat)
    requires n < |s| && x < s[|s|-1].x
    ensures n <= r < |s| && (r + 1 < |s| ==> x < s[r+1].x)
    ensures s[n].x <= x ==> s[r].x <= x && r + 1 < |s|
    decreases |s| - n
  {
    if n + 1 < |s| && s[n+1].x <= x then Advance(s, n + 1, x) else n
  }

  // The first breakpoint that can be a right edge.
  function FirstRight(s: seq<Step>, w: int, t: nat): (r: nat)
    requires t < |s| && w <= s[|s|-1].x
    ensures t <= r < |s| && w <= s[r].x
    ensures forall i :: t <= i < r ==> s[i].x < w
    decreases |s| - t
  {
    if s[t].x < w then FirstRight(s, w, t + 1) else t
  }

  function SearchRight(s: seq<Step>, q: Query, tail: nat, n: nat, best: Best): Best
    requires Searchable(s, q) && tail <= |s| && n + 1 < |s|
    requires tail < |s| ==> s[n].x <= s[tail].x - q.w
    decreases |s| - tail
  {
    if tail == |s| then best
    else
      var x := s[tail].x - q.w;
      var n' := Advance(s, n, x);
      SearchRight(s, q, tail + 1, n',
                  PreferRight(q, best, n', x, Probe(s, q, n', x)))
  }

  lemma SearchRightStep(s: seq<Step>, q: Query, tail: nat, n: nat, best: Best)
    requires Searchable(s, q) && tail <= |s| && n + 1 < |s|
    requires tail < |s| ==> s[n].x <= s[tail].x - q.w
    ensures tail == |s| ==> SearchRight(s, q, tail, n, best) == best
    ensures tail < |s| ==>
      var x := s[tail].x - q.w;
      var n' := Advance(s, n, x);
      && Spans(s, n', x, q.w)
      && (tail + 1 < |s| ==> s[n'].x <= s[tail+1].x - q.w)
      && SearchRight(s, q, tail, n, best)
         == SearchRight(s, q, tail + 1, n', PreferRight(q, best, n', x, Probe(s, q, n', x)))
  {
    if tail < |s| { assert s[tail].x <= s[|s|-1].x; }
  }

  function FindBest(s: seq<Step>, q: Query): Best
    requires |s| >= 2 && Increasing(s) && s[0].x == 0 && 0 < q.w
  {
    if q.w > s[|s|-1].x || q.h > q.height then NOWHERE
    else
      var best := SearchLeft(s, q, 0, NOWHERE);
      if q.bestFit then SearchRight(s, q, FirstRight(s, q.w, 0), 0, best) else best
  }

  /** What the search finds */

  // Area left empty below a box, as the packer reckons it.
  function WasteAt(s: seq<Step>, x: int, w: int): int
    requires |s| >= 2 && Increasing(s) && s[0].x == 0
    requires 0 <= x && 0 < w && x + w <= s[|s|-1].x
  {
    Scan(s, Locate(s, x, 0), x, w, Tally(0, 0, 0)).waste
  }

  ghost predicate IsPlace(s: seq<Step>, q: Query, b: Best)
    requires Searchable(s, q)
  {
    && 0 <= b.k && b.k + 1 < |s| && s[b.k].x <= b.x < s[b.k+1].x && b.x + q.w <= s[|s|-1].x
    && b.y == RestAt(Profile(s), b.x, q.w)
    && (b.x == s[b.k].x || s[b.k+1].x <= b.x + q.w)
  }

  lemma ProbeMeaning(s: seq<Step>, q: Query, k: nat, x: int)
    requires Searchable(s, q) && Spans(s, k, x, q.w)
    ensures Probe(s, q, k, x).minY == RestAt(Profile(s), x, q.w)
    ensures Probe(s, q, k, x).waste == WasteAt(s, x, q.w)
  {
    ScanMeaning(s, k, x, q.w);
    assert Locate(s, x, 0) == k;
  }

  /** Bottom-left */

  // Among the breakpoints before k, `best` rests lowest, and strictly lower than those before it.
  ghost predicate LowestBefore(s: seq<Step>, q: Query, k: nat, best: Best)
    requires Searchable(s, q) && k <= |s|
  {
    && (best.k == -1 ==> best == NOWHERE)
    && (best.k != -1 ==> IsPlace(s, q, best) && best.k < k && best.x == s[best.k].x && best.y < SENTINEL_Y)
    && forall i :: 0 <= i < k && s[i].x + q.w <= s[|s|-1].x ==>
         best.y <= RestAt(Profile(s), s[i].x, q.w) && (i < best.k ==> best.y < RestAt(Profile(s), s[i].x, q.w))
  }

  lemma PreferLeftKeepsLowest(s: seq<Step>, q: Query, k: nat, best: Best, t: Tally)
    requires Searchable(s, q) && k + 1 < |s| && s[k].x + q.w <= s[|s|-1].x && !q.bestFit
    requires LowestBefore(s, q, k, best)
    requires t.minY == RestAt(Profile(s), s[k].x, q.w)
    ensures LowestBefore(s, q, k + 1, PreferLeft(q, best, k, s[k].x, t))
  {
    hide Profile, RestAt;
  }

  lemma LowestToEnd(s: seq<Step>, q: Query, k: nat, best: Best)
    requires Searchable(s, q) && k < |s| && s[k].x + q.w > s[|s|-1].x
    requires LowestBefore(s, q, k, best)
    ensures LowestBefore(s, q, |s|, best)
  {
    hide Profile, RestAt;
  }

  lemma {:induction false} SearchLeftIsLowest(s: seq<Step>, q: Query, k: nat, best: Best)
    requires Searchable(s, q) && k < |s| && !q.bestFit
    requires LowestBefore(s, q, k, best)
    ensures LowestBefore(s, q, |s|, SearchLeft(s, q, k, best))
    decreases |s| - k
  {
    hide Probe, Profile, RestAt, LowestBefore, PreferLeft;
    if s[k].x + q.w <= s[|s|-1].x {
      ProbeMeaning(s, q, k, s[k].x);
      PreferLeftKeepsLowest(s, q, k, best, Probe(s, q, k, s[k].x));
      SearchLeftIsLowest(s, q, k + 1, PreferLeft(q, best, k, s[k].x, Probe(s, q, k, s[k].x)));
    } else {
      LowestToEnd(s, q, k, best);
    }
  }

  /** Best fit */

  // Lower, or as low and less wasteful, or no different in both and no further right.
  predicate Outranks(b: Best, y: int, waste: int, x: int) {
    b.y < y || (b.y == y && (b.waste < waste || (b.waste == waste && b.x <= x)))
  }

  ghost predicate Beats(s: seq<Step>, q: Query, b: Best, x: int)
    requires Searchable(s, q) && 0 <= x && x + q.w <= s[|s|-1].x
  {
    FitsAt(Profile(s), q.height, q.w, q.h, x) ==>
      b.k != -1 && Outranks(b, RestAt(Profile(s), x, q.w), WasteAt(s, x, q.w), x)
  }

  // Positions with an edge at a breakpoint: those that best fit looks at.
  ghost predicate IsEdge(s: seq<Step>, q: Query, x: int)
    requires Searchable(s, q)
  {
    && 0 <= x && x + q.w <= s[|s|-1].x
    && ((exists i :: 0 <= i < |s| && s[i].x == x) || (exists i :: 0 <= i < |s| && s[i].x - q.w == x))
  }

  ghost predicate IsFit(s: seq<Step>, q: Query, b: Best)
    requires Searchable(s, q)
  {
    && (b.k == -1 ==> b == NOWHERE)
    && (b.k != -1 ==> IsPlace(s, q, b) && b.y + q.h <= q.height && b.waste == WasteAt(s, b.x, q.w) && IsEdge(s, q, b.x))
  }

  // `b` is no worse than any box whose left edge is at one of the first k breakpoints.
  ghost predicate BeatsLeft(s: seq<Step>, q: Query, b: Best, k: nat)
    requires Searchable(s, q) && k <= |s|
  {
    forall i :: 0 <= i < k && s[i].x + q.w <= s[|s|-1].x && 0 <= s[i].x ==> Beats(s, q, b, s[i].x)
  }

  // `b` is no worse than any box whose right edge is at one of the first k breakpoints.
  ghost predicate BeatsRight(s: seq<Step>, q: Query, b: Best, k: nat)
    requires Searchable(s, q) && k <= |s|
  {
    forall i :: 0 <= i < k && q.w <= s[i].x <= s[|s|-1].x ==> Beats(s, q, b, s[i].x - q.w)
  }

  // Passing from b to b' never gives up rank.
  ghost predicate Improves(b: Best, b': Best) {
    b' == b || (b'.k != -1 && (b.k != -1 ==> Outranks(b', b.y, b.waste, b.x)))
  }

  lemma ImprovesKeepsBeating(s: seq<Step>, q: Query, b: Best, b': Best, k: nat)
    requires Searchable(s, q) && k <= |s| && Improves(b, b')
    ensures BeatsLeft(s, q, b, k) ==> BeatsLeft(s, q, b', k)
    ensures BeatsRight(s, q, b, k) ==> BeatsRight(s, q, b', k)
  {
    hide Profile, RestAt, WasteAt;
  }

  ghost predicate Modest(q: Query) {
    q.bestFit && 0 < q.h && q.height <= SENTINEL_Y
  }

  // The best place so far, if any, lies left of breakpoint k.
  ghost predicate LeftOf(s: seq<Step>, b: Best, k: nat)
    requires k < |s|
  {
    b.k != -1 ==> b.x < s[k].x
  }

  lemma PreferLeftImproves(s: seq<Step>, q: Query, k: nat, best: Best, t: Tally)
    requires Searchable(s, q) && Modest(q) && IsFit(s, q, best)
    requires k + 1 < |s| && 0 <= s[k].x && s[k].x + q.w <= s[|s|-1].x && LeftOf(s, best, k)
    requires t.minY == RestAt(Profile(s), s[k].x, q.w) && t.waste == WasteAt(s, s[k].x, q.w)
    ensures var b := PreferLeft(q, best, k, s[k].x, t);
      IsFit(s, q, b) && Improves(best, b) && Beats(s, q, b, s[k].x) && LeftOf(s, b, k + 1)
  {
    hide Profile, RestAt, WasteAt;
  }

  lemma PreferRightImproves(s: seq<Step>, q: Query, k: nat, x: int, best: Best, t: Tally)
    requires Searchable(s, q) && Modest(q) && IsFit(s, q, best)
    requires k + 1 < |s| && s[k].x <= x < s[k+1].x <= x + q.w && IsEdge(s, q, x)
    requires t.minY == RestAt(Profile(s), x, q.w) && t.waste == WasteAt(s, x, q.w)
    ensures var b := PreferRight(q, best, k, x, t);
      IsFit(s, q, b) && Improves(best, b) && Beats(s, q, b, x)
  {
    hide Profile, RestAt, WasteAt;
  }

  lemma {:induction false} SearchLeftBeatsLeft(s: seq<Step>, q: Query, k: nat, best: Best)
    requires Searchable(s, q) && Modest(q) && k < |s|
    requires IsFit(s, q, best) && BeatsLeft(s, q, best, k) && LeftOf(s, best, k)
    ensures var b := SearchLeft(s, q, k, best); IsFit(s, q, b) && BeatsLeft(s, q, b, |s|)
    decreases |s| - k
  {
    hide Probe, Profile, RestAt, WasteAt, IsFit, PreferLeft, Improves, Beats, LeftOf;
    if s[k].x + q.w <= s[|s|-1].x {
      ProbeMeaning(s, q, k, s[k].x);
      var b := PreferLeft(q, best, k, s[k].x, Probe(s, q, k, s[k].x));
      PreferLeftImproves(s, q, k, best, Probe(s, q, k, s[k].x));
      ImprovesKeepsBeating(s, q, best, b, k);
      SearchLeftBeatsLeft(s, q, k + 1, b);
    }
  }

  lemma BeatsRightNext(s: seq<Step>, q: Query, b: Best, k: nat)
    requires Searchable(s, q) && k < |s| && BeatsRight(s, q, b, k)
    requires q.w <= s[k].x <= s[|s|-1].x && Beats(s, q, b, s[k].x - q.w)
    ensures BeatsRight(s, q, b, k + 1)
  {
    hide Beats;
  }

  lemma SegmentEnd(s: seq<Step>, i: nat, j: nat)
    requires Increasing(s) && i < j < |s|
    ensures s[i+1].x <= s[j].x
  {
  }

  lemma {:induction false} SearchRightBeatsAll(s: seq<Step>, q: Query, tail: nat, n: nat, best: Best)
    requires Searchable(s, q) && Modest(q) && tail <= |s| && n + 1 < |s|
    requires tail < |s| ==> s[n].x <= s[tail].x - q.w
    requires IsFit(s, q, best) && BeatsLeft(s, q, best, |s|) && BeatsRight(s, q, best, tail)
    ensures var b := SearchRight(s, q, tail, n, best);
      IsFit(s, q, b) && BeatsLeft(s, q, b, |s|) && BeatsRight(s, q, b, |s|)
    decreases |s| - tail
  {
    hide Probe, Profile, RestAt, WasteAt, IsFit, PreferRight, Improves, Beats, Advance, BeatsLeft, BeatsRight;
    if tail < |s| {
      var x := s[tail].x - q.w;
      var n' := Advance(s, n, x);
      ProbeMeaning(s, q, n', x);
      SegmentOrder(s, n', tail);
      SegmentEnd(s, n', tail);
      var b := PreferRight(q, best, n', x, Probe(s, q, n', x));
      PreferRightImproves(s, q, n', x, best, Probe(s, q, n', x));
      ImprovesKeepsBeating(s, q, best, b, |s|);
      ImprovesKeepsBeating(s, q, best, b, tail);
      BeatsRightNext(s, q, b, tail);
      SearchRightBeatsAll(s, q, tail + 1, n', b);
    }
  }

  /** What a found place is worth */

  // No position at all lets the box rest lower.
  ghost predicate IsLowest(p: seq<int>, w: int, y: int) {
    0 <= w && forall x :: 0 <= x <= |p| - w ==> y <= RestAt(p, x, w)
  }

  lemma LowestAtBreakpoints(s: seq<Step>, q: Query, y: int)
    requires Searchable(s, q)
    requires forall i :: 0 <= i < |s| && 0 <= s[i].x && s[i].x + q.w <= s[|s|-1].x ==>
      y <= RestAt(Profile(s), s[i].x, q.w)
    ensures IsLowest(Profile(s), q.w, y)
  {
    hide Profile, RestAt;
    forall x | 0 <= x <= |Profile(s)| - q.w ensures y <= RestAt(Profile(s), x, q.w) {
      var k := SlideLeft(s, x, q.w);
    }
  }

  // Bottom-left: the lowest position there is, and the leftmost such.
  lemma BottomLeftIsOptimal(s: seq<Step>, q: Query)
    requires Searchable(s, q) && !q.bestFit
    ensures var b := SearchLeft(s, q, 0, NOWHERE);
      if b.k == -1 then IsLowest(Profile(s), q.w, SENTINEL_Y)
      else IsPlace(s, q, b) && IsBottomLeft(Profile(s), q.w, b.x, b.y) && b.x == s[b.k].x
  {
    hide Profile, RestAt, SearchLeft;
    SearchLeftIsLowest(s, q, 0, NOWHERE);
    var b := SearchLeft(s, q, 0, NOWHERE);
    LowestAtBreakpoints(s, q, b.y);
    if b.k != -1 {
      forall x | 0 <= x < b.x ensures b.y < RestAt(Profile(s), x, q.w) {
        var k := SlideLeft(s, x, q.w);
        assert k < b.k;
      }
    }
  }

  // Least waste among the positions looked at that are as low, and leftmost among those.
  ghost predicate IsTightest(s: seq<Step>, q: Query, b: Best)
    requires Searchable(s, q)
  {
    forall x :: IsEdge(s, q, x) && RestAt(Profile(s), x, q.w) == b.y ==>
      b.waste < WasteAt(s, x, q.w) || (b.waste == WasteAt(s, x, q.w) && b.x <= x)
  }

  lemma EdgesBeaten(s: seq<Step>, q: Query, b: Best, x: int)
    requires Searchable(s, q) && BeatsLeft(s, q, b, |s|) && BeatsRight(s, q, b, |s|) && IsEdge(s, q, x)
    ensures Beats(s, q, b, x)
  {
    hide Beats;
    if i :| 0 <= i < |s| && s[i].x == x {
    } else {
      var i :| 0 <= i < |s| && s[i].x - q.w == x;
      assert Beats(s, q, b, s[i].x - q.w);
    }
  }

  // Best fit: the lowest position that fits; as low, the least wasteful one looked at; and no
  // more wasteful, the leftmost.
  lemma BestFitIsOptimal(s: seq<Step>, q: Query)
    requires Searchable(s, q) && Modest(q)
    ensures var b := SearchRight(s, q, FirstRight(s, q.w, 0), 0, SearchLeft(s, q, 0, NOWHERE));
      if b.k == -1 then IsLowest(Profile(s), q.w, q.height - q.h + 1)
      else
        && IsPlace(s, q, b) && b.y + q.h <= q.height && IsLowest(Profile(s), q.w, b.y) && IsTightest(s, q, b)
        && b.waste == WasteAt(s, b.x, q.w) && IsEdge(s, q, b.x)
  {
    hide Profile, RestAt, SearchLeft, SearchRight, WasteAt, FirstRight;
    SearchLeftBeatsLeft(s, q, 0, NOWHERE);
    var t := FirstRight(s, q.w, 0);
    var l := SearchLeft(s, q, 0, NOWHERE);
    assert BeatsRight(s, q, l, t);
    SearchRightBeatsAll(s, q, t, 0, l);
    BestIsOptimal(s, q, SearchRight(s, q, t, 0, l));
  }

  lemma BestIsOptimal(s: seq<Step>, q: Query, b: Best)
    requires Searchable(s, q) && Modest(q) && IsFit(s, q, b)
    requires BeatsLeft(s, q, b, |s|) && BeatsRight(s, q, b, |s|)
    ensures if b.k == -1 then IsLowest(Profile(s), q.w, q.height - q.h + 1)
      else IsLowest(Profile(s), q.w, b.y) && IsTightest(s, q, b)
  {
    hide Profile, RestAt, WasteAt, BeatsRight;
    forall i | 0 <= i < |s| && 0 <= s[i].x && s[i].x + q.w <= s[|s|-1].x
      ensures (if b.k == -1 then q.height - q.h + 1 else b.y) <= RestAt(Profile(s), s[i].x, q.w)
    {
      assert Beats(s, q, b, s[i].x);
    }
    LowestAtBreakpoints(s, q, if b.k == -1 then q.height - q.h + 1 else b.y);
    if b.k != -1 {
      forall x | IsEdge(s, q, x) && RestAt(Profile(s), x, q.w) == b.y
        ensures b.waste < WasteAt(s, x, q.w) || (b.waste == WasteAt(s, x, q.w) && b.x <= x)
      {
        EdgesBeaten(s, q, b, x);
      }
    }
  }

  lemma FitsWhenLowestFits(p: seq<int>, height: int, w: int, h: int, x: int, y: int)
    requires 0 <= w && IsLowest(p, w, y)
    ensures y + h > height ==> !Fits(p, height, w, h)
    ensures 0 <= x && x + w <= |p| && y == RestAt(p, x, w) && y + h <= height ==> Fits(p, height, w, h)
  {
    hide RestAt;
    if 0 <= x && x + w <= |p| && y == RestAt(p, x, w) && y + h <= height {
      assert FitsAt(p, height, w, h, x);
    }
  }

  // The search is complete: what it returns fits exactly when some position does, and it
  // then rests as low as any position can, leftmost or tightest as the heuristic asks.
  lemma FindBestMeaning(s: seq<Step>, q: Query)
    requires |s| >= 2 && Increasing(s) && s[0].x == 0 && 0 < q.w && 0 < q.h && q.height <= SENTINEL_Y
    ensures var b := FindBest(s, q);
      && (Fits(Profile(s), q.height, q.w, q.h) <==> b.k != -1 && b.y + q.h <= q.height)
      && (b.k != -1 ==>
            && Searchable(s, q) && IsPlace(s, q, b) && IsLowest(Profile(s), q.w, b.y)
            && (if q.bestFit then IsTightest(s, q, b) && b.waste == WasteAt(s, b.x, q.w) && IsEdge(s, q, b.x)
                else IsBottomLeft(Profile(s), q.w, b.x, b.y) && b.x == s[b.k].x))
  {
    hide Profile, RestAt, SearchLeft, SearchRight, WasteAt, IsTightest, FirstRight, IsLowest, Fits;
    var b := FindBest(s, q);
    if q.w <= s[|s|-1].x && q.h <= q.height {
      if q.bestFit { BestFitIsOptimal(s, q); } else { BottomLeftIsOptimal(s, q); BottomLeftIsLowest(s, q, b); }
      FitsWhenLowestFits(Profile(s), q.height, q.w, q.h, b.x,
        if b.k != -1 then b.y else if q.bestFit then q.height - q.h + 1 else SENTINEL_Y);
    } else {
      NoFit(Profile(s), q.height, q.w, q.h);
    }
  }

  lemma BottomLeftIsLowest(s: seq<Step>, q: Query, b: Best)
    requires Searchable(s, q)
    ensures IsBottomLeft(Profile(s), q.w, b.x, b.y) ==> IsLowest(Profile(s), q.w, b.y)
  {
    hide Profile, RestAt;
  }

  lemma NoFit(p: seq<int>, height: int, w: int, h: int)
    requires w > |p| || h > height
    ensures !Fits(p, height, w, h)
  {
    hide RestAt;
  }

  /** The floor left free on the right */

  // A box can rest on the floor only past everything that is raised.
  lemma FloorIsRight(s: seq<Step>, x: int, w: int)
    requires |s| >= 2 && Increasing(s) && s[0].x == 0 && FilledFromLeft(s)
    requires 0 <= x && 0 < w && x + w <= s[|s|-1].x && RestAt(Profile(s), x, w) == 0
    ensures x >= s[|s|-2].x
  {
    hide Profile;
    var k := Locate(s, x, 0);
    SegmentIsFlat(s, k);
    MaxBounds(Profile(s), x, x + w, 0);
    assert Profile(s)[x] == s[k].y;
  }

  lemma SkylineAboveGround(s: seq<Step>, width: int, height: int)
    requires IsSkyline(s, width, height)
    ensures AboveGround(s)
  {
  }

  lemma WasteNatural(s: seq<Step>, x: int, w: int)
    requires |s| >= 2 && Increasing(s) && s[0].x == 0 && AboveGround(s)
    requires 0 <= x && 0 < w && x + w <= s[|s|-1].x
    ensures WasteAt(s, x, w) >= 0
  {
    hide Profile, Scan, Sum, Area, MaxOver, Landing, Surplus;
    WasteExactIff(s, Locate(s, x, 0), x, w);
  }

  // Where the last stretch of floor holds a box, its left end does, and wastes nothing.
  lemma FloorStart(s: seq<Step>, x: int, w: int)
    requires |s| >= 2 && Increasing(s) && s[0].x == 0 && AboveGround(s)
    requires s[|s|-2].x <= x && 0 < w && x + w <= s[|s|-1].x && RestAt(Profile(s), x, w) == 0
    ensures var f := s[|s|-2].x;
      && 0 <= f && f + w <= s[|s|-1].x && RestAt(Profile(s), f, w) == 0 && WasteAt(s, f, w) == 0
  {
    hide Profile, Scan, Sum, Area;
    var p, m := Profile(s), |s| - 2;
    var f := s[m].x;
    SegmentIsFlat(s, m);
    MaxBounds(p, x, x + w, 0);
    assert p[x] == s[m].y;
    MaxOfConstant(p, f, f + w, 0);
    SumOfConstant(p, f, f + w, 0);
    ScanMeaning(s, m, f, w);
    assert Locate(s, f, 0) == m;
    AreaSums(w, 0, 0, 0);
  }

  // With either heuristic a box that goes to the floor goes to the left end of what is free.
  lemma FloorPlace(s: seq<Step>, q: Query)
    requires |s| >= 2 && Increasing(s) && s[0].x == 0 && AboveGround(s) && FilledFromLeft(s)
    requires 0 < q.w && 0 < q.h && q.height <= SENTINEL_Y
    ensures var b := FindBest(s, q);
      b.k != -1 && b.y == 0 ==> b.k == |s| - 2 && b.x == s[|s|-2].x
  {
    hide Profile, FindBest, Scan, RestAt, WasteAt, IsLowest, Fits;
    var b, f := FindBest(s, q), s[|s|-2].x;
    FindBestMeaning(s, q);
    if b.k != -1 && b.y == 0 {
      FloorIsRight(s, b.x, q.w);
      FloorStart(s, b.x, q.w);
      WasteNatural(s, b.x, q.w);
      assert q.bestFit ==> IsEdge(s, q, f);
      assert b.x == f;
    }
  }

  // A box over the last stretch rests on it.
  lemma FloorRest(s: seq<Step>, x: int, w: int)
    requires |s| >= 2 && Increasing(s) && s[0].x == 0
    requires s[|s|-2].x <= x && 0 < w && x + w <= s[|s|-1].x
    ensures RestAt(Profile(s), x, w) == Max(0, s[|s|-2].y)
  {
    hide Profile;
    SegmentIsFlat(s, |s| - 2);
    MaxOfConstant(Profile(s), x, x + w, s[|s|-2].y);
  }

  // Either heuristic keeps the floor filled from the left.
  lemma BestKeepsFilled(s: seq<Step>, q: Query, w: int)
    requires |s| >= 2 && Increasing(s) && s[0].x == 0 && AboveGround(s) && FilledFromLeft(s)
    requires 0 < q.w && 0 < q.h && q.height <= SENTINEL_Y
    ensures var b := FindBest(s, q);
      b.k != -1 ==> 0 <= b.k && b.k + 1 < |s| && FilledFromLeft(Place(s, b.k, b.x, w, b.y + q.h))
  {
    hide Profile, FindBest, RestAt, IsLowest, IsTightest, IsBottomLeft, Fits, FilledFromLeft, Place, WasteAt;
    var b := FindBest(s, q);
    FindBestMeaning(s, q);
    if b.k != -1 {
      FloorPlace(s, q);
      if b.k == |s| - 2 { FloorRest(s, b.x, q.w); }
      RestNatural(Profile(s), b.x, q.w);
      PlaceKeepsFilled(s, b.k, b.x, w, b.y + q.h);
    }
  }

  lemma RestNatural(p: seq<int>, x: int, w: int)
    requires 0 <= x && 0 <= w && x + w <= |p|
    ensures RestAt(p, x, w) >= 0
  {
  }

  /** The area really left */

  // What stays empty below a box at column x.
  function AreaLeft(p: seq<int>, x: int, w: int): int
    requires 0 <= x && 0 <= w && x + w <= |p|
  {
    Area(w, RestAt(p, x, w)) - Sum(p, x, x + w)
  }

  // Filled from the left, a skyline has its waste reckoned exactly everywhere.
  lemma FilledWasteIsExact(s: seq<Step>, x: int, w: int)
    requires |s| >= 2 && Increasing(s) && s[0].x == 0 && AboveGround(s) && FilledFromLeft(s)
    requires 0 <= x && 0 < w && x + w <= s[|s|-1].x
    ensures WasteAt(s, x, w) == AreaLeft(Profile(s), x, w)
  {
    hide Profile, Scan, Sum, Area, MaxOver, Landing, Landings;
    var k := Locate(s, x, 0);
    WasteIs(s, k, x, w);
    ScanMeaning(s, k, x, w);
    assert Surplus(s, k, x, w) == 0;
    NoLandings(s, k + 1, x, x + w);
  }

  // Least area left among the positions looked at that are as low, and leftmost among those.
  ghost predicate IsSnug(s: seq<Step>, q: Query, b: Best)
    requires Searchable(s, q) && 0 <= b.x && b.x + q.w <= s[|s|-1].x
  {
    var p := Profile(s);
    forall x :: IsEdge(s, q, x) && RestAt(p, x, q.w) == b.y ==>
      AreaLeft(p, b.x, q.w) < AreaLeft(p, x, q.w) || (AreaLeft(p, b.x, q.w) == AreaLeft(p, x, q.w) && b.x <= x)
  }

  lemma TightestIsSnug(s: seq<Step>, q: Query, b: Best)
    requires Searchable(s, q) && AboveGround(s) && FilledFromLeft(s)
    requires 0 <= b.x && b.x + q.w <= s[|s|-1].x && b.waste == WasteAt(s, b.x, q.w) && IsTightest(s, q, b)
    ensures IsSnug(s, q, b)
  {
    hide Profile, RestAt, WasteAt, AreaLeft, FilledFromLeft;
    FilledWasteIsExact(s, b.x, q.w);
    forall x | IsEdge(s, q, x) ensures WasteAt(s, x, q.w) == AreaLeft(Profile(s), x, q.w) {
      FilledWasteIsExact(s, x, q.w);
    }
  }
}
