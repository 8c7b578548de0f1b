// The batch entry point of the packer: sort, place each rectangle, restore the caller's order.
module PackRects {
  import opened Counting
  import opened Skyline
  import opened Packing
  import opened RectPacker
  import PackerRuns
  import Search

  // A caller's rectangle; wasPacked doubles as its original index while the batch is sorted.
  datatype Rect = Rect(id: int, w: int, h: int, x: int, y: int, wasPacked: int)

  const MAXVAL: int := 0x7fff_ffff

  predicate Empty(r: Rect) { r.w == 0 || r.h == 0 }

  predicate Unplaced(r: Rect) { r.x == MAXVAL && r.y == MAXVAL }

  function BoxOf(r: Rect): Box { Box(r.x, r.y, r.w, r.h) }

  // The boxes that a run of rectangles takes up, in order.
  function BoxesOf(rs: seq<Rect>): seq<Box> {
    if rs == [] then []
    else
      var r := rs[|rs|-1];
      BoxesOf(rs[..|rs|-1]) + if Empty(r) || Unplaced(r) then [] else [BoxOf(r)]
  }

  // What the sort may produce: any order of the indices that puts taller rectangles first and,
  // among equally tall ones, wider ones.
  ghost predicate IsOrder(order: seq<int>, rs: seq<Rect>) {
    && IsPermutation(order, |rs|)
    && (forall i, j :: 0 <= i < j < |order| ==> Before(rs[order[i]], rs[order[j]]))
  }

  ghost predicate IsPermutation(order: seq<int>, n: nat) {
    |order| == n && Below(order, n) && Distinct(order)
  }

  // Negative if p comes first, positive if q does.
  function HeightCompare(p: Rect, q: Rect): int {
    if p.h > q.h then -1
    else if p.h < q.h then 1
    else if p.w > q.w then -1
    else if p.w < q.w then 1
    else 0
  }

  predicate Before(p: Rect, q: Rect) { HeightCompare(p, q) <= 0 }

  // The comparison is an order, as the sort demands, and rectangles that compare equal have the
  // same size.
  lemma HeightOrder(p: Rect, q: Rect, r: Rect)
    ensures HeightCompare(p, q) == -HeightCompare(q, p)
    ensures (Before(p, q) || Before(q, p)) && (Before(p, q) && Before(q, r) ==> Before(p, r))
    ensures HeightCompare(p, q) == 0 <==> p.w == q.w && p.h == q.h
  {
  }

  // In a sorted batch no rectangle is less tall than a later one, nor less wide than a later one
  // that is equally tall.
  lemma TallerFirst(order: seq<int>, rs: seq<Rect>, i: nat, j: nat)
    requires IsOrder(order, rs) && i < j < |order|
    ensures 0 <= order[i] < |rs| && 0 <= order[j] < |rs|
    ensures var p, q := rs[order[i]], rs[order[j]]; p.h >= q.h && (p.h == q.h ==> p.w >= q.w)
  {
    assert Before(rs[order[i]], rs[order[j]]);
  }

  function Reorder(rs: seq<Rect>, order: seq<int>): (s: seq<Rect>)
    requires forall i :: 0 <= i < |order| ==> 0 <= order[i] < |rs|
    ensures |s| == |order| && forall i :: 0 <= i < |s| ==> s[i] == rs[order[i]]
  {
    seq(|order|, i requires 0 <= i < |order| => rs[order[i]])
  }

  ghost predicate SameInput(a: seq<Rect>, b: seq<Rect>) {
    |a| == |b| && forall i :: 0 <= i < |a| ==> a[i].id == b[i].id && a[i].w == b[i].w && a[i].h == b[i].h
  }

  // Every rectangle is empty and at the origin, unplaced, or a box of the packing.
  ghost predicate Settled(rs: seq<Rect>) {
    forall i :: 0 <= i < |rs| ==> (Empty(rs[i]) ==> rs[i].x == 0 && rs[i].y == 0)
  }

  ghost predicate Sized(rs: seq<Rect>) { forall i :: 0 <= i < |rs| ==> rs[i].w >= 0 && rs[i].h >= 0 }

  // What becomes of one rectangle.
  function PlacedOne(t: Target, st: PackState, r: Rect): (PackState, Rect)
    requires |st.sky| >= 2 && Increasing(st.sky) && st.sky[0].x == 0 && t.align >= 1 && r.w >= 0
  {
    if Empty(r) then (st, r.(x := 0, y := 0))
    else
      var (st', bs) := PackStep(t, st, r.w, r.h);
      (st', if bs == [] then r.(x := MAXVAL, y := MAXVAL) else r.(x := bs[0].x, y := bs[0].y))
  }

  // What becomes of rectangles placed one after another.
  ghost function PlacedEach(t: Target, st: PackState, rs: seq<Rect>): (r: (PackState, seq<Rect>))
    requires IsState(t, st) && Sized(rs)
    ensures IsState(t, r.0) && |r.1| == |rs|
  {
    if rs == [] then (st, [])
    else
      var n := |rs| - 1;
      var (st1, out) := PlacedEach(t, st, rs[..n]);
      StateIsSearchable(t, st1);
      StateKept(t, st1, rs[n]);
      var (st2, r) := PlacedOne(t, st1, rs[n]);
      (st2, out + [r])
  }

  lemma StateIsSearchable(t: Target, st: PackState)
    requires IsState(t, st)
    ensures |st.sky| >= 2 && Increasing(st.sky) && st.sky[0].x == 0 && t.align >= 1
  {
    hide Increasing;
    SkylineIsIncreasing(st.sky, t.width, t.height);
  }

  lemma StateKept(t: Target, st: PackState, r: Rect)
    requires IsState(t, st) && r.w >= 0 && r.h >= 0
    requires |st.sky| >= 2 && Increasing(st.sky) && st.sky[0].x == 0 && t.align >= 1
    ensures IsState(t, PlacedOne(t, st, r).0)
  {
    hide IsState, Increasing, PackStep, IsPacking, Profile;
    if !Empty(r) {
      PackerRuns.StateIsPacking(t, st);
      PackStepMeaning(t, st, r.w, r.h, []);
    }
  }

  lemma PlacedNext(t: Target, st: PackState, rs: seq<Rect>, i: nat)
    requires IsState(t, st) && Sized(rs) && i < |rs|
    ensures Sized(rs[..i]) && Sized(rs[..i+1])
    ensures var (st1, out) := PlacedEach(t, st, rs[..i]);
      && |st1.sky| >= 2 && Increasing(st1.sky) && st1.sky[0].x == 0 && t.align >= 1
      && PlacedEach(t, st, rs[..i+1]) == (PlacedOne(t, st1, rs[i]).0, out + [PlacedOne(t, st1, rs[i]).1])
  {
    hide IsState, PlacedOne, Increasing;
    assert rs[..i+1][..i] == rs[..i];
    StateIsSearchable(t, PlacedEach(t, st, rs[..i]).0);
  }

  // Tagging each rectangle with its index.
  method Tag(rects: array<Rect>)
    modifies rects
    ensures SameInput(rects[..], old(rects[..]))
    ensures forall i :: 0 <= i < rects.Length ==> rects[i].wasPacked == i
  {
    var i := 0;
    while i < rects.Length
      invariant 0 <= i <= rects.Length
      invariant SameInput(rects[..], old(rects[..]))
      invariant forall j :: 0 <= j < i ==> rects[j].wasPacked == j
    {
      rects[i] := rects[i].(wasPacked := i);
      i := i + 1;
    }
  }

  // Sorting by height: the sort itself is any that obeys the comparison.
  method SortByHeight(rects: array<Rect>, order: seq<int>)
    requires IsOrder(order, rects[..])
    modifies rects
    ensures rects[..] == Reorder(old(rects[..]), order)
  {
    var before := rects[..];
    forall i | 0 <= i < rects.Length { rects[i] := before[order[i]]; }
  }

  // Sorting by the original index, which is a different number for each rectangle.
  method RestoreOrder(rects: array<Rect>)
    requires forall i :: 0 <= i < rects.Length ==> 0 <= rects[i].wasPacked < rects.Length
    requires forall i, j :: 0 <= i < j < rects.Length ==> rects[i].wasPacked != rects[j].wasPacked
    modifies rects
    ensures forall i :: 0 <= i < rects.Length ==> rects[old(rects[i]).wasPacked] == old(rects[i])
  {
    var before := rects[..];
    var i := 0;
    while i < rects.Length
      invariant 0 <= i <= rects.Length
      invariant forall j :: 0 <= j < i ==> rects[before[j].wasPacked] == before[j]
    {
      rects[before[i].wasPacked] := before[i];
      i := i + 1;
    }
  }

  lemma BoxesOfNext(rs: seq<Rect>, i: nat, r: Rect)
    requires i < |rs|
    ensures BoxesOf(rs[i := r][..i+1]) == BoxesOf(rs[..i]) + if Empty(r) || Unplaced(r) then [] else [BoxOf(r)]
  {
    var t := rs[i := r][..i+1];
    assert t[..|t|-1] == rs[..i];
  }

  // A box in the target never has the coordinate that marks an unplaced rectangle.
  lemma PlacedIsMarked(c: Context, i: nat)
    requires c.Valid() && i < |c.placed|
    ensures Inside(c.placed[i], c.width, c.height) && c.placed[i].x < MAXVAL
  {
  }

  // Give rectangle i its place; `i` is the sorted position.
  method PlaceOne(c: Context, r0: Rect) returns (r: Rect)
    requires c.Valid() && r0.w >= 0 && r0.h >= 0
    modifies c`activeHead, c`freeHead, c`active, c`free, c`placed, c.nodes
    ensures c.Valid() && c.Linked()
    ensures r == r0.(x := r.x, y := r.y) && (Empty(r0) ==> r.x == 0 && r.y == 0)
    ensures c.placed == old(c.placed) + if Empty(r) || Unplaced(r) then [] else [BoxOf(r)]
    ensures (c.State(), r) == PlacedOne(c.Settings(), old(c.State()), r0)
  {
    hide Context.Valid, Context.Linked, Context.Sky, Fits, Search.FindBest, Profile, Place, PackStep;
    if r0.w == 0 || r0.h == 0 {
      r := r0.(x := 0, y := 0);
    } else {
      var ok, x, y := c.PackRectangle(r0.w, r0.h);
      if ok {
        r := r0.(x := x, y := y);
        PlacedIsMarked(c, |c.placed| - 1);
      } else {
        r := r0.(x := MAXVAL, y := MAXVAL);
      }
    }
    StateOk(c);
  }

  lemma StateOk(c: Context)
    requires c.Valid()
    ensures c.Linked() && IsState(c.Settings(), c.State())
  {
  }

  // Placing the rectangles one after another.
  method PlaceAll(c: Context, rects: array<Rect>)
    requires c.Valid() && Sized(rects[..])
    requires rects as object != c.nodes
    modifies c`activeHead, c`freeHead, c`active, c`free, c`placed, c.nodes, rects
    ensures c.Valid()
    ensures SameInput(rects[..], old(rects[..])) && Settled(rects[..])
    ensures forall i :: 0 <= i < rects.Length ==> rects[i].wasPacked == old(rects[i].wasPacked)
    ensures rects.Length == |old(rects[..])| && c.placed == old(c.placed) + BoxesOf(rects[..])
    ensures IsState(c.Settings(), old(c.State()))
    ensures (c.State(), rects[..]) == PlacedEach(c.Settings(), old(c.State()), old(rects[..]))
  {
    hide Context.Valid, Context.Linked, Context.Sky, BoxesOf, IsState, PlacedEach, PlacedOne, Increasing;
    StateOk(c);
    ghost var t, st, rs := c.Settings(), c.State(), rects[..];
    var i := 0;
    assert BoxesOf(rects[..0]) == [] by { NoBoxes(rects[..0]); }
    assert PlacedEach(t, st, rs[..0]) == (st, []) by { NonePlaced(t, st, rs[..0]); }
    while i < rects.Length
      invariant 0 <= i <= rects.Length && c.Valid() && c.Linked() && c.Settings() == t
      invariant SameInput(rects[..], rs) && Settled(rects[..i]) && rects[i..] == rs[i..]
      invariant forall j :: 0 <= j < rects.Length ==> rects[j].wasPacked == rs[j].wasPacked
      invariant c.placed == old(c.placed) + BoxesOf(rects[..i])
      invariant (c.State(), rects[..i]) == PlacedEach(t, st, rs[..i])
    {
      ghost var before := rects[..];
      assert rects[i] == rs[i] by { assert rects[i..][0] == rs[i..][0]; }
      PlacedNext(t, st, rs, i);
      var r := PlaceOne(c, rects[i]);
      BoxesOfNext(before, i, r);
      rects[i] := r;
      assert rects[..] == before[i := r];
      assert rects[..i+1] == before[..i] + [r] && rects[i+1..] == rs[i+1..];
      i := i + 1;
    }
    assert rects[..i] == rects[..] && rs[..i] == rs;
  }

  lemma NonePlaced(t: Target, st: PackState, rs: seq<Rect>)
    requires IsState(t, st) && rs == []
    ensures PlacedEach(t, st, rs) == (st, [])
  {
  }

  lemma NoBoxes(rs: seq<Rect>)
    requires rs == []
    ensures BoxesOf(rs) == []
  {
  }

  function Flagged(r: Rect): Rect {
    r.(wasPacked := if Unplaced(r) then 0 else 1)
  }

  // Turn the index tags back into flags, and tell whether every rectangle was placed.
  method SetFlags(rects: array<Rect>) returns (all: bool)
    modifies rects
    ensures forall i :: 0 <= i < rects.Length ==> rects[i] == Flagged(old(rects[i]))
    ensures all <==> forall i :: 0 <= i < rects.Length ==> rects[i].wasPacked == 1
  {
    all := true;
    var i := 0;
    while i < rects.Length
      invariant 0 <= i <= rects.Length
      invariant forall j :: 0 <= j < i ==> rects[j] == Flagged(old(rects[j]))
      invariant forall j :: i <= j < rects.Length ==> rects[j] == old(rects[j])
      invariant all <==> forall j :: 0 <= j < i ==> rects[j].wasPacked == 1
    {
      rects[i] := rects[i].(wasPacked := if !(rects[i].x == MAXVAL && rects[i].y == MAXVAL) then 1 else 0);
      if rects[i].wasPacked == 0 {
        all := false;
      }
      i := i + 1;
    }
  }

  lemma {:induction false} BoxesOfAgree(a: seq<Rect>, b: seq<Rect>)
    requires |a| == |b| && forall i :: 0 <= i < |a| ==> a[i].(wasPacked := 0) == b[i].(wasPacked := 0)
    ensures BoxesOf(a) == BoxesOf(b)
  {
    if a != [] { BoxesOfAgree(a[..|a|-1], b[..|b|-1]); }
  }

  // The rectangles after the batch, r3 being what the placing loop left in sorted order.
  lemma Unsorted(rs: seq<Rect>, r3: seq<Rect>, r4: seq<Rect>, r5: seq<Rect>, order: seq<int>)
    requires IsOrder(order, rs) && |rs| == |r3| == |r4| == |r5|
    requires SameInput(r3, Reorder(rs, order)) && Settled(r3)
    requires forall i :: 0 <= i < |r3| ==> r3[i].wasPacked == order[i]
    requires forall i :: 0 <= i < |r3| ==> 0 <= r3[i].wasPacked < |r4| && r4[r3[i].wasPacked] == r3[i]
    requires forall i :: 0 <= i < |r4| ==> r5[i] == Flagged(r4[i])
    ensures SameInput(r5, rs) && Settled(r5)
    ensures BoxesOf(Reorder(r5, order)) == BoxesOf(r3)
    ensures forall i :: 0 <= i < |r5| ==> r5[i].wasPacked == if Unplaced(r5[i]) then 0 else 1
  {
    hide BoxesOf, Before;
    BoxesOfAgree(Reorder(r5, order), r3);
    forall i | 0 <= i < |rs| ensures r5[i].id == rs[i].id && r5[i].w == rs[i].w && r5[i].h == rs[i].h
      && (Empty(r5[i]) ==> r5[i].x == 0 && r5[i].y == 0)
    {
      var m := AllHit(order, |rs|, i);
      assert r4[order[m]] == r3[m];
    }
  }

  // Assign places to all rectangles; `order` is what the sort by height produced.
  method PackAll(c: Context, rects: array<Rect>, order: seq<int>) returns (all: bool)
    requires c.Valid() && Sized(rects[..])
    requires rects as object != c.nodes && IsOrder(order, rects[..])
    modifies c`activeHead, c`freeHead, c`active, c`free, c`placed, c.nodes, rects
    ensures c.Valid()
    ensures SameInput(rects[..], old(rects[..])) && Settled(rects[..])
    ensures forall i :: 0 <= i < rects.Length ==> rects[i].wasPacked == if Unplaced(rects[i]) then 0 else 1
    ensures all <==> forall i :: 0 <= i < rects.Length ==> rects[i].wasPacked == 1
    ensures c.placed == old(c.placed) + BoxesOf(Reorder(rects[..], order))
    ensures c.Linked() && IsBatch(c.Settings(), old(c.State()), old(rects[..]), order, c.State(), rects[..])
    ensures ClearOf(old(c.placed), rects[..], c.width, c.height)
  {
    hide Context.Valid, BoxesOf, SameInput, Settled, IsOrder, PlacedEach, Context.Linked, Context.State, Sized, IsBatch,
         IsState;
    StateOk(c);
    ghost var t, st, rs := c.Settings(), c.State(), rects[..];
    OrderInRange(order, rs);
    TagAndSort(rects, order);
    WidthsKept(rs, rects[..], order);
    ghost var r2 := rects[..];
    PlaceAll(c, rects);
    ghost var r3 := rects[..];
    SameInputTransitive(rects[..], r2, Reorder(rs, order));
    all := Unsort(rects, rs, order);
    BatchDone(t, st, rs, order, r2, r3, rects[..]);
    StateOk(c);
    AfterBatch(c, old(c.placed), rects[..], order);
  }

  lemma AfterBatch(c: Context, placed0: seq<Box>, rs: seq<Rect>, order: seq<int>)
    requires c.Valid() && IsPermutation(order, |rs|) && c.placed == placed0 + BoxesOf(Reorder(rs, order))
    ensures ClearOf(placed0, rs, c.width, c.height)
  {
    hide Context.Linked, Context.Sky, BoxesOf, IsPacking, ClearOf, Profile;
    BatchIsDisjoint(placed0, rs, order, Profile(c.Sky()), c.height);
  }

  // The whole batch: the rectangles are placed one after another in sorted order, and each ends
  // up where it was, marked packed or not.
  ghost predicate IsBatch(t: Target, st: PackState, rs: seq<Rect>, order: seq<int>, st': PackState, rs': seq<Rect>) {
    && IsState(t, st) && Sized(rs) && IsOrder(order, rs) && |rs'| == |rs|
    && Sized(Reorder(rs, order))
    && var (end, out) := PlacedEach(t, st, Reorder(rs, order));
    st' == end && forall k :: 0 <= k < |order| ==> rs'[order[k]] == Flagged(out[k])
  }

  lemma BatchDone(t: Target, st: PackState, rs: seq<Rect>, order: seq<int>, r2: seq<Rect>, r3: seq<Rect>, r5: seq<Rect>)
    requires IsState(t, st) && Sized(rs) && IsOrder(order, rs) && Sized(r2) && SameInput(r2, Reorder(rs, order))
    requires PlacedEach(t, st, r2).1 == r3 && |order| == |rs| == |r3| == |r5|
    requires forall k :: 0 <= k < |order| ==> 0 <= order[k] < |r5| && r5[order[k]] == Flagged(r3[k])
    ensures IsBatch(t, st, rs, order, PlacedEach(t, st, r2).0, r5)
  {
    hide IsState, PlacedEach;
    PlacedAlike(t, st, r2, Reorder(rs, order));
  }

  // Old places and marks make no difference.
  lemma {:induction false} PlacedAlike(t: Target, st: PackState, a: seq<Rect>, b: seq<Rect>)
    requires IsState(t, st) && Sized(a) && Sized(b) && SameInput(a, b)
    ensures PlacedEach(t, st, a).0 == PlacedEach(t, st, b).0 && |a| == |b|
    ensures forall k :: 0 <= k < |a| ==> Flagged(PlacedEach(t, st, a).1[k]) == Flagged(PlacedEach(t, st, b).1[k])
  {
    hide IsState, Increasing, PackStep, PlacedEach;
    NonePlaced(t, st, []);
    if a == [] {
      assert a == b == [];
    } else {
      var n := |a| - 1;
      assert a[..n+1] == a && b[..n+1] == b;
      PlacedNext(t, st, a, n);
      PlacedNext(t, st, b, n);
      PlacedAlike(t, st, a[..n], b[..n]);
    }
  }

  lemma SameInputTransitive(a: seq<Rect>, b: seq<Rect>, c: seq<Rect>)
    requires SameInput(a, b) && SameInput(b, c)
    ensures SameInput(a, c) && |a| == |b| == |c|
  {
  }

  lemma OrderKept(order: seq<int>, a: seq<Rect>, b: seq<Rect>)
    requires IsOrder(order, a) && SameInput(b, a)
    ensures IsOrder(order, b) && SameInput(Reorder(b, order), Reorder(a, order))
  {
  }

  method TagAndSort(rects: array<Rect>, order: seq<int>)
    requires IsOrder(order, rects[..])
    modifies rects
    ensures |order| == rects.Length && SameInput(rects[..], Reorder(old(rects[..]), order))
    ensures forall i :: 0 <= i < rects.Length ==> rects[i].wasPacked == order[i]
  {
    hide IsOrder, SameInput;
    ghost var rs := rects[..];
    Tag(rects);
    ghost var r1 := rects[..];
    OrderKept(order, rs, r1);
    SortByHeight(rects, order);
    OrderInRange(order, r1);
    assert forall i :: 0 <= i < |order| ==> rects[..][i] == r1[order[i]];
  }

  lemma OrderInRange(order: seq<int>, rs: seq<Rect>)
    requires IsOrder(order, rs)
    ensures IsPermutation(order, |rs|) && |order| == |rs| && forall i :: 0 <= i < |order| ==> 0 <= order[i] < |rs|
  {
  }

  lemma WidthsKept(rs: seq<Rect>, r2: seq<Rect>, order: seq<int>)
    requires IsOrder(order, rs) && SameInput(r2, Reorder(rs, order))
    requires Sized(rs)
    ensures Sized(r2)
  {
  }

  method Unsort(rects: array<Rect>, ghost rs: seq<Rect>, ghost order: seq<int>) returns (all: bool)
    requires IsOrder(order, rs) && |rs| == rects.Length
    requires SameInput(rects[..], Reorder(rs, order)) && Settled(rects[..])
    requires forall i :: 0 <= i < rects.Length ==> rects[i].wasPacked == order[i]
    modifies rects
    ensures SameInput(rects[..], rs) && Settled(rects[..])
    ensures forall i :: 0 <= i < rects.Length ==> rects[i].wasPacked == if Unplaced(rects[i]) then 0 else 1
    ensures all <==> forall i :: 0 <= i < rects.Length ==> rects[i].wasPacked == 1
    ensures BoxesOf(Reorder(rects[..], order)) == BoxesOf(old(rects[..]))
    ensures |order| == rects.Length
    ensures forall k :: 0 <= k < |order| ==> 0 <= order[k] < rects.Length && rects[order[k]] == Flagged(old(rects[k]))
  {
    hide BoxesOf, SameInput, Settled, Unplaced, Before;
    ghost var r3 := rects[..];
    assert forall i :: 0 <= i < |r3| ==> r3[i].wasPacked == order[i];
    RestoreOrder(rects);
    ghost var r4 := rects[..];
    all := SetFlags(rects);
    Unsorted(rs, r3, r4, rects[..], order);
  }

  /** What a batch leaves behind */

  predicate Taken(r: Rect) { !Empty(r) && !Unplaced(r) }

  lemma {:induction false} BoxAt(rs: seq<Rect>, m: nat)
    requires m < |rs| && Taken(rs[m])
    ensures var n := |BoxesOf(rs[..m])|; n < |BoxesOf(rs)| && BoxesOf(rs)[n] == BoxOf(rs[m])
    decreases |rs|
  {
    if m < |rs| - 1 {
      var front := rs[..|rs|-1];
      assert front[..m] == rs[..m];
      BoxAt(front, m);
    }
  }

  lemma BoxesApart(rs: seq<Rect>, m: nat, m': nat)
    requires m < m' < |rs| && Taken(rs[m]) && Taken(rs[m']) && PairwiseDisjoint(BoxesOf(rs))
    ensures Disjoint(BoxOf(rs[m]), BoxOf(rs[m']))
  {
    hide BoxesOf, Disjoint, Taken;
    assert rs[..m'][..m] == rs[..m];
    BoxAt(rs[..m'], m);
    BoxAt(rs, m);
    BoxAt(rs, m');
  }

  // Every rectangle marked packed lies in the target, clear of the others and of earlier boxes.
  ghost predicate ClearOf(placed0: seq<Box>, rs: seq<Rect>, width: int, height: int) {
    && (forall i :: 0 <= i < |rs| && Taken(rs[i]) ==> Inside(BoxOf(rs[i]), width, height))
    && (forall i, j :: 0 <= i < j < |rs| && Taken(rs[i]) && Taken(rs[j]) ==> Disjoint(BoxOf(rs[i]), BoxOf(rs[j])))
    && forall i, b :: 0 <= i < |rs| && Taken(rs[i]) && b in placed0 ==> Disjoint(b, BoxOf(rs[i]))
  }

  // After any batch, on top of whatever was packed before: every rectangle marked packed lies
  // in the target, clear of every other one and of all earlier boxes.
  lemma BatchIsDisjoint(placed0: seq<Box>, rs: seq<Rect>, order: seq<int>, p: seq<int>, height: int)
    requires IsPermutation(order, |rs|)
    requires IsPacking(placed0 + BoxesOf(Reorder(rs, order)), p, height)
    ensures ClearOf(placed0, rs, |p|, height)
  {
    hide BoxesOf, Disjoint, Inside, Sum, AreaOf, Taken;
    var s := Reorder(rs, order);
    var bs := BoxesOf(s);
    assert forall k :: 0 <= k < |bs| ==> (placed0 + bs)[|placed0| + k] == bs[k];
    assert PairwiseDisjoint(bs);
    forall i | 0 <= i < |rs| && Taken(rs[i])
      ensures Inside(BoxOf(rs[i]), |p|, height) && forall b :: b in placed0 ==> Disjoint(b, BoxOf(rs[i]))
    {
      var m := AllHit(order, |rs|, i);
      BoxAt(s, m);
      forall b | b in placed0 ensures Disjoint(b, BoxOf(rs[i])) {
        var k :| 0 <= k < |placed0| && placed0[k] == b;
        assert (placed0 + bs)[k] == b;
      }
    }
    forall i, j | 0 <= i < j < |rs| && Taken(rs[i]) && Taken(rs[j]) ensures Disjoint(BoxOf(rs[i]), BoxOf(rs[j])) {
      var m := AllHit(order, |rs|, i);
      var m' := AllHit(order, |rs|, j);
      if m < m' { BoxesApart(s, m, m'); } else { BoxesApart(s, m', m); DisjointSymmetric(BoxOf(s[m']), BoxOf(s[m])); }
    }
  }

  lemma DisjointSymmetric(a: Box, b: Box)
    requires Disjoint(a, b)
    ensures Disjoint(b, a)
  {
  }
}
