// The atlas: rectangles packed into a texture, reached through handles that survive the
// texture being repacked or replaced by a larger one.
module Atlas {
  import opened Common
  import opened Counting
  import opened Skyline
  import opened Packing
  import opened RectPacker
  import PackRects
  import PackerRuns
  import opened AtlasHandles
  import opened Texture
  import opened AtlasSizes
  import opened AtlasFits

  function Padded(r: TexRect, padding: int): Box { Box(r.x, r.y, r.w + padding, r.h + padding) }

  // Rectangles and boxes of the packing go together, except that discarding empties a rectangle.
  ghost predicate Spotted(placed: seq<Box>, rects: seq<TexRect>, index: seq<Entry>, padding: int) {
    && |placed| == |rects|
    && forall i :: 0 <= i < |index| && index[i].used && 0 <= index[i].target < |rects| ==>
         placed[index[i].target] == Padded(rects[index[i].target], padding)
  }

  ghost predicate InTexture(t: Texture, rects: seq<TexRect>, index: seq<Entry>)
    reads t
  {
    forall i :: 0 <= i < |index| && index[i].used ==> t.Holds(RectOf(rects, index[i]))
  }

  // The same size and, for a rectangle that lies in its texture, the same pixels.
  ghost predicate SamePixels(t0: Texture, r0: TexRect, t: Texture, r: TexRect)
    reads t0, t0.px, t, t.px
  {
    && t0.Valid() && t.Valid() && r0.w == r.w && r0.h == r.h
    && (t0.Holds(r0) ==>
          t.Holds(r) && forall dx, dy :: 0 <= dx < r.w && 0 <= dy < r.h ==> t.At(r, dx, dy) == t0.At(r0, dx, dy))
  }

  // Entry i keeps its handle, and its rectangle has the size and the pixels it had.
  ghost predicate Survives(t0: Texture, rs0: seq<TexRect>, ix0: seq<Entry>,
                           t: Texture, rs: seq<TexRect>, ix: seq<Entry>, i: int)
    reads t0, t0.px, t, t.px
  {
    && 0 <= i < |ix0| && i < |ix| && ix0[i].used && ix[i].used && ix[i].generation == ix0[i].generation
    && SamePixels(t0, RectOf(rs0, ix0[i]), t, RectOf(rs, ix[i]))
  }

  ghost predicate AllSurvive(t0: Texture, rs0: seq<TexRect>, ix0: seq<Entry>,
                             t: Texture, rs: seq<TexRect>, ix: seq<Entry>)
    reads t0, t0.px, t, t.px
  {
    forall i :: 0 <= i < |ix0| && ix0[i].used ==> Survives(t0, rs0, ix0, t, rs, ix, i)
  }

  lemma SurvivesAgain(t0: Texture, rs0: seq<TexRect>, ix0: seq<Entry>, t1: Texture, rs1: seq<TexRect>, ix1: seq<Entry>,
                      t2: Texture, rs2: seq<TexRect>, ix2: seq<Entry>, i: int)
    requires Survives(t0, rs0, ix0, t1, rs1, ix1, i) && Survives(t1, rs1, ix1, t2, rs2, ix2, i)
    ensures Survives(t0, rs0, ix0, t2, rs2, ix2, i)
  {
    hide RectOf;
    var r0, r1, r2 := RectOf(rs0, ix0[i]), RectOf(rs1, ix1[i]), RectOf(rs2, ix2[i]);
    if t0.Holds(r0) {
      forall dx, dy | 0 <= dx < r2.w && 0 <= dy < r2.h ensures t2.At(r2, dx, dy) == t0.At(r0, dx, dy) {
        assert t1.At(r1, dx, dy) == t0.At(r0, dx, dy);
      }
    }
  }

  // Nothing moved, so every rectangle is still what it was.
  lemma Untouched(t: Texture, rects: seq<TexRect>, index: seq<Entry>)
    requires t.Valid()
    ensures AllSurvive(t, rects, index, t, rects, index)
  {
  }

  /** Repacking */

  // The first n entries have been placed afresh, the rest not yet.
  ghost predicate Moved(rs0: seq<TexRect>, ix0: seq<Entry>, rs: seq<TexRect>, ix: seq<Entry>, n: nat) {
    && n <= |ix| == |ix0| && |rs| == UsedCount(ix0[..n])
    && (forall i :: 0 <= i < |ix| && (i >= n || !ix0[i].used) ==> ix[i] == ix0[i])
    && (forall i :: 0 <= i < n && ix0[i].used ==>
          && ix[i] == ix0[i].(target := ix[i].target) && 0 <= ix[i].target < |rs|
          && rs[ix[i].target].w == RectOf(rs0, ix0[i]).w && rs[ix[i].target].h == RectOf(rs0, ix0[i]).h)
    && (forall i, j :: 0 <= i < j < n && ix0[i].used && ix0[j].used ==> ix[i].target < ix[j].target)
  }

  ghost predicate AllSpotted(placed: seq<Box>, rects: seq<TexRect>, padding: int) {
    |placed| == |rects| && forall k :: 0 <= k < |rects| ==> placed[k] == Padded(rects[k], padding)
  }

  ghost predicate Copied(t0: Texture, rs0: seq<TexRect>, ix0: seq<Entry>, t: Texture, rs: seq<TexRect>, ix: seq<Entry>,
                         n: int)
    reads t0, t0.px, t, t.px
  {
    forall i :: 0 <= i < n && i < |ix0| && i < |ix| && ix0[i].used ==>
      SamePixels(t0, RectOf(rs0, ix0[i]), t, RectOf(rs, ix[i]))
  }

  lemma StartMoving(t0: Texture, rs0: seq<TexRect>, ix0: seq<Entry>, t: Texture, padding: int)
    ensures Moved(rs0, ix0, [], ix0, 0) && AllSpotted([], [], padding) && Copied(t0, rs0, ix0, t, [], ix0, 0)
  {
  }

  lemma SkipEntry(t0: Texture, rs0: seq<TexRect>, ix0: seq<Entry>, t: Texture, rs: seq<TexRect>, ix: seq<Entry>, n: nat)
    requires Moved(rs0, ix0, rs, ix, n) && n < |ix| && !ix0[n].used && Copied(t0, rs0, ix0, t, rs, ix, n)
    ensures Moved(rs0, ix0, rs, ix, n + 1) && Copied(t0, rs0, ix0, t, rs, ix, n + 1)
  {
    hide UsedCount, SamePixels, RectOf;
    UsedCountNext(ix0, n);
  }

  lemma UsedCountNext(index: seq<Entry>, n: nat)
    requires n < |index|
    ensures UsedCount(index[..n+1]) == UsedCount(index[..n]) + if index[n].used then 1 else 0
  {
    assert index[..n+1][..n] == index[..n];
  }

  // Entry n has been given a new rectangle, whose pixels are not copied yet.
  lemma MoveEntry(t0: Texture, rs0: seq<TexRect>, ix0: seq<Entry>, t: Texture, rs: seq<TexRect>, ix: seq<Entry>, n: nat,
                  placed: seq<Box>, padding: int, r: TexRect)
    requires Moved(rs0, ix0, rs, ix, n) && n < |ix| && ix0[n].used && Copied(t0, rs0, ix0, t, rs, ix, n)
    requires AllSpotted(placed, rs, padding)
    requires r.w == RectOf(rs0, ix0[n]).w && r.h == RectOf(rs0, ix0[n]).h
    ensures var rs', ix' := rs + [r], ix[n := ix[n].(target := |rs|)];
      && Moved(rs0, ix0, rs', ix', n + 1) && Copied(t0, rs0, ix0, t, rs', ix', n)
      && AllSpotted(placed + [Padded(r, padding)], rs', padding)
  {
    hide UsedCount, SamePixels;
    UsedCountNext(ix0, n);
    var rs', ix' := rs + [r], ix[n := ix[n].(target := |rs|)];
    forall i | 0 <= i < n && ix0[i].used ensures RectOf(rs', ix'[i]) == RectOf(rs, ix[i]) {}
  }

  lemma MovedTargets(rs0: seq<TexRect>, ix0: seq<Entry>, rs: seq<TexRect>, ix: seq<Entry>, n: nat)
    requires Moved(rs0, ix0, rs, ix, n)
    ensures forall i :: 0 <= i < n && i < |ix| && ix[i].used ==> 0 <= ix[i].target < |rs|
  {
    hide UsedCount;
  }

  lemma MovedLength(rs0: seq<TexRect>, ix0: seq<Entry>, rs: seq<TexRect>, ix: seq<Entry>, n: nat)
    requires Moved(rs0, ix0, rs, ix, n)
    ensures |ix| == |ix0|
  {
  }

  lemma EntryOf(t0: Texture, rs0: seq<TexRect>, ix0: seq<Entry>, start: int, free: seq<int>, discards: seq<nat>,
                discarded: int, rs: seq<TexRect>, ix: seq<Entry>, n: nat)
    requires HandlesOk(rs0, ix0, start, free, discards, discarded) && InTexture(t0, rs0, ix0)
    requires Moved(rs0, ix0, rs, ix, n) && n < |ix|
    ensures |ix| == |ix0| && ix[n] == ix0[n]
    ensures ix0[n].used ==> 0 <= ix0[n].target < |rs0| && RectOf(rs0, ix0[n]) == rs0[ix0[n].target]
    ensures ix0[n].used ==> var r := RectOf(rs0, ix0[n]); 0 < r.w && 0 < r.h && t0.Holds(r)
  {
    hide FreeList, Generations, UsedCount;
  }

  lemma FinishMoving(t0: Texture, rs0: seq<TexRect>, ix0: seq<Entry>, t: Texture, rs: seq<TexRect>, ix: seq<Entry>,
                     placed: seq<Box>, padding: int)
    requires Moved(rs0, ix0, rs, ix, |ix0|) && Copied(t0, rs0, ix0, t, rs, ix, |ix0|) && AllSpotted(placed, rs, padding)
    requires InTexture(t0, rs0, ix0)
    ensures InTexture(t, rs, ix) && Spotted(placed, rs, ix, padding) && AllSurvive(t0, rs0, ix0, t, rs, ix)
    ensures |ix| == |ix0| && forall i :: 0 <= i < |ix| && !ix0[i].used ==> ix[i] == ix0[i]
  {
    hide UsedCount, RectOf, Padded;
    forall i | 0 <= i < |ix| && ix[i].used ensures t.Holds(RectOf(rs, ix[i])) {
      assert ix0[i].used;
    }
  }

  lemma {:induction false} UsedCountAgrees(a: seq<Entry>, b: seq<Entry>)
    requires |a| == |b| && forall i :: 0 <= i < |a| ==> a[i].used == b[i].used
    ensures UsedCount(a) == UsedCount(b)
  {
    if a != [] { UsedCountAgrees(a[..|a|-1], b[..|b|-1]); }
  }

  // Once all are placed the handles are in order, with no discarded rectangle left.
  lemma MovedAll(rs0: seq<TexRect>, ix0: seq<Entry>, rs: seq<TexRect>, ix: seq<Entry>,
                 start: int, free: seq<int>, discards: seq<nat>, discarded: int)
    requires HandlesOk(rs0, ix0, start, free, discards, discarded) && Moved(rs0, ix0, rs, ix, |ix0|)
    ensures HandlesOk(rs, ix, start, free, discards, 0)
    ensures |rs0| == |rs| + discarded && discarded >= 0
  {
    hide GenerationAfter, UsedCount, NextFree;
    assert ix0[..|ix0|] == ix0;
    UsedCountAgrees(ix, ix0);
    forall i | 0 <= i < |ix| ensures ix[i].used == ix0[i].used && (!ix[i].used ==> ix[i] == ix0[i]) {}
    assert Targets(rs, ix);
    assert Generations(ix, discards);
    assert FreeList(ix, start, free) by {
      forall k {:trigger NextFree(free, k)} | 0 <= k < |free| && 0 <= free[k] < |ix|
        ensures ix[free[k]].target == NextFree(free, k)
      {
        assert free[k] in free;
      }
    }
  }

  lemma DisjointPixels(a: TexRect, b: TexRect, padding: nat, x: int, y: int)
    requires Disjoint(Padded(a, padding), Padded(b, padding)) && Covers(a, x, y)
    ensures !Covers(b, x, y)
  {
  }

  // A box of the packing lies in the target, clear of every earlier one.
  lemma InPacking(c: Context, i: nat)
    requires c.Valid() && i < |c.placed|
    ensures Inside(c.placed[i], c.width, c.height)
    ensures forall j :: 0 <= j < i ==> Disjoint(c.placed[j], c.placed[i])
  {
    hide Context.Linked, Context.Sky, Disjoint, Sum, AreaOf;
  }

  lemma OneBox(r: PackRects.Rect, rs: seq<PackRects.Rect>, order: seq<int>)
    requires PackRects.SameInput(rs, [r]) && order == [0] && r.w > 0 && r.h > 0
    ensures |rs| == 1 && rs[0].w == r.w && rs[0].h == r.h
    ensures PackRects.BoxesOf(PackRects.Reorder(rs, order)) ==
      if PackRects.Unplaced(rs[0]) then [] else [PackRects.BoxOf(rs[0])]
  {
    var s := PackRects.Reorder(rs, order);
    assert s == [rs[0]] && s[..0] == [];
  }

  lemma OneOrder(r: PackRects.Rect)
    requires r.w >= 0 && r.h >= 0
    ensures PackRects.IsOrder([0], [r]) && PackRects.Sized([r])
  {
  }

  /** Surfaces */

  function Surface(r: TexRect, padding: int): int { (r.w + padding) * (r.h + padding) }

  // What the live rectangles take up, padding included.
  function LiveSurface(rects: seq<TexRect>, index: seq<Entry>, padding: int): int {
    if index == [] then 0
    else
      var e := index[|index|-1];
      LiveSurface(rects, index[..|index|-1], padding) + if e.used then Surface(RectOf(rects, e), padding) else 0
  }

  // The same entries in use, with rectangles of the same size.
  ghost predicate Alike(rs0: seq<TexRect>, ix0: seq<Entry>, rs: seq<TexRect>, ix: seq<Entry>, i: int)
    requires 0 <= i < |ix0| && i < |ix|
  {
    && ix[i].used == ix0[i].used
    && (ix[i].used ==>
          RectOf(rs, ix[i]).w == RectOf(rs0, ix0[i]).w && RectOf(rs, ix[i]).h == RectOf(rs0, ix0[i]).h)
  }

  lemma {:induction false} SurfaceAlike(rs0: seq<TexRect>, ix0: seq<Entry>, rs: seq<TexRect>, ix: seq<Entry>,
                                        padding: int)
    requires |ix| == |ix0| && forall i :: 0 <= i < |ix| ==> Alike(rs0, ix0, rs, ix, i)
    ensures LiveSurface(rs, ix, padding) == LiveSurface(rs0, ix0, padding)
    decreases |ix|
  {
    hide RectOf, Surface;
    if ix != [] {
      var n := |ix| - 1;
      forall i | 0 <= i < n ensures Alike(rs0, ix0[..n], rs, ix[..n], i) { assert Alike(rs0, ix0, rs, ix, i); }
      SurfaceAlike(rs0, ix0[..n], rs, ix[..n], padding);
      assert Alike(rs0, ix0, rs, ix, n);
      SameSurface(RectOf(rs0, ix0[n]), RectOf(rs, ix[n]), padding);
    }
  }

  lemma SameSurface(a: TexRect, b: TexRect, padding: int)
    ensures a.w == b.w && a.h == b.h ==> Surface(a, padding) == Surface(b, padding)
  {
  }

  lemma SurfaceNext(rs: seq<TexRect>, ix: seq<Entry>, n: nat, padding: int)
    requires n < |ix|
    ensures LiveSurface(rs, ix[..n+1], padding) ==
      LiveSurface(rs, ix[..n], padding) + if ix[n].used then Surface(RectOf(rs, ix[n]), padding) else 0
  {
    hide Surface;
    assert ix[..n+1][..n] == ix[..n];
  }

  // Only entry i has changed.
  lemma {:induction false} SurfaceChange(rs0: seq<TexRect>, ix0: seq<Entry>, rs: seq<TexRect>, ix: seq<Entry>, i: nat,
                                         padding: int)
    requires |ix| == |ix0| && i < |ix| && forall j :: 0 <= j < |ix| && j != i ==> Alike(rs0, ix0, rs, ix, j)
    ensures LiveSurface(rs, ix, padding) - (if ix[i].used then Surface(RectOf(rs, ix[i]), padding) else 0)
      == LiveSurface(rs0, ix0, padding) - (if ix0[i].used then Surface(RectOf(rs0, ix0[i]), padding) else 0)
    decreases |ix|
  {
    hide RectOf, Surface;
    var n := |ix| - 1;
    forall j | 0 <= j < n && j != i ensures Alike(rs0, ix0[..n], rs, ix[..n], j) { assert Alike(rs0, ix0, rs, ix, j); }
    if i < n {
      SurfaceChange(rs0, ix0[..n], rs, ix[..n], i, padding);
      assert Alike(rs0, ix0, rs, ix, n);
      SameSurface(RectOf(rs0, ix0[n]), RectOf(rs, ix[n]), padding);
    } else {
      SurfaceAlike(rs0, ix0[..n], rs, ix[..n], padding);
    }
  }

  lemma AddedLength(rs0: seq<TexRect>, ix0: seq<Entry>, rs: seq<TexRect>, ix: seq<Entry>, id: int, r: TexRect)
    requires AddedOne(rs0, ix0, rs, ix, id, r)
    ensures IdIndex(id) <= |ix0| && |ix| == if IdIndex(id) < |ix0| then |ix0| else |ix0| + 1
  {
    hide RectOf, IdGeneration, IdIndex;
    var n := |ix0|;
    if |ix| > n { OldOrNew(rs0, ix0, rs, ix, id, r, n); }
    if |ix| > n + 1 { OldOrNew(rs0, ix0, rs, ix, id, r, n + 1); }
  }

  lemma OldOrNew(rs0: seq<TexRect>, ix0: seq<Entry>, rs: seq<TexRect>, ix: seq<Entry>, id: int, r: TexRect, j: nat)
    requires AddedOne(rs0, ix0, rs, ix, id, r) && j < |ix|
    ensures j < |ix0| || j == IdIndex(id)
  {
    hide RectOf, IdGeneration, IdIndex;
    var _ := ix[j];
  }

  lemma SurfaceAdded(rs0: seq<TexRect>, ix0: seq<Entry>, rs: seq<TexRect>, ix: seq<Entry>, id: int, r: TexRect,
                     padding: int)
    requires AddedOne(rs0, ix0, rs, ix, id, r)
    ensures LiveSurface(rs, ix, padding) == LiveSurface(rs0, ix0, padding) + Surface(r, padding)
  {
    hide Surface, IdIndex, IdGeneration;
    var i := IdIndex(id);
    AddedLength(rs0, ix0, rs, ix, id, r);
    forall j | 0 <= j < |ix0| && j != i ensures Alike(rs0, ix0, rs, ix, j) {}
    if i < |ix0| {
      SurfaceChange(rs0, ix0, rs, ix, i, padding);
    } else {
      SurfaceAlike(rs0, ix0, rs, ix[..|ix0|], padding);
      SurfaceNext(rs, ix, |ix0|, padding);
      assert ix[..|ix0|+1] == ix;
    }
  }

  // Discarding entry i takes its surface off.
  lemma SurfaceDiscarded(rects: seq<TexRect>, index: seq<Entry>, start: int, i: int, padding: int)
    requires Targets(rects, index) && 0 <= i < |index| && index[i].used && 0 <= index[i].target < |rects|
    requires 0 <= index[i].generation < GENERATIONS
    ensures LiveSurface(Emptied(rects, index[i].target), Discarded(index, start, i), padding) ==
      LiveSurface(rects, index, padding) - Surface(rects[index[i].target], padding)
  {
    hide Surface, NextGeneration;
    var rects', index' := Emptied(rects, index[i].target), Discarded(index, start, i);
    forall j | 0 <= j < |index| && j != i ensures Alike(rects, index, rects', index', j) {}
    SurfaceChange(rects, index, rects', index', i, padding);
  }

  // Entry n has been given a new rectangle.
  lemma SurfaceMoved(rs: seq<TexRect>, ix: seq<Entry>, n: nat, r: TexRect, padding: int)
    requires n < |ix| && ix[n].used && forall i :: 0 <= i < n && ix[i].used ==> 0 <= ix[i].target < |rs|
    ensures var rs', ix' := rs + [r], ix[n := ix[n].(target := |rs|)];
      LiveSurface(rs', ix'[..n+1], padding) == LiveSurface(rs, ix[..n], padding) + Surface(r, padding)
  {
    hide Surface;
    var rs', ix' := rs + [r], ix[n := ix[n].(target := |rs|)];
    SurfaceNext(rs', ix', n, padding);
    assert ix'[..n] == ix[..n];
    SurfaceAlike(rs, ix[..n], rs', ix'[..n], padding);
  }

  function Emptied(rects: seq<TexRect>, t: int): seq<TexRect>
    requires 0 <= t < |rects|
  {
    rects[t := rects[t].(w := 0, h := 0)]
  }

  // What discarding changes: rectangles, index, first unused entry and discarded surface.
  datatype Ledger = Ledger(rects: seq<TexRect>, index: seq<Entry>, start: int, surface: int)

  // Discarding the rectangle of a handle, if it leads to one.
  function Struck(b: Ledger, id: int, padding: int): Ledger {
    if !Live(b.index, id) then b
    else
      var i := IdIndex(id);
      var e := b.index[i];
      if !(0 <= e.target < |b.rects| && 0 <= e.generation < GENERATIONS) then b
      else
        Ledger(Emptied(b.rects, e.target), Discarded(b.index, b.start, i), i,
               b.surface + (b.rects[e.target].w + padding) * (b.rects[e.target].h + padding))
  }

  function StruckAll(b: Ledger, ids: seq<int>, padding: int): Ledger {
    if ids == [] then b else Struck(StruckAll(b, ids[..|ids|-1], padding), ids[|ids|-1], padding)
  }

  lemma NotStruck(b: Ledger, id: int, padding: int)
    requires !Live(b.index, id)
    ensures Struck(b, id, padding) == b
  {
  }

  lemma StruckNext(b: Ledger, ids: seq<int>, k: nat, padding: int)
    requires k <= |ids|
    ensures k == 0 ==> StruckAll(b, ids[..k], padding) == b
    ensures k < |ids| ==> StruckAll(b, ids[..k+1], padding) == Struck(StruckAll(b, ids[..k], padding), ids[k], padding)
  {
    if k < |ids| { assert ids[..k+1][..k] == ids[..k]; }
  }

  // Is too little discarded for a repack into the same size to pay?
  predicate Sparse(surface: int, packed: int) {
    surface as real < packed as real * 0.2
  }

  datatype Shape = Shape(books: Ledger, width: int, height: int, packed: int, maxW: int, maxH: int, locked: bool)

  ghost predicate Shaped(b: Bounds, s: Shape) { IsBounds(b) && IsSize(b, s.width, s.height) }

  ghost function NextOf(b: Bounds, padding: int, s: Shape): (int, int) {
    Grown(b, s.width, s.height, s.maxW + padding, s.maxH + padding)
  }

  // The size that making room leads to, once the rectangles of `left` are left: the first that
  // fits them, from the present one on or, if too little is discarded, from the next one on.
  ghost function RoomySize(b: Bounds, padding: int, s: Shape, left: Ledger): Option<(int, int)>
    requires Shaped(b, s)
  {
    hide PowerOfTwo, UpperPowerOfTwo, Grown, FirstFit;
    var size := NextOf(b, padding, s);
    GrownIsSize(b, s.width, s.height, s.maxW + padding, s.maxH + padding);
    if !Sparse(left.surface, s.packed) then FirstFit(b, s.width, s.height, left.rects, left.index, padding)
    else if size == (s.width, s.height) then Some(size)
    else FirstFit(b, size.0, size.1, left.rects, left.index, padding)
  }

  // With less than a fifth of the surface discarded the texture grows, if it can; otherwise it keeps
  // its size when all that is left fits that.
  lemma RoomySizeMeaning(b: Bounds, padding: int, s: Shape, left: Ledger)
    requires Shaped(b, s)
    ensures var r := RoomySize(b, padding, s, left);
      && (5 * left.surface < s.packed && NextOf(b, padding, s) != (s.width, s.height) && r.Some? ==>
            r.value.0 >= s.width && r.value.1 >= s.height && r.value != (s.width, s.height))
      && (5 * left.surface >= s.packed && AllFit(s.width, s.height, left.rects, left.index, padding) ==>
            r == Some((s.width, s.height)))
  {
    hide PowerOfTwo, UpperPowerOfTwo, Grown, FirstFit, AllFit, IsSize, IsBounds;
    GrownIsSize(b, s.width, s.height, s.maxW + padding, s.maxH + padding);
    if AllFit(s.width, s.height, left.rects, left.index, padding) {
      FitsAtOnce(b, s.width, s.height, left.rects, left.index, padding);
    }
  }

  // The same entries in use, under the same handles.
  ghost predicate SameUse(a: seq<Entry>, b: seq<Entry>) {
    |a| == |b| && forall i :: 0 <= i < |a| ==> a[i].used == b[i].used && a[i].generation == b[i].generation
  }

  // Room has been made once by giving up the rectangles of these handles.
  ghost predicate MadeRoom(b: Bounds, padding: int, s: Shape, ids: seq<int>, s': Shape) {
    && Shaped(b, s)
    && var left := StruckAll(s.books, ids, padding);
       var size := RoomySize(b, padding, s, left);
       && SameUse(left.index, s'.books.index) && (s'.locked <==> size.None?)
       && (s'.width, s'.height) == if size.Some? then size.value else (s.width, s.height)
  }

  // With less than a fifth of the surface discarded, once those of `left` are left, the texture has
  // grown, unless it cannot or nothing larger fits; otherwise it has the size it had if that fits.
  ghost predicate RightSize(b: Bounds, padding: int, s: Shape, left: Ledger, s': Shape) {
    && (5 * left.surface < s.packed && NextOf(b, padding, s) != (s.width, s.height) ==>
          || s'.locked
          || (s'.width >= s.width && s'.height >= s.height && (s'.width > s.width || s'.height > s.height)))
    && (5 * left.surface >= s.packed && AllFit(s.width, s.height, left.rects, left.index, padding) ==>
          !s'.locked && s'.width == s.width && s'.height == s.height)
  }

  lemma MadeRoomMeaning(b: Bounds, padding: int, s: Shape, ids: seq<int>, s': Shape)
    requires MadeRoom(b, padding, s, ids, s')
    ensures RightSize(b, padding, s, StruckAll(s.books, ids, padding), s')
  {
    hide RoomySize, NextOf, AllFit, StruckAll, Shaped;
    RoomySizeMeaning(b, padding, s, StruckAll(s.books, ids, padding));
  }

  // Room has been made over and over.
  ghost predicate IsTrail(b: Bounds, padding: int, trail: seq<Shape>, lost: seq<seq<int>>) {
    1 <= |trail| <= |lost| + 1 && forall i :: 0 <= i < |trail| - 1 ==> TrailStep(b, padding, trail, lost, i)
  }

  ghost predicate TrailStep(b: Bounds, padding: int, trail: seq<Shape>, lost: seq<seq<int>>, i: nat)
    requires i < |trail| - 1 && i < |lost|
  {
    !trail[i].locked && MadeRoom(b, padding, trail[i], lost[i], trail[i+1])
  }

  lemma TrailOn(b: Bounds, padding: int, trail: seq<Shape>, lost: seq<seq<int>>, s: Shape)
    requires IsTrail(b, padding, trail, lost) && |trail| <= |lost|
    requires !Last(trail).locked && MadeRoom(b, padding, Last(trail), lost[|trail|-1], s)
    ensures IsTrail(b, padding, trail + [s], lost)
  {
    hide MadeRoom;
    var t := trail + [s];
    forall i | 0 <= i < |t| - 1 ensures TrailStep(b, padding, t, lost, i) {
      if i < |trail| - 1 { assert TrailStep(b, padding, trail, lost, i); }
    }
  }

  // Discarding entry i leaves every other rectangle alone.
  lemma OthersStay(t: Texture, rects: seq<TexRect>, index: seq<Entry>, start: int, free: seq<int>, discards: seq<nat>,
                   discarded: int, i: int)
    requires HandlesOk(rects, index, start, free, discards, discarded) && 0 <= i < |index| && index[i].used
    ensures 0 <= index[i].target < |rects| && 0 <= index[i].generation < GENERATIONS
    ensures var rects', index' := Emptied(rects, index[i].target), Discarded(index, start, i);
      && (InTexture(t, rects, index) ==> InTexture(t, rects', index'))
      && forall j :: 0 <= j < |index| && j != i && index[j].used ==>
           RectOf(rects', index'[j]) == RectOf(rects, index[j])
  {
    hide FreeList, UsedCount, GenerationAfter, NextGeneration;
    GenerationRange(index, discards, i);
    var rects', index' := Emptied(rects, index[i].target), Discarded(index, start, i);
    forall j | 0 <= j < |index| && j != i && index[j].used
      ensures RectOf(rects', index'[j]) == RectOf(rects, index[j])
    {
      assert index[j].target != index[i].target;
    }
  }

  lemma SpottedStay(placed: seq<Box>, rects: seq<TexRect>, index: seq<Entry>, padding: int, i: int,
                    rects': seq<TexRect>, index': seq<Entry>)
    requires Targets(rects, index) && 0 <= i < |index| && index[i].used && rects' == Emptied(rects, index[i].target)
    requires |index'| == |index| && !index'[i].used && forall j :: 0 <= j < |index| && j != i ==> index'[j] == index[j]
    ensures Spotted(placed, rects, index, padding) ==> Spotted(placed, rects', index', padding)
  {
    hide Padded;
    forall j | 0 <= j < |index'| && index'[j].used
      ensures index'[j] == index[j] && index[j].target != index[i].target
    {
    }
  }

  lemma DiscardedCount(rects: seq<TexRect>, index: seq<Entry>, start: int, free: seq<int>, discards: seq<nat>,
                       discarded: int)
    requires HandlesOk(rects, index, start, free, discards, discarded)
    ensures discarded >= 0
  {
  }

  lemma HandleParts(rects: seq<TexRect>, index: seq<Entry>, start: int, free: seq<int>, discards: seq<nat>,
                    discarded: int)
    requires HandlesOk(rects, index, start, free, discards, discarded)
    ensures |index| <= INDEX_LIMIT && -1 <= start < |index| && Targets(rects, index) && Generations(index, discards)
    ensures |discards| == |index|
  {
    hide Targets;
    FreeStart(index, start, free);
  }

  // Every used entry was used before, under the same handle; one given up has a new generation.
  ghost predicate Fewer(ix0: seq<Entry>, ix: seq<Entry>) {
    && |ix| == |ix0|
    && forall i :: 0 <= i < |ix| ==>
         (ix[i].used ==> ix0[i].used) && (ix[i].generation == ix0[i].generation <==> ix[i].used == ix0[i].used)
  }

  // None of the handles leads to entry i.
  ghost predicate Spared(ids: seq<int>, ix: seq<Entry>, i: int) {
    forall k :: 0 <= k < |ids| && IdIndex(ids[k]) == i ==> !Live(ix, ids[k])
  }

  // Discarding these handles' rectangles leaves the others as they were.
  ghost predicate Spares(ids: seq<int>, rs0: seq<TexRect>, ix0: seq<Entry>, rs: seq<TexRect>, ix: seq<Entry>) {
    && Fewer(ix0, ix) && |rs| == |rs0|
    && forall i :: 0 <= i < |ix0| && i < |ix| && ix0[i].used && Spared(ids, ix0, i) ==>
         ix[i] == ix0[i] && RectOf(rs, ix[i]) == RectOf(rs0, ix0[i])
  }

  lemma SparesAll(rs: seq<TexRect>, ix: seq<Entry>)
    ensures Spares([], rs, ix, rs, ix)
  {
  }

  lemma SparedBefore(ids: seq<int>, k: nat, ix0: seq<Entry>, i: int)
    requires k < |ids| && Spared(ids[..k+1], ix0, i)
    ensures Spared(ids[..k], ix0, i) && (IdIndex(ids[k]) == i ==> !Live(ix0, ids[k]))
  {
    hide IdIndex, Live;
    var more := ids[..k+1];
    assert more[k] == ids[k];
    forall m | 0 <= m < k && IdIndex(ids[..k][m]) == i ensures !Live(ix0, ids[..k][m]) {
      assert more[m] == ids[..k][m];
    }
  }

  lemma SparesAlready(ids: seq<int>, k: nat, rs0: seq<TexRect>, ix0: seq<Entry>, rs: seq<TexRect>, ix: seq<Entry>)
    requires k < |ids| && Spares(ids[..k], rs0, ix0, rs, ix)
    ensures Spares(ids[..k+1], rs0, ix0, rs, ix)
  {
    hide Spared, RectOf;
    forall i | 0 <= i < |ix0| && Spared(ids[..k+1], ix0, i) ensures Spared(ids[..k], ix0, i) {
      SparedBefore(ids, k, ix0, i);
    }
  }

  lemma SparesFewer(ids: seq<int>, k: nat, rs0: seq<TexRect>, ix0: seq<Entry>, rs1: seq<TexRect>, ix1: seq<Entry>,
                    start: int, rs: seq<TexRect>, ix: seq<Entry>)
    requires k < |ids| && Spares(ids[..k], rs0, ix0, rs1, ix1) && Live(ix1, ids[k]) && Targets(rs1, ix1)
    requires var i := IdIndex(ids[k]);
      && 0 <= ix1[i].generation < GENERATIONS && ix == Discarded(ix1, start, i)
      && 0 <= ix1[i].target < |rs1| && rs == Emptied(rs1, ix1[i].target)
    ensures Spares(ids[..k+1], rs0, ix0, rs, ix)
  {
    hide Spared, IdIndex, IdGeneration, NextGeneration;
    var i := IdIndex(ids[k]);
    assert Live(ix0, ids[k]);
    NextGenerationDiffers(ix1[i].generation);
    forall j | 0 <= j < |ix0| && ix0[j].used && Spared(ids[..k+1], ix0, j)
      ensures ix[j] == ix0[j] && RectOf(rs, ix[j]) == RectOf(rs0, ix0[j])
    {
      SparedBefore(ids, k, ix0, j);
      assert j != i && ix1[j] == ix0[j] && ix[j] == ix1[j] && ix[j].target != ix1[i].target;
    }
  }

  ghost predicate SparedByAll(lost: seq<seq<int>>, ix: seq<Entry>, i: int) {
    forall k :: 0 <= k < |lost| ==> Spared(lost[k], ix, i)
  }

  // Every handle not among the lost ones keeps its rectangle's size and pixels.
  ghost predicate SparedSurvive(lost: seq<seq<int>>, t0: Texture, rs0: seq<TexRect>, ix0: seq<Entry>,
                                t: Texture, rs: seq<TexRect>, ix: seq<Entry>)
    reads t0, t0.px, t, t.px
  {
    forall i :: 0 <= i < |ix0| && ix0[i].used && SparedByAll(lost, ix0, i) ==> Survives(t0, rs0, ix0, t, rs, ix, i)
  }

  lemma SparesSurvive(ids: seq<int>, t: Texture, rs0: seq<TexRect>, ix0: seq<Entry>, rs: seq<TexRect>, ix: seq<Entry>)
    requires Spares(ids, rs0, ix0, rs, ix) && t.Valid()
    ensures Fewer(ix0, ix) && |rs| == |rs0| && SparedSurvive([ids], t, rs0, ix0, t, rs, ix)
  {
    hide Fewer, Spared, RectOf, Texture.Valid;
    Untouched(t, rs0, ix0);
    assert Fewer(ix0, ix) && |ix| == |ix0| by { FewerLength(ix0, ix); }
    forall i | 0 <= i < |ix0| && ix0[i].used && SparedByAll([ids], ix0, i) ensures Survives(t, rs0, ix0, t, rs, ix, i) {
      assert [ids][0] == ids;
    }
  }

  lemma FewerLength(ix0: seq<Entry>, ix: seq<Entry>)
    requires Fewer(ix0, ix)
    ensures |ix| == |ix0|
    ensures forall i :: 0 <= i < |ix| && ix[i].used ==> ix0[i].used && ix[i].generation == ix0[i].generation
  {
  }

  // Whatever survives one change and then another survives both.
  lemma KeptSurvive(lost: seq<seq<int>>, t0: Texture, rs0: seq<TexRect>, ix0: seq<Entry>,
                    t1: Texture, rs1: seq<TexRect>, ix1: seq<Entry>, t2: Texture, rs2: seq<TexRect>, ix2: seq<Entry>)
    requires SparedSurvive(lost, t0, rs0, ix0, t1, rs1, ix1) && AllSurvive(t1, rs1, ix1, t2, rs2, ix2)
    requires Fewer(ix0, ix1) && |ix2| == |ix1| && forall i :: 0 <= i < |ix2| && !ix1[i].used ==> ix2[i] == ix1[i]
    ensures SparedSurvive(lost, t0, rs0, ix0, t2, rs2, ix2) && Fewer(ix0, ix2)
  {
    hide Spared, RectOf, SamePixels;
    forall i | 0 <= i < |ix0| && ix0[i].used && SparedByAll(lost, ix0, i)
      ensures Survives(t0, rs0, ix0, t2, rs2, ix2, i)
    {
      SurvivesAgain(t0, rs0, ix0, t1, rs1, ix1, t2, rs2, ix2, i);
    }
    forall i | 0 <= i < |ix1| && ix1[i].used ensures ix2[i].used && ix1[i].generation == ix2[i].generation {
      assert Survives(t1, rs1, ix1, t2, rs2, ix2, i);
    }
  }

  lemma SurviveAtFirst(t: Texture, rs: seq<TexRect>, ix: seq<Entry>)
    requires t.Valid()
    ensures SparedSurvive([], t, rs, ix, t, rs, ix) && Fewer(ix, ix)
  {
    hide RectOf;
    Untouched(t, rs, ix);
  }

  lemma SurviveEnough(lost: seq<seq<int>>, a: nat, t0: Texture, rs0: seq<TexRect>, ix0: seq<Entry>,
                      t: Texture, rs: seq<TexRect>, ix: seq<Entry>)
    requires a <= |lost| && SparedSurvive(lost[..a], t0, rs0, ix0, t, rs, ix)
    ensures SparedSurvive(lost, t0, rs0, ix0, t, rs, ix)
  {
    hide Spared, Survives;
    forall i | 0 <= i < |ix0| && SparedByAll(lost, ix0, i) ensures SparedByAll(lost[..a], ix0, i) {}
  }

  lemma SparedStill(ids: seq<int>, ix0: seq<Entry>, ix: seq<Entry>, i: int)
    requires Fewer(ix0, ix) && Spared(ids, ix0, i)
    ensures Spared(ids, ix, i)
  {
    hide IdIndex, IdGeneration;
  }

  lemma SurviveOn(lost: seq<seq<int>>, a: nat, t0: Texture, rs0: seq<TexRect>, ix0: seq<Entry>,
                  t1: Texture, rs1: seq<TexRect>, ix1: seq<Entry>, t2: Texture, rs2: seq<TexRect>, ix2: seq<Entry>)
    requires a < |lost| && SparedSurvive(lost[..a], t0, rs0, ix0, t1, rs1, ix1) && Fewer(ix0, ix1) && Fewer(ix1, ix2)
    requires SparedSurvive([lost[a]], t1, rs1, ix1, t2, rs2, ix2)
    ensures SparedSurvive(lost[..a+1], t0, rs0, ix0, t2, rs2, ix2) && Fewer(ix0, ix2)
  {
    hide Spared, RectOf, SamePixels;
    forall i | 0 <= i < |ix0| && ix0[i].used && SparedByAll(lost[..a+1], ix0, i)
      ensures Survives(t0, rs0, ix0, t2, rs2, ix2, i)
    {
      forall k | 0 <= k < a ensures Spared(lost[..a][k], ix0, i) { assert lost[..a][k] == lost[..a+1][k]; }
      assert lost[..a+1][a] == lost[a];
      SparedStill(lost[a], ix0, ix1, i);
      SurvivesAgain(t0, rs0, ix0, t1, rs1, ix1, t2, rs2, ix2, i);
    }
  }

  // The handle is new and leads to a w by h rectangle; every other was there before.
  ghost predicate NewHandle(ix0: seq<Entry>, rs: seq<TexRect>, ix: seq<Entry>, id: int, w: int, h: int) {
    && !Live(ix0, id) && Live(ix, id)
    && RectOf(rs, ix[IdIndex(id)]).w == w && RectOf(rs, ix[IdIndex(id)]).h == h
    && forall i :: 0 <= i < |ix| && ix[i].used && i != IdIndex(id) ==>
         i < |ix0| && ix0[i].used && ix0[i].generation == ix[i].generation
  }

  // The rectangle r has been added to the list and its entry made; nothing else changed.
  ghost predicate AddedOne(rs0: seq<TexRect>, ix0: seq<Entry>, rs: seq<TexRect>, ix: seq<Entry>, id: int, r: TexRect) {
    && rs == rs0 + [r] && !Live(ix0, id) && Live(ix, id) && ix[IdIndex(id)].target == |rs0|
    && |ix0| <= |ix| && (forall i :: 0 <= i < |ix| && i != IdIndex(id) ==> i < |ix0| && ix[i] == ix0[i])
    && (IdIndex(id) < |ix0| ==> !ix0[IdIndex(id)].used && ix0[IdIndex(id)].generation == ix[IdIndex(id)].generation)
    && forall i :: 0 <= i < |ix0| && ix0[i].used ==> ix[i] == ix0[i] && RectOf(rs, ix[i]) == RectOf(rs0, ix0[i])
  }

  lemma Added(rs0: seq<TexRect>, ix0: seq<Entry>, start: int, ix: seq<Entry>, id: int, r: TexRect)
    requires -1 <= start < |ix0| && (start >= 0 ==> !ix0[start].used) && |ix| <= INDEX_LIMIT
    requires Targets(rs0, ix0)
    requires var (i, ix', _) := Allocated(ix0, start, |rs0|);
      ix == ix' && 0 <= ix[i].generation < GENERATIONS && id == MakeId(i, ix[i].generation)
    ensures AddedOne(rs0, ix0, rs0 + [r], ix, id, r)
  {
    hide MakeId, IdIndex, IdGeneration;
    var (i, _, _) := Allocated(ix0, start, |rs0|);
    IdRoundTrip(i, ix[i].generation);
    assert id >= 0;
  }

  lemma StillInTexture(t: Texture, rs0: seq<TexRect>, ix0: seq<Entry>, rs: seq<TexRect>, ix: seq<Entry>, id: int,
                       r: TexRect)
    requires AddedOne(rs0, ix0, rs, ix, id, r) && Targets(rs, ix) && InTexture(t, rs0, ix0) && t.Holds(r)
    ensures InTexture(t, rs, ix)
  {
    hide IdIndex, IdGeneration, Texture.Holds;
    forall i | 0 <= i < |ix| && ix[i].used ensures t.Holds(RectOf(rs, ix[i])) {
      if i != IdIndex(id) { assert ix[i].target != |rs0|; }
    }
  }

  lemma StillSpotted(placed: seq<Box>, rs0: seq<TexRect>, ix0: seq<Entry>, rs: seq<TexRect>, ix: seq<Entry>, id: int,
                     r: TexRect, padding: int)
    requires AddedOne(rs0, ix0, rs, ix, id, r) && Targets(rs, ix)
    requires |placed| == |rs0| + 1 && placed[|rs0|] == Padded(r, padding) && Spotted(placed[..|rs0|], rs0, ix0, padding)
    ensures Spotted(placed, rs, ix, padding)
  {
    hide IdIndex, IdGeneration, Padded;
    forall i | 0 <= i < |ix| && ix[i].used ensures placed[ix[i].target] == Padded(rs[ix[i].target], padding) {
      if i != IdIndex(id) {
        assert ix[i].target != |rs0|;
        assert placed[..|rs0|][ix[i].target] == placed[ix[i].target];
      }
    }
  }

  lemma SurviveAdded(lost: seq<seq<int>>, t0: Texture, rs0: seq<TexRect>, ix0: seq<Entry>,
                     t: Texture, rs1: seq<TexRect>, ix1: seq<Entry>, rs: seq<TexRect>, ix: seq<Entry>, id: int,
                     r: TexRect)
    requires SparedSurvive(lost, t0, rs0, ix0, t, rs1, ix1) && Fewer(ix0, ix1) && AddedOne(rs1, ix1, rs, ix, id, r)
    ensures SparedSurvive(lost, t0, rs0, ix0, t, rs, ix) && id != INVALID
    ensures NewHandle(ix0, rs, ix, id, r.w, r.h) && rs1 <= rs && RectOf(rs, ix[IdIndex(id)]) == r
  {
    hide IdIndex, IdGeneration, SamePixels, SparedByAll;
  }

  // Entries given up without a new rectangle, and then perhaps one more taken.
  lemma SinceFewer(ix0: seq<Entry>, d0: seq<nat>, ix: seq<Entry>, d: seq<nat>)
    requires Fewer(ix0, ix) && Later(d0, d) && Generations(ix0, d0) && Generations(ix, d)
    ensures Since(ix0, d0, ix, d)
  {
    hide GenerationAfter;
  }

  lemma SinceAdded(ix0: seq<Entry>, d0: seq<nat>, ix1: seq<Entry>, d1: seq<nat>, rs1: seq<TexRect>,
                   rs: seq<TexRect>, ix: seq<Entry>, d: seq<nat>, id: int, r: TexRect)
    requires Since(ix0, d0, ix1, d1) && Later(d1, d) && |d| == |ix| && AddedOne(rs1, ix1, rs, ix, id, r)
    ensures Since(ix0, d0, ix, d)
  {
    hide RectOf, Live, IdIndex;
  }

  lemma NoneUsed()
    ensures Targets([], []) && Generations([], [])
  {
    hide GenerationAfter;
  }

  lemma NoneCounted()
    ensures UsedCount([]) == 0
  {
  }

  lemma NoneFree()
    ensures FreeList([], -1, [])
  {
    hide NextFree;
  }

  lemma NoHandles()
    ensures HandlesOk([], [], -1, [], [], 0)
  {
    hide FreeList, Targets, Generations, UsedCount;
    NoneUsed();
    NoneCounted();
    NoneFree();
  }

  lemma EmptyIsFine(t: Texture, b: Bounds, padding: int)
    requires IsBounds(b) && t.Valid() && t.width == b.minW && t.height == b.minH
    ensures HandlesOk([], [], -1, [], [], 0) && InTexture(t, [], []) && IsSize(b, t.width, t.height)
    ensures Spotted([], [], [], padding)
    ensures 2 <= t.width <= 0x1_0000 && 1 <= t.height <= 0x1_0000
  {
    hide PowerOfTwo, HandlesOk;
    NoHandles();
  }

  class Atlas {
    const padding: nat
    const bounds: Bounds

    var tex: Texture
    var packer: Context
    var rects: seq<TexRect>
    var index: seq<Entry>
    var freeStart: int
    var discardedCount: int
    var discardedSurface: int
    var packedCount: int
    var packedSurface: int
    var maxRectW: int
    var maxRectH: int
    var locked: bool   // resizing disabled: during a repack, and for good once growing has failed

    ghost var free: seq<int>
    ghost var discards: seq<nat>

    ghost predicate Handles()
      reads this`rects, this`index, this`freeStart, this`free, this`discards, this`discardedCount
    {
      HandlesOk(rects, index, freeStart, free, discards, discardedCount)
    }

    ghost predicate Textured()
      reads this`tex, tex
    {
      tex.Valid() && IsSize(bounds, tex.width, tex.height)
    }

    // Do the live rectangles lie in the texture?
    ghost predicate Within()
      reads this`tex, this`rects, this`index, tex
    {
      InTexture(tex, rects, index)
    }

    ghost predicate Packed()
      reads this`tex, this`packer, this`rects, this`index, tex, packer, packer.nodes
    {
      && packer.Valid() && packer.width == tex.width && packer.height == tex.height
      && Spotted(packer.placed, rects, index, padding)
    }

    // What has been packed since the packer was new is live or counted as discarded.
    ghost predicate Balanced()
      reads this`rects, this`index, this`packedCount, this`packedSurface, this`discardedSurface
    {
      packedCount == |rects| && packedSurface == LiveSurface(rects, index, padding) + discardedSurface
    }

    ghost predicate Valid()
      reads this, tex, packer, packer.nodes
    {
      && IsBounds(bounds) && Handles() && Textured() && (!locked ==> Within() && Packed() && Balanced())
      && packer.Valid() && IsSize(bounds, packer.width, packer.height) && Targeted()
    }

    // The packer has a node for every two columns.
    ghost predicate Targeted()
      reads this`packer, packer
    {
      2 <= packer.width && packer.Settings() == TargetFor(packer.width, packer.height)
    }

    // An empty atlas with a texture of the least size.
    constructor (padding: nat, bounds: Bounds)
      requires IsBounds(bounds)
      ensures Valid() && !locked && index == [] && this.padding == padding && this.bounds == bounds
      ensures tex.width == bounds.minW && tex.height == bounds.minH && maxRectW == maxRectH == 0
      ensures fresh(packer) && fresh(packer.nodes) && fresh(tex)
    {
      hide Context.Valid, Context.Sky, PowerOfTwo, HandlesOk, InTexture, IsSize, Spotted, Texture.Valid;
      this.padding, this.bounds := padding, bounds;
      var t := new Texture(bounds.minW, bounds.minH);
      var c := new Context(bounds.minW, bounds.minH, bounds.minW / 2);
      tex, packer := t, c;
      rects, index, freeStart, free, discards := [], [], -1, [], [];
      discardedCount, discardedSurface, packedCount, packedSurface, maxRectW, maxRectH := 0, 0, 0, 0, 0, 0;
      locked := false;
      EmptyIsFine(t, bounds, padding);
      new;
      assert packer.Valid();
    }

    // So unless resizing is disabled the discarded surface is what the live rectangles leave of it.
    lemma SurfaceConserved()
      requires Valid() && !locked
      ensures packedSurface - discardedSurface == LiveSurface(rects, index, padding)
    {
      hide Context.Valid, HandlesOk, InTexture, IsSize, Spotted, LiveSurface;
    }

    // Live rectangles lie in the texture and keep clear of each other, padding and all.
    lemma LiveRectanglesApart(i: nat, j: nat)
      requires Valid() && !locked && i < j < |index| && index[i].used && index[j].used
      ensures var a, b := Padded(RectOf(rects, index[i]), padding), Padded(RectOf(rects, index[j]), padding);
        Disjoint(a, b) && Inside(a, tex.width, tex.height) && Inside(b, tex.width, tex.height)
    {
      hide Context.Valid, Disjoint, Generations, FreeList;
      var p, q := index[i].target, index[j].target;
      InPacking(packer, p);
      InPacking(packer, q);
      if q < p { PackRects.DisjointSymmetric(packer.placed[q], packer.placed[p]); }
    }

    // Nothing has been packed into the texture yet.
    ghost predicate Blank()
      reads this`tex, this`packer, this`maxRectW, this`maxRectH, tex, packer, packer.nodes
    {
      && maxRectW == maxRectH == 0
      && tex.Valid() && packer.Valid() && packer.placed == []
      && 2 <= packer.width == tex.width <= 0x1_0000 && 0 <= packer.height == tex.height <= 0x1_0000
      && packer.Linked() && packer.Settings() == TargetFor(tex.width, tex.height)
      && packer.State() == PackerRuns.Empty(packer.Settings())
    }

    lemma BlankParts()
      requires Blank()
      ensures packer.Valid() && packer.width == tex.width && packer.height == tex.height && Targeted()
    {
    }

    // Start packing over in an empty target of the texture's size.
    method PackInit()
      requires tex.Valid() && 2 <= tex.width <= 0x1_0000 && 1 <= tex.height <= 0x1_0000
      modifies this`packer, this`packedCount, this`packedSurface, this`maxRectW, this`maxRectH
      ensures Blank() && fresh(packer) && fresh(packer.nodes)
      ensures packedCount == packedSurface == maxRectW == maxRectH == 0
    {
      hide Context.Valid, Context.Linked, Context.Sky;
      packer := new Context(tex.width, tex.height, tex.width / 2);
      PackRects.StateOk(packer);
      packedCount, packedSurface, maxRectW, maxRectH := 0, 0, 0, 0;
    }

    method NoteSize(w: int, h: int)
      modifies this`maxRectW, this`maxRectH
      ensures maxRectW == Max(old(maxRectW), w) && maxRectH == Max(old(maxRectH), h)
    {
      maxRectW, maxRectH := Max(maxRectW, w), Max(maxRectH, h);
    }

    // One attempt to find room for a w by h rectangle and its padding.
    method PackOnce(w: int, h: int) returns (ok: bool, r: TexRect)
      requires packer.Valid() && packer.width <= 0x1_0000 && packer.height <= 0x1_0000 && 0 < w && 0 < h
      modifies packer`activeHead, packer`freeHead, packer`active, packer`free, packer`placed, packer.nodes
      ensures packer.Valid() && r.w == w && r.h == h
      ensures packer.placed == old(packer.placed) + if ok then [Padded(r, padding)] else []
      ensures ok ==> Inside(Padded(r, padding), packer.width, packer.height)
      ensures packer.Linked() && packer.Settings() == old(packer.Settings())
      ensures PackedBy(packer.Settings(), old(packer.State()), w + padding, h + padding, packer.State(), ok)
    {
      hide Context.Valid, Context.Linked, Context.Sky, PackRects.Settled, PackRects.SameInput, PackRects.IsOrder,
           PackRects.BoxesOf, PackRects.Reorder, PackRects.IsBatch, PackRects.Sized, PackedBy;
      PackRects.StateOk(packer);
      ghost var t, st := packer.Settings(), packer.State();
      var p := PackRects.Rect(0, w + padding, h + padding, 0, 0, 0);
      var batch := new PackRects.Rect[1](_ => p);
      assert batch[..] == [p];
      OneOrder(p);
      var all := PackRects.PackAll(packer, batch, [0]);
      OneBox(p, batch[..], [0]);
      OneBatch(t, st, p, packer.State(), batch[..]);
      ok := batch[0].wasPacked != 0;
      // The coordinates are stored in 16 bits.
      r := TexRect(batch[0].x % 0x1_0000, batch[0].y % 0x1_0000, w, h);
      if ok {
        InPacking(packer, |packer.placed| - 1);
      }
    }

    method Record(r: TexRect)
      modifies this`packedCount, this`packedSurface, this`rects
      ensures rects == old(rects) + [r] && packedCount == old(packedCount) + 1
      ensures packedSurface == old(packedSurface) + (r.w + padding) * (r.h + padding)
    {
      packedCount := packedCount + 1;
      packedSurface := packedSurface + (r.w + padding) * (r.h + padding);
      rects := rects + [r];
    }

    // Add a rectangle for entry n, which is in use already, without ever resizing the texture.
    method AddAgain(w: int, h: int, n: nat) returns (ok: bool)
      requires packer.Valid() && packer.width <= 0x1_0000 && packer.height <= 0x1_0000
      requires 0 < w && 0 < h && n < |index|
      modifies this`rects, this`index, this`packedCount, this`packedSurface, this`maxRectW, this`maxRectH,
        packer`activeHead, packer`freeHead, packer`active, packer`free, packer`placed, packer.nodes
      ensures packer.Valid()
      ensures !ok ==> rects == old(rects) && index == old(index)
      ensures ok ==> |rects| == |old(rects)| + 1
      ensures ok ==> var r := rects[|old(rects)|];
        && r.w == w && r.h == h && rects == old(rects) + [r]
        && packer.placed == old(packer.placed) + [Padded(r, padding)]
        && Inside(Padded(r, padding), packer.width, packer.height)
        && index == old(index)[n := old(index[n]).(target := |old(rects)|)]
      ensures packer.Linked() && packer.Settings() == old(packer.Settings())
      ensures PackedBy(packer.Settings(), old(packer.State()), w + padding, h + padding, packer.State(), ok)
      ensures maxRectW == Max(old(maxRectW), w) && maxRectH == Max(old(maxRectH), h)
      ensures ok ==>
        packedCount == old(packedCount) + 1 && packedSurface == old(packedSurface) + (w + padding) * (h + padding)
    {
      hide Context.Valid, Context.Linked, Context.Sky, PackedBy;
      NoteSize(w, h);
      var r;
      ok, r := PackOnce(w, h);
      if ok {
        Record(r);
        index := index[n := index[n].(target := |rects| - 1)];
      }
    }

    // Copy the pixels of entry n's rectangle from where it was to the last one placed.
    method CopyPixels(t0: Texture, ghost rs0: seq<TexRect>, r0: TexRect, ghost ix0: seq<Entry>, n: nat)
      requires tex.Valid() && t0.Valid() && t0.px != tex.px && n < |index| == |ix0| && ix0[n].used
      requires packer.Valid() && packer.width == tex.width && packer.height == tex.height
      requires AllSpotted(packer.placed, rects, padding) && Moved(rs0, ix0, rects, index, n + 1)
      requires Copied(t0, rs0, ix0, tex, rects, index, n)
      requires rects != [] && index[n].target == |rects| - 1
      requires r0 == RectOf(rs0, ix0[n]) && t0.Holds(r0)
      modifies tex.px
      ensures Copied(t0, rs0, ix0, tex, rects, index, n + 1)
    {
      hide Context.Valid, UsedCount, Disjoint;
      var d := rects[index[n].target];
      InPacking(packer, |rects| - 1);
      ghost var t := tex;
      tex.BlockCopy(t0, r0, d);
      forall i | 0 <= i < n && ix0[i].used ensures SamePixels(t0, RectOf(rs0, ix0[i]), tex, RectOf(rects, index[i])) {
        var r := RectOf(rects, index[i]);
        assert old(SamePixels(t0, RectOf(rs0, ix0[i]), tex, r));
        if t0.Holds(RectOf(rs0, ix0[i])) {
          forall dx, dy | 0 <= dx < r.w && 0 <= dy < r.h ensures tex.At(r, dx, dy) == old(tex.At(r, dx, dy)) {
            DisjointPixels(r, d, padding, r.x + dx, r.y + dy);
          }
        }
      }
    }

    // Every entry not in use is as it was, and every other keeps its handle and its pixels.
    ghost predicate Kept(t0: Texture, rs0: seq<TexRect>, ix0: seq<Entry>)
      reads this`tex, this`rects, this`index, tex, tex.px, t0, t0.px
    {
      && |index| == |ix0| && (forall i :: 0 <= i < |index| && !ix0[i].used ==> index[i] == ix0[i])
      && AllSurvive(t0, rs0, ix0, tex, rects, index)
    }

    // The first n entries have been packed anew and copied from t0.
    ghost predicate Repacking(t0: Texture, rs0: seq<TexRect>, ix0: seq<Entry>, n: nat)
      reads this, tex, tex.px, t0, t0.px, packer, packer.nodes
    {
      && Moved(rs0, ix0, rects, index, n) && AllSpotted(packer.placed, rects, padding)
      && Copied(t0, rs0, ix0, tex, rects, index, n)
      && tex.Valid() && packer.Valid() && packer.width == tex.width <= 0x1_0000
      && packer.height == tex.height <= 0x1_0000
      && 2 <= tex.width && packer.Settings() == TargetFor(tex.width, tex.height)
      && packer.Linked() && Placing(packer.Settings(), packer.State(), rs0, ix0, n, padding)
      && n <= |ix0| && Noted(rs0, ix0[..n])
      && packedCount == |rects| && packedSurface == LiveSurface(rects, index[..n], padding)
    }

    // The maxima are those of these entries.
    ghost predicate Noted(rs: seq<TexRect>, ix: seq<Entry>)
      reads this`maxRectW, this`maxRectH
    {
      maxRectW == Widest(rs, ix) && maxRectH == Highest(rs, ix)
    }

    // And of those that a repack into a w by h texture gets to before it gives up.
    ghost predicate Seen(w: int, h: int, rs: seq<TexRect>, ix: seq<Entry>)
      reads this`maxRectW, this`maxRectH
    {
      w >= 2 && Noted(rs, ix[..Tried(TargetFor(w, h), rs, ix, padding, 0)])
    }

    lemma RepackedNone(t0: Texture, rs0: seq<TexRect>)
      requires rects == [] && Blank() && packedCount == packedSurface == 0
      ensures Repacking(t0, rs0, index, 0)
    {
      hide Context.Valid, Context.Linked, Context.Sky, Placing;
      PlacingNone(tex.width, tex.height, rs0, index, padding);
      StartMoving(t0, rs0, index, tex, padding);
    }

    lemma RepackedAll(t0: Texture, rs0: seq<TexRect>, ix0: seq<Entry>)
      requires Repacking(t0, rs0, ix0, |ix0|)
      ensures Moved(rs0, ix0, rects, index, |ix0|) && AllSpotted(packer.placed, rects, padding)
      ensures Copied(t0, rs0, ix0, tex, rects, index, |ix0|) && tex.Valid() && packer.Valid()
      ensures AllFit(tex.width, tex.height, rs0, ix0, padding)
      ensures packedCount == |rects| && packedSurface == LiveSurface(rects, index, padding)
    {
      hide Context.Valid, Context.Linked, Context.Sky, LiveSurface;
      assert ix0[..|ix0|] == ix0 && index[..|ix0|] == index;
    }

    method RepackEntry(t0: Texture, rs0: seq<TexRect>, ghost ix0: seq<Entry>, n: nat) returns (ok: bool)
      requires Repacking(t0, rs0, ix0, n) && n < |index| && t0.px != tex.px && t0.Valid()
      requires HandlesOk(rs0, ix0, freeStart, free, discards, discardedCount) && InTexture(t0, rs0, ix0)
      modifies this`rects, this`index, this`packedCount, this`packedSurface, this`maxRectW, this`maxRectH,
        packer`activeHead, packer`freeHead, packer`active, packer`free, packer`placed, packer.nodes, tex.px
      ensures packer.Valid() && Targeted()
      ensures ok ==> Repacking(t0, rs0, ix0, n + 1) && |index| == |ix0|
      ensures !ok ==> !AllFit(tex.width, tex.height, rs0, ix0, padding) && Seen(tex.width, tex.height, rs0, ix0)
    {
      hide Context.Valid, Context.Linked, Context.Sky, HandlesOk, Moved, AllSpotted, Copied, InTexture, Texture.Valid,
           Inside, Texture.Holds, RectOf, Placing, PackedBy, AllPlaced, AllFit, Sizes, Widest, Highest, Tried,
           LiveSurface;
      MovedLength(rs0, ix0, rects, index, n);
      MaximaNext(rs0, ix0, n);
      EntryOf(t0, rs0, ix0, freeStart, free, discards, discardedCount, rects, index, n);
      var entry := index[n];
      if !entry.used {
        SkipEntry(t0, rs0, ix0, tex, rects, index, n);
        SurfaceNext(rects, index, n, padding);
        PlacingSkip(packer.Settings(), packer.State(), rs0, ix0, n, padding);
        return true;
      }
      var r := rs0[entry.target];
      if r.w == 0 && r.h == 0 {
        return true;
      }
      ghost var rects', index', placed', st := rects, index, packer.placed, packer.State();
      ok := AddAgain(r.w, r.h, n);
      PlacingNext(packer.Settings(), st, rs0, ix0, n, padding, packer.State(), ok);
      if !ok {
        TurnedAway(tex.width, tex.height, rs0, ix0, n + 1, padding);
        PlacingPlaced(packer.Settings(), st, rs0, ix0, n, padding);
        TriedIs(packer.Settings(), rs0, ix0, padding, 0, n);
      } else {
        MovedTargets(rs0, ix0, rects', index', n);
        SurfaceMoved(rects', index', n, rects[|rects'|], padding);
        MoveEntry(t0, rs0, ix0, tex, rects', index', n, placed', padding, rects[|rects'|]);
        CopyPixels(t0, rs0, r, ix0, n);
        MovedLength(rs0, ix0, rects, index, n + 1);
      }
    }

    // Pack every used entry's rectangle again, in order, until one does not fit.
    method RepackEntries(t0: Texture, rs0: seq<TexRect>, ghost ix0: seq<Entry>) returns (ok: bool)
      requires rects == [] && index == ix0 && Blank() && packedCount == packedSurface == 0
      requires t0.px != tex.px && t0.Valid()
      requires HandlesOk(rs0, ix0, freeStart, free, discards, discardedCount) && InTexture(t0, rs0, ix0)
      modifies this`rects, this`index, this`packedCount, this`packedSurface, this`maxRectW, this`maxRectH,
        packer`activeHead, packer`freeHead, packer`active, packer`free, packer`placed, packer.nodes, tex.px
      ensures packer.Valid() && Targeted()
      ensures ok ==>
        && HandlesOk(rects, index, freeStart, free, discards, 0) && InTexture(tex, rects, index)
        && Spotted(packer.placed, rects, index, padding) && Kept(t0, rs0, ix0) && |rs0| == |rects| + discardedCount
      ensures discardedCount >= 0
      ensures ok ==> packedCount == |rects| && packedSurface == LiveSurface(rects, index, padding)
      ensures ok <==> AllFit(tex.width, tex.height, rs0, ix0, padding)
      ensures !ok ==> Seen(tex.width, tex.height, rs0, ix0)
    {
      hide Context.Valid, Context.Linked, Context.Sky, HandlesOk, Moved, AllSpotted, Copied, InTexture, Texture.Valid,
           Repacking, Spotted, AllSurvive, AllFit, Seen, LiveSurface;
      DiscardedCount(rs0, ix0, freeStart, free, discards, discardedCount);
      RepackedNone(t0, rs0);
      BlankParts();
      var n := 0;
      while n < |index|
        invariant n <= |index| == |ix0| && Repacking(t0, rs0, ix0, n)
        invariant InTexture(t0, rs0, ix0) && t0.Valid() && packer.Valid() && Targeted()
        decreases |index| - n
      {
        ok := RepackEntry(t0, rs0, ix0, n);
        if !ok {
          return;
        }
        n := n + 1;
      }
      RepackedAll(t0, rs0, ix0);
      MovedAll(rs0, ix0, rects, index, freeStart, free, discards, discardedCount);
      FinishMoving(t0, rs0, ix0, tex, rects, index, packer.placed, padding);
      ok := true;
    }

    // The bounds allow nothing larger than the size last tried.
    ghost predicate GrowthEnded()
      reads this`packer, this`maxRectW, this`maxRectH
    {
      Grown(bounds, packer.width, packer.height, maxRectW + padding, maxRectH + padding) ==
        (packer.width, packer.height)
    }

    // Pack every live rectangle anew into a w by h texture, and copy its pixels there.
    method RepackOnce(w: int, h: int) returns (ok: bool)
      requires Valid() && Within() && IsSize(bounds, w, h)
      modifies this`tex, this`packer, this`rects, this`index, this`packedCount, this`packedSurface,
        this`maxRectW, this`maxRectH, this`locked, this`discardedCount, this`discardedSurface
      ensures fresh(packer) && fresh(packer.nodes) && fresh(tex) && fresh(tex.px)
      ensures locked == !ok && (ok <==> old(AllFit(w, h, rects, index, padding)))
      ensures !ok ==> Seen(w, h, old(rects), old(index))
      ensures if ok then Valid() && Within() && Kept(old(tex), old(rects), old(index))
        else
          && packer.Valid() && packer.width == w && packer.height == h && Targeted()
          && discardedCount == old(discardedCount)
      ensures ok ==> |rects| <= |old(rects)| && discardedCount == 0 && tex.width == w && tex.height == h
    {
      hide Context.Valid, Context.Linked, Context.Sky, HandlesOk, IsSize, InTexture, Spotted, Survives, AllSurvive,
           Texture.Valid, IsBounds, Kept, AllFit, Blank, Seen, LiveSurface;
      SizeRange(bounds, w, h);
      locked := true;
      var oldTex, oldRects, oldIndex := tex, rects, index;
      tex := new Texture(w, h);
      PackInit();
      BlankParts();
      rects := [];
      ok := RepackEntries(oldTex, oldRects, oldIndex);
      if !ok {
        return;
      }
      assert |oldRects| == |rects| + discardedCount;
      Accept();
    }

    // The repack has succeeded.
    method Accept()
      requires IsBounds(bounds) && HandlesOk(rects, index, freeStart, free, discards, 0)
      requires tex.Valid() && IsSize(bounds, tex.width, tex.height) && InTexture(tex, rects, index)
      requires packer.Valid() && packer.width == tex.width && packer.height == tex.height && Targeted()
      requires Spotted(packer.placed, rects, index, padding)
      requires packedCount == |rects| && packedSurface == LiveSurface(rects, index, padding)
      modifies this`locked, this`discardedCount, this`discardedSurface
      ensures Valid() && Within() && !locked && discardedCount == 0
    {
      hide Context.Valid, HandlesOk, IsSize, InTexture, Spotted, Texture.Valid, IsBounds, LiveSurface;
      discardedCount, discardedSurface := 0, 0;
      locked := false;
    }

    // Repack into a w by h texture; if some rectangle does not fit, put everything back and try
    // a larger texture. When that fails for good resizing stays disabled.
    method Repack(w: int, h: int)
      requires Valid() && Within() && IsSize(bounds, w, h)
      modifies this`tex, this`packer, this`rects, this`index, this`packedCount, this`packedSurface,
        this`maxRectW, this`maxRectH, this`locked, this`discardedCount, this`discardedSurface
      ensures Valid() && Within() && Kept(old(tex), old(rects), old(index))
      ensures packer == old(packer) || fresh(packer)
      ensures packer.nodes == old(packer.nodes) || fresh(packer.nodes)
      ensures tex == old(tex) || (fresh(tex) && fresh(tex.px))
      ensures |rects| <= |old(rects)|
      ensures locked ==>
        tex == old(tex) && rects == old(rects) && index == old(index) && discardedCount == old(discardedCount)
      ensures locked ==> GrowthEnded()
      ensures !locked ==> discardedCount == 0 && tex.width >= w && tex.height >= h
      ensures locked ==> !AllFit(packer.width, packer.height, rects, index, padding)
      ensures var fit := FirstFit(bounds, w, h, old(rects), old(index), padding);
        (locked <==> fit.None?) && (fit.Some? ==> fit.value == (tex.width, tex.height))
      decreases bounds.maxW + bounds.maxH - w - h, 1
    {
      hide AllFit, Context.Valid, HandlesOk, IsSize, InTexture, Spotted, Survives, AllSurvive, Texture.Valid, IsBounds,
           FirstFit, Grown, Widest, Highest, Tried, Balanced;
      SizeRange(bounds, w, h);
      if AllFit(w, h, rects, index, padding) {
        FitsAtOnce(bounds, w, h, rects, index, padding);
      } else {
        FitAfter(bounds, w, h, rects, index, padding);
      }
      var oldTex, oldRects, oldIndex := tex, rects, index;
      var ok := RepackOnce(w, h);
      if !ok {
        rects, index, tex := oldRects, oldIndex, oldTex;
        Grow(w, h);
      }
    }

    // Repack into the next larger size, unless the bounds allow none.
    method Grow(w: int, h: int)
      requires Valid() && Within() && IsSize(bounds, w, h)
      requires locked ==> packer.width == w && packer.height == h && !AllFit(w, h, rects, index, padding)
      modifies this`tex, this`packer, this`rects, this`index, this`packedCount, this`packedSurface,
        this`maxRectW, this`maxRectH, this`locked, this`discardedCount, this`discardedSurface
      ensures Valid() && Within() && Kept(old(tex), old(rects), old(index))
      ensures packer == old(packer) || fresh(packer)
      ensures packer.nodes == old(packer.nodes) || fresh(packer.nodes)
      ensures tex == old(tex) || (fresh(tex) && fresh(tex.px))
      ensures |rects| <= |old(rects)|
      ensures locked ==>
        tex == old(tex) && rects == old(rects) && index == old(index) && discardedCount == old(discardedCount)
      ensures locked ==> GrowthEnded()
      ensures old(locked) && !locked ==> discardedCount == 0 && tex.width >= w && tex.height >= h
      ensures old(Grown(bounds, w, h, maxRectW + padding, maxRectH + padding)) == (w, h) ==>
        tex == old(tex) && rects == old(rects) && index == old(index) && packer == old(packer) && locked == old(locked)
      ensures var size := old(Grown(bounds, w, h, maxRectW + padding, maxRectH + padding));
        size != (w, h) ==>
          && IsSize(bounds, size.0, size.1)
          && var fit := FirstFit(bounds, size.0, size.1, old(rects), old(index), padding);
             (locked <==> fit.None?) && (fit.Some? ==> fit.value == (tex.width, tex.height))
      ensures locked ==> !AllFit(packer.width, packer.height, rects, index, padding)
      decreases bounds.maxW + bounds.maxH - w - h, 0
    {
      hide AllFit, Context.Valid, HandlesOk, IsSize, InTexture, Spotted, Survives, AllSurvive, Texture.Valid, Grown,
           FirstFit, Balanced;
      GrownIsSize(bounds, w, h, maxRectW + padding, maxRectH + padding);
      var (newW, newH) := Grown(bounds, w, h, maxRectW + padding, maxRectH + padding);
      if newW == w && newH == h {
        Untouched(tex, rects, index);
        return;
      }
      SizeRange(bounds, newW, newH);
      Repack(newW, newH);
    }

    /** Handles */

    // The entry for the rectangle recorded last: an unused one if there is any.
    method AllocEntry(ghost rects': seq<TexRect>) returns (id: int)
      requires HandlesOk(rects', index, freeStart, free, discards, discardedCount)
      requires rects != [] && rects' == rects[..|rects|-1] && |index| < INDEX_LIMIT
      requires var r := rects[|rects|-1]; 0 < r.w && 0 < r.h
      modifies this`index, this`freeStart, this`free, this`discards
      ensures Handles()
      ensures -1 <= old(freeStart) < |old(index)| && (old(freeStart) >= 0 ==> !old(index)[old(freeStart)].used)
      ensures var (i, index', start) := Allocated(old(index), old(freeStart), |rects| - 1);
        && index == index' && freeStart == start
        && 0 <= index[i].generation < GENERATIONS && id == MakeId(i, index[i].generation)
      ensures discards == old(discards) + if old(freeStart) < 0 then [0] else []
    {
      hide FreeList, Targets, Generations, NextFree;
      var r := rects[|rects|-1];
      assert rects == rects' + [r];
      FreeStart(index, freeStart, free);
      var i;
      if freeStart < 0 {
        AllocateFresh(rects', index, free, discards, discardedCount, r);
        i := |index|;
        index := index + [Entry(|rects| - 1, 0, true)];
        free, discards := [], discards + [0];
      } else {
        AllocateFree(rects', index, freeStart, free, discards, discardedCount, r);
        i := freeStart;
        var next := index[i].target;
        index := index[i := Entry(|rects| - 1, index[i].generation, true)];
        freeStart, free := next, free[1..];
      }
      GenerationRange(index, discards, i);
      id := MakeId(i, index[i].generation);
    }

    function Books(): Ledger
      reads this`rects, this`index, this`freeStart, this`discardedSurface
    {
      Ledger(rects, index, freeStart, discardedSurface)
    }

    // Give up a live rectangle: its handle dies and its entry becomes the first unused one.
    method DiscardRect(id: int)
      requires Valid() && Live(index, id)
      modifies this`rects, this`index, this`freeStart, this`free, this`discards, this`discardedCount,
        this`discardedSurface
      ensures Valid()
      ensures var i := IdIndex(id);
        && 0 <= old(index)[i].generation < GENERATIONS && index == Discarded(old(index), old(freeStart), i)
        && 0 <= old(index)[i].target < |old(rects)|
        && rects == Emptied(old(rects), old(index)[i].target)
        && freeStart == i && discards == old(discards)[i := old(discards)[i] + 1] && Later(old(discards), discards)
        && var r := old(rects)[old(index)[i].target];
           discardedSurface == old(discardedSurface) + (r.w + padding) * (r.h + padding)
      ensures Books() == Struck(old(Books()), id, padding)
      ensures Since(old(index), old(discards), index, discards)
    {
      hide Context.Valid, NextGeneration, HandlesOk, IdIndex, IdGeneration, IsBounds, IsSize, InTexture, Spotted,
           Targets, Generations, Texture.Valid, GenerationAfter, LiveSurface;
      var i := IdIndex(id);
      HandleParts(rects, index, freeStart, free, discards, discardedCount);
      DiscardKeeps(rects, index, freeStart, free, discards, discardedCount, i);
      OthersStay(tex, rects, index, freeStart, free, discards, discardedCount, i);
      SurfaceDiscarded(rects, index, freeStart, i, padding);
      SinceDiscard(index, discards, freeStart, i);
      var t := index[i].target;
      var r := rects[t];
      ghost var index0 := index;
      index := index[i := Entry(freeStart, NextGeneration(index[i].generation), false)];
      freeStart, free, discards := i, [i] + free, discards[i := discards[i] + 1];
      SpottedStay(packer.placed, rects, index0, padding, i, Emptied(rects, t), index);
      discardedCount, discardedSurface := discardedCount + 1, discardedSurface + (r.w + padding) * (r.h + padding);
      rects := rects[t := r.(w := 0, h := 0)];
    }

    // The same for this atlas, after any calls.
    lemma DeadStaysDead(index0: seq<Entry>, discards0: seq<nat>, index1: seq<Entry>, discards1: seq<nat>, id: int)
      requires Valid() && Generations(index0, discards0) && Live(index0, id)
      requires Since(index0, discards0, index1, discards1) && !Live(index1, id) && Later(discards1, discards)
      ensures IdIndex(id) < |index| && IdIndex(id) < |discards0|
      ensures Live(index, id) <==>
        var i := IdIndex(id);
        index[i].used && discards0[i] > 0 && Residue(discards[i] - discards0[i]) == 0
    {
      hide IdIndex, IdGeneration, Residue, GenerationAfter, Context.Valid, Live;
      HandleParts(rects, index, freeStart, free, discards, discardedCount);
      DeadHandle(index0, discards0, index1, discards1, index, discards, id);
    }

    // The rectangle a handle leads to, if any.
    method GetRectSafe(id: int) returns (found: bool, r: TexRect)
      requires Handles()
      ensures found <==> Live(index, id)
      ensures found ==>
        0 <= index[IdIndex(id)].target < |rects| && r == rects[index[IdIndex(id)].target] && 0 < r.w && 0 < r.h
    {
      hide FreeList, Generations, IdIndex, IdGeneration;
      r := TexRect(0, 0, 0, 0);
      if id < 0 {
        return false, r;
      }
      var i := IdIndex(id);
      if i >= |index| {
        return false, r;
      }
      if index[i].generation != IdGeneration(id) || !index[i].used {
        return false, r;
      }
      return true, rects[index[i].target];
    }

    // Discard the rectangles of the handles that still lead to one.
    method DiscardAll(ids: seq<int>)
      requires Valid()
      modifies this`rects, this`index, this`freeStart, this`free, this`discards, this`discardedCount,
        this`discardedSurface
      ensures Valid() && Spares(ids, old(rects), old(index), rects, index)
      ensures Books() == StruckAll(old(Books()), ids, padding) && Later(old(discards), discards)
    {
      hide Context.Valid, HandlesOk, Live, Textured, Packed, IsSize, IsBounds, Discarded, Emptied, RectOf, Fewer,
           IdIndex, Spares, Targets, Struck, Balanced;
      var k := 0;
      ghost var rects0, index0, books := rects, index, Books();
      SparesAll(rects, index);
      StruckNext(books, ids, 0, padding);
      while k < |ids|
        invariant k <= |ids| && Valid() && Spares(ids[..k], rects0, index0, rects, index)
        invariant Books() == StruckAll(books, ids[..k], padding) && Later(old(discards), discards)
      {
        ghost var rects1, index1, start := rects, index, freeStart;
        HandleParts(rects, index, freeStart, free, discards, discardedCount);
        StruckNext(books, ids, k, padding);
        var found, _ := GetRectSafe(ids[k]);
        if found {
          DiscardRect(ids[k]);
          SparesFewer(ids, k, rects0, index0, rects1, index1, start, rects, index);
        } else {
          SparesAlready(ids, k, rects0, index0, rects, index);
          NotStruck(Books(), ids[k], padding);
        }
        k := k + 1;
      }
      assert ids[..k] == ids;
    }

    // What there is to say of the atlas when room is made.
    function Outline(): Shape
      reads this`rects, this`index, this`freeStart, this`discardedSurface, this`tex, tex, this`packedSurface,
        this`maxRectW, this`maxRectH, this`locked
    {
      Shape(Books(), tex.width, tex.height, packedSurface, maxRectW, maxRectH, locked)
    }

    // Discard some rectangles, then repack into the same size if that leaves enough discarded
    // surface, otherwise into a larger one.
    method MakeSpace(ids: seq<int>)
      requires Valid() && !locked
      modifies this
      ensures Valid() && Within() && |rects| <= |old(rects)| && Fewer(old(index), index)
      ensures Later(old(discards), discards)
      ensures packer == old(packer) || fresh(packer)
      ensures packer.nodes == old(packer.nodes) || fresh(packer.nodes)
      ensures tex == old(tex) || (fresh(tex) && fresh(tex.px))
      ensures locked ==> GrowthEnded()
      ensures MadeRoom(bounds, padding, old(Outline()), ids, Outline())
      ensures RightSize(bounds, padding, old(Outline()), StruckAll(old(Books()), ids, padding), Outline())
      ensures SparedSurvive([ids], old(tex), old(rects), old(index), tex, rects, index)
    {
      hide Context.Valid, HandlesOk, InTexture, Spotted, Survives, AllSurvive, Texture.Valid, IsBounds, IsSize,
           SparedSurvive, Fewer, Spares, AllFit, FirstFit, Sparse, StruckAll, Grown, Balanced,
           RightSize;
      ghost var t0, rs0, ix0, s := tex, rects, index, Outline();
      DiscardAll(ids);
      ghost var rs1, ix1 := rects, index;
      SparesSurvive(ids, tex, rs0, ix0, rs1, ix1);
      if Sparse(discardedSurface, packedSurface) {
        Grow(tex.width, tex.height);
      } else {
        Repack(tex.width, tex.height);
      }
      KeptSurvive([ids], t0, rs0, ix0, t0, rs1, ix1, tex, rects, index);
      KeptUse(t0, rs1, ix1);
      MadeRoomMeaning(bounds, padding, s, ids, Outline());
    }

    lemma KeptUse(t0: Texture, rs0: seq<TexRect>, ix0: seq<Entry>)
      requires Kept(t0, rs0, ix0)
      ensures SameUse(ix0, index)
    {
      hide RectOf, SamePixels;
      forall i | 0 <= i < |index| && ix0[i].used ensures Survives(t0, rs0, ix0, tex, rects, index, i) {}
    }

    // Room for r has been found, so far noted in the packer only.
    ghost predicate Room(r: TexRect)
      reads this, tex, packer, packer.nodes
    {
      && Handles() && Textured() && packer.Valid() && IsBounds(bounds) && IsSize(bounds, packer.width, packer.height)
      && Targeted()
      && 0 < r.w && 0 < r.h && Inside(Padded(r, padding), packer.width, packer.height)
      && (!locked ==>
           && Within() && Balanced() && packer.width == tex.width && packer.height == tex.height && tex.Holds(r)
           && |packer.placed| == |rects| + 1 && packer.placed[|rects|] == Padded(r, padding)
           && Spotted(packer.placed[..|rects|], rects, index, padding))
    }

    lemma RoomFound(r: TexRect, placed: seq<Box>)
      requires Handles() && Textured() && packer.Valid() && IsBounds(bounds) && Targeted()
      requires IsSize(bounds, packer.width, packer.height)
      requires 0 < r.w && 0 < r.h && Inside(Padded(r, padding), packer.width, packer.height)
      requires packer.placed == placed + [Padded(r, padding)]
      requires !locked ==>
        && Within() && Balanced() && packer.width == tex.width && packer.height == tex.height
        && Spotted(placed, rects, index, padding)
      ensures Room(r)
    {
      hide Balanced, Context.Valid, HandlesOk, InTexture, IsBounds, IsSize, Textured;
      if !locked { assert packer.placed[..|rects|] == placed; }
    }

    // Could the packer place a w by h rectangle and its padding?
    ghost predicate HasRoom(w: int, h: int)
      reads this`packer, packer, packer.nodes
    {
      packer.Linked() && PlaceFor(packer.Settings(), packer.State(), w + padding, h + padding)
    }

    method TryPack(w: int, h: int) returns (ok: bool, r: TexRect)
      requires Valid() && 0 < w && 0 < h
      modifies packer`activeHead, packer`freeHead, packer`active, packer`free, packer`placed, packer.nodes
      ensures r.w == w && r.h == h && if ok then Room(r) else Valid()
      ensures ok == old(HasRoom(w, h)) && (!ok ==> !HasRoom(w, h))
    {
      hide Context.Valid, Context.Linked, Context.Sky, HandlesOk, InTexture, Spotted, IsBounds, IsSize, Texture.Valid,
           Room, Padded, PackedBy, PlaceFor, Balanced;
      PackRects.StateOk(packer);
      ghost var st := packer.State();
      SizeRange(bounds, packer.width, packer.height);
      ghost var placed := packer.placed;
      ok, r := PackOnce(w, h);
      PackedIffRoom(packer.Settings(), st, w + padding, h + padding, packer.State(), ok);
      if ok { RoomFound(r, placed); } else { assert packer.placed == placed; }
    }

    method Commit(r: TexRect) returns (id: int)
      requires Room(r) && |index| < INDEX_LIMIT
      modifies this`rects, this`index, this`freeStart, this`free, this`discards, this`packedCount, this`packedSurface
      ensures Valid() && Later(old(discards), discards)
      ensures AddedOne(old(rects), old(index), rects, index, id, r)
    {
      hide Context.Valid, HandlesOk, InTexture, Spotted, IsBounds, IsSize, Texture.Valid, Padded, AddedOne,
           Texture.Holds, LiveSurface;
      ghost var rs0, ix0, start := rects, index, freeStart;
      HandleParts(rs0, ix0, start, free, discards, discardedCount);
      Record(r);
      id := AllocEntry(rs0);
      HandleParts(rects, index, freeStart, free, discards, discardedCount);
      Added(rs0, ix0, start, index, id, r);
      SurfaceAdded(rs0, ix0, rects, index, id, r, padding);
      if !locked {
        StillInTexture(tex, rs0, ix0, rects, index, id, r);
        StillSpotted(packer.placed, rs0, ix0, rects, index, id, r, padding);
      }
    }

    // Find room for a rectangle, making some up to three times; lost[k] are the handles given up
    // when room is made for the (k+1)-st time.
    method FindRoom(w: int, h: int, lost: seq<seq<int>>) returns (ok: bool, r: TexRect, ghost trail: seq<Shape>)
      requires Valid() && 0 < w && 0 < h && |lost| == 3
      modifies this, packer`activeHead, packer`freeHead, packer`active, packer`free, packer`placed, packer.nodes
      ensures r.w == w && r.h == h && |rects| <= |old(rects)| && Fewer(old(index), index)
      ensures Later(old(discards), discards)
      ensures if ok then Room(r) else Valid() && !HasRoom(w, h) && (old(Within()) ==> Within())
      ensures SparedSurvive(lost, old(tex), old(rects), old(index), tex, rects, index)
      ensures old(locked) ==> locked && rects == old(rects) && tex == old(tex) && packer == old(packer)
      ensures IsTrail(bounds, padding, trail, lost) && trail[0] == old(Outline()) && Last(trail) == Outline()
      ensures (!ok ==> locked || |trail| == 4) && (old(HasRoom(w, h)) ==> ok && |trail| == 1)
    {
      hide Context.Valid, HandlesOk, InTexture, Spotted, Survives, AllSurvive, Texture.Valid, IsBounds, IsSize,
           SparedSurvive, Fewer, Spares, Packed, HasRoom, Room, Within, Balanced, MadeRoom, AllFit, Grown, StruckAll;
      ghost var t0, rs0, ix0 := tex, rects, index;
      SurviveAtFirst(t0, rs0, ix0);
      var attempts := 3;
      trail := [Outline()];
      while true
        invariant 0 <= attempts <= 3 && |lost| == 3
        invariant Valid() && |rects| <= |rs0| && Fewer(ix0, index) && (old(Within()) ==> Within())
        invariant Later(old(discards), discards)
        invariant SparedSurvive(lost[..3 - attempts], t0, rs0, ix0, tex, rects, index)
        invariant packer == old(packer) || fresh(packer)
        invariant packer.nodes == old(packer.nodes) || fresh(packer.nodes)
        invariant old(locked) ==> locked && tex == t0 && rects == rs0 && packer == old(packer)
        invariant IsTrail(bounds, padding, trail, lost) && |trail| == 4 - attempts
        invariant trail[0] == old(Outline()) && Last(trail) == Outline()
        invariant if attempts == 3 then HasRoom(w, h) == old(HasRoom(w, h)) else !old(HasRoom(w, h))
        decreases attempts
      {
        ok, r := TryPack(w, h);
        if ok || attempts == 0 || locked {
          break;
        }
        ghost var t1, rs1, ix1 := tex, rects, index;
        MakeSpace(lost[3 - attempts]);
        SurviveOn(lost, 3 - attempts, t0, rs0, ix0, t1, rs1, ix1, tex, rects, index);
        TrailOn(bounds, padding, trail, lost, Outline());
        trail := trail + [Outline()];
        attempts := attempts - 1;
      }
      SurviveEnough(lost, 3 - attempts, t0, rs0, ix0, tex, rects, index);
    }

    // Add a rectangle. Once growing has failed for good it may only go to what is left of the
    // last size tried.
    method AddRect(w: int, h: int, lost: seq<seq<int>>) returns (id: int, ghost trail: seq<Shape>)
      requires Valid() && 0 < w <= 0xFFFF && 0 < h <= 0xFFFF
      requires |lost| == 3 && |index| < INDEX_LIMIT && |rects| < 0x8_0000
      modifies this, packer`activeHead, packer`freeHead, packer`active, packer`free, packer`placed, packer.nodes
      ensures Valid() && (id == INVALID && old(Within()) ==> Within()) && Later(old(discards), discards)
      ensures old(locked) ==> locked && old(rects) <= rects && tex == old(tex) && packer == old(packer)
      ensures SparedSurvive(lost, old(tex), old(rects), old(index), tex, rects, index)
      ensures Since(old(index), old(discards), index, discards)
      ensures id == INVALID ==> Fewer(old(index), index) && !HasRoom(w, h) && (locked || |trail| == 4)
      ensures old(HasRoom(w, h)) ==> id != INVALID && |trail| == 1
      ensures IsTrail(bounds, padding, trail, lost)
      ensures trail[0] == old(Outline()).(maxW := Max(old(maxRectW), w), maxH := Max(old(maxRectH), h))
      ensures (tex.width, tex.height) == (Last(trail).width, Last(trail).height) && locked == Last(trail).locked
      ensures id != INVALID ==> NewHandle(old(index), rects, index, id, w, h)
      ensures id != INVALID ==> Inside(Padded(RectOf(rects, index[IdIndex(id)]), padding), packer.width, packer.height)
    {
      hide Context.Valid, HandlesOk, InTexture, Spotted, Survives, AllSurvive, Texture.Valid, IsBounds, IsSize,
           SparedSurvive, Fewer, AddedOne, NewHandle, Packed, HasRoom, Room, Within, IdIndex, Padded, RectOf,
           Balanced, IsTrail;
      ghost var t0, rs0, ix0 := tex, rects, index;
      NoteSize(w, h);
      ghost var d0 := discards;
      HandleParts(rects, index, freeStart, free, discards, discardedCount);
      var ok, r;
      ok, r, trail := FindRoom(w, h, lost);
      if ok { RoomInside(r); }
      ghost var rs1, ix1, d1 := rects, index, discards;
      HandleParts(rects, index, freeStart, free, discards, discardedCount);
      SinceFewer(ix0, d0, ix1, d1);
      if !ok {
        id := INVALID;
        return;
      }
      FewerLength(ix0, ix1);
      id := Commit(r);
      HandleParts(rects, index, freeStart, free, discards, discardedCount);
      SinceAdded(ix0, d0, ix1, d1, rs1, rects, index, discards, id, r);
      SurviveAdded(lost, t0, rs0, ix0, tex, rs1, ix1, rects, index, id, r);
    }

    lemma RoomInside(r: TexRect)
      requires Room(r)
      ensures Inside(Padded(r, padding), packer.width, packer.height) && Handles()
    {
    }
  }
}
