// Handles to atlas rectangles: an index of entries with generations, whose unused entries
// are threaded on a free list.
module AtlasHandles {
  import opened Counting

  datatype TexRect = TexRect(x: int, y: int, w: int, h: int)

  // When used, `target` is a place in the rectangle list, otherwise the next unused entry.
  datatype Entry = Entry(target: int, generation: int, used: bool)

  /** Handles as numbers */

  const INVALID: int := -1
  const INDEX_LIMIT: int := 0x8_0000
  const GENERATIONS: int := 1024

  function MakeId(index: int, generation: int): (id: int)
    requires 0 <= index < INDEX_LIMIT && 0 <= generation < GENERATIONS
    ensures id >= 0
  {
    index + generation * 0x10_0000
  }

  function IdIndex(id: int): (i: int)
    ensures 0 <= i < INDEX_LIMIT
  {
    id % INDEX_LIMIT
  }

  function IdGeneration(id: int): (g: int)
    ensures 0 <= g < GENERATIONS
  {
    (id / 0x10_0000) % GENERATIONS
  }

  lemma IdRoundTrip(index: int, generation: int)
    requires 0 <= index < INDEX_LIMIT && 0 <= generation < GENERATIONS
    ensures IdIndex(MakeId(index, generation)) == index && IdGeneration(MakeId(index, generation)) == generation
  {
    var id := MakeId(index, generation);
    assert id == index + (2 * generation) * INDEX_LIMIT;
    assert id / 0x10_0000 == generation;
  }

  /** Generations */

  // The counter is ten bits wide and skips zero when it wraps round.
  function NextGeneration(g: int): (r: int)
    requires 0 <= g < GENERATIONS
    ensures 1 <= r < GENERATIONS
  {
    var n := (g + 1) % GENERATIONS;
    if n == 0 then 1 else n
  }

  lemma NextGenerationDiffers(g: int)
    requires 0 <= g < GENERATIONS
    ensures NextGeneration(g) != g
  {
  }

  // The generation of an entry after k discards.
  function GenerationAfter(k: nat): (g: int)
    ensures 0 <= g < GENERATIONS && (k > 0 ==> g >= 1)
  {
    if k == 0 then 0 else NextGeneration(GenerationAfter(k - 1))
  }

  function Residue(a: nat): nat { a % 1023 }

  lemma ResidueZero()
    ensures Residue(0) == 0
  {
  }

  lemma GenerationZero()
    ensures GenerationAfter(0) == 0
  {
  }

  lemma {:induction false} GenerationValue(k: nat)
    requires k >= 1
    ensures GenerationAfter(k) == Residue(k - 1) + 1
  {
    hide NextGeneration, Residue;
    if k > 1 {
      GenerationValue(k - 1);
      ResidueNext(k - 2);
      NextGenerationIs(GenerationAfter(k - 1));
    } else {
      NextGenerationIs(0);
      ResidueZero();
      assert GenerationAfter(1) == NextGeneration(GenerationAfter(0));
    }
  }

  lemma NextGenerationIs(g: int)
    requires 0 <= g < GENERATIONS
    ensures NextGeneration(g) == if g == 1023 then 1 else g + 1
  {
  }

  lemma ResidueNext(a: nat)
    ensures Residue(a + 1) == if Residue(a) == 1022 then 0 else Residue(a) + 1
  {
    var q, r := a / 1023, a % 1023;
    assert a == 1023 * q + r;
    if r == 1022 { assert a + 1 == 1023 * (q + 1); }
  }

  // A slot repeats a generation exactly when its counter has cycled; generation zero is never
  // seen again.
  lemma GenerationRepeats(d: nat, d': nat)
    requires d < d'
    ensures GenerationAfter(d) == GenerationAfter(d') <==> d > 0 && Residue(d' - d) == 0
  {
    hide Residue, GenerationAfter;
    assert GenerationAfter(0) == 0 by { GenerationZero(); }
    GenerationValue(d');
    if d > 0 {
      GenerationValue(d);
      SameResidue(d - 1, d' - 1);
    }
  }

  lemma SameResidue(a: nat, b: nat)
    requires a < b
    ensures Residue(a) == Residue(b) <==> Residue(b - a) == 0
  {
    var q, r, q', r' := a / 1023, a % 1023, b / 1023, b % 1023;
    ResidueIs(a, q, r);
    ResidueIs(b, q', r');
    if r <= r' { ResidueIs(b - a, q' - q, r' - r); } else { ResidueIs(b - a, q' - q - 1, r' - r + 1023); }
  }

  lemma ResidueIs(a: nat, q: int, r: int)
    requires a == 1023 * q + r && 0 <= r < 1023
    ensures Residue(a) == r
  {
  }

  /** The index */

  function UsedCount(index: seq<Entry>): nat {
    if index == [] then 0 else UsedCount(index[..|index|-1]) + if index[|index|-1].used then 1 else 0
  }

  ghost predicate FreeList(index: seq<Entry>, start: int, free: seq<int>) {
    && Distinct(free) && Below(free, |index|)
    && start == (if free == [] then -1 else free[0])
    && (forall i :: 0 <= i < |index| ==> (!index[i].used <==> i in free))
    && (forall k {:trigger NextFree(free, k)} :: 0 <= k < |free| && 0 <= free[k] < |index| ==>
          index[free[k]].target == NextFree(free, k))
  }

  function NextFree(free: seq<int>, k: int): int
    requires 0 <= k < |free|
  {
    if k + 1 < |free| then free[k+1] else -1
  }

  // Used entries lead to different, nonempty rectangles.
  ghost predicate Targets(rects: seq<TexRect>, index: seq<Entry>) {
    && (forall i :: 0 <= i < |index| && index[i].used ==>
          0 <= index[i].target < |rects| && 0 < rects[index[i].target].w && 0 < rects[index[i].target].h)
    && (forall i, j :: 0 <= i < j < |index| && index[i].used && index[j].used ==> index[i].target != index[j].target)
  }

  // Each entry's generation is the number of its discards, which an unused one has had.
  ghost predicate Generations(index: seq<Entry>, discards: seq<nat>) {
    && |discards| == |index|
    && forall i :: 0 <= i < |index| ==>
         index[i].generation == GenerationAfter(discards[i]) && (!index[i].used ==> discards[i] > 0)
  }

  ghost predicate HandlesOk(rects: seq<TexRect>, index: seq<Entry>, start: int, free: seq<int>,
                            discards: seq<nat>, discarded: int) {
    && |index| <= INDEX_LIMIT
    && FreeList(index, start, free) && Targets(rects, index) && Generations(index, discards)
    && |rects| == UsedCount(index) + discarded && discarded >= 0
  }

  // Does a handle lead to a rectangle?
  predicate Live(index: seq<Entry>, id: int) {
    id >= 0 && IdIndex(id) < |index| && index[IdIndex(id)].used && index[IdIndex(id)].generation == IdGeneration(id)
  }

  lemma {:induction false} UsedCountUpdate(index: seq<Entry>, i: nat, e: Entry)
    requires i < |index|
    ensures UsedCount(index[i := e]) == UsedCount(index) + (if e.used then 1 else 0) - (if index[i].used then 1 else 0)
    decreases |index|
  {
    var n := |index| - 1;
    if i < n {
      UsedCountUpdate(index[..n], i, e);
      assert index[i := e][..n] == index[..n][i := e];
    } else {
      assert index[i := e][..n] == index[..n];
    }
  }

  lemma UsedCountAppend(index: seq<Entry>, e: Entry)
    ensures UsedCount(index + [e]) == UsedCount(index) + if e.used then 1 else 0
  {
    assert (index + [e])[..|index|] == index;
  }

  /** Allocating and discarding */

  // The entry that a new rectangle gets, and the index once it has it.
  function Allocated(index: seq<Entry>, start: int, target: int): (r: (int, seq<Entry>, int))
    requires start < |index|
  {
    if start < 0 then (|index|, index + [Entry(target, 0, true)], start)
    else (start, index[start := Entry(target, index[start].generation, true)], index[start].target)
  }

  function Discarded(index: seq<Entry>, start: int, i: int): seq<Entry>
    requires 0 <= i < |index| && 0 <= index[i].generation < GENERATIONS
  {
    index[i := Entry(start, NextGeneration(index[i].generation), false)]
  }

  lemma FreeStart(index: seq<Entry>, start: int, free: seq<int>)
    requires FreeList(index, start, free)
    ensures -1 <= start < |index| && (start < 0 <==> free == [])
    ensures start >= 0 ==> !index[start].used && index[start].target == NextFree(free, 0)
  {
    if free != [] { assert free[0] in free; }
  }

  lemma AllocateFresh(rects: seq<TexRect>, index: seq<Entry>, free: seq<int>, discards: seq<nat>, discarded: int,
                      r: TexRect)
    requires HandlesOk(rects, index, -1, free, discards, discarded) && free == [] && |index| < INDEX_LIMIT
    requires 0 < r.w && 0 < r.h
    ensures HandlesOk(rects + [r], index + [Entry(|rects|, 0, true)], -1, [], discards + [0], discarded)
  {
    hide GenerationAfter, NextFree, UsedCount;
    UsedCountAppend(index, Entry(|rects|, 0, true));
    GenerationZero();
  }

  lemma AllocateFree(rects: seq<TexRect>, index: seq<Entry>, start: int, free: seq<int>, discards: seq<nat>,
                     discarded: int, r: TexRect)
    requires HandlesOk(rects, index, start, free, discards, discarded) && free != []
    requires 0 < r.w && 0 < r.h
    ensures 0 <= start < |index|
    ensures HandlesOk(rects + [r], index[start := Entry(|rects|, index[start].generation, true)],
                      index[start].target, free[1..], discards, discarded)
  {
    hide GenerationAfter;
    FreeStart(index, start, free);
    var index' := index[start := Entry(|rects|, index[start].generation, true)];
    UsedCountUpdate(index, start, index'[start]);
    PopFree(index, start, free, index'[start]);
  }

  lemma PopFree(index: seq<Entry>, start: int, free: seq<int>, e: Entry)
    requires FreeList(index, start, free) && free != [] && e.used
    ensures 0 <= start < |index| && FreeList(index[start := e], index[start].target, free[1..])
  {
    FreeStart(index, start, free);
    var rest := free[1..];
    assert forall v :: v in free <==> v == start || v in rest by { assert free == [start] + rest; }
    forall k {:trigger NextFree(rest, k)} | 0 <= k < |rest| && 0 <= rest[k] < |index|
      ensures index[start := e][rest[k]].target == NextFree(rest, k)
    {
      assert NextFree(rest, k) == NextFree(free, k + 1);
    }
  }

  lemma PushFree(index: seq<Entry>, start: int, free: seq<int>, i: int, g: int)
    requires FreeList(index, start, free) && 0 <= i < |index| && index[i].used
    ensures FreeList(index[i := Entry(start, g, false)], i, [i] + free)
  {
    var more := [i] + free;
    forall k {:trigger NextFree(more, k)} | 0 <= k < |more| && 0 <= more[k] < |index|
      ensures index[i := Entry(start, g, false)][more[k]].target == NextFree(more, k)
    {
      if k > 0 { assert NextFree(more, k) == NextFree(free, k - 1); }
    }
  }

  lemma DiscardKeeps(rects: seq<TexRect>, index: seq<Entry>, start: int, free: seq<int>, discards: seq<nat>,
                     discarded: int, i: int)
    requires HandlesOk(rects, index, start, free, discards, discarded) && 0 <= i < |index| && index[i].used
    ensures 0 <= index[i].generation < GENERATIONS && 0 <= index[i].target < |rects|
    ensures var t := index[i].target;
      HandlesOk(rects[t := rects[t].(w := 0, h := 0)], Discarded(index, start, i), i, [i] + free,
                discards[i := discards[i] + 1], discarded + 1)
  {
    hide NextGeneration;
    var g := NextGeneration(index[i].generation);
    assert g == GenerationAfter(discards[i] + 1);
    hide GenerationAfter;
    UsedCountUpdate(index, i, Entry(start, g, false));
    PushFree(index, start, free, i, g);
  }

  lemma GenerationRange(index: seq<Entry>, discards: seq<nat>, i: nat)
    requires Generations(index, discards) && i < |index|
    ensures 0 <= index[i].generation < GENERATIONS
  {
  }

  // Allocating makes one handle live and changes no other.
  lemma AllocateLive(index: seq<Entry>, start: int, target: int, id: int)
    requires -1 <= start < |index| <= INDEX_LIMIT && id >= 0
    requires start >= 0 ==> !index[start].used
    ensures var (i, index', _) := Allocated(index, start, target);
      Live(index', id) <==> Live(index, id) || (IdIndex(id) == i && IdGeneration(id) == index'[i].generation)
  {
    hide IdIndex, IdGeneration;
  }

  // Discarding ends one handle and changes no other.
  lemma DiscardLive(index: seq<Entry>, start: int, i: int, id: int)
    requires 0 <= i < |index| && 0 <= index[i].generation < GENERATIONS
    ensures Live(Discarded(index, start, i), id) <==> Live(index, id) && IdIndex(id) != i
  {
    hide IdIndex, IdGeneration, NextGeneration;
  }

  // The counts of discards later on: none is smaller, and slots are only added.
  ghost predicate Later(discards: seq<nat>, discards': seq<nat>) {
    |discards| <= |discards'| && forall i :: 0 <= i < |discards| ==> discards[i] <= discards'[i]
  }

  lemma LaterAgain(a: seq<nat>, b: seq<nat>, c: seq<nat>)
    requires Later(a, b) && Later(b, c)
    ensures Later(a, c)
  {
  }

  // Between two states no count of discards goes back, and a handle that died was discarded.
  ghost predicate Since(index: seq<Entry>, discards: seq<nat>, index': seq<Entry>, discards': seq<nat>) {
    && |discards| == |index| <= |index'| == |discards'| && Later(discards, discards')
    && forall i :: 0 <= i < |index| && index[i].used ==>
         (index'[i].used && index'[i].generation == index[i].generation) || discards[i] < discards'[i]
  }

  lemma SinceAgain(index: seq<Entry>, d: seq<nat>, index1: seq<Entry>, d1: seq<nat>, index2: seq<Entry>, d2: seq<nat>)
    requires Since(index, d, index1, d1) && Since(index1, d1, index2, d2)
    ensures Since(index, d, index2, d2)
  {
  }

  lemma SinceDiscard(index: seq<Entry>, discards: seq<nat>, start: int, i: int)
    requires 0 <= i < |index| == |discards| && 0 <= index[i].generation < GENERATIONS
    ensures Since(index, discards, Discarded(index, start, i), discards[i := discards[i] + 1])
  {
    hide NextGeneration;
  }

  // A handle that was live once and was dead later: at any time after that it leads to a
  // rectangle again if and only if its slot is in use and the discards of the slot since it was
  // live are a whole number of rounds of the counter, which was not at its start.
  lemma DeadHandle(index0: seq<Entry>, discards0: seq<nat>, index1: seq<Entry>, discards1: seq<nat>,
                   index2: seq<Entry>, discards2: seq<nat>, id: int)
    requires Generations(index0, discards0) && Live(index0, id)
    requires Since(index0, discards0, index1, discards1) && !Live(index1, id)
    requires Generations(index2, discards2) && Later(discards1, discards2)
    ensures IdIndex(id) < |index2| && IdIndex(id) < |discards0|
    ensures Live(index2, id) <==>
      var i := IdIndex(id);
      index2[i].used && discards0[i] > 0 && Residue(discards2[i] - discards0[i]) == 0
  {
    hide IdIndex, IdGeneration, GenerationAfter, Residue;
    OldHandle(index2, discards2, id, discards0[IdIndex(id)]);
  }

  // A handle made after d discards of its slot, and discarded since, leads to a rectangle again
  // only if the slot is in use and its counter has gone round a whole number of times.
  lemma OldHandle(index: seq<Entry>, discards: seq<nat>, id: int, d: nat)
    requires Generations(index, discards) && id >= 0 && IdIndex(id) < |index|
    requires IdGeneration(id) == GenerationAfter(d) && d < discards[IdIndex(id)]
    ensures Live(index, id) <==> index[IdIndex(id)].used && d > 0 && Residue(discards[IdIndex(id)] - d) == 0
  {
    hide IdIndex, IdGeneration, GenerationAfter;
    GenerationRepeats(d, discards[IdIndex(id)]);
  }
}
