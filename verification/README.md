# Verified models of the launcher's vendored algorithms

The launcher carries Dear ImGui and a small Base64 library with it. This project models the
algorithms in them that keep state by hand, and proves what callers rely on.

* **Rectangle packer** (`Skyline`, `Packing`, `Search`, `NodeLists`, `RectPacker`, `PackRects`,
  `PackerRuns`). The skyline is a linked list of nodes in an array, edited in place together with
  a free list; a class follows the code link by link and is proved equal to a pure step function.
  Over every sequence of requests boxes stay in the target and never overlap; both search
  heuristics find the lowest of all places, not only of those they try, bottom-left the leftmost
  of them and best fit, of those it tries, the one that leaves the least area below, then the
  leftmost. On some skylines the waste by which it judges that counts columns twice
  (`Skyline.WasteExactIff`), but never on one that the packer makes (`PackerRuns.WasteIsExact`). The
  header's promise that rounded widths never run out of nodes is false; the exact condition under
  which the packer never turns a box away for want of a node is proved instead.
* **Draw list and splitter** (`DrawTrace`, `DrawList`, `Splitter`, `Primitives`). A naive record tags
  every reserved index with the settings in force. Whatever the command buffer does to share,
  restyle, drop or merge commands, rendering it gives exactly that record, and no fewer commands
  would; merging channels gives the channels' records one after another, in as few commands again.
  Shapes write exactly what they reserve, and their triangles are the quads and fans meant; with vertex offsets
  allowed every index of a shape of fewer than 65536 vertices fits its 16 bits, and without them it is
  known exactly when.
* **Ear clipping** (`EarClipping`, `Triangulator`). The ring, the spans and the in-place reversal,
  for any answers of the two geometric tests: the triangles always triangulate the polygon, their
  signed areas add up to its area, and every corner clipped turns clockwise unless even turning the
  ring round leaves it without an ear.
* **Texture atlas** (`AtlasHandles`, `AtlasSizes`, `AtlasFits`, `Texture`, `Atlas`). Rectangle handles with
  generations, and the repack-or-grow recursion on top of the packer: every handle survives with
  its size and pixels, and a size is accepted exactly when all rectangles fit it. Here and below,
  rectangles fit a size when the packer itself, placing them in the order of their entries, places
  them all; that they might fit in some other arrangement is not considered, by the source either.
  The counts of discards never go back, so a handle that has died stays dead until its slot has
  been discarded a whole number of rounds of 1023. The surface counted as packed is always that of
  the live rectangles and what is counted as discarded.
* **Compressed fonts** (`Adler`, `Lz`, `Decompressor`, `Compressor`). Decompressing what the font
  tool compresses gives the input back, whatever its hash functions are, and its copies are the
  longest matches worth their distance among the places last seen with equal hashes; the blocked checksum is
  Adler-32 and never overflows.
* **Base64** (`Base64`, `Base64Decoder`, `Base64Laws`), **glyph ranges** (`GlyphRanges`) and the
  **arc sampler** (`ArcSampler`).

Every class follows the source's own steps and is specified by pure functions; the laws are lemmas
about those functions. Pointers are array indices, and a pointer to a link is a `Link` value.
Comparison functions, geometry, hash functions and the choice of stale glyphs are parameters, so
the results hold for all of them. `Counting` holds a few facts about distinct numbers, and `Common` what
several modules share.

Where the code does not do what its documentation says, the model follows the code:

* `imgui/imstb_rectpack.h:149-150` says that rounding widths keeps the packer from running out of
  nodes. The list edit uses the unrounded width, so it does not: `PackerRuns.QuantizedRunsOut` is a
  run that shows it and `PackerRuns.OutOfNodesIff` says exactly when it cannot happen, for either
  heuristic.
* Line breaks at the end of a text that the Base64 decoder would take without them make it refuse
  the text exactly when the values before them make up whole groups: `Base64Laws.TrailingBreaks`.
* A set of code points that contains zero is lost when its ranges are read back, because a zero
  ends the list: `GlyphRanges.ListRestores`.
* With unequal size bounds the atlas can stop growing before both are reached:
  `AtlasSizes.GrowthEndsIff` and `AtlasSizes.GrowthEndsEarly`.

## Model

| member | source | states |
|---|---|---|
| Skyline.ScanMeaning | imgui/imstb_rectpack.h:291-339 | the height found under a box is the maximum of the skyline over its columns, and from a breakpoint or raised ground the waste is the area left under it |
| Skyline.WasteIs | imgui/imstb_rectpack.h:291-339 | the waste reckoned is the area left under the box and, on top of it, where the columns land that the scan counts twice |
| Skyline.WasteExactIff | imgui/imstb_rectpack.h:291-339 | the waste reckoned is never less than the area left, and exactly that if and only if every column counted twice lands on the ground |
| Skyline.InexactWaste | imgui/imstb_rectpack.h:310-333 | on a skyline that the packer never leaves behind, because its floor is not filled from the left, the scan reckons one too much |
| Skyline.PlaceKeepsSkyline | imgui/imstb_rectpack.h:464-499 | splicing a box in leaves breakpoints strictly increasing from 0 to the sentinel |
| Skyline.PlaceRaisesProfile | imgui/imstb_rectpack.h:464-499 | the splice raises the columns from the box's left edge to the end of what it covers to the box's top, and changes no other column |
| Packing.RaiseAddsArea | imgui/imstb_rectpack.h:464-499 | raising the columns under a box from where it rests adds its area and the waste below it |
| Packing.PackingGrows | imgui/imstb_rectpack.h:449-499 | a box resting on the skyline keeps all boxes inside, below the skyline, pairwise disjoint, and their area below that of the skyline |
| Packing.SlideLeft | imgui/imstb_rectpack.h:365-389 | a lowest place can always be moved left to a breakpoint without rising, so trying breakpoints loses nothing |
| Search.BottomLeftIsOptimal | imgui/imstb_rectpack.h:347-389 | the bottom-left search returns the least height over all columns, at the leftmost such column |
| Search.BestFitIsOptimal | imgui/imstb_rectpack.h:347-447 | the best-fit search returns, of all breakpoints tried as left or right edge, the lowest place, then the least waste, then the leftmost |
| Search.FindBestMeaning | imgui/imstb_rectpack.h:347-447 | with either heuristic some place is returned exactly when a place that fits exists, and it is the best by that heuristic |
| Search.FloorPlace | imgui/imstb_rectpack.h:347-447 | where only the right end of the floor is free, either heuristic puts a box that goes to the floor at its left end |
| Search.BestKeepsFilled | imgui/imstb_rectpack.h:347-499 | wherever either heuristic puts a box, only the right end of the floor is free after that again |
| Search.FilledWasteIsExact | imgui/imstb_rectpack.h:291-339 | where only the right end of the floor is free, the waste reckoned below a box at any column is the area really left there |
| Search.TightestIsSnug | imgui/imstb_rectpack.h:393-443 | there, the place with the least waste reckoned is the one that really leaves the least area, then the leftmost |
| NodeLists.OpenAt | imgui/imstb_rectpack.h:464-483 | taking a free node and linking it before or after the segment keeps both lists well formed |
| NodeLists.FreeStep | imgui/imstb_rectpack.h:485-493 | moving a covered node to the free list keeps both lists well formed |
| NodeLists.CloseAt | imgui/imstb_rectpack.h:495-499 | leading the new node on to the first uncovered one gives one list without a cycle |
| NodeLists.ClosedPartition | imgui/imstb_rectpack.h:464-522 | after the edit the active and free lists together still hold every node exactly once |
| RectPacker.PackStepMeaning | imgui/imstb_rectpack.h:449-523 | a request keeps state and packing sound, and is met exactly when a node is left and some place fits its rounded width |
| RectPacker.PackStepIsBest | imgui/imstb_rectpack.h:347-523 | in every state of the packer a request that is met gets the lowest of all places: bottom-left the leftmost of them, best fit the one of those tried that leaves the least area, then the leftmost |
| RectPacker.Context.constructor | imgui/imstb_rectpack.h:265-288 | a fresh target has one floor segment, the sentinel, all other nodes free and the default rounding |
| RectPacker.Context.SetupAllowOutOfMem | imgui/imstb_rectpack.h:245-263 | the rounding becomes 1, or the least number that times the nodes covers the width |
| RectPacker.Context.SetupHeuristic | imgui/imstb_rectpack.h:233-243 | only the heuristic changes |
| RectPacker.Context.FindMinY | imgui/imstb_rectpack.h:291-339 | walking the list computes the scan of the skyline from the given segment |
| RectPacker.Context.FindLeft | imgui/imstb_rectpack.h:365-391 | the first loop computes the left-edge search and a link to its segment |
| RectPacker.Context.FindRight | imgui/imstb_rectpack.h:393-443 | the second loop computes the right-edge search that continues from the first |
| RectPacker.Context.FindBestPos | imgui/imstb_rectpack.h:347-447 | the place found is the search's, for the rounded width, and the link leads to its segment |
| RectPacker.Context.Insert | imgui/imstb_rectpack.h:464-499 | the edited list is the skyline with the box placed, and both lists stay well formed |
| RectPacker.Context.PackRectangle | imgui/imstb_rectpack.h:449-523 | the target keeps its invariant, the box is placed exactly when a node is left and a place fits, and the new state is the step function's |
| PackRects.PackAll | imgui/imstb_rectpack.h:546-584 | the batch is placed one by one in the sorted order, each rectangle gets its result back at its own index with its flag, and all marked packed lie inside, clear of each other and of everything packed before |
| PackRects.PlaceAll | imgui/imstb_rectpack.h:558-570 | the loop places the rectangles one after another as the step function does, empty ones at the origin |
| PackRects.RestoreOrder | imgui/imstb_rectpack.h:572-573 | sorting by the tags puts each rectangle back at its own index |
| PackRects.BatchIsDisjoint | imgui/imstb_rectpack.h:546-584 | after a batch in any sorted order every rectangle marked packed lies inside and is clear of all others, earlier batches included |
| PackRects.PlacedAlike | imgui/imstb_rectpack.h:550-570 | where rectangles end up does not depend on the places and flags they came with |
| PackRects.HeightOrder | imgui/imstb_rectpack.h:528-537 | the comparison of the sort is a total order, in which only rectangles of the same size compare equal |
| PackRects.TallerFirst | imgui/imstb_rectpack.h:528-537 | in a sorted batch nothing is taller than an earlier rectangle, nor wider than an equally tall one |
| PackerRuns.RunIsSafe | imgui/imstb_rectpack.h:449-523 | over every sequence of requests boxes lie inside the target, are pairwise disjoint and cover at most its area |
| PackerRuns.WasteIsExact | imgui/imstb_rectpack.h:291-339 | after every sequence of requests, with either heuristic and any rounding, the waste reckoned below a box at any column is the area left there |
| PackerRuns.StepArea | imgui/imstb_rectpack.h:449-523 | the area under the skyline grows by at least the box and, without rounding, with either heuristic, by exactly the box and the area left below it |
| PackerRuns.NodesToSpare | imgui/imstb_rectpack.h:459-463 | with as many nodes as columns, distinct breakpoints leave at least one node free |
| PackerRuns.OutOfNodesIff | imgui/imstb_rectpack.h:134-153 | with the default rounding and either heuristic no sequence of requests is ever refused for want of a node if and only if there are as many nodes as columns, or the target is too low to show it: no rows, or one row and too few columns beyond the nodes |
| PackerRuns.QuantizedRunsOut | imgui/imstb_rectpack.h:149-150 | a target with the default rounding, and requests after which, with either heuristic, a box that fits is refused for want of a node |
| DrawTrace.RenderIsRecord | imgui/imgui_draw.cpp:495-744 | commands that count and lay out the record's indices render exactly the record |
| DrawTrace.MaximalMeaning | imgui/imgui_draw.cpp:562-621 | in a maximal buffer no two neighbouring commands without callbacks share their settings |
| DrawTrace.FewestCommands | imgui/imgui_draw.cpp:562-621 | where no two neighbours could be one and only the last is unused, no other commands for the same record are fewer, the unused last one aside |
| DrawTrace.Join | imgui/imgui_draw.cpp:562-572 | joining two last commands with the same settings leaves the record as it is |
| DrawTrace.Concatenate | imgui/imgui_draw.cpp:2166-2194 | laying one recording out behind another records the one and then the other |
| DrawTrace.Absorb | imgui/imgui_draw.cpp:2176-2183 | drawing a channel's first command under the last one before it records the same |
| DrawTrace.SpliceTight | imgui/imgui_draw.cpp:2176-2194 | splicing commands of which none could be spared, the first joined to the last before when they are alike, leaves none that could be |
| DrawList.DrawList.AddDrawCmd | imgui/imgui_draw.cpp:495-505 | the new command is empty, under the current settings, and the list is open for drawing |
| DrawList.DrawList.PopUnusedDrawCmd | imgui/imgui_draw.cpp:509-518 | what remains is a prefix that records the same and does not end in an unused command |
| DrawList.DrawList.AddCallback | imgui/imgui_draw.cpp:520-553 | the record gains the callback at this place, the list stays open for drawing and maximal |
| DrawList.DrawList.TryMergeDrawCmds | imgui/imgui_draw.cpp:562-572 | the last two commands become one exactly when settings agree and neither is a callback |
| DrawList.DrawList.OnChangedClipRect | imgui/imgui_draw.cpp:576-596 | the last command takes up the new settings, the record is unchanged and batching stays maximal |
| DrawList.DrawList.OnChangedTexture | imgui/imgui_draw.cpp:598-621 | the last command takes up the new settings, the record is unchanged and batching stays maximal; behind a callback nothing changes |
| DrawList.DrawList.OnChangedVtxOffset | imgui/imgui_draw.cpp:623-637 | numbering starts from zero under the new offset and the record is unchanged |
| DrawList.DrawList.PushClipRect | imgui/imgui_draw.cpp:650-667 | the rectangle in force covers what the one pushed covers and, if asked, only what the current one covers too; it is never inside out, and one that was not and is not to be cut is taken as it is |
| DrawList.DrawList.PopClipRect | imgui/imgui_draw.cpp:674-679 | the rectangle in force is the one below on the stack, or the whole screen |
| DrawList.DrawList.PushTexture | imgui/imgui_draw.cpp:681-688 | the texture in force is the one pushed |
| DrawList.DrawList.PopTexture | imgui/imgui_draw.cpp:690-695 | the texture in force is the one below on the stack |
| DrawList.DrawList.SetTexture | imgui/imgui_draw.cpp:698-705 | the texture in force and the top of the stack change, unless it is in force already |
| DrawList.DrawList.PrimReserve | imgui/imgui_draw.cpp:710-733 | exactly the reserved indices are recorded under the settings in force, and vertices are numbered afresh exactly when offsets are allowed and their count would come to 65536 or more |
| DrawList.DrawList.PrimUnreserve | imgui/imgui_draw.cpp:736-744 | exactly the last indices of the record are taken back |
| DrawList.DrawList.PrimWriteVtx | imgui/imgui.h:3368 | vertex offset and number stay in step with the write position |
| DrawList.DrawList.PrimWriteIdx | imgui/imgui.h:3369 | one index is written and nothing else |
| DrawList.DrawList.RendersRecord | imgui/imgui_draw.cpp:495-744 | at any time the buffers render exactly what was recorded |
| DrawList.DrawList.BatchedIsFewest | imgui/imgui_draw.cpp:562-621 | as long as batching is kept up, no commands for the same record are fewer, an unused last one aside |
| Splitter.Splitter.Split | imgui/imgui_draw.cpp:2122-2150 | the first channel holds the list's record, indices and commands, all others are empty |
| Splitter.Splitter.SetCurrentChannel | imgui/imgui_draw.cpp:2223-2245 | another channel is in use; no channel's record or indices change, nor another's commands; its own last command, if unused, takes up the settings in force, and one is added only where there is none or the last is used under others |
| Splitter.Splitter.MergeChannel | imgui/imgui_draw.cpp:2166-2194 | one more channel's record is behind those before it, with contiguous index offsets, and if no command could be spared before, none can be now |
| Splitter.Splitter.CopyChannels | imgui/imgui_draw.cpp:2195-2207 | commands and indices of all channels follow those of the list |
| Splitter.Splitter.Merge | imgui/imgui_draw.cpp:2152-2221 | the list's record and indices are those of all channels in order, and it is open for drawing; if each channel could spare no command but an unused last one, the list can spare none |
| EarClipping.ClipSum | imgui/imgui_draw.cpp:1930-1941 | for any weights on directed edges, cutting off a corner replaces its two edges by the one between its neighbours |
| EarClipping.ReverseSum | imgui/imgui_draw.cpp:1944-1964 | turning the ring round turns every edge round |
| EarClipping.RingShrinks | imgui/imgui_draw.cpp:1907-1942 | after any moves the ring has the corners not clipped, all different, and one triangle was emitted for each clip |
| EarClipping.AreaConserved | imgui/imgui_draw.cpp:1907-1964 | the triangles' areas, negated while the ring is turned round, add up to the polygon's shoelace area |
| EarClipping.EdgeBalance | imgui/imgui_draw.cpp:1907-1942 | how often an edge occurs among triangles and ring is its count in the polygon plus two for each cut along it |
| EarClipping.CutsAreNew | imgui/imgui_draw.cpp:1930-1941 | no cut is made twice, and none along a side |
| EarClipping.Triangulates | imgui/imgui_draw.cpp:1907-1942 | a full run emits n-2 triangles with every side once, every one of the n-3 cuts twice and no other edge |
| EarClipping.TrianglesProper | imgui/imgui_draw.cpp:1930-1933 | every triangle has three different corners in range |
| Triangulator.NodeSpan.PushBack | imgui/imgui_draw.cpp:1825 | the node is added at the end |
| Triangulator.NodeSpan.FindEraseUnsorted | imgui/imgui_draw.cpp:1826 | the last occurrence is replaced by the last element, or nothing changes |
| Triangulator.Triangulator.Init | imgui/imgui_draw.cpp:1855-1905 | the ring is the polygon, of all its corners but the last exactly those that turn back are listed as reflex and exactly the ears as ears, the last of them at the end, and there are n-2 triangles to come |
| Triangulator.Triangulator.BuildReflexes | imgui/imgui_draw.cpp:1881-1891 | of all corners but the last one, exactly those that turn back are listed and marked |
| Triangulator.Triangulator.BuildEars | imgui/imgui_draw.cpp:1893-1905 | of all corners but the last one, exactly those that are ears are listed and marked |
| Triangulator.Triangulator.IsEar | imgui/imgui_draw.cpp:1967-1978 | a corner is an ear exactly when no listed reflex corner, its own three aside, lies in its triangle |
| Triangulator.Triangulator.ReclassifyNode | imgui/imgui_draw.cpp:1980-2005 | the corner gets its new type and moves between the spans, which keep no duplicates and stay within n entries |
| Triangulator.Triangulator.FlipNodeList | imgui/imgui_draw.cpp:1944-1964 | the in-place loop reverses the ring exactly |
| Triangulator.Triangulator.GetNextTriangle | imgui/imgui_draw.cpp:1907-1942 | one corner and its neighbours are emitted: the last ear listed or, if there is none, after turning the ring round and listing ears anew, the last ear listed then or else the first corner; the ring stays a doubly linked cycle of the corners left, and both neighbours have the type and are in the lists that the ring and the listed reflex corners now give them |
| Triangulator.UnlinkedIsLinked | imgui/imgui_draw.cpp:1817 | unlinking a node leaves a doubly linked ring of the others |
| Triangulator.TriangulateAll | imgui/imgui_draw.cpp:1829-2005 | whatever the two tests answer, the emitted triangles triangulate the polygon; at the start, and whenever the ring is turned round, the corner clipped is its last ear or, if turning leaves none, its first corner, and every other corner clipped turns clockwise |
| Triangulator.EveryEarTurns | imgui/imgui_draw.cpp:1907-1942 | if the ring always has an ear after it is turned round, every triangle emitted turns clockwise |
| Triangulator.FullRun | imgui/imgui_draw.cpp:1907-1942 | n-2 clips give proper triangles, every side of the polygon once and every other edge never or twice |
| Primitives.StripMeaning | imgui/imgui_draw.cpp:876-1054 | every triangle of a line has three different vertices, all of the two ends of its own segment |
| Primitives.StripQuads | imgui/imgui_draw.cpp:876-1054 | the triangles of a segment, two by two, cut the quads between its vertex rows: each side bounds one of the two, one diagonal both, and there is no other edge |
| Primitives.FringeQuads | imgui/imgui_draw.cpp:1108-1112 | the triangles of the fringe, two by two, cut the quads between the inner and outer vertices of each side in the same way |
| Primitives.StripInRange | imgui/imgui_draw.cpp:800-1054 | no index of a line leaves the vertices it reserved |
| Primitives.AddPolyline | imgui/imgui_draw.cpp:800-1054 | on each of the four paths exactly the reserved indices and vertices are written, recorded under one set of settings, and offset and number stay in step |
| Primitives.LineKeepsItsIndices | imgui/imgui_draw.cpp:710-733 | with vertex offsets allowed no index of a line of fewer than 65536 vertices is cut by its 16 bits |
| Primitives.LineFitsIff | imgui/imgui_draw.cpp:800-1054 | whether or not offsets are allowed, no index of a line is cut exactly when its vertices end within 16 bits |
| Primitives.FanIsClipping | imgui/imgui_draw.cpp:1074-1082 | the fan is what clipping off the second corner over and over emits |
| Primitives.FanTriangulates | imgui/imgui_draw.cpp:1074-1082 | the fan triangulates the polygon |
| Primitives.AddConvexPolyFilled | imgui/imgui_draw.cpp:1058-1138 | exactly the reserved indices and vertices are written: a triangulation of the inside and the quads of the fringe, if there is one |
| Primitives.AddConcavePolyFilled | imgui/imgui_draw.cpp:2012-2100 | exactly the reserved indices and vertices are written, and the inside is a triangulation whatever the geometry, made by clipping ears |
| Primitives.FillKeepsItsIndices | imgui/imgui_draw.cpp:710-733 | with vertex offsets allowed no index of a fill of fewer than 65536 vertices is cut by its 16 bits, and all are its own vertices |
| Primitives.FillFitsIff | imgui/imgui_draw.cpp:1058-1138 | whether or not offsets are allowed, no index of a fill is cut exactly when its vertices end within 16 bits |
| AtlasHandles.IdRoundTrip | imgui/imgui_internal.h:3776-3781 | index and generation are read back from a handle as they were put in |
| AtlasHandles.GenerationRepeats | imgui/imgui_draw.cpp:4310-4312 | two discards of a slot leave the same generation exactly when they are a positive multiple of 1023 apart and neither is none |
| AtlasHandles.AllocateFree | imgui/imgui_draw.cpp:4274-4284 | taking the first unused entry keeps the free list acyclic and exactly the unused entries |
| AtlasHandles.AllocateFresh | imgui/imgui_draw.cpp:4267-4284 | adding an entry when none is unused keeps all invariants of the handles |
| AtlasHandles.DiscardKeeps | imgui/imgui_draw.cpp:4296-4319 | discarding keeps the free list, distinct targets, generations and the count of discarded rectangles |
| AtlasHandles.AllocateLive | imgui/imgui_draw.cpp:4262-4285 | allocating makes exactly one handle live and ends none |
| AtlasHandles.DiscardLive | imgui/imgui_draw.cpp:4296-4319 | discarding ends exactly the handles of one entry |
| AtlasHandles.OldHandle | imgui/imgui_draw.cpp:4384-4399 | a handle discarded since resolves again if and only if its slot is in use and its counter has gone round |
| AtlasHandles.SinceAgain | imgui/imgui_draw.cpp:4262-4319 | what one call promises about counts of discards, that none goes back and that handles die only by discarding, any sequence of calls keeps |
| AtlasHandles.DeadHandle | imgui/imgui_draw.cpp:4384-4399 | a handle that was live and then dead resolves again at any later time if and only if its slot is in use and the discards of the slot since it was live are a whole number of rounds of 1023 |
| Atlas.Atlas.DeadStaysDead | imgui/imgui_draw.cpp:4384-4399 | the same for an atlas after any calls |
| AtlasSizes.GrownIsSize | imgui/imgui_draw.cpp:4093-4107 | the next size is a power of two both ways, within the bounds and nowhere smaller |
| AtlasSizes.GrownIsLeast | imgui/imgui_draw.cpp:4093-4103 | the next size is the least one with the shorter side, or the height of a square, doubled and with room for the largest rectangle, as far as the bounds allow |
| AtlasSizes.GrowthEndsIff | imgui/imgui_draw.cpp:4093-4105 | growing stops exactly when the side to be doubled is at its bound and the other is too or has room enough |
| AtlasSizes.GrowthReachesBounds | imgui/imgui_draw.cpp:4093-4105 | with square bounds growing stops only at full size |
| AtlasSizes.GrowthEndsEarly | imgui/imgui_draw.cpp:4093-4105 | with unequal bounds it can stop before |
| AtlasFits.PackedIffRoom | imgui/imgui_draw.cpp:4335-4345 | an attempt succeeds exactly when a node is left and some place fits, and changes nothing otherwise |
| AtlasFits.TurnedAway | imgui/imgui_draw.cpp:4029-4048 | once one rectangle is turned away no run over the rest can place them all |
| AtlasFits.TriedIs | imgui/imgui_draw.cpp:4028-4048 | a repack gets as far as the first entry whose rectangle is turned away |
| AtlasFits.FitAfter | imgui/imgui_draw.cpp:4036-4048 | a size that fails leads to the one that makes room for the rectangles seen there, or to none when growth has ended |
| Texture.Texture.BlockCopy | imgui/imgui_draw.cpp:2937-2947 | the block holds the source's pixels, and no other pixel changes |
| Atlas.Atlas.constructor | imgui/imgui_draw.cpp:4246-4259 | an empty atlas of the least size satisfies all invariants, with a packer of one node for every two columns |
| Atlas.Atlas.LiveRectanglesApart | imgui/imgui_draw.cpp:4323-4368 | live rectangles lie in the texture and are disjoint, padding included |
| Atlas.Atlas.PackOnce | imgui/imgui_draw.cpp:4337-4345 | one attempt is one step of the packer, and the coordinates survive their 16 bits |
| Atlas.Atlas.RepackOnce | imgui/imgui_draw.cpp:4006-4056 | a repack into a given size succeeds exactly when the packer, placing all live rectangles in the order of their entries, places them all, and then every handle keeps its size and pixels |
| Atlas.Atlas.Repack | imgui/imgui_draw.cpp:4006-4076 | every handle keeps its size and pixels in every outcome; the size becomes the first of the chain that all live rectangles fit, and exactly when there is none everything is put back and resizing stays disabled |
| Atlas.Atlas.Grow | imgui/imgui_draw.cpp:4078-4108 | the chain is followed from the next size on unless the bounds allow none, when nothing changes, and the recursion ends |
| Atlas.Atlas.MakeSpace | imgui/imgui_draw.cpp:4110-4122 | handles not given up survive; with less than a fifth of the packed surface discarded the texture grows if it can, otherwise it keeps its size if what is left after discarding fits it; in either case the size becomes the first in the chain that fits, and resizing stays disabled exactly when there is none; no count of discards goes back |
| Atlas.RoomySizeMeaning | imgui/imgui_draw.cpp:4117-4121 | where less than a fifth of the packed surface is discarded, the size aimed at is larger if the bounds allow; where no less is and everything left fits the present size, it is that one |
| Atlas.MadeRoomMeaning | imgui/imgui_draw.cpp:4110-4122 | so whenever room has been made the texture has grown, or resizing stays disabled, if too little was discarded, and has the size it had if enough was and everything left fits it |
| Atlas.Atlas.SurfaceConserved | imgui/imgui_draw.cpp:4309-4360 | what is packed and not counted as discarded is the surface of the live rectangles, padding included |
| Atlas.Atlas.FindRoom | imgui/imgui_draw.cpp:4335-4356 | a place is found, or there is none in the packer after making room three times, one list of handles given up each time, or once resizing is disabled; room is not made where there is some |
| Atlas.Atlas.AllocEntry | imgui/imgui_draw.cpp:4262-4285 | the new handle is made of the entry taken and its generation, the handles' invariants hold, and no count of discards changes |
| Atlas.Atlas.DiscardRect | imgui/imgui_draw.cpp:4296-4319 | the entry joins the free list with a new generation and is counted once more as discarded, the rectangle is emptied and its padded surface counted as discarded |
| Atlas.Atlas.GetRectSafe | imgui/imgui_draw.cpp:4384-4399 | a rectangle is found exactly for live handles, the entry's own and never an empty one |
| Atlas.Atlas.AddRect | imgui/imgui_draw.cpp:4323-4368 | the handle is new, live and of the size asked for, or there was no room even after room was made three times, or until resizing was disabled; where there is room none is made; handles not given up survive with their pixels; once growing has failed nothing is resized and rectangles are only added; no count of discards goes back, and every handle that died was discarded |
| Adler.NextOfResidues | imgui/imgui_draw.cpp:6096-6111 | reducing before a byte or after it makes no difference |
| Adler.ReduceOnce | imgui/imgui_draw.cpp:6096-6111 | reducing once after a run of bytes is reducing after each |
| Adler.BlockFits | imgui/imgui_draw.cpp:6091-6111 | no sum over up to 5552 bytes leaves 32 bits |
| Adler.Adler32 | imgui/imgui_draw.cpp:6087-6116 | the blocked, unrolled computation is the per-byte checksum of section 8.2 of RFC 1950 for every buffer, also when the first block is empty |
| Adler.ChecksumIsSums | imgui/imgui_draw.cpp:6087-6116 | the lower half is the sum of the bytes and the upper half their sum weighted by place, modulo 65521, as section 8.2 of RFC 1950 defines them |
| Adler.OneByteShows | imgui/imgui_draw.cpp:6087-6116 | buffers that differ in one byte have different checksums |
| Lz.CopyIsRead | imgui/imgui_draw.cpp:6070-6085 | each of the six codes for a copy is read as the distance and length it was written for |
| Lz.LiteralIsRead | imgui/imgui_draw.cpp:6070-6085 | each of the three codes for literals is read as the bytes written |
| Lz.PiecesAreRead | imgui/imgui_draw.cpp:6118-6148 | reading the codes of pieces appends what the pieces write |
| Lz.StreamIsRead | imgui/imgui_draw.cpp:6118-6148 | a stream of coded pieces decodes to what they write, whatever follows it in memory |
| Lz.DecodeChecks | imgui/imgui_draw.cpp:6118-6148 | what is accepted has the announced length and, behind the end mark where reading stops, its checksum |
| Decompressor.Match | imgui/imgui_draw.cpp:6048-6055 | the overlapping copy appends the periodic repetition of the last bytes; too long or too far back, it moves the end beyond the output instead |
| Decompressor.RepeatedNext | imgui/imgui_draw.cpp:6054 | the next byte of a repeat is the one a distance back, old or just written |
| Decompressor.Lit | imgui/imgui_draw.cpp:6057-6064 | the bytes are appended, or the end moves beyond the output |
| Decompressor.Token | imgui/imgui_draw.cpp:6070-6085 | one token does to the output what the piece read says |
| Decompressor.Decompress | imgui/imgui_draw.cpp:6118-6148 | the result is nonzero only for an accepted stream, the output is then its meaning, nothing behind it is touched, and the loop ends |
| Compressor.MatchLen | imgui/misc/fonts/binary_to_compressed_c.cpp:210-216 | the length is that of the longest agreement |
| Compressor.WorthwhileIffCode | imgui/misc/fonts/binary_to_compressed_c.cpp:259-264 | a match is worth its distance exactly when there is a code for it, up to the largest distance a code can hold |
| Compressor.RepeatIsCopy | imgui/misc/fonts/binary_to_compressed_c.cpp:309-313 | bytes that repeat earlier ones, overlapping or not, are what copying writes |
| Compressor.Compressor.OutLiterals | imgui/misc/fonts/binary_to_compressed_c.cpp:237-255 | the stream now writes the input up to the end of the literals, in as few pieces as there can be |
| Compressor.Compressor.OutMatch | imgui/misc/fonts/binary_to_compressed_c.cpp:334-372 | a match that is long enough and not too far back for a code is written behind the bytes before it, as one copy, and otherwise nothing is written and one byte is passed over |
| Compressor.Compressor.Try | imgui/misc/fonts/binary_to_compressed_c.cpp:308-313 | the best match stays a repeat worth its distance, as long as the place it is from allows, and no match at the place tried that is worth its distance is longer |
| Compressor.Compressor.FindMatch | imgui/misc/fonts/binary_to_compressed_c.cpp:299-329 | the match found is at one of the four places last seen with the same hashes and as long as its place allows, no match at any of them that is worth its distance is longer, and the table now leads to this place |
| Compressor.Compressor.CompressChunk | imgui/misc/fonts/binary_to_compressed_c.cpp:276-379 | all but the pending literals is written, the checksum is that of the input, and the copies written are the best matches of four, looked for behind each match taken or one byte on, up to the last twelve bytes |
| Compressor.Compressor.Compress | imgui/misc/fonts/binary_to_compressed_c.cpp:381-424 | the stream decodes to the input, for every input, window and hash functions, and its copies are the matches chosen |
| Base64.InitReverseTable | base64/src/base64.cpp:9-16 | the table maps each symbol to its value, padding to 64 and everything else to 255 |
| Base64.SymbolIsAlphabet | base64/src/base64.cpp:5 | the symbols are those of the alphabet, in its order |
| Base64.ValueCount | base64/src/base64.cpp:19-22 | the length reserved for the text is that of its values, with padding and without |
| Base64.Encode | base64/src/base64.cpp:18-51 | the text is the input's values in groups of four, as section 4 of RFC 4648 lays them out |
| Base64Decoder.Decode | base64/src/base64.cpp:53-87 | the loops read groups and report errors as the reading functions say |
| Base64Laws.GroupRead | base64/src/base64.cpp:61-80 | a group is read, or refused, as its values alone say |
| Base64Laws.DecodeMeaning | base64/src/base64.cpp:53-87 | what a text decodes to depends only on its values and on whether it ends in skipped characters |
| Base64Laws.RoundTrip | base64/src/base64.cpp:18-87 | decoding undoes encoding for all bytes, with padding and without |
| Base64Laws.Concatenation | base64/src/base64.cpp:53-87 | a padded encoding in front of any text puts its bytes in front |
| Base64Laws.Concatenations | base64/src/base64.cpp:53-87 | any number of padded encodings one after another decode to all their bytes |
| Base64Laws.LineBreaks | base64/src/base64.cpp:75-78 | skipped characters anywhere before the last character change nothing, errors included |
| Base64Laws.TrailingBreaks | base64/src/base64.cpp:64-69 | skipped characters at the end are an error exactly when the text before them decodes and its groups are complete |
| Base64Laws.DecodedIsClean | base64/src/base64.cpp:71-78 | a text with any other character is refused |
| GlyphRanges.BitOfOr | imgui/imgui.h:3571-3572 | setting a bit of a word sets that bit and no other |
| GlyphRanges.Builder.SetBit | imgui/imgui.h:3572 | exactly one code point is added to the set |
| GlyphRanges.Builder.GetBit | imgui/imgui.h:3571 | the answer is membership in the set |
| GlyphRanges.Builder.BuildRanges | imgui/imgui_draw.cpp:5052-5064 | the ranges are sorted, disjoint, maximal and cover exactly the set |
| GlyphRanges.Builder.AddRanges | imgui/imgui_draw.cpp:5045-5050 | exactly the code points of the ranges before the terminator, up to the largest, are added |
| GlyphRanges.RangesUnique | imgui/imgui_draw.cpp:5052-5064 | a set has only one list of ranges of this form |
| GlyphRanges.ListRestores | imgui/imgui_draw.cpp:5045-5064 | reading the list back gives the set if code point zero is not in it, and nothing otherwise |
| ArcSampler.PlanExact | imgui/imgui_draw.cpp:1155-1175 | the points up to the end of the range are exactly as many as planned |
| ArcSampler.StepIsLongest | imgui/imgui_draw.cpp:1148-1153 | a step asked for is kept up to a quarter of the circle; otherwise it is the longest up to there that takes as many segments around the circle as wanted |
| ArcSampler.OffsetsAdvance | imgui/imgui_draw.cpp:1155-1175 | points advance by at most a step from start to end, and with a shortened first step taken the first and last gaps differ by at most one |
| ArcSampler.ArcEnds | imgui/imgui_draw.cpp:1180-1227 | the first and last points are those of the start and end samples |
| ArcSampler.Path.WriteRegular | imgui/imgui_draw.cpp:1180-1215 | in both directions each table index is the sample's place on the circle and in range |
| ArcSampler.Path.PathArcToFast | imgui/imgui_draw.cpp:1140-1230 | exactly the planned points are appended, in both directions |

## Left out

- RectPacker.Context.constructor: takes targets no taller than 2^30, the height at which the sentinel node stands and below which the search looks for places; heights beyond it would also overflow the sums of 32 bits that the source compares them with.
- Coordinates, areas and waste are unbounded integers; the 32-bit overflow of the waste in very large targets is not modelled.
- The library sort is any order of the indices that obeys the comparison, passed in as `order`; which of several such orders it picks is not modelled.
- Callback user data copied into a buffer, draw flags other than vertex offsets, and the contents of vertices are not modelled; channels that were used before start out empty.
- Primitives.AddPolyline: takes antialiased lines that reserve fewer than 65536 vertices, as do the filled shapes; from there on the 16-bit vertex count would be cut and offset and number fall out of step. Lines of separate quads, which add four vertices at a time, are taken at any length. All vertices of a shape are written in one step where the source writes them point by point.
- Colours, normals, fringes' positions and texture coordinates are floating point and not modelled; visibility, line style and antialiasing are parameters.
- The two geometric tests of the triangulator are arbitrary functions of corner numbers, so nothing is said about which corners are ears of a real polygon.
- Atlas.Atlas.AddRect: of a rectangle added after growing has failed for good it says that it lies in the last size tried, which the packer still belongs to, and not that it lies in the texture put back or clear of older rectangles. The largest-bounds record and texture coordinates are not modelled.
- Atlas.Atlas.MakeSpace: which stale glyphs are discarded is an arbitrary list of handles, of which those still live are discarded; its threshold is the real number 0.2 and not its nearest float.
- Atlas.Atlas.AddRect: requires fewer than 2^19 entries and rectangles, which is what the index fields hold.
- Textures are kept as long as anything refers to them; the queue that destroys old ones, uploads and cached texture coordinates are not modelled.
- The decompressor does not check for the end of its input; bytes behind it read as zero here. Assertions are taken to be switched off, so that bad streams reach the checks behind them.
- The compressor's hash functions are arbitrary functions of the position, so how often equal bytes are found is not modelled; writing to a file instead of memory is left out, and inputs are shorter than 2^31.
- Characters of Base64 text are bytes from 0 to 255; the source indexes its table with a plain `char`, which may be negative on some platforms. Shifts and masks of bytes are written as division and remainder, and the reverse table is filled on every call.
- UTF-8 text added to the glyph ranges is not modelled, nor is a list without a terminator.
- The number of segments for a radius and the test for a tiny radius are parameters of the arc sampler.
- Glyph rasterisation, font loading, text layout, widgets, the Android package parser, telemetry, JNI and windowing are not modelled.
