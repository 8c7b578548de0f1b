// Which indices and vertices the filled and stroked shapes reserve and write.
module Primitives {
  import opened DrawTrace
  import opened DrawList
  import opened EarClipping
  import opened Triangulator

  /** Strokes */

  // Lines drawn from a texture, hairlines with a fringe, thick lines with a fringe, and lines
  // made of separate quads.
  datatype Style = Textured | Thin | Thick | Plain

  // Vertices for each point of the line, or for each segment of a plain one.
  function Stride(s: Style): nat { match s case Textured => 2 case Thin => 3 case Thick => 4 case Plain => 4 }

  // Indices for each segment.
  function Length(s: Style): nat { match s case Textured => 6 case Thin => 12 case Thick => 18 case Plain => 6 }

  // The triangles of one segment, between the vertices from a on and those from b on.
  function Segment(s: Style, a: int, b: int): (r: seq<int>)
    ensures |r| == Length(s)
  {
    match s
    case Textured => [b, a, a + 1, b + 1, a + 1, b]
    case Thin => [b, a, a + 2, a + 2, b + 2, b, b + 1, a + 1, a, a, b, b + 1]
    case Thick => [b + 1, a + 1, a + 2, a + 2, b + 2, b + 1, b + 1, a + 1, a, a, b, b + 1,
                   b + 2, a + 2, a + 3, a + 3, b + 3, b + 2]
    case Plain => [a, a + 1, a + 2, a, a + 2, a + 3]
  }

  // Where the vertices of point i of n start; after the last point comes the first again.
  function VertexOf(s: Style, base: int, n: nat, i: nat): int { if i == n then base else base + Stride(s) * i }

  // The first m segments of a line through n points.
  function Strip(s: Style, base: int, n: nat, m: nat): seq<int> {
    if m == 0 then [] else Strip(s, base, n, m - 1) + Segment(s, base + Stride(s) * (m - 1), VertexOf(s, base, n, m))
  }

  lemma {:induction false} StripLength(s: Style, base: int, n: nat, m: nat)
    ensures |Strip(s, base, n, m)| == Length(s) * m
  {
    hide Segment, VertexOf;
    if m > 0 { StripLength(s, base, n, m - 1); }
  }

  function Count(n: nat, closed: bool): int { if closed then n else n - 1 }

  function Vertices(s: Style, n: nat, closed: bool): int { Stride(s) * if s.Plain? then Count(n, closed) else n }

  // Every triangle has three different vertices, all of them vertices of its segment's two ends.
  lemma {:induction false} StripMeaning(s: Style, base: int, n: nat, m: nat, i: nat, k: nat)
    requires i < m <= n && n >= 2 && 3 * k + 2 < Length(s)
    ensures Length(s) * i + 3 * k + 2 < |Strip(s, base, n, m)|
    ensures var ix, at := Strip(s, base, n, m), Length(s) * i + 3 * k;
      var a, b := base + Stride(s) * i, VertexOf(s, base, n, i + 1);
      && ix[at] != ix[at + 1] && ix[at + 1] != ix[at + 2] && ix[at] != ix[at + 2]
      && (forall j :: at <= j < at + 3 ==>
            a <= ix[j] < a + Stride(s) || (!s.Plain? && b <= ix[j] < b + Stride(s)))
    decreases m
  {
    hide Segment;
    StripLength(s, base, n, m - 1);
    if i < m - 1 {
      StripMeaning(s, base, n, m - 1, i, k);
    } else {
      SegmentMeaning(s, base + Stride(s) * i, VertexOf(s, base, n, i + 1), k);
      BlocksApart(s, n, i);
    }
  }

  /** Quads */

  // How often an edge bounds the two triangles that cut the quad p q r t along diagonal d.
  function QuadEdges(p: int, q: int, r: int, t: int, d: Edge, e: Edge): nat {
    if e == Between(p, q) || e == Between(q, r) || e == Between(r, t) || e == Between(t, p) then 1
    else if e == d then 2 else 0
  }

  // Six indices from `at` on are two triangles that cut the quad of these corners in two: each of
  // its sides bounds one of them, one diagonal bounds both, and no other edge occurs.
  ghost predicate CutsQuad(ix: seq<int>, at: int, quad: seq<int>) {
    && 0 <= at && at + 6 <= |ix| && |quad| == 4
    && (forall i, j :: 0 <= i < j < 4 ==> quad[i] != quad[j])
    && var two := [Tri(ix[at], ix[at+1], ix[at+2]), Tri(ix[at+3], ix[at+4], ix[at+5])];
       || (forall e :: EdgeCount(two, e) ==
             QuadEdges(quad[0], quad[1], quad[2], quad[3], Between(quad[0], quad[2]), e))
       || (forall e :: EdgeCount(two, e) ==
             QuadEdges(quad[0], quad[1], quad[2], quad[3], Between(quad[1], quad[3]), e))
  }

  lemma EdgesNext(ts: seq<Tri>, t: Tri, e: Edge)
    ensures EdgeCount([], e) == 0
    ensures EdgeCount(ts + [t], e) == EdgeCount(ts, e) + (if Between(t.a, t.b) == e then 1 else 0)
      + (if Between(t.b, t.c) == e then 1 else 0) + (if Between(t.a, t.c) == e then 1 else 0)
  {
    assert (ts + [t])[..|ts|] == ts;
  }

  lemma EdgesOfTwo(t: Tri, u: Tri, e: Edge)
    ensures EdgeCount([t, u], e) ==
      (if Between(t.a, t.b) == e then 1 else 0) + (if Between(t.b, t.c) == e then 1 else 0)
      + (if Between(t.a, t.c) == e then 1 else 0) + (if Between(u.a, u.b) == e then 1 else 0)
      + (if Between(u.b, u.c) == e then 1 else 0) + (if Between(u.a, u.c) == e then 1 else 0)
  {
    assert [t, u] == [t] + [u];
    EdgesNext([t], u, e);
    assert [t] == [] + [t];
    EdgesNext([], t, e);
  }

  // Two triangles on either side of the diagonal between q and t, their corners in some order.
  lemma TwoCut(ix: seq<int>, at: int, p: int, q: int, r: int, t: int)
    requires p != q && p != r && p != t && q != r && q != t && r != t && 0 <= at && at + 6 <= |ix|
    requires
      || (ix[at..at+6] == [t, p, q, r, q, t])
      || (ix[at..at+6] == [t, p, q, q, r, t])
      || (ix[at..at+6] == [r, q, p, p, t, r])
      || (ix[at..at+6] == [p, q, r, p, r, t])
    ensures CutsQuad(ix, at, [p, q, r, t])
  {
    hide EdgeCount;
    var six := ix[at..at+6];
    var v, w := Tri(six[0], six[1], six[2]), Tri(six[3], six[4], six[5]);
    assert v == Tri(ix[at], ix[at+1], ix[at+2]) && w == Tri(ix[at+3], ix[at+4], ix[at+5]);
    forall e { EdgesOfTwo(v, w, e); }
  }

  // Between which of a point's vertices quad k of a segment runs.
  function Rows(s: Style, k: nat): (int, int) {
    match s
    case Textured => (0, 1)
    case Thin => if k == 0 then (0, 2) else (0, 1)
    case Thick => if k == 0 then (1, 2) else if k == 1 then (0, 1) else (2, 3)
    case Plain => (0, 1)
  }

  // The corners of quad k, going round: one row from the near end to the far end and the other
  // back, or the four vertices of a plain segment.
  function QuadOf(s: Style, a: int, b: int, k: nat): (q: seq<int>)
    ensures |q| == 4
  {
    var (i, j) := Rows(s, k);
    if s.Plain? then [a, a + 1, a + 2, a + 3] else [a + i, a + j, b + j, b + i]
  }

  lemma ThinQuads(a: int, b: int, k: nat)
    requires k < 2 && (b >= a + 3 || a >= b + 3)
    ensures CutsQuad(Segment(Thin, a, b), 6 * k, QuadOf(Thin, a, b, k))
  {
    hide CutsQuad;
    if k == 0 {
      TwoCut(Segment(Thin, a, b), 0, a, a + 2, b + 2, b);
    } else {
      TwoCut(Segment(Thin, a, b), 6, a, a + 1, b + 1, b);
    }
  }

  lemma ThickQuads(a: int, b: int, k: nat)
    requires k < 3 && (b >= a + 4 || a >= b + 4)
    ensures CutsQuad(Segment(Thick, a, b), 6 * k, QuadOf(Thick, a, b, k))
  {
    hide CutsQuad;
    if k == 0 {
      TwoCut(Segment(Thick, a, b), 0, a + 1, a + 2, b + 2, b + 1);
    } else if k == 1 {
      TwoCut(Segment(Thick, a, b), 6, a, a + 1, b + 1, b);
    } else {
      TwoCut(Segment(Thick, a, b), 12, a + 2, a + 3, b + 3, b + 2);
    }
  }

  lemma SegmentQuads(s: Style, a: int, b: int, k: nat)
    requires 6 * k + 6 <= Length(s) && (b >= a + Stride(s) || a >= b + Stride(s))
    ensures CutsQuad(Segment(s, a, b), 6 * k, QuadOf(s, a, b, k))
  {
    hide CutsQuad;
    match s
    case Textured => TwoCut(Segment(s, a, b), 0, a, a + 1, b + 1, b);
    case Thin => ThinQuads(a, b, k);
    case Thick => ThickQuads(a, b, k);
    case Plain => TwoCut(Segment(s, a, b), 0, a, a + 1, a + 2, a + 3);
  }

  lemma SameSix(ix: seq<int>, at: int, ix': seq<int>, at': int, quad: seq<int>)
    requires 0 <= at' && at' + 6 <= |ix'| && CutsQuad(ix, at, quad) && ix[at..at+6] == ix'[at'..at'+6]
    ensures CutsQuad(ix', at', quad)
  {
    hide EdgeCount, QuadEdges;
    var six, six' := ix[at..at+6], ix'[at'..at'+6];
    assert six[0] == six'[0] && six[1] == six'[1] && six[2] == six'[2];
    assert six[3] == six'[3] && six[4] == six'[4] && six[5] == six'[5];
  }

  // The triangles of every segment of a line, two by two, cut the segment's quads.
  lemma {:induction false} StripQuads(s: Style, base: int, n: nat, m: nat, i: nat, k: nat)
    requires i < m <= n && n >= 2 && 6 * k + 6 <= Length(s)
    ensures var a, b := base + Stride(s) * i, VertexOf(s, base, n, i + 1);
      CutsQuad(Strip(s, base, n, m), Length(s) * i + 6 * k, QuadOf(s, a, b, k))
    decreases m
  {
    hide Segment, CutsQuad, QuadOf, Length, Strip, VertexOf;
    var a, b := base + Stride(s) * i, VertexOf(s, base, n, i + 1);
    var at, front := Length(s) * i + 6 * k, Strip(s, base, n, m - 1);
    var last := Segment(s, base + Stride(s) * (m - 1), VertexOf(s, base, n, m));
    StripNext(s, base, n, m - 1);
    StripLength(s, base, n, m - 1);
    if i < m - 1 {
      StripQuads(s, base, n, m - 1, i, k);
      CutsInFront(front, last, at, QuadOf(s, a, b, k));
    } else {
      SegmentCut(s, base, n, i, k);
      CutsBehind(front, last, 6 * k, QuadOf(s, a, b, k));
    }
  }

  lemma SegmentCut(s: Style, base: int, n: nat, i: nat, k: nat)
    requires i < n && n >= 2 && 6 * k + 6 <= Length(s)
    ensures var a, b := base + Stride(s) * i, VertexOf(s, base, n, i + 1);
      CutsQuad(Segment(s, a, b), 6 * k, QuadOf(s, a, b, k))
  {
    hide Segment, CutsQuad, QuadOf;
    BlocksApart(s, n, i);
    SegmentQuads(s, base + Stride(s) * i, VertexOf(s, base, n, i + 1), k);
  }

  lemma CutsInFront(ix: seq<int>, more: seq<int>, at: int, quad: seq<int>)
    requires CutsQuad(ix, at, quad)
    ensures CutsQuad(ix + more, at, quad)
  {
    hide EdgeCount, QuadEdges;
  }

  lemma CutsBehind(front: seq<int>, ix: seq<int>, at: int, quad: seq<int>)
    requires CutsQuad(ix, at, quad)
    ensures CutsQuad(front + ix, |front| + at, quad)
  {
    hide EdgeCount, QuadEdges;
    SliceBehind(front, ix, at);
    SameSix(ix, at, front + ix, |front| + at, quad);
  }

  lemma SliceBehind(front: seq<int>, ix: seq<int>, at: nat)
    requires at + 6 <= |ix|
    ensures ix[at..at+6] == (front + ix)[|front| + at..|front| + at + 6]
  {
  }

  lemma BlocksApart(s: Style, n: nat, i: nat)
    requires i < n && n >= 2
    ensures var a, b := Stride(s) * i, VertexOf(s, 0, n, i + 1); b >= a + Stride(s) || a >= b + Stride(s)
  {
  }

  lemma SegmentMeaning(s: Style, a: int, b: int, k: nat)
    requires 3 * k + 2 < Length(s) && (b >= a + Stride(s) || a >= b + Stride(s))
    ensures var r := Segment(s, a, b);
      && r[3 * k] != r[3 * k + 1] && r[3 * k + 1] != r[3 * k + 2] && r[3 * k] != r[3 * k + 2]
      && (forall j :: 3 * k <= j < 3 * k + 3 ==>
            a <= r[j] < a + Stride(s) || (!s.Plain? && b <= r[j] < b + Stride(s)))
  {
  }

  // No index leaves the line's own vertices.
  lemma {:induction false} StripInRange(s: Style, base: int, n: nat, m: nat, closed: bool)
    requires m <= Count(n, closed) && n >= 2
    ensures forall j :: 0 <= j < |Strip(s, base, n, m)| ==>
      base <= Strip(s, base, n, m)[j] < base + Vertices(s, n, closed)
  {
    hide Segment;
    if m > 0 {
      StripInRange(s, base, n, m - 1, closed);
      Within(s, m, n);
      SegmentInRange(s, base + Stride(s) * (m - 1), VertexOf(s, base, n, m), base, base + Vertices(s, n, closed));
    }
  }

  lemma SegmentInRange(s: Style, a: int, b: int, lo: int, hi: int)
    requires lo <= a && a + Stride(s) <= hi && (s.Plain? || (lo <= b && b + Stride(s) <= hi))
    ensures forall j :: 0 <= j < |Segment(s, a, b)| ==> lo <= Segment(s, a, b)[j] < hi
  {
  }

  lemma Within(s: Style, m: nat, n: nat)
    requires 0 < m <= n
    ensures 0 <= Stride(s) * (m - 1) && Stride(s) * (m - 1) + Stride(s) == Stride(s) * m <= Stride(s) * n
    ensures m < n ==> Stride(s) * m + Stride(s) <= Stride(s) * n
  {
  }

  // Indices that fit in 16 bits are not changed by cutting them to 16 bits.
  lemma NarrowFits(ix: seq<int>, lo: int, hi: int)
    requires 0 <= lo && hi <= 65536 && forall i :: 0 <= i < |ix| ==> lo <= ix[i] < hi
    ensures Narrow(ix) == ix
  {
  }

  /** Drawing */

  // A shape with this code and this many vertices has been added to the list, and its vertices
  // are the last ones.
  twostate predicate Drew(dl: DrawList, code: seq<int>, vtxs: int)
    reads dl
  {
    && dl.idxBuffer == old(dl.idxBuffer) + Narrow(code) && dl.log == old(dl.log) + Repeat(dl.header, |code|)
    && dl.vtxCount == old(dl.vtxCount) + vtxs && dl.vtxCurrentIdx >= vtxs
    && dl.header == old(dl.header).(vtxOffset := dl.header.vtxOffset)
    && (dl.allowVtxOffset && vtxs < 65536 ==> dl.vtxCurrentIdx < 65536)
  }

  // Where a shape's own vertices start.
  function Base(dl: DrawList, vtxs: int): int
    reads dl
  {
    dl.vtxCurrentIdx - vtxs
  }

  method AddPolyline(dl: DrawList, n: int, visible: bool, closed: bool, antialiased: bool, useTexture: bool,
                     thick: bool)
    requires dl.Valid() && dl.Settled()
    requires n >= 2 && visible && antialiased ==> Vertices(StyleOf(true, useTexture, thick), n, closed) < 65536
    modifies dl
    ensures dl.Valid() && dl.Settled() && dl.allowVtxOffset == old(dl.allowVtxOffset)
    ensures n < 2 || !visible ==>
      dl.idxBuffer == old(dl.idxBuffer) && dl.log == old(dl.log) && dl.vtxCount == old(dl.vtxCount)
    ensures n >= 2 && visible ==>
      var s := StyleOf(antialiased, useTexture, thick);
      var v := Vertices(s, n, closed);
      Drew(dl, Strip(s, Base(dl, v), n, Count(n, closed)), v)
  {
    hide DrawList.Valid, DrawList.Settled, Drew, Strip;
    if n < 2 || !visible {
      return;
    }
    var count := if closed then n else n - 1;
    if antialiased {
      var idxs := if useTexture then count * 6 else if thick then count * 18 else count * 12;
      var vtxs := if useTexture then n * 2 else if thick then n * 4 else n * 3;
      AddJoined(dl, if useTexture then Textured else if thick then Thick else Thin, n, closed, idxs, vtxs);
    } else {
      AddPlain(dl, n, closed);
    }
  }

  method AddJoined(dl: DrawList, s: Style, n: nat, closed: bool, idxs: int, vtxs: int)
    requires dl.Valid() && dl.Settled() && n >= 2 && !s.Plain?
    requires idxs == Length(s) * Count(n, closed) && vtxs == Vertices(s, n, closed) < 65536
    modifies dl
    ensures dl.Valid() && dl.Settled() && dl.allowVtxOffset == old(dl.allowVtxOffset)
    ensures Drew(dl, Strip(s, Base(dl, vtxs), n, Count(n, closed)), vtxs)
  {
    hide Repeat, Strip, Segment, Records, Length;
    var count := if closed then n else n - 1;
    LengthNext(s, 0, count);
    dl.PrimReserve(idxs, vtxs, seq(idxs, i => 0));
    StripLength(s, dl.vtxCurrentIdx, n, count);
    StrokeJoined(dl, s, n, count);
    dl.PrimWriteVtxs(vtxs);
    assert dl.idxBuffer[..dl.idxWrite] == dl.idxBuffer;
  }

  method AddPlain(dl: DrawList, n: nat, closed: bool)
    requires dl.Valid() && dl.Settled() && n >= 2
    modifies dl
    ensures dl.Valid() && dl.Settled() && dl.allowVtxOffset == old(dl.allowVtxOffset)
    ensures
      var v := Vertices(Plain, n, closed);
      Drew(dl, Strip(Plain, Base(dl, v), n, Count(n, closed)), v)
  {
    hide Repeat, Strip, Records;
    var count := if closed then n else n - 1;
    dl.PrimReserve(count * 6, count * 4, seq(count * 6, i => 0));
    StripLength(Plain, dl.vtxCurrentIdx, n, count);
    StrokePlain(dl, n, count);
  }

  function StyleOf(antialiased: bool, useTexture: bool, thick: bool): Style {
    if !antialiased then Plain else if useTexture then Textured else if thick then Thick else Thin
  }

  // The indices of a line whose segments share vertices.
  method StrokeJoined(dl: DrawList, s: Style, n: nat, count: nat)
    requires dl.Valid() && 2 <= n && count <= n && !s.Plain? && dl.idxWrite + Length(s) * count <= |dl.idxBuffer|
    modifies dl`idxWrite, dl`idxBuffer
    ensures dl.Valid() && |dl.idxBuffer| == |old(dl.idxBuffer)| && dl.idxWrite == old(dl.idxWrite) + Length(s) * count
    ensures dl.idxBuffer[..dl.idxWrite] ==
      old(dl.idxBuffer[..dl.idxWrite]) + Narrow(Strip(s, dl.vtxCurrentIdx, n, count))
  {
    hide Records, Segment, Strip, Narrow, Length;
    var idx1 := dl.vtxCurrentIdx;
    ghost var base := dl.vtxCurrentIdx;
    StripNone(s, base, n);
    dl.WritesInRange();
    var i1 := 0;
    while i1 < count
      invariant 0 <= i1 <= count && dl.Valid() && dl.vtxCurrentIdx == base && idx1 == VertexOf(s, base, n, i1)
      invariant |dl.idxBuffer| == |old(dl.idxBuffer)| && dl.idxWrite == old(dl.idxWrite) + Length(s) * i1
      invariant 0 <= dl.idxWrite <= |dl.idxBuffer|
      invariant dl.idxBuffer[..dl.idxWrite] == old(dl.idxBuffer[..dl.idxWrite]) + Narrow(Strip(s, base, n, i1))
    {
      var idx2 := if i1 + 1 == n then dl.vtxCurrentIdx else idx1 + Stride(s);
      StripNext(s, base, n, i1);
      LengthNext(s, i1, count);
      NarrowJoin(Strip(s, base, n, i1), Segment(s, idx1, idx2));
      dl.PrimWriteIdxs(Segment(s, idx1, idx2));
      idx1 := idx2;
      i1 := i1 + 1;
    }
  }

  lemma StripNone(s: Style, base: int, n: nat)
    ensures Strip(s, base, n, 0) == [] && Narrow([]) == [] && Length(s) * 0 == 0
  {
  }

  lemma StripNext(s: Style, base: int, n: nat, i: nat)
    ensures Strip(s, base, n, i + 1) ==
      Strip(s, base, n, i) + Segment(s, base + Stride(s) * i, VertexOf(s, base, n, i + 1))
    ensures i + 1 < n ==> VertexOf(s, base, n, i + 1) == VertexOf(s, base, n, i) + Stride(s)
    ensures i < n ==> VertexOf(s, base, n, i) == base + Stride(s) * i
  {
  }

  lemma LengthNext(s: Style, i: nat, count: nat)
    requires i < count
    ensures Length(s) * (i + 1) == Length(s) * i + Length(s) <= Length(s) * count
  {
  }

  // A line of separate quads, with its vertices.
  method StrokePlain(dl: DrawList, n: nat, count: nat)
    requires dl.Valid() && dl.idxWrite + 6 * count == |dl.idxBuffer| && dl.vtxWrite + 4 * count == dl.vtxCount
    requires 2 <= n && count <= n
    modifies dl`idxWrite, dl`idxBuffer, dl`vtxWrite, dl`vtxCurrentIdx
    ensures dl.Valid() && dl.Settled() && |dl.idxBuffer| == |old(dl.idxBuffer)|
    ensures dl.vtxCurrentIdx == old(dl.vtxCurrentIdx) + 4 * count
    ensures dl.idxBuffer == old(dl.idxBuffer[..dl.idxWrite]) + Narrow(Strip(Plain, old(dl.vtxCurrentIdx), n, count))
  {
    hide Records, Strip;
    ghost var base := dl.vtxCurrentIdx;
    StripNone(Plain, base, n);
    dl.WritesInRange();
    var i1 := 0;
    while i1 < count
      invariant 0 <= i1 <= count && dl.Valid() && dl.vtxCurrentIdx == base + 4 * i1
      invariant dl.vtxWrite == old(dl.vtxWrite) + 4 * i1
      invariant |dl.idxBuffer| == |old(dl.idxBuffer)| && dl.idxWrite == old(dl.idxWrite) + 6 * i1
      invariant 0 <= dl.idxWrite <= |dl.idxBuffer|
      invariant dl.idxBuffer[..dl.idxWrite] == old(dl.idxBuffer[..dl.idxWrite]) + Narrow(Strip(Plain, base, n, i1))
    {
      var v := dl.vtxCurrentIdx;
      var code := [v, v + 1, v + 2, v, v + 2, v + 3];
      StripNext(Plain, base, n, i1);
      NarrowJoin(Strip(Plain, base, n, i1), code);
      dl.PrimWriteIdxs(code);
      dl.PrimWriteVtxs(4);
      i1 := i1 + 1;
    }
    assert dl.idxBuffer[..dl.idxWrite] == dl.idxBuffer;
  }

  // With vertex offsets allowed, no index of a line of fewer than 65536 vertices is cut, and all
  // are its own vertices.
  twostate lemma LineKeepsItsIndices(dl: DrawList, s: Style, n: nat, closed: bool)
    requires n >= 2 && dl.allowVtxOffset && Vertices(s, n, closed) < 65536
    requires Drew(dl, Strip(s, Base(dl, Vertices(s, n, closed)), n, Count(n, closed)), Vertices(s, n, closed))
    ensures dl.idxBuffer == old(dl.idxBuffer) + Strip(s, Base(dl, Vertices(s, n, closed)), n, Count(n, closed))
  {
    var base := Base(dl, Vertices(s, n, closed));
    StripInRange(s, base, n, Count(n, closed), closed);
    NarrowFits(Strip(s, base, n, Count(n, closed)), base, base + Vertices(s, n, closed));
  }

  /** Fills */

  // The triangles of a convex polygon: all at corner 0.
  function Fan(m: nat): (ts: seq<Tri>)
    ensures |ts| == m
  {
    if m == 0 then [] else Fan(m - 1) + [Tri(0, m, m + 1)]
  }

  function FanMoves(m: nat): (moves: seq<Move>)
    ensures |moves| == m
  {
    if m == 0 then [] else FanMoves(m - 1) + [Move.Clip(1)]
  }

  // A fan is what clipping off the second corner over and over leaves behind.
  lemma {:induction false} FanIsClipping(n: nat, m: nat)
    requires n >= 3 && m <= n - 2
    ensures Legal(n, FanMoves(m)) && Clips(FanMoves(m)) == m && Triangles(n, FanMoves(m)) == Fan(m)
    ensures var r := RingAfter(n, FanMoves(m));
      |r| == n - m && r[0] == 0 && forall i :: 1 <= i < |r| ==> r[i] == m + i
  {
    hide Legal, RingAfter, Triangles, Clips, TriAt, Remove;
    if m == 0 {
      NothingYet(n);
      NothingClipped(n);
    } else {
      FanIsClipping(n, m - 1);
      var r := RingAfter(n, FanMoves(m - 1));
      ClipNext(n, FanMoves(m - 1), 1);
      SecondCorner(r, m);
    }
  }

  lemma NothingClipped(n: nat)
    requires n >= 3
    ensures Legal(n, []) && RingAfter(n, []) == Polygon(n) && Clips([]) == 0
  {
  }

  // Clipping off the second of the corners 0, m, m + 1 and so on.
  lemma SecondCorner(r: seq<int>, m: nat)
    requires |r| >= 3 && m >= 1 && r[0] == 0 && forall i :: 1 <= i < |r| ==> r[i] == m - 1 + i
    ensures TriAt(r, 1) == Tri(0, m, m + 1)
    ensures var s := Remove(r, 1); |s| == |r| - 1 && s[0] == 0 && forall i :: 1 <= i < |s| ==> s[i] == m + i
  {
  }

  // So a fan triangulates the polygon.
  lemma FanTriangulates(n: nat)
    requires n >= 3
    ensures IsTriangulation(n, Fan(n - 2))
  {
    hide Legal, Triangles, RingAfter, IsTriangulation, Clips;
    FanIsClipping(n, n - 2);
    FullRun(n, FanMoves(n - 3), 1);
  }

  // The first vertex of corner v.
  function Corner(base: int, scale: nat, v: int): int { base + scale * v }

  // The code of triangles between corners, every corner having `scale` vertices.
  function FillCode(ts: seq<Tri>, base: int, scale: nat): (r: seq<int>)
    ensures |r| == 3 * |ts|
  {
    if ts == [] then []
    else
      var t := ts[|ts|-1];
      FillCode(ts[..|ts|-1], base, scale) +
        [Corner(base, scale, t.a), Corner(base, scale, t.b), Corner(base, scale, t.c)]
  }

  function Preceding(i: nat, n: nat): int { if i == 0 then n - 1 else i - 1 }

  function Quad(base: int, i0: int, i1: int): (r: seq<int>)
    ensures |r| == 6
  {
    [base + 2 * i1, base + 2 * i0, base + 1 + 2 * i0, base + 1 + 2 * i0, base + 1 + 2 * i1, base + 2 * i1]
  }

  // The quads along the first m sides, between their inner and outer vertices.
  function Fringe(base: int, n: nat, m: nat): (r: seq<int>)
    ensures |r| == 6 * m
  {
    if m == 0 then [] else Fringe(base, n, m - 1) + Quad(base, Preceding(m - 1, n), m - 1)
  }

  // The triangles of the fringe, two by two, cut the quads between the inner and outer vertices of a
  // side's two corners.
  lemma {:induction false} FringeQuads(base: int, n: nat, m: nat, i: nat)
    requires i < m <= n && n >= 2
    ensures var a, b := base + 2 * Preceding(i, n), base + 2 * i;
      CutsQuad(Fringe(base, n, m), 6 * i, [a, a + 1, b + 1, b])
    decreases m
  {
    hide CutsQuad, Quad;
    var a, b := base + 2 * Preceding(i, n), base + 2 * i;
    var ix, front, last := Fringe(base, n, m), Fringe(base, n, m - 1), Quad(base, Preceding(m - 1, n), m - 1);
    if i < m - 1 {
      FringeQuads(base, n, m - 1, i);
      assert front[6*i..6*i+6] == ix[6*i..6*i+6];
      SameSix(front, 6 * i, ix, 6 * i, [a, a + 1, b + 1, b]);
    } else {
      QuadIsCut(base, Preceding(i, n), i);
      assert last[0..6] == ix[6*i..6*i+6];
      SameSix(last, 0, ix, 6 * i, [a, a + 1, b + 1, b]);
    }
  }

  lemma QuadIsCut(base: int, i0: int, i1: int)
    requires i0 != i1
    ensures var a, b := base + 2 * i0, base + 2 * i1; CutsQuad(Quad(base, i0, i1), 0, [a, a + 1, b + 1, b])
  {
    hide CutsQuad;
    var a, b := base + 2 * i0, base + 2 * i1;
    TwoCut(Quad(base, i0, i1), 0, a, a + 1, b + 1, b);
  }

  // The whole code of a filled polygon whose inside is made of these triangles.
  function PolyCode(ts: seq<Tri>, base: int, n: nat, fringed: bool): seq<int> {
    if fringed then FillCode(ts, base, 2) + Fringe(base, n, n) else FillCode(ts, base, 1)
  }

  ghost predicate OfPolygon(ts: seq<Tri>, n: nat) {
    forall i :: 0 <= i < |ts| ==> 0 <= ts[i].a < n && 0 <= ts[i].b < n && 0 <= ts[i].c < n
  }

  lemma {:induction false} FillInRange(ts: seq<Tri>, base: int, scale: nat, n: nat)
    requires OfPolygon(ts, n) && 1 <= scale <= 2
    ensures forall j :: 0 <= j < |FillCode(ts, base, scale)| ==> base <= FillCode(ts, base, scale)[j] < base + scale * n
  {
    if ts != [] { FillInRange(ts[..|ts|-1], base, scale, n); }
  }

  lemma {:induction false} FringeInRange(base: int, n: nat, m: nat)
    requires m <= n
    ensures forall j :: 0 <= j < |Fringe(base, n, m)| ==> base <= Fringe(base, n, m)[j] < base + 2 * n
  {
    if m > 0 { FringeInRange(base, n, m - 1); }
  }

  // With vertex offsets allowed, no index of a fill of fewer than 65536 vertices is cut, and all
  // are its own vertices.
  twostate lemma FillKeepsItsIndices(dl: DrawList, ts: seq<Tri>, n: nat, fringed: bool)
    requires dl.allowVtxOffset && OfPolygon(ts, n) && (if fringed then 2 * n else n) < 65536
    requires Drew(dl, PolyCode(ts, Base(dl, if fringed then 2 * n else n), n, fringed), if fringed then 2 * n else n)
    ensures dl.idxBuffer == old(dl.idxBuffer) + PolyCode(ts, Base(dl, if fringed then 2 * n else n), n, fringed)
  {
    hide FillCode, Fringe;
    var v := if fringed then 2 * n else n;
    var base := Base(dl, v);
    FillInRange(ts, base, if fringed then 2 else 1, n);
    FringeInRange(base, n, n);
    NarrowFits(PolyCode(ts, base, n, fringed), base, base + v);
  }

  method AddConvexPolyFilled(dl: DrawList, n: nat, visible: bool, antialiased: bool)
    requires dl.Valid() && dl.Settled()
    requires n >= 3 && visible ==> (if antialiased then 2 * n else n) < 65536
    modifies dl
    ensures dl.Valid() && dl.Settled() && dl.allowVtxOffset == old(dl.allowVtxOffset)
    ensures n < 3 || !visible ==>
      dl.idxBuffer == old(dl.idxBuffer) && dl.log == old(dl.log) && dl.vtxCount == old(dl.vtxCount)
    ensures n >= 3 && visible ==>
      var v := if antialiased then 2 * n else n;
      Drew(dl, PolyCode(Fan(n - 2), Base(dl, v), n, antialiased), v)
  {
    hide DrawList.Valid, DrawList.Settled, Drew, Fan, FillCode, Fringe;
    if n < 3 || !visible {
      return;
    }
    if antialiased {
      ghost var _ := AddFringed(dl, n, Inside.Convex);
    } else {
      ghost var _ := AddBare(dl, n, Inside.Convex);
    }
  }

  // How the inside is cut up: as a fan, or by clipping ears under some geometry.
  datatype Inside = Convex | Concave(clockwise: (int, int, int) -> bool, containsPoint: (int, int, int, int) -> bool)

  ghost predicate CutUp(inside: Inside, n: nat, tris: seq<Tri>) {
    match inside
    case Convex => n >= 2 && tris == Fan(n - 2)
    case Concave(clockwise, containsPoint) => EarClipped(clockwise, containsPoint, n, tris)
  }

  method AddConcavePolyFilled(dl: DrawList, n: nat, visible: bool, antialiased: bool,
                              clockwise: (int, int, int) -> bool, containsPoint: (int, int, int, int) -> bool)
    returns (ghost tris: seq<Tri>)
    requires dl.Valid() && dl.Settled()
    requires n >= 3 && visible ==> (if antialiased then 2 * n else n) < 65536
    modifies dl
    ensures dl.Valid() && dl.Settled() && dl.allowVtxOffset == old(dl.allowVtxOffset)
    ensures n < 3 || !visible ==>
      dl.idxBuffer == old(dl.idxBuffer) && dl.log == old(dl.log) && dl.vtxCount == old(dl.vtxCount)
    ensures n >= 3 && visible ==>
      var v := if antialiased then 2 * n else n;
      && IsTriangulation(n, tris) && EarClipped(clockwise, containsPoint, n, tris)
      && Drew(dl, PolyCode(tris, Base(dl, v), n, antialiased), v)
  {
    hide DrawList.Valid, DrawList.Settled, Drew, FillCode, Fringe, IsTriangulation, EarClipped;
    if n < 3 || !visible {
      return [];
    }
    if antialiased {
      tris := AddFringed(dl, n, Inside.Concave(clockwise, containsPoint));
    } else {
      tris := AddBare(dl, n, Inside.Concave(clockwise, containsPoint));
    }
  }

  method AddFringed(dl: DrawList, n: nat, inside: Inside) returns (ghost tris: seq<Tri>)
    requires dl.Valid() && dl.Settled() && 3 <= n && 2 * n < 65536
    modifies dl
    ensures dl.Valid() && dl.Settled() && dl.allowVtxOffset == old(dl.allowVtxOffset)
    ensures IsTriangulation(n, tris) && CutUp(inside, n, tris)
    ensures Drew(dl, PolyCode(tris, Base(dl, 2 * n), n, true), 2 * n)
  {
    hide Repeat, Fan, FillCode, Fringe, Records, IsTriangulation, CutUp, Quad, Narrow;
    dl.PrimReserve((n - 2) * 3 + n * 6, n * 2, seq((n - 2) * 3 + n * 6, i => 0));
    ghost var base := dl.vtxCurrentIdx;
    tris := FillInside(dl, n, 2, inside);
    ghost var fill, fringe := FillCode(tris, base, 2), Fringe(base, n, n);
    DrawFringe(dl, n);
    NarrowJoin(fill, fringe);
    assert old(dl.idxBuffer) + Narrow(fill) + Narrow(fringe) == old(dl.idxBuffer) + Narrow(fill + fringe);
  }

  method AddBare(dl: DrawList, n: nat, inside: Inside) returns (ghost tris: seq<Tri>)
    requires dl.Valid() && dl.Settled() && 3 <= n < 65536
    modifies dl
    ensures dl.Valid() && dl.Settled() && dl.allowVtxOffset == old(dl.allowVtxOffset)
    ensures IsTriangulation(n, tris) && CutUp(inside, n, tris)
    ensures Drew(dl, PolyCode(tris, Base(dl, n), n, false), n)
  {
    hide Repeat, Fan, FillCode, Fringe, Records, IsTriangulation, CutUp, Narrow;
    dl.PrimReserve((n - 2) * 3, n, seq((n - 2) * 3, i => 0));
    tris := FillInside(dl, n, 1, inside);
    dl.PrimWriteVtxs(n);
    assert dl.idxBuffer[..dl.idxWrite] == dl.idxBuffer;
  }

  // The indices of the inside.
  method FillInside(dl: DrawList, n: nat, scale: nat, inside: Inside) returns (ghost tris: seq<Tri>)
    requires dl.Valid() && 3 <= n && dl.idxWrite + 3 * (n - 2) <= |dl.idxBuffer|
    modifies dl`idxWrite, dl`idxBuffer
    ensures dl.Valid() && |dl.idxBuffer| == |old(dl.idxBuffer)| && dl.idxWrite == old(dl.idxWrite) + 3 * (n - 2)
    ensures dl.idxBuffer[..dl.idxWrite] ==
      old(dl.idxBuffer[..dl.idxWrite]) + Narrow(FillCode(tris, dl.vtxCurrentIdx, scale))
    ensures IsTriangulation(n, tris) && |tris| == n - 2 && CutUp(inside, n, tris)
  {
    hide DrawList.Valid, Fan, FillCode, IsTriangulation, EarClipped;
    match inside
    case Convex =>
      FillFan(dl, n, scale);
      tris := Fan(n - 2);
      FanTriangulates(n);
    case Concave(clockwise, containsPoint) =>
      tris := FillEars(dl, n, scale, clockwise, containsPoint);
  }

  // The indices of the inside of any polygon, ear by ear.
  method FillEars(dl: DrawList, n: nat, scale: nat, clockwise: (int, int, int) -> bool,
                  containsPoint: (int, int, int, int) -> bool)
    returns (ghost tris: seq<Tri>)
    requires dl.Valid() && 3 <= n && dl.idxWrite + 3 * (n - 2) <= |dl.idxBuffer|
    modifies dl`idxWrite, dl`idxBuffer
    ensures dl.Valid() && |dl.idxBuffer| == |old(dl.idxBuffer)| && dl.idxWrite == old(dl.idxWrite) + 3 * (n - 2)
    ensures dl.idxBuffer[..dl.idxWrite] ==
      old(dl.idxBuffer[..dl.idxWrite]) + Narrow(FillCode(tris, dl.vtxCurrentIdx, scale))
    ensures IsTriangulation(n, tris) && |tris| == n - 2 && EarClipped(clockwise, containsPoint, n, tris)
  {
    hide Records, FillCode, Corner, Narrow, Legal, RingAfter, Triangles, Linked, EarsMatch, ReflexesTyped,
         IsTriangulation, Clips, EarsTurn, EarByEar, ListsEars;
    ghost var base := dl.vtxCurrentIdx;
    FillNone(base, scale);
    dl.WritesInRange();
    NothingYet(n);
    var t := new Triangulator.Init(n, clockwise, containsPoint);
    tris := [];
    ghost var moves, front, k: nat := [], [], 0;
    while t.trianglesLeft > 0
      invariant t.Valid() && t.n == n && fresh(t) && fresh(t.nodes) && fresh(t.ears) && fresh(t.ears.data)
      invariant fresh(t.reflexes) && fresh(t.reflexes.data)
      invariant t.moves == moves && Legal(n, moves) && tris == Triangles(n, moves) && |tris| == n - 2 - t.trianglesLeft
      invariant 0 <= t.trianglesLeft <= n - 2 && (t.trianglesLeft < n - 2 ==> moves == front + [Move.Clip(k)])
      invariant dl.Valid() && dl.vtxCurrentIdx == base && |dl.idxBuffer| == |old(dl.idxBuffer)|
      invariant dl.idxWrite == old(dl.idxWrite) + 3 * |tris| && 0 <= dl.idxWrite <= |dl.idxBuffer|
      invariant dl.idxBuffer[..dl.idxWrite] == old(dl.idxBuffer[..dl.idxWrite]) + Narrow(FillCode(tris, base, scale))
      decreases t.trianglesLeft
    {
      var tri;
      front := t.moves + if t.ears.size == 0 then [Flip] else [];
      tri, k := t.GetNextTriangle();
      FillNext(tris, tri, base, scale);
      tris, moves := tris + [tri], t.moves;
      var v := dl.vtxCurrentIdx;
      dl.PrimWriteIdxs([Corner(v, scale, tri.a), Corner(v, scale, tri.b), Corner(v, scale, tri.c)]);
    }
    FullRun(n, front, k);
  }

  // The indices of the inside of a convex polygon.
  method FillFan(dl: DrawList, n: nat, scale: nat)
    requires dl.Valid() && 3 <= n && dl.idxWrite + 3 * (n - 2) <= |dl.idxBuffer|
    modifies dl`idxWrite, dl`idxBuffer
    ensures dl.Valid() && |dl.idxBuffer| == |old(dl.idxBuffer)| && dl.idxWrite == old(dl.idxWrite) + 3 * (n - 2)
    ensures dl.idxBuffer[..dl.idxWrite] ==
      old(dl.idxBuffer[..dl.idxWrite]) + Narrow(FillCode(Fan(n - 2), dl.vtxCurrentIdx, scale))
  {
    hide Records, Fan, FillCode, Corner, Narrow;
    ghost var base := dl.vtxCurrentIdx;
    FillNone(base, scale);
    dl.WritesInRange();
    var i := 2;
    while i < n
      invariant 2 <= i <= n && dl.Valid() && dl.vtxCurrentIdx == base
      invariant |dl.idxBuffer| == |old(dl.idxBuffer)| && dl.idxWrite == old(dl.idxWrite) + 3 * (i - 2)
      invariant 0 <= dl.idxWrite <= |dl.idxBuffer|
      invariant dl.idxBuffer[..dl.idxWrite] ==
        old(dl.idxBuffer[..dl.idxWrite]) + Narrow(FillCode(Fan(i - 2), base, scale))
    {
      var v := dl.vtxCurrentIdx;
      FanNext(i - 2);
      FirstCorner(v, scale);
      FillNext(Fan(i - 2), Tri(0, i - 1, i), base, scale);
      dl.PrimWriteIdxs([v, Corner(v, scale, i - 1), Corner(v, scale, i)]);
      i := i + 1;
    }
  }

  lemma FillNone(base: int, scale: nat)
    ensures FillCode(Fan(0), base, scale) == [] && FillCode([], base, scale) == [] && Narrow([]) == []
  {
  }

  lemma FirstCorner(base: int, scale: nat)
    ensures Corner(base, scale, 0) == base
  {
  }

  lemma FanNext(m: nat)
    ensures Fan(m + 1) == Fan(m) + [Tri(0, m + 1, m + 2)]
  {
  }

  lemma FillNext(ts: seq<Tri>, t: Tri, base: int, scale: nat)
    ensures var c := [Corner(base, scale, t.a), Corner(base, scale, t.b), Corner(base, scale, t.c)];
      && FillCode(ts + [t], base, scale) == FillCode(ts, base, scale) + c
      && Narrow(FillCode(ts + [t], base, scale)) == Narrow(FillCode(ts, base, scale)) + Narrow(c)
  {
    assert (ts + [t])[..|ts|] == ts;
    NarrowJoin(FillCode(ts, base, scale),
      [Corner(base, scale, t.a), Corner(base, scale, t.b), Corner(base, scale, t.c)]);
  }

  // The fringe of a polygon, and the vertices of the whole.
  method DrawFringe(dl: DrawList, n: nat)
    requires dl.Valid() && 3 <= n && 2 * n < 65536
    requires dl.idxWrite + 6 * n == |dl.idxBuffer| && dl.vtxWrite + 2 * n == dl.vtxCount
    modifies dl`idxWrite, dl`idxBuffer, dl`vtxWrite, dl`vtxCurrentIdx
    ensures dl.Valid() && dl.Settled() && |dl.idxBuffer| == |old(dl.idxBuffer)|
    ensures dl.vtxCurrentIdx == old(dl.vtxCurrentIdx) + 2 * n
    ensures dl.idxBuffer == old(dl.idxBuffer[..dl.idxWrite]) + Narrow(Fringe(old(dl.vtxCurrentIdx), n, n))
  {
    hide Records, Fringe, Quad, Narrow;
    ghost var base := dl.vtxCurrentIdx;
    FringeNone(base, n);
    dl.WritesInRange();
    var i0, i1 := n - 1, 0;
    while i1 < n
      invariant 0 <= i1 <= n && i0 == Preceding(i1, n) && dl.Valid() && dl.vtxCurrentIdx == base
      invariant |dl.idxBuffer| == |old(dl.idxBuffer)| && dl.idxWrite == old(dl.idxWrite) + 6 * i1
      invariant 0 <= dl.idxWrite <= |dl.idxBuffer|
      invariant dl.idxBuffer[..dl.idxWrite] == old(dl.idxBuffer[..dl.idxWrite]) + Narrow(Fringe(base, n, i1))
    {
      FringeNext(base, n, i1);
      NarrowJoin(Fringe(base, n, i1), Quad(base, i0, i1));
      dl.PrimWriteIdxs(Quad(dl.vtxCurrentIdx, i0, i1));
      i0 := i1;
      i1 := i1 + 1;
    }
    dl.PrimWriteVtxs(2 * n);
    assert dl.idxBuffer[..dl.idxWrite] == dl.idxBuffer;
  }

  lemma FringeNone(base: int, n: nat)
    ensures Fringe(base, n, 0) == [] && Narrow([]) == []
  {
  }

  lemma FringeNext(base: int, n: nat, m: nat)
    ensures Fringe(base, n, m + 1) == Fringe(base, n, m) + Quad(base, Preceding(m, n), m)
  {
  }

  /** When indices fit in 16 bits */

  lemma FitsByTop(ix: seq<int>, lo: int, hi: int)
    requires 0 <= lo && (forall i :: 0 <= i < |ix| ==> lo <= ix[i] < hi) && hi - 1 in ix
    ensures Narrow(ix) == ix <==> hi <= 65536
  {
    if hi <= 65536 { NarrowFits(ix, lo, hi); }
    var j :| 0 <= j < |ix| && ix[j] == hi - 1;
    assert Narrow(ix)[j] == (hi - 1) % 65536;
  }

  // The last vertex of a segment's far end, or of a plain segment, is used.
  lemma SegmentTop(s: Style, a: int, b: int)
    ensures (if s.Plain? then a else b) + Stride(s) - 1 in Segment(s, a, b)
  {
    var r := Segment(s, a, b);
    match s
    case Textured => assert r[3] == b + 1;
    case Thin => assert r[4] == b + 2;
    case Thick => assert r[16] == b + 3;
    case Plain => assert r[5] == a + 3;
  }

  lemma StripTop(s: Style, base: int, n: nat, closed: bool)
    requires n >= 2
    ensures base + Vertices(s, n, closed) - 1 in Strip(s, base, n, Count(n, closed))
  {
    hide Segment;
    var m := if s.Plain? then Count(n, closed) else n - 1;
    SegmentTop(s, base + Stride(s) * (m - 1), VertexOf(s, base, n, m));
    Within(s, m, n);
    Within(s, n, n);
    assert base + Vertices(s, n, closed) - 1 in Strip(s, base, n, m);
  }

  // Whether or not offsets are allowed, no index of a line is cut exactly when its vertices end
  // within 16 bits.
  lemma LineFitsIff(s: Style, base: int, n: nat, closed: bool)
    requires n >= 2 && base >= 0
    ensures var code := Strip(s, base, n, Count(n, closed));
      Narrow(code) == code <==> base + Vertices(s, n, closed) <= 65536
  {
    hide Strip;
    StripTop(s, base, n, closed);
    StripInRange(s, base, n, Count(n, closed), closed);
    FitsByTop(Strip(s, base, n, Count(n, closed)), base, base + Vertices(s, n, closed));
  }

  lemma {:induction false} EdgeIsSomewhere(ts: seq<Tri>, e: Edge) returns (i: nat)
    requires EdgeCount(ts, e) > 0
    ensures i < |ts| && (e.hi == ts[i].a || e.hi == ts[i].b || e.hi == ts[i].c)
    decreases |ts|
  {
    i := |ts| - 1;
    var t := ts[i];
    if Between(t.a, t.b) != e && Between(t.b, t.c) != e && Between(t.a, t.c) != e { i := EdgeIsSomewhere(ts[..i], e); }
  }

  lemma {:induction false} FillHas(ts: seq<Tri>, base: int, scale: nat, i: nat)
    requires i < |ts|
    ensures var c := FillCode(ts, base, scale);
      Corner(base, scale, ts[i].a) in c && Corner(base, scale, ts[i].b) in c && Corner(base, scale, ts[i].c) in c
    decreases |ts|
  {
    hide Corner;
    if i < |ts| - 1 {
      FillHas(ts[..|ts|-1], base, scale, i);
    } else {
      LastThree(FillCode(ts[..|ts|-1], base, scale), Corner(base, scale, ts[i].a), Corner(base, scale, ts[i].b),
        Corner(base, scale, ts[i].c));
    }
  }

  lemma LastThree(s: seq<int>, a: int, b: int, c: int)
    ensures a in s + [a, b, c] && b in s + [a, b, c] && c in s + [a, b, c]
  {
    assert (s + [a, b, c])[|s|] == a && (s + [a, b, c])[|s|+1] == b && (s + [a, b, c])[|s|+2] == c;
  }

  // The last corner of a polygon belongs to some triangle of every triangulation.
  lemma LastCornerUsed(n: nat, ts: seq<Tri>) returns (i: nat)
    requires IsTriangulation(n, ts)
    ensures i < |ts| && (ts[i].a == n - 1 || ts[i].b == n - 1 || ts[i].c == n - 1)
  {
    hide EdgeCount;
    var e := Edge(0, n - 1);
    assert EdgeAt(Polygon(n), n - 1, e);
    assert IsSide(n, e);
    i := EdgeIsSomewhere(ts, e);
  }

  lemma PolyTop(ts: seq<Tri>, base: int, n: nat, fringed: bool)
    requires IsTriangulation(n, ts)
    ensures base + (if fringed then 2 * n else n) - 1 in PolyCode(ts, base, n, fringed)
  {
    hide FillCode, EdgeCount, IsSide, ProperTri;
    if fringed {
      var fill, q := FillCode(ts, base, 2), Quad(base, Preceding(n - 1, n), n - 1);
      assert q[4] == base + 2 * n - 1;
      assert q[4] in Fringe(base, n, n);
    } else {
      var i := LastCornerUsed(n, ts);
      FillHas(ts, base, 1, i);
    }
  }

  // And so it is with a fill.
  lemma FillFitsIff(ts: seq<Tri>, base: int, n: nat, fringed: bool)
    requires IsTriangulation(n, ts) && base >= 0
    ensures var code := PolyCode(ts, base, n, fringed);
      Narrow(code) == code <==> base + (if fringed then 2 * n else n) <= 65536
  {
    hide EdgeCount, FillCode, Fringe;
    PolyTop(ts, base, n, fringed);
    FillInRange(ts, base, if fringed then 2 else 1, n);
    FringeInRange(base, n, n);
    FitsByTop(PolyCode(ts, base, n, fringed), base, base + if fringed then 2 * n else n);
  }
}
