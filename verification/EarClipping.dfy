// Clipping corners off a polygon and turning it round, as moves on the ring of its corners.
module EarClipping {
  import opened Counting

  // Turn the ring round, or clip off the corner at position k.
  datatype Move = Flip | Clip(k: nat)

  datatype Tri = Tri(a: int, b: int, c: int)

  // An undirected edge.
  datatype Edge = Edge(lo: int, hi: int)

  function Between(a: int, b: int): Edge { if a <= b then Edge(a, b) else Edge(b, a) }

  function Polygon(n: nat): (r: seq<int>)
    ensures |r| == n && forall i :: 0 <= i < n ==> r[i] == i
  {
    seq(n, i => i)
  }

  function Reverse(s: seq<int>): (r: seq<int>)
    ensures |r| == |s| && forall i :: 0 <= i < |s| ==> r[i] == s[|s|-1-i]
  {
    seq(|s|, i requires 0 <= i < |s| => s[|s|-1-i])
  }

  function Remove(s: seq<int>, k: nat): (r: seq<int>)
    requires k < |s|
    ensures |r| == |s| - 1
  {
    s[..k] + s[k+1..]
  }

  // Neighbouring positions on a ring of m corners.
  function After(k: nat, m: nat): (r: nat) requires k < m ensures r < m { if k + 1 == m then 0 else k + 1 }

  function Before(k: nat, m: nat): (r: nat) requires k < m ensures r < m { if k == 0 then m - 1 else k - 1 }

  // The triangle cut off with corner k.
  function TriAt(r: seq<int>, k: nat): Tri
    requires k < |r|
  {
    Tri(r[Before(k, |r|)], r[k], r[After(k, |r|)])
  }

  /** Sums round the ring */

  function PathSum(r: seq<int>, w: (int, int) -> real): real {
    if |r| <= 1 then 0.0 else PathSum(r[..|r|-1], w) + w(r[|r|-2], r[|r|-1])
  }

  // The sum of w over the directed edges of the ring.
  function RingSum(r: seq<int>, w: (int, int) -> real): real {
    if r == [] then 0.0 else PathSum(r, w) + w(r[|r|-1], r[0])
  }

  lemma {:induction false} PathJoin(a: seq<int>, b: seq<int>, w: (int, int) -> real)
    requires a != [] && b != []
    ensures PathSum(a + b, w) == PathSum(a, w) + w(a[|a|-1], b[0]) + PathSum(b, w)
    decreases |b|
  {
    var s, n := a + b, |b| - 1;
    if n == 0 {
      assert s[..|s|-1] == a;
    } else {
      assert s[..|s|-1] == a + b[..n];
      PathJoin(a, b[..n], w);
    }
  }

  // Cutting corner b off replaces the edges ab and bc by ac.
  lemma ClipSum(r: seq<int>, k: nat, w: (int, int) -> real)
    requires |r| >= 2 && k < |r|
    ensures var t := TriAt(r, k);
      RingSum(r, w) == RingSum(Remove(r, k), w) + w(t.a, t.b) + w(t.b, t.c) - w(t.a, t.c)
  {
    hide PathSum;
    var b := [r[k]];
    SinglePath(r[k], w);
    if k == 0 {
      assert r == b + r[1..] && Remove(r, 0) == r[1..];
      PathJoin(b, r[1..], w);
    } else if k == |r| - 1 {
      assert r == r[..k] + b && Remove(r, k) == r[..k];
      PathJoin(r[..k], b, w);
    } else {
      assert r == r[..k] + b + r[k+1..];
      PathJoin(r[..k], b, w);
      PathJoin(r[..k] + b, r[k+1..], w);
      PathJoin(r[..k], r[k+1..], w);
    }
  }

  lemma SinglePath(v: int, w: (int, int) -> real)
    ensures PathSum([v], w) == 0.0
  {
  }

  // v turned round.
  ghost predicate Opposite(w: (int, int) -> real, v: (int, int) -> real) {
    forall x, y :: v(x, y) == w(y, x)
  }

  lemma {:induction false} ReversePath(r: seq<int>, w: (int, int) -> real, v: (int, int) -> real)
    requires Opposite(w, v)
    ensures PathSum(Reverse(r), w) == PathSum(r, v)
    decreases |r|
  {
    if |r| > 1 {
      var n := |r| - 1;
      assert Reverse(r) == [r[n]] + Reverse(r[..n]);
      ReversePath(r[..n], w, v);
      PathJoin([r[n]], Reverse(r[..n]), w);
      SinglePath(r[n], w);
    }
  }

  lemma ReverseSum(r: seq<int>, w: (int, int) -> real, v: (int, int) -> real)
    requires Opposite(w, v)
    ensures RingSum(Reverse(r), w) == RingSum(r, v)
  {
    hide PathSum;
    ReversePath(r, w, v);
  }

  /** Runs of moves */

  // The ring left after some moves, each of which must make sense when its turn comes.
  function RingAfter(n: nat, moves: seq<Move>): seq<int>
    requires Legal(n, moves)
    decreases |moves|, 1
  {
    if moves == [] then Polygon(n)
    else
      var r := RingAfter(n, moves[..|moves|-1]);
      match moves[|moves|-1]
      case Flip => Reverse(r)
      case Clip(k) => Remove(r, k)
  }

  predicate Legal(n: nat, moves: seq<Move>)
    decreases |moves|, 0
  {
    n >= 3 && (moves == [] ||
      (Legal(n, moves[..|moves|-1]) &&
        match moves[|moves|-1]
        case Flip => true
        case Clip(k) => k < |RingAfter(n, moves[..|moves|-1])| && 3 <= |RingAfter(n, moves[..|moves|-1])|))
  }

  // The triangles cut off.
  function Triangles(n: nat, moves: seq<Move>): seq<Tri>
    requires Legal(n, moves)
  {
    if moves == [] then []
    else
      var front := moves[..|moves|-1];
      match moves[|moves|-1]
      case Flip => Triangles(n, front)
      case Clip(k) => Triangles(n, front) + [TriAt(RingAfter(n, front), k)]
  }

  function Clips(moves: seq<Move>): nat {
    if moves == [] then 0 else Clips(moves[..|moves|-1]) + if moves[|moves|-1].Clip? then 1 else 0
  }

  // One more corner clipped off.
  lemma ClipNext(n: nat, front: seq<Move>, k: nat)
    requires Legal(n, front) && 3 <= |RingAfter(n, front)| && k < |RingAfter(n, front)|
    ensures var moves := front + [Clip(k)];
      && Legal(n, moves) && RingAfter(n, moves) == Remove(RingAfter(n, front), k) && Clips(moves) == Clips(front) + 1
      && Triangles(n, moves) == Triangles(n, front) + [TriAt(RingAfter(n, front), k)]
  {
    hide Remove, TriAt;
    assert (front + [Clip(k)])[..|front|] == front;
  }

  ghost predicate DistinctCorners(r: seq<int>, n: nat) {
    Below(r, n) && Distinct(r)
  }

  lemma MovesKeepCorners(r: seq<int>, n: nat, k: nat)
    requires DistinctCorners(r, n)
    ensures DistinctCorners(Reverse(r), n) && (k < |r| ==> DistinctCorners(Remove(r, k), n))
  {
  }

  lemma {:induction false} RingShrinks(n: nat, moves: seq<Move>)
    requires Legal(n, moves)
    ensures |RingAfter(n, moves)| == n - Clips(moves) >= 2
    ensures |Triangles(n, moves)| == Clips(moves)
    ensures DistinctCorners(RingAfter(n, moves), n)
    decreases |moves|
  {
    hide Reverse, Remove, DistinctCorners, TriAt;
    if moves == [] {
      PolygonCorners(n);
    } else {
      var front := moves[..|moves|-1];
      RingShrinks(n, front);
      MovesKeepCorners(RingAfter(n, front), n, if moves[|moves|-1].Clip? then moves[|moves|-1].k else 0);
    }
  }

  lemma PolygonCorners(n: nat)
    ensures DistinctCorners(Polygon(n), n)
  {
  }

  // Every triangle has three different corners of the polygon.
  lemma {:induction false} TrianglesProper(n: nat, moves: seq<Move>, i: nat)
    requires Legal(n, moves) && i < |Triangles(n, moves)|
    ensures var t := Triangles(n, moves)[i];
      0 <= t.a < n && 0 <= t.b < n && 0 <= t.c < n && t.a != t.b && t.b != t.c && t.a != t.c
    decreases |moves|
  {
    if moves != [] {
      var front := moves[..|moves|-1];
      RingShrinks(n, front);
      if i < |Triangles(n, front)| { TrianglesProper(n, front, i); }
    }
  }

  /** Area */

  datatype Point = Point(x: real, y: real)

  function Cross(p: int -> Point): (int, int) -> real {
    (i, j) => p(i).x * p(j).y - p(j).x * p(i).y
  }

  function Uncross(p: int -> Point): (int, int) -> real {
    (i, j) => p(j).x * p(i).y - p(i).x * p(j).y
  }

  // Twice the signed area enclosed, by the shoelace formula.
  function TwiceArea(p: int -> Point, r: seq<int>): real { RingSum(r, Cross(p)) }

  function Facing(moves: seq<Move>): real {
    if moves == [] then 1.0
    else if moves[|moves|-1].Flip? then -Facing(moves[..|moves|-1]) else Facing(moves[..|moves|-1])
  }

  // The triangles' areas, counted negative while the ring is turned round.
  function SignedTotal(p: int -> Point, n: nat, moves: seq<Move>): real
    requires Legal(n, moves)
  {
    if moves == [] then 0.0
    else
      var front := moves[..|moves|-1];
      match moves[|moves|-1]
      case Flip => SignedTotal(p, n, front)
      case Clip(k) =>
        var t := TriAt(RingAfter(n, front), k);
        SignedTotal(p, n, front) + Facing(front) * TwiceArea(p, [t.a, t.b, t.c])
  }

  lemma {:induction false} UncrossPath(p: int -> Point, r: seq<int>)
    ensures PathSum(r, Uncross(p)) == -PathSum(r, Cross(p))
    decreases |r|
  {
    if |r| > 1 { UncrossPath(p, r[..|r|-1]); }
  }

  // Turning the ring round negates its area.
  lemma ReverseArea(p: int -> Point, r: seq<int>)
    ensures TwiceArea(p, Reverse(r)) == -TwiceArea(p, r)
  {
    hide PathSum, Reverse;
    ReverseSum(r, Cross(p), Uncross(p));
    UncrossPath(p, r);
  }

  lemma TriangleArea(p: int -> Point, a: int, b: int, c: int)
    ensures var w := Cross(p); TwiceArea(p, [a, b, c]) == w(a, b) + w(b, c) - w(a, c)
  {
    var w := Cross(p);
    assert [a, b, c][..2] == [a, b] && [a, b][..1] == [a];
    assert PathSum([a, b, c], w) == PathSum([a, b], w) + w(b, c);
    assert PathSum([a, b], w) == w(a, b);
    assert w(c, a) == -w(a, c);
  }

  lemma ClipArea(p: int -> Point, r: seq<int>, k: nat)
    requires |r| >= 2 && k < |r|
    ensures var t := TriAt(r, k);
      TwiceArea(p, r) == TwiceArea(p, Remove(r, k)) + TwiceArea(p, [t.a, t.b, t.c])
  {
    hide RingSum, Remove, Cross;
    var t := TriAt(r, k);
    ClipSum(r, k, Cross(p));
    TriangleArea(p, t.a, t.b, t.c);
  }

  // Area is conserved: the triangles so far and the ring that is left make up the polygon.
  lemma {:induction false} AreaSoFar(p: int -> Point, n: nat, moves: seq<Move>)
    requires Legal(n, moves)
    ensures SignedTotal(p, n, moves) + Facing(moves) * TwiceArea(p, RingAfter(n, moves)) == TwiceArea(p, Polygon(n))
    decreases |moves|
  {
    hide TwiceArea, Reverse, Remove, Polygon, TriAt;
    if moves != [] {
      var front := moves[..|moves|-1];
      AreaSoFar(p, n, front);
      var r := RingAfter(n, front);
      match moves[|moves|-1]
      case Flip => ReverseArea(p, r);
      case Clip(k) =>
        ClipArea(p, r, k);
        var t := TriAt(r, k);
        assert Facing(front) * (TwiceArea(p, Remove(r, k)) + TwiceArea(p, [t.a, t.b, t.c]))
            == Facing(front) * TwiceArea(p, Remove(r, k)) + Facing(front) * TwiceArea(p, [t.a, t.b, t.c]);
    }
  }

  // Once two corners are left the triangles account for the whole polygon.
  lemma AreaConserved(p: int -> Point, n: nat, moves: seq<Move>)
    requires Legal(n, moves) && Clips(moves) == n - 2
    ensures SignedTotal(p, n, moves) == TwiceArea(p, Polygon(n))
  {
    hide Legal, RingAfter, SignedTotal, Facing, Polygon, Triangles;
    RingShrinks(n, moves);
    AreaSoFar(p, n, moves);
    var r := RingAfter(n, moves);
    assert r == [r[0], r[1]];
    FlatArea(p, r[0], r[1]);
  }

  lemma FlatArea(p: int -> Point, a: int, b: int)
    ensures TwiceArea(p, [a, b]) == 0.0
  {
    assert [a, b][..1] == [a];
    assert PathSum([a, b], Cross(p)) == PathSum([a], Cross(p)) + Cross(p)(a, b);
  }

  /** Edges */

  function Is(e: Edge): (int, int) -> real {
    (x, y) => if Between(x, y) == e then 1.0 else 0.0
  }

  // How often e bounds one of the triangles.
  function EdgeCount(ts: seq<Tri>, e: Edge): nat {
    if ts == [] then 0
    else
      var t := ts[|ts|-1];
      EdgeCount(ts[..|ts|-1], e)
      + (if Between(t.a, t.b) == e then 1 else 0) + (if Between(t.b, t.c) == e then 1 else 0)
      + (if Between(t.a, t.c) == e then 1 else 0)
  }

  // The cuts made, in order.
  function Cuts(n: nat, moves: seq<Move>): (d: seq<Edge>)
    requires Legal(n, moves)
  {
    if moves == [] then []
    else
      var front := moves[..|moves|-1];
      match moves[|moves|-1]
      case Flip => Cuts(n, front)
      case Clip(k) =>
        var t := TriAt(RingAfter(n, front), k);
        Cuts(n, front) + [Between(t.a, t.c)]
  }

  function Occurs(d: seq<Edge>, e: Edge): nat {
    if d == [] then 0 else Occurs(d[..|d|-1], e) + if d[|d|-1] == e then 1 else 0
  }

  // Triangles, ring and cuts balance for every edge: each cut is a side of one triangle and
  // of what is left.
  lemma {:induction false} EdgeBalance(n: nat, moves: seq<Move>, e: Edge)
    requires Legal(n, moves)
    ensures EdgeCount(Triangles(n, moves), e) as real + RingSum(RingAfter(n, moves), Is(e))
         == RingSum(Polygon(n), Is(e)) + 2.0 * (Occurs(Cuts(n, moves), e) as real)
    decreases |moves|
  {
    hide RingSum, Reverse, Remove, Polygon, TriAt;
    if moves != [] {
      var front := moves[..|moves|-1];
      EdgeBalance(n, front, e);
      var r := RingAfter(n, front);
      match moves[|moves|-1]
      case Flip => ReverseSum(r, Is(e), Is(e));
      case Clip(k) => ClipSum(r, k, Is(e));
    }
  }

  predicate EdgeAt(r: seq<int>, i: nat, e: Edge)
    requires i < |r|
  {
    Between(r[i], r[After(i, |r|)]) == e
  }

  ghost predicate IsRingEdge(r: seq<int>, e: Edge) {
    exists i :: 0 <= i < |r| && EdgeAt(r, i, e)
  }

  ghost predicate IsPathEdge(r: seq<int>, e: Edge) {
    exists i :: 0 <= i < |r| - 1 && EdgeAt(r, i, e)
  }

  // No edge comes twice round a ring of three or more corners.
  lemma EdgeUnique(r: seq<int>, i: nat, j: nat, e: Edge)
    requires i < |r| && j < |r| && |r| >= 3 && Distinct(r)
    ensures EdgeAt(r, i, e) && EdgeAt(r, j, e) ==> i == j
  {
    var i', j' := After(i, |r|), After(j, |r|);
    assert (r[i] == r[j] <==> i == j) && (r[i] == r[j'] <==> i == j') && (r[i'] == r[j] <==> i' == j);
  }

  lemma LastEdgeIsNew(r: seq<int>, e: Edge)
    requires |r| >= 3 && Distinct(r)
    ensures EdgeAt(r, |r| - 2, e) ==> !IsPathEdge(r[..|r|-1], e)
    ensures EdgeAt(r, |r| - 1, e) ==> !IsPathEdge(r, e)
  {
    var n := |r| - 1;
    forall i | 0 <= i < n - 1 ensures EdgeAt(r, n - 1, e) ==> !EdgeAt(r[..n], i, e) {
      EdgeUnique(r, i, n - 1, e);
    }
    forall i | 0 <= i < n ensures EdgeAt(r, n, e) ==> !EdgeAt(r, i, e) {
      EdgeUnique(r, i, n, e);
    }
  }

  lemma {:induction false} PathSumCounts(r: seq<int>, e: Edge)
    requires Distinct(r)
    ensures PathSum(r, Is(e)) == if IsPathEdge(r, e) then 1.0 else 0.0
    decreases |r|
  {
    if |r| > 1 {
      var n := |r| - 1;
      PathSumCounts(r[..n], e);
      PathEdgeSplit(r, e);
      if |r| >= 3 { LastEdgeIsNew(r, e); }
    }
  }

  lemma PathEdgeSplit(r: seq<int>, e: Edge)
    requires |r| > 1
    ensures IsPathEdge(r, e) <==> IsPathEdge(r[..|r|-1], e) || EdgeAt(r, |r| - 2, e)
  {
    var n := |r| - 1;
    forall i | 0 <= i < n - 1 ensures EdgeAt(r[..n], i, e) <==> EdgeAt(r, i, e) { }
    if IsPathEdge(r, e) {
      var i :| 0 <= i < n && EdgeAt(r, i, e);
      if i < n - 1 { assert EdgeAt(r[..n], i, e); }
    }
    if IsPathEdge(r[..n], e) {
      var i :| 0 <= i < n - 1 && EdgeAt(r[..n], i, e);
      assert EdgeAt(r, i, e);
    }
  }

  // Round a ring of at least three corners every edge comes once.
  lemma RingSumCounts(r: seq<int>, e: Edge)
    requires |r| >= 3 && Distinct(r)
    ensures RingSum(r, Is(e)) == if IsRingEdge(r, e) then 1.0 else 0.0
  {
    hide PathSum;
    PathSumCounts(r, e);
    var n := |r| - 1;
    assert IsRingEdge(r, e) <==> IsPathEdge(r, e) || EdgeAt(r, n, e);
    LastEdgeIsNew(r, e);
  }

  lemma PairSum(u: int, v: int, e: Edge)
    ensures RingSum([u, v], Is(e)) == if Between(u, v) == e then 2.0 else 0.0
  {
    assert [u, v][..1] == [u];
    assert PathSum([u, v], Is(e)) == PathSum([u], Is(e)) + Is(e)(u, v);
  }

  // With four or more corners the cut across one is not an edge of the ring.
  lemma CutIsNew(r: seq<int>, k: nat)
    requires |r| >= 4 && k < |r| && Distinct(r)
    ensures var t := TriAt(r, k); !IsRingEdge(r, Between(t.a, t.c))
  {
    var m := |r|;
    var a, c := Before(k, m), After(k, m);
    forall i | 0 <= i < m ensures !EdgeAt(r, i, Between(r[a], r[c])) {
      var j := After(i, m);
      assert (r[i] == r[a] <==> i == a) && (r[j] == r[c] <==> j == c);
      assert (r[i] == r[c] <==> i == c) && (r[j] == r[a] <==> j == a);
    }
  }

  ghost predicate OnRing(r: seq<int>, e: Edge) { e.lo in r && e.hi in r }

  ghost predicate IsSide(n: nat, e: Edge) { IsRingEdge(Polygon(n), e) }

  // A side or cut between corners that are both still there is an edge of the ring.
  lemma {:induction false} KnownEdgesRemain(n: nat, moves: seq<Move>, e: Edge)
    requires Legal(n, moves) && (IsSide(n, e) || e in Cuts(n, moves)) && OnRing(RingAfter(n, moves), e)
    ensures RingSum(RingAfter(n, moves), Is(e)) > 0.0
    decreases |moves|
  {
    hide RingSum, Reverse, Remove, PathSum, IsRingEdge, TriAt;
    if moves == [] {
      RingSumCounts(Polygon(n), e);
    } else {
      var front := moves[..|moves|-1];
      var r := RingAfter(n, front);
      match moves[|moves|-1]
      case Flip =>
        ReverseMembers(r, e);
        KnownEdgesRemain(n, front, e);
        ReverseSum(r, Is(e), Is(e));
      case Clip(k) =>
        RingShrinks(n, front);
        ClipKeepsEdge(r, k, e);
        if e != Between(TriAt(r, k).a, TriAt(r, k).c) { KnownEdgesRemain(n, front, e); }
    }
  }

  lemma ReverseMembers(r: seq<int>, e: Edge)
    ensures OnRing(Reverse(r), e) ==> OnRing(r, e)
  {
  }

  lemma {:induction false} PathSumNatural(r: seq<int>, e: Edge)
    ensures PathSum(r, Is(e)) >= 0.0
    decreases |r|
  {
    if |r| > 1 { PathSumNatural(r[..|r|-1], e); }
  }

  // Cutting a corner off leaves edges between other corners alone and adds the cut.
  lemma ClipKeepsEdge(r: seq<int>, k: nat, e: Edge)
    requires |r| >= 3 && k < |r| && Distinct(r) && OnRing(Remove(r, k), e)
    ensures OnRing(r, e)
    ensures RingSum(r, Is(e)) > 0.0 || e == Between(TriAt(r, k).a, TriAt(r, k).c) ==>
      RingSum(Remove(r, k), Is(e)) > 0.0
  {
    hide PathSum;
    ClipSum(r, k, Is(e));
    var t := TriAt(r, k);
    assert e.lo != t.b && e.hi != t.b;
    PathSumNatural(r, e);
  }

  // While at least three corners are left, cuts are all different and none is a side.
  lemma {:induction false} CutsAreNew(n: nat, moves: seq<Move>, e: Edge)
    requires Legal(n, moves) && |RingAfter(n, moves)| >= 3
    ensures Occurs(Cuts(n, moves), e) <= 1
    ensures e in Cuts(n, moves) ==> !IsSide(n, e)
    ensures Occurs(Cuts(n, moves), e) == 1 <==> e in Cuts(n, moves)
    decreases |moves|
  {
    hide RingSum, Reverse, PathSum, IsRingEdge, IsSide;
    if moves != [] {
      var front := moves[..|moves|-1];
      var r := RingAfter(n, front);
      CutsAreNew(n, front, e);
      match moves[|moves|-1]
      case Flip =>
      case Clip(k) =>
        RingShrinks(n, front);
        if e == Between(TriAt(r, k).a, TriAt(r, k).c) { NoRingEdge(n, front, k, e); }
        assert Cuts(n, moves)[..|Cuts(n, moves)|-1] == Cuts(n, front);
    }
  }

  lemma NoRingEdge(n: nat, front: seq<Move>, k: nat, e: Edge)
    requires Legal(n, front) && k < |RingAfter(n, front)| && |RingAfter(n, front)| >= 4
    requires var t := TriAt(RingAfter(n, front), k); e == Between(t.a, t.c)
    ensures !IsSide(n, e) && e !in Cuts(n, front)
  {
    hide RingSum, PathSum, IsSide, IsRingEdge;
    var r := RingAfter(n, front);
    RingShrinks(n, front);
    CutIsNew(r, k);
    RingSumCounts(r, e);
    if IsSide(n, e) || e in Cuts(n, front) { KnownEdgesRemain(n, front, e); }
  }

  lemma {:induction false} CutsCount(n: nat, moves: seq<Move>)
    requires Legal(n, moves)
    ensures |Cuts(n, moves)| == Clips(moves)
    decreases |moves|
  {
    if moves != [] { CutsCount(n, moves[..|moves|-1]); }
  }

  // A full run of clips triangulates the polygon: its n-2 triangles have every side of the
  // polygon once and every one of the n-3 cuts twice, and no other edge.
  lemma Triangulates(n: nat, moves: seq<Move>, k: nat, e: Edge)
    requires Legal(n, moves + [Clip(k)]) && Clips(moves + [Clip(k)]) == n - 2
    ensures Legal(n, moves)
    ensures |Triangles(n, moves + [Clip(k)])| == n - 2 && |Cuts(n, moves)| == n - 3
    ensures EdgeCount(Triangles(n, moves + [Clip(k)]), e)
         == if IsSide(n, e) then 1 else if e in Cuts(n, moves) then 2 else 0
    ensures e in Cuts(n, moves) ==> !IsSide(n, e) && Occurs(Cuts(n, moves), e) == 1
  {
    hide RingSum, PathSum, IsRingEdge, EdgeCount, Triangles, Occurs, TriAt;
    var all := moves + [Clip(k)];
    assert all[..|moves|] == moves;
    RingShrinks(n, all);
    RingShrinks(n, moves);
    CutsCount(n, moves);
    CutsAreNew(n, moves, e);
    EdgeBalance(n, all, e);
    RingSumCounts(Polygon(n), e);
    LastCut(RingAfter(n, moves), k, e);
    OccursNext(Cuts(n, moves), Cuts(n, all)[|Cuts(n, all)|-1], e);
  }

  lemma OccursNext(d: seq<Edge>, x: Edge, e: Edge)
    ensures Occurs(d + [x], e) == Occurs(d, e) + if x == e then 1 else 0
  {
    assert (d + [x])[..|d|] == d;
  }

  // The last cut is the edge between the two corners left, there and back.
  lemma LastCut(r: seq<int>, k: nat, e: Edge)
    requires |r| == 3 && k < 3
    ensures var t := TriAt(r, k);
      RingSum(Remove(r, k), Is(e)) == if Between(t.a, t.c) == e then 2.0 else 0.0
  {
    hide RingSum;
    var s := Remove(r, k);
    assert s == [s[0], s[1]];
    PairSum(s[0], s[1], e);
  }
}
