// The ear-clipping triangulator: a doubly linked ring of corners edited in place, with
// unsorted lists of the ears and the reflex corners. What counts as clockwise and as inside
// is left open, so everything here holds for every geometry.
module Triangulator {
  import opened Common
  import opened Counting
  import opened EarClipping

  datatype NodeType = Convex | Ear | Reflex

  // A corner; its index is its position in the node array.
  datatype Node = Node(typ: NodeType, next: int, prev: int)

  // s with element i replaced by the last one and the end cut off.
  function EraseAt(s: seq<int>, i: nat): (r: seq<int>)
    requires i < |s|
  {
    s[i := s[|s|-1]][..|s|-1]
  }

  lemma EraseMembers(s: seq<int>, i: nat, n: int)
    requires i < |s| && Distinct(s)
    ensures Distinct(EraseAt(s, i)) && (Below(s, n) ==> Below(EraseAt(s, i), n))
    ensures forall v :: v in EraseAt(s, i) <==> v in s && v != s[i]
  {
    var r := EraseAt(s, i);
    forall v ensures v in r <==> v in s && v != s[i] {
      if v in s && v != s[i] {
        var j :| 0 <= j < |s| && s[j] == v;
        assert r[if j == |s| - 1 then i else j] == v;
      }
      if v in r {
        var j :| 0 <= j < |r| && r[j] == v;
        assert s[if j == i then |s| - 1 else j] == v;
      }
    }
  }

  // A span of node references with room for as many as there are nodes.
  class NodeSpan {
    const data: array<int>
    var size: int

    constructor (n: nat)
      ensures size == 0 && data.Length == n && fresh(data)
    {
      data, size := new int[n], 0;
    }

    ghost predicate Valid()
      reads this
    {
      0 <= size <= data.Length
    }

    function Contents(): (s: seq<int>)
      requires Valid()
      reads this, data
      ensures |s| == size
    {
      data[..size]
    }

    method PushBack(v: int)
      requires Valid() && size < data.Length
      modifies this, data
      ensures Valid() && Contents() == old(Contents()) + [v]
    {
      data[size] := v;
      size := size + 1;
    }

    method Clear()
      modifies this
      ensures Valid() && Contents() == []
    {
      size := 0;
    }

    // Erase a reference to node idx, if there is one, moving the last one into its place.
    method FindEraseUnsorted(idx: int) returns (ghost at: int)
      requires Valid()
      modifies this, data
      ensures Valid()
      ensures if idx in old(Contents()) then
          0 <= at < |old(Contents())| && old(Contents())[at] == idx && Contents() == EraseAt(old(Contents()), at)
        else Contents() == old(Contents())
    {
      var i := size - 1;
      at := -1;
      while i >= 0
        invariant -1 <= i < size && size == old(size) && Contents() == old(Contents())
        invariant forall j :: i < j < size ==> data[j] != idx
        decreases i
      {
        if data[i] == idx {
          at := i;
          data[i] := data[size - 1];
          size := size - 1;
          return;
        }
        i := i - 1;
      }
    }
  }

  /** The ring */

  ghost predicate Linked(ns: seq<Node>, first: int, ring: seq<int>) {
    && |ring| >= 2 && first == ring[0] && DistinctCorners(ring, |ns|)
    && forall i {:trigger After(i, |ring|)} {:trigger Before(i, |ring|)} :: 0 <= i < |ring| ==>
         ns[ring[i]].next == ring[After(i, |ring|)] && ns[ring[i]].prev == ring[Before(i, |ring|)]
  }

  lemma LinkedAt(ns: seq<Node>, first: int, ring: seq<int>, i: nat)
    requires Linked(ns, first, ring) && i < |ring|
    ensures 0 <= ring[i] < |ns|
    ensures ns[ring[i]].next == ring[After(i, |ring|)] && ns[ring[i]].prev == ring[Before(i, |ring|)]
  {
    var j := After(i, |ring|);
  }

  // Links survive changes of type.
  lemma LinkedFrame(ns: seq<Node>, ns': seq<Node>, first: int, ring: seq<int>)
    requires Linked(ns, first, ring) && |ns| == |ns'|
    requires forall i :: 0 <= i < |ns| ==> ns'[i] == ns[i].(typ := ns'[i].typ)
    ensures Linked(ns', first, ring)
  {
    forall i {:trigger After(i, |ring|)} | 0 <= i < |ring|
      ensures ns'[ring[i]].next == ring[After(i, |ring|)] && ns'[ring[i]].prev == ring[Before(i, |ring|)]
    {
      LinkedAt(ns, first, ring, i);
    }
  }

  // Unlinking node ring[k] from its neighbours.
  function Unlinked(ns: seq<Node>, v: int): (r: seq<Node>)
    requires 0 <= v < |ns| && 0 <= ns[v].next < |ns| && 0 <= ns[v].prev < |ns|
  {
    var ns1 := ns[ns[v].next := ns[ns[v].next].(prev := ns[v].prev)];
    ns1[ns[v].prev := ns1[ns[v].prev].(next := ns[v].next)]
  }

  lemma UnlinkedIsLinked(ns: seq<Node>, first: int, ring: seq<int>, k: nat)
    requires Linked(ns, first, ring) && |ring| >= 3 && k < |ring|
    ensures var v := ring[k];
      && 0 <= v < |ns| && 0 <= ns[v].next < |ns| && 0 <= ns[v].prev < |ns|
      && Linked(Unlinked(ns, v), if first == v then ns[v].next else first, Remove(ring, k))
  {
    LinkedAt(ns, first, ring, k);
    var ns', r := Unlinked(ns, ring[k]), Remove(ring, k);
    MovesKeepCorners(ring, |ns|, k);
    forall i {:trigger After(i, |r|)} | 0 <= i < |r|
      ensures ns'[r[i]].next == r[After(i, |r|)] && ns'[r[i]].prev == r[Before(i, |r|)]
    {
      UnlinkedAt(ns, first, ring, k, i);
    }
  }

  // A corner's neighbours once corner k is gone: those of k take its place.
  lemma NeighboursWithout(ring: seq<int>, k: nat, i: nat)
    requires |ring| >= 3 && k < |ring| && i < |ring| - 1
    ensures var r, m, j := Remove(ring, k), |ring|, if i < k then i else i + 1;
      && r[i] == ring[j] && j < m && j != k
      && r[After(i, |r|)] == (if j == Before(k, m) then ring[After(k, m)] else ring[After(j, m)])
      && r[Before(i, |r|)] == (if j == After(k, m) then ring[Before(k, m)] else ring[Before(j, m)])
  {
    hide Remove;
    var n := |ring| - 1;
    RemovedAt(ring, k, i);
    RemovedAt(ring, k, After(i, n));
    RemovedAt(ring, k, Before(i, n));
  }

  lemma RemovedAt(ring: seq<int>, k: nat, i: nat)
    requires k < |ring| && i < |ring| - 1
    ensures Remove(ring, k)[i] == ring[if i < k then i else i + 1]
  {
  }

  lemma UnlinkedAt(ns: seq<Node>, first: int, ring: seq<int>, k: nat, i: nat)
    requires Linked(ns, first, ring) && |ring| >= 3 && k < |ring| && i < |ring| - 1
    ensures var v, r := ring[k], Remove(ring, k);
      && 0 <= v < |ns| && 0 <= ns[v].next < |ns| && 0 <= ns[v].prev < |ns| && 0 <= r[i] < |ns|
      && var ns' := Unlinked(ns, v);
      ns'[r[i]].next == r[After(i, |r|)] && ns'[r[i]].prev == r[Before(i, |r|)]
  {
    hide Linked, Remove, After, Before, DistinctCorners;
    var m, j := |ring|, if i < k then i else i + 1;
    LinkedDistinct(ns, first, ring);
    CornersInRange(ring, |ns|);
    LinkedAt(ns, first, ring, k);
    LinkedAt(ns, first, ring, j);
    NeighboursWithout(ring, k, i);
    SameCorner(ring, |ns|, j, Before(k, m));
    SameCorner(ring, |ns|, j, After(k, m));
    SameCorner(ring, |ns|, Before(k, m), After(k, m));
  }

  lemma SameCorner(ring: seq<int>, n: nat, i: nat, j: nat)
    requires DistinctCorners(ring, n) && i < |ring| && j < |ring|
    ensures ring[i] == ring[j] <==> i == j
  {
  }

  lemma LinkedDistinct(ns: seq<Node>, first: int, ring: seq<int>)
    requires Linked(ns, first, ring)
    ensures |ring| >= 2 && first == ring[0] && DistinctCorners(ring, |ns|)
  {
  }

  // The first k corners of r as a ring of their own, turned round: each leads back to the one
  // before it, and the first to the last.
  ghost predicate Reversing(ns: seq<Node>, r: seq<int>, k: nat)
    requires k <= |r|
  {
    forall i :: 0 <= i < k && 0 <= r[i] < |ns| ==>
      ns[r[i]].next == r[Before(i, k)] && ns[r[i]].prev == r[After(i, k)]
  }

  lemma ReversingStep(ns: seq<Node>, ns': seq<Node>, r: seq<int>, k: nat)
    requires 1 <= k < |r| && Reversing(ns, r, k) && |ns| == |ns'| && DistinctCorners(r, |ns|)
    requires forall i :: 0 <= i < |ns| && i != r[k] && i != r[k-1] && i != r[0] ==> ns'[i] == ns[i]
    requires ns'[r[k]].next == r[k-1] && ns'[r[k]].prev == r[0]
    requires ns'[r[k-1]].prev == r[k] && (k - 1 != 0 ==> ns'[r[k-1]].next == ns[r[k-1]].next)
    requires ns'[r[0]].next == r[k] && (k - 1 != 0 ==> ns'[r[0]].prev == ns[r[0]].prev)
    ensures Reversing(ns', r, k + 1)
  {
    forall i | 0 <= i < k + 1 && 0 <= r[i] < |ns'|
      ensures ns'[r[i]].next == r[Before(i, k + 1)] && ns'[r[i]].prev == r[After(i, k + 1)]
    {
      if 0 < i < k - 1 { assert r[i] != r[k] && r[i] != r[k-1] && r[i] != r[0]; }
    }
  }

  // One step of turning the ring round: `current` is put in front of `prev`.
  function TurnOne(ns: seq<Node>, first: int, prev: int, current: int): (r: seq<Node>)
    requires 0 <= first < |ns| && 0 <= prev < |ns| && 0 <= current < |ns|
    ensures |r| == |ns|
  {
    var ns1 := ns[current := ns[current].(next := prev)];
    var ns2 := ns1[prev := ns1[prev].(prev := current)];
    var ns3 := ns2[first := ns2[first].(next := current)];
    ns3[current := ns3[current].(prev := first)]
  }

  // So far the first k corners are turned round and the rest are as they were.
  ghost predicate PartlyTurned(ns0: seq<Node>, ns: seq<Node>, r: seq<int>, k: nat)
    requires k <= |r|
  {
    && |ns| == |ns0| && Reversing(ns, r, k)
    && (forall j :: 0 <= j < |ns| && j !in r[..k] ==> ns[j] == ns0[j])
    && (forall j :: 0 <= j < |ns| ==> ns[j].typ == ns0[j].typ)
  }

  lemma TurnedOne(ns0: seq<Node>, ns: seq<Node>, r: seq<int>, k: nat)
    requires 1 <= k < |r| && DistinctCorners(r, |ns0|) && PartlyTurned(ns0, ns, r, k)
    ensures 0 <= r[0] < |ns| && 0 <= r[k-1] < |ns| && 0 <= r[k] < |ns|
    ensures PartlyTurned(ns0, TurnOne(ns, r[0], r[k-1], r[k]), r, k + 1) && ns[r[k]] == ns0[r[k]]
  {
    hide Reversing;
    assert r[..k+1] == r[..k] + [r[k]];
    assert r[k-1] == r[..k][k-1] && r[0] == r[..k][0];
    ReversingStep(ns, TurnOne(ns, r[0], r[k-1], r[k]), r, k);
  }

  lemma TurnStart(ns0: seq<Node>, r: seq<int>)
    requires |r| >= 2 && DistinctCorners(r, |ns0|)
    ensures 0 <= r[0] < |ns0| && PartlyTurned(ns0, ns0[r[0] := ns0[r[0]].(next := r[0], prev := r[0])], r, 1)
  {
    assert r[..1] == [r[0]];
  }

  lemma Reversed(ns: seq<Node>, r: seq<int>)
    requires |r| >= 2 && DistinctCorners(r, |ns|) && Reversing(ns, r, |r|)
    ensures Linked(ns, r[|r|-1], Reverse(r))
  {
    hide DistinctCorners;
    MovesKeepCorners(r, |ns|, 0);
    CornersInRange(r, |ns|);
    var s := Reverse(r);
    forall i {:trigger After(i, |s|)} | 0 <= i < |s|
      ensures ns[s[i]].next == s[After(i, |s|)] && ns[s[i]].prev == s[Before(i, |s|)]
    {
      assert s[i] == r[|r|-1-i];
    }
  }

  lemma CornersInRange(r: seq<int>, n: nat)
    requires DistinctCorners(r, n)
    ensures forall i :: 0 <= i < |r| ==> 0 <= r[i] < n
  {
  }

  /** The spans */

  // The ears listed are the ring's nodes of that type, each once.
  ghost predicate EarsMatch(ns: seq<Node>, ring: seq<int>, ears: seq<int>) {
    && Distinct(ears) && Below(ears, |ns|) && (forall v :: v in ears ==> v in ring)
    && (forall v :: v in ring && 0 <= v < |ns| ==> (ns[v].typ == Ear <==> v in ears))
  }

  // The reflex corners listed are of that type, each once.
  ghost predicate ReflexesTyped(ns: seq<Node>, reflexes: seq<int>) {
    Distinct(reflexes) && Below(reflexes, |ns|) && forall v :: v in reflexes && 0 <= v < |ns| ==> ns[v].typ == Reflex
  }

  // s with v taken out if it was there and put in at the end if `put`.
  ghost predicate Swapped(s: seq<int>, s': seq<int>, n: int, v: int, put: bool) {
    Distinct(s') && Below(s', n) && forall u :: u in s' <==> (u in s && u != v) || (put && u == v)
  }

  lemma Retyped(ns: seq<Node>, v: int, typ: NodeType, ring: seq<int>,
                ears: seq<int>, ears': seq<int>, reflexes: seq<int>, reflexes': seq<int>)
    requires 0 <= v < |ns| && v in ring && EarsMatch(ns, ring, ears) && ReflexesTyped(ns, reflexes)
    requires Swapped(ears, ears', |ns|, v, typ == Ear) && Swapped(reflexes, reflexes', |ns|, v, typ == Reflex)
    ensures var ns' := ns[v := ns[v].(typ := typ)]; EarsMatch(ns', ring, ears') && ReflexesTyped(ns', reflexes')
  {
  }

  // The same members, except perhaps for v.
  ghost predicate SameBut(s: seq<int>, s': seq<int>, v: int) {
    forall u :: u != v ==> (u in s <==> u in s')
  }

  lemma SameReflexes(s: seq<int>, v: int)
    ensures SameBut(s, s, v)
  {
  }

  lemma SwappedMembers(s: seq<int>, s': seq<int>, n: int, v: int, in': bool)
    requires Swapped(s, s', n, v, in')
    ensures SameBut(s, s', v)
  {
  }

  lemma PutAtEnd(s: seq<int>, n: int, v: int)
    requires Distinct(s) && Below(s, n) && v !in s && 0 <= v < n
    ensures Swapped(s, s + [v], n, v, true) && |s| < n
  {
    RoomFor(s, n, v);
  }

  lemma TakenOut(s: seq<int>, s': seq<int>, at: int, n: int, v: int)
    requires Distinct(s) && Below(s, n)
    requires if v in s then 0 <= at < |s| && s[at] == v && s' == EraseAt(s, at) else s' == s
    ensures Swapped(s, s', n, v, false)
  {
    if v in s { EraseMembers(s, at, n); }
  }

  lemma LeftAlone(s: seq<int>, n: int, v: int)
    requires Distinct(s) && Below(s, n) && v !in s
    ensures Swapped(s, s, n, v, false)
  {
  }

  lemma NotBefore(ring: seq<int>, k: nat, n: nat)
    requires DistinctCorners(ring, n) && k < |ring|
    ensures ring[k] !in ring[..k] && 0 <= ring[k] < n
    ensures ring[..k+1] == ring[..k] + [ring[k]]
    ensures forall j :: 0 <= j < k ==> ring[j] != ring[k]
  {
  }

  // Of the first k corners, just those that do not turn clockwise are listed and typed reflex.
  ghost predicate ReflexesListed(cw: (int, int, int) -> bool, ns0: seq<Node>, ns: seq<Node>, ring: seq<int>,
                                 rs: seq<int>, k: nat) {
    && |ns| == |ns0| && k <= |ring|
    && (forall v :: 0 <= v < |ns| ==> ns[v] == ns0[v] || (v in rs && ns[v] == ns0[v].(typ := Reflex)))
    && (forall v :: v in rs ==> v in ring[..k])
    && forall j :: 0 <= j < k ==> (ring[j] in rs <==> var t := TriAt(ring, j); !cw(t.a, t.b, t.c))
  }

  lemma ReflexesNext(cw: (int, int, int) -> bool, ns0: seq<Node>, ns: seq<Node>, ring: seq<int>, rs: seq<int>, k: nat)
    requires ReflexesListed(cw, ns0, ns, ring, rs, k) && k < |ring| && DistinctCorners(ring, |ns|)
    ensures 0 <= ring[k] < |ns| && ring[k] !in rs
    ensures var t, v := TriAt(ring, k), ring[k];
      if cw(t.a, t.b, t.c) then ReflexesListed(cw, ns0, ns, ring, rs, k + 1)
      else ReflexesListed(cw, ns0, ns[v := ns[v].(typ := Reflex)], ring, rs + [v], k + 1)
  {
    hide DistinctCorners, TriAt;
    NotBefore(ring, k, |ns|);
    var t, v := TriAt(ring, k), ring[k];
    if !cw(t.a, t.b, t.c) {
      var ns', rs' := ns[v := ns[v].(typ := Reflex)], rs + [v];
      assert forall u :: u in rs' <==> u in rs || u == v;
      assert forall u :: 0 <= u < |ns| && u != v ==> ns'[u] == ns[u];
    }
  }

  // Of the first k corners, just the convex ones that are clear of reflex corners are listed
  // as ears, and no other node is changed.
  ghost predicate EarsListed(clear: int -> bool, ns0: seq<Node>, ns: seq<Node>, ring: seq<int>, es: seq<int>, k: nat) {
    && |ns| == |ns0| && k <= |ring|
    && (forall v :: 0 <= v < |ns| && v !in ring[..k] ==> ns[v] == ns0[v])
    && (forall v :: v in es ==> v in ring[..k])
    && (forall j :: 0 <= j < k && 0 <= ring[j] < |ns0| ==> (ring[j] in es <==> ns0[ring[j]].typ == Convex && clear(j)))
    && LastIsLatest(ring, es, k)
  }

  // Of the first k corners, none behind the last ear listed is listed.
  ghost predicate LastIsLatest(ring: seq<int>, es: seq<int>, k: nat) {
    es != [] ==> forall j, m :: 0 <= j < m < k && m < |ring| && ring[j] == es[|es|-1] ==> ring[m] !in es
  }

  lemma EarsNext(clear: int -> bool, ns0: seq<Node>, ns: seq<Node>, ring: seq<int>, es: seq<int>, k: nat)
    requires EarsListed(clear, ns0, ns, ring, es, k) && k < |ring| && DistinctCorners(ring, |ns|)
    ensures 0 <= ring[k] < |ns| && ring[k] !in es && ns[ring[k]] == ns0[ring[k]]
    ensures var v := ring[k];
      if ns[v].typ == Convex && clear(k) then EarsListed(clear, ns0, ns[v := ns[v].(typ := Ear)], ring, es + [v], k + 1)
      else EarsListed(clear, ns0, ns, ring, es, k + 1)
  {
    hide DistinctCorners;
    NotBefore(ring, k, |ns|);
    var es' := es + [ring[k]];
    assert forall u :: u in es' <==> u in es || u == ring[k];
  }

  // Does corner j of the ring fail to turn clockwise?
  ghost predicate Back(cw: (int, int, int) -> bool, r: seq<int>, j: nat)
    requires j < |r|
  {
    var t := TriAt(r, j);
    !cw(t.a, t.b, t.c)
  }

  // Is corner j an ear of a ring that has just been built? All corners but the last are looked at.
  ghost predicate EarIn(cw: (int, int, int) -> bool, inside: (int, int, int, int) -> bool, r: seq<int>, j: nat)
    requires j < |r|
  {
    var t := TriAt(r, j);
    && !Back(cw, r, j)
    && forall m :: 0 <= m < |r| - 1 && Back(cw, r, m) ==>
         r[m] == t.a || r[m] == t.b || r[m] == t.c || !inside(t.a, t.b, t.c, r[m])
  }

  // Just the ears among all corners but the last are listed, the last of them at the end.
  ghost predicate ListsEars(cw: (int, int, int) -> bool, inside: (int, int, int, int) -> bool,
                            r: seq<int>, es: seq<int>) {
    && |r| >= 1 && (forall v :: v in es ==> v in r[..|r|-1])
    && (forall j :: 0 <= j < |r| - 1 ==> (r[j] in es <==> EarIn(cw, inside, r, j)))
    && LastIsLatest(r, es, |r| - 1)
  }

  ghost predicate NoEar(cw: (int, int, int) -> bool, inside: (int, int, int, int) -> bool, r: seq<int>) {
    forall j :: 0 <= j < |r| - 1 ==> !EarIn(cw, inside, r, j)
  }

  // The corner to clip off a ring just built: the last ear listed, or the first corner.
  ghost predicate TakenAnew(cw: (int, int, int) -> bool, inside: (int, int, int, int) -> bool, r: seq<int>, k: nat)
    requires k < |r|
  {
    if NoEar(cw, inside, r) then k == 0
    else k < |r| - 1 && EarIn(cw, inside, r, k) && forall j :: k < j < |r| - 1 ==> !EarIn(cw, inside, r, j)
  }

  // The corner that may be clipped after these moves: that of a ring just built, at the start and
  // when the ring has been turned round, and otherwise any that turns clockwise.
  ghost predicate MayClip(cw: (int, int, int) -> bool, inside: (int, int, int, int) -> bool,
                          front: seq<Move>, r: seq<int>, k: nat)
    requires k < |r|
  {
    if front == [] then !NoEar(cw, inside, r) && TakenAnew(cw, inside, r, k)
    else if Last(front).Flip? then TakenAnew(cw, inside, r, k)
    else !Back(cw, r, k)
  }

  // Every corner clipped was one that may be. The ring is turned round only before a clip, and at
  // the start only when it has no ear.
  ghost predicate EarByEar(cw: (int, int, int) -> bool, inside: (int, int, int, int) -> bool, n: nat, moves: seq<Move>)
    requires Legal(n, moves)
  {
    if moves == [] then true
    else
      var front := moves[..|moves|-1];
      var r := RingAfter(n, front);
      EarByEar(cw, inside, n, front) &&
      match moves[|moves|-1]
      case Flip => if front == [] then NoEar(cw, inside, r) else Last(front).Clip?
      case Clip(k) => MayClip(cw, inside, front, r, k)
  }

  lemma NoMoveYet(cw: (int, int, int) -> bool, inside: (int, int, int, int) -> bool, n: nat)
    requires n >= 3
    ensures Legal(n, []) && EarByEar(cw, inside, n, [])
  {
  }

  lemma EarNext(cw: (int, int, int) -> bool, inside: (int, int, int, int) -> bool, n: nat, front: seq<Move>, m: Move)
    requires Legal(n, front + [m]) && Legal(n, front) && EarByEar(cw, inside, n, front)
    requires m.Flip? ==> if front == [] then NoEar(cw, inside, RingAfter(n, front)) else Last(front).Clip?
    requires m.Clip? ==> m.k < |RingAfter(n, front)| && MayClip(cw, inside, front, RingAfter(n, front), m.k)
    ensures EarByEar(cw, inside, n, front + [m])
  {
    hide Legal, NoEar, MayClip;
    assert (front + [m])[..|front|] == front;
  }

  lemma LastListed(cw: (int, int, int) -> bool, inside: (int, int, int, int) -> bool, r: seq<int>, es: seq<int>,
                   k: nat, m: nat)
    requires ListsEars(cw, inside, r, es) && es != [] && k < |r| && r[k] == es[|es|-1] && DistinctCorners(r, m)
    ensures !NoEar(cw, inside, r) && TakenAnew(cw, inside, r, k)
  {
    hide EarIn;
    var v := es[|es|-1];
    assert v in es;
    assert k < |r| - 1 && EarIn(cw, inside, r, k);
  }

  lemma NoneListed(cw: (int, int, int) -> bool, inside: (int, int, int, int) -> bool, r: seq<int>)
    requires ListsEars(cw, inside, r, []) && |r| >= 1
    ensures NoEar(cw, inside, r) && TakenAnew(cw, inside, r, 0)
  {
    hide EarIn;
  }

  // The ears listed turn clockwise.
  ghost predicate EarsTurn(cw: (int, int, int) -> bool, ring: seq<int>, es: seq<int>) {
    forall k :: 0 <= k < |ring| && ring[k] in es ==> !Back(cw, ring, k)
  }

  lemma ListedTurn(cw: (int, int, int) -> bool, inside: (int, int, int, int) -> bool, r: seq<int>, es: seq<int>, m: nat)
    requires ListsEars(cw, inside, r, es) && DistinctCorners(r, m)
    ensures EarsTurn(cw, r, es)
  {
    hide Back;
    forall k | 0 <= k < |r| && r[k] in es ensures !Back(cw, r, k) {
      var j :| 0 <= j < |r| - 1 && r[j] == r[k];
      assert j == k && EarIn(cw, inside, r, k);
    }
  }

  // Clipping off a corner changes the triangles of its two neighbours only.
  lemma OtherCorners(r: seq<int>, k: nat, j: nat, m: nat)
    requires DistinctCorners(r, m) && |r| >= 3 && k < |r| && j < |r| - 1
    requires var s := Remove(r, k); s[j] != TriAt(r, k).a && s[j] != TriAt(r, k).c
    ensures var i := if j < k then j else j + 1; TriAt(Remove(r, k), j) == TriAt(r, i) && Remove(r, k)[j] == r[i]
  {
  }

  class Triangulator {
    const n: nat
    const clockwise: (int, int, int) -> bool           // of three corners
    const containsPoint: (int, int, int, int) -> bool  // does the triangle hold a fourth?

    const nodes: array<Node>
    const ears: NodeSpan
    const reflexes: NodeSpan
    var trianglesLeft: int
    var first: int

    ghost var ring: seq<int>
    ghost var moves: seq<Move>

    // The ring is what the moves so far have left of the polygon.
    ghost predicate RingOk()
      reads this, nodes
    {
      && nodes.Length == n && Legal(n, moves) && ring == RingAfter(n, moves)
      && |ring| == trianglesLeft + 2 && Linked(nodes[..], first, ring)
    }

    ghost predicate SpansApart()
      reads this, ears, reflexes
    {
      && ears != reflexes && ears.data != reflexes.data
      && ears.Valid() && reflexes.Valid() && ears.data.Length == n && reflexes.data.Length == n
    }

    ghost predicate Consistent()
      reads this, nodes, ears, ears.data, reflexes, reflexes.data
    {
      && RingOk() && SpansApart()
      && EarsMatch(nodes[..], ring, ears.Contents())
      && ReflexesTyped(nodes[..], reflexes.Contents())
    }

    ghost predicate Valid()
      reads this, nodes, ears, ears.data, reflexes, reflexes.data
    {
      Consistent() && EarsTurn(clockwise, ring, ears.Contents()) && Underway()
    }

    // Nothing but ears has been clipped so far, and the next clip may follow.
    ghost predicate Underway()
      requires ears.Valid() && Legal(n, moves)
      reads this, ears, ears.data
    {
      && EarByEar(clockwise, containsPoint, n, moves)
      && if moves == [] then ListsEars(clockwise, containsPoint, ring, ears.Contents()) else Last(moves).Clip?
    }

    constructor Init(n: nat, clockwise: (int, int, int) -> bool, containsPoint: (int, int, int, int) -> bool)
      requires n >= 3
      ensures Valid() && fresh(nodes) && fresh(ears) && fresh(ears.data) && fresh(reflexes) && fresh(reflexes.data)
      ensures this.n == n && this.clockwise == clockwise && this.containsPoint == containsPoint
      ensures trianglesLeft == n - 2 && moves == [] && ring == Polygon(n)
      ensures forall k :: 0 <= k < n - 1 ==>
        && (k in reflexes.Contents() <==> Back(clockwise, ring, k))
        && (k in ears.Contents() <==> IsClearCorner(k))
      ensures ListsEars(clockwise, containsPoint, ring, ears.Contents())
    {
      hide Linked, Legal, RingAfter, EarsMatch, ReflexesTyped, Distinct, Below, DistinctCorners, Clear, ReflexesListed,
           EarsListed, EarTest, TriAt, Back, ListsEars, EarsTurn, EarByEar;
      this.n, this.clockwise, this.containsPoint := n, clockwise, containsPoint;
      nodes := new Node[n];
      ears := new NodeSpan(n);
      reflexes := new NodeSpan(n);
      trianglesLeft, first, ring, moves := n - 2, 0, Polygon(n), [];
      new;
      NoMoves(n);
      NoMoveYet(clockwise, containsPoint, n);
      BuildNodes();
      ghost var ns0 := nodes[..];
      BuildReflexes();
      OnlyReflexes(ns0, nodes[..], reflexes.Contents());
      NoEars(nodes[..], ring);
      ghost var ns1, rs := nodes[..], reflexes.Contents();
      BuildEars();
      Rebuilt(ns0, ns1, rs);
    }

    // What building the spans has listed.
    lemma Rebuilt(ns0: seq<Node>, ns1: seq<Node>, rs: seq<int>)
      requires Consistent() && reflexes.Contents() == rs
      requires forall k :: 0 <= k < |ring| - 1 ==> 0 <= ring[k] < |ns0| && ns0[ring[k]].typ == Convex
      requires |ring| >= 2 && ReflexesListed(clockwise, ns0, ns1, ring, rs, |ring| - 1) && ReflexesTyped(ns1, rs)
      requires EarsListed(EarTest(rs), ns1, nodes[..], ring, ears.Contents(), |ring| - 1)
      ensures forall k :: 0 <= k < |ring| - 1 ==>
        (ring[k] in rs <==> Back(clockwise, ring, k)) && (ring[k] in ears.Contents() <==> IsClearCorner(k))
      ensures ListsEars(clockwise, containsPoint, ring, ears.Contents())
      ensures EarsTurn(clockwise, ring, ears.Contents())
    {
      hide Legal, RingAfter, Linked, EarsMatch, ReflexesTyped, Distinct, Below, DistinctCorners, Clear, ReflexesListed,
           EarsListed, EarTest, TriAt, Back, ListsEars, EarsTurn;
      LinkedDistinct(nodes[..], first, ring);
      ListedCorners(ns0, ns1, nodes[..], rs, ears.Contents());
      EarsAreListed(ns0, ns1, nodes[..], rs, ears.Contents());
      ListedTurn(clockwise, containsPoint, ring, ears.Contents(), |nodes[..]|);
    }

    lemma NoMoves(n: nat)
      requires n >= 3
      ensures Legal(n, []) && RingAfter(n, []) == Polygon(n)
    {
    }

    lemma NoEars(ns: seq<Node>, ring: seq<int>)
      requires forall v :: v in ring && 0 <= v < |ns| ==> ns[v].typ != Ear
      ensures EarsMatch(ns, ring, [])
    {
    }

    method BuildNodes()
      requires nodes.Length == n >= 3
      modifies nodes
      ensures Linked(nodes[..], 0, Polygon(n)) && forall i :: 0 <= i < n ==> nodes[i].typ == Convex
    {
      var i := 0;
      while i < n
        invariant 0 <= i <= n
        invariant forall j :: 0 <= j < i ==> nodes[j] == Node(Convex, j + 1, j - 1)
      {
        nodes[i] := Node(Convex, i + 1, i - 1);
        i := i + 1;
      }
      nodes[0] := nodes[0].(prev := n - 1);
      nodes[n-1] := nodes[n-1].(next := 0);
      PolygonCorners(n);
    }

    // List the reflex corners among all but the last one of the ring.
    method BuildReflexes()
      requires RingOk() && SpansApart() && reflexes.Contents() == [] && trianglesLeft >= 1
      modifies nodes, reflexes, reflexes.data
      ensures RingOk() && SpansApart() && ReflexesTyped(nodes[..], reflexes.Contents())
      ensures ReflexesListed(clockwise, old(nodes[..]), nodes[..], ring, reflexes.Contents(), |ring| - 1)
    {
      hide Legal, RingAfter, Distinct, Below, DistinctCorners, ReflexesTyped, Linked, ReflexesListed, TriAt;
      var n1 := first;
      var i := trianglesLeft;
      ghost var k: nat, ns0 := 0, nodes[..];
      LinkedDistinct(ns0, first, ring);
      NoReflexes(clockwise, ns0, ring);
      while i >= 0
        invariant -1 <= i <= trianglesLeft && k == trianglesLeft - i && n1 == ring[k]
        invariant RingOk() && SpansApart() && ReflexesTyped(nodes[..], reflexes.Contents())
        invariant ReflexesListed(clockwise, ns0, nodes[..], ring, reflexes.Contents(), k)
        decreases i
      {
        LinkedAt(nodes[..], first, ring, k);
        CornerAt(ring, k);
        ReflexesNext(clockwise, ns0, nodes[..], ring, reflexes.Contents(), k);
        if !clockwise(nodes[n1].prev, n1, nodes[n1].next) {
          ListReflex(n1);
        }
        n1 := nodes[n1].next;
        i := i - 1;
        k := k + 1;
      }
    }

    method ListReflex(v: int)
      requires RingOk() && SpansApart() && ReflexesTyped(nodes[..], reflexes.Contents())
      requires 0 <= v < n && v !in reflexes.Contents()
      modifies nodes, reflexes, reflexes.data
      ensures RingOk() && SpansApart() && ReflexesTyped(nodes[..], reflexes.Contents())
      ensures reflexes.Contents() == old(reflexes.Contents()) + [v]
      ensures nodes[..] == old(nodes[..])[v := old(nodes[v]).(typ := Reflex)]
    {
      hide Linked, Legal, RingAfter;
      ghost var ns := nodes[..];
      PutAtEnd(reflexes.Contents(), n, v);
      nodes[v] := nodes[v].(typ := Reflex);
      reflexes.PushBack(v);
      LinkedFrame(ns, nodes[..], first, ring);
    }

    lemma NoReflexes(cw: (int, int, int) -> bool, ns: seq<Node>, ring: seq<int>)
      ensures ReflexesTyped(ns, []) && ReflexesListed(cw, ns, ns, ring, [], 0)
    {
    }

    lemma CornerAt(ring: seq<int>, k: nat)
      requires k < |ring|
      ensures TriAt(ring, k) == Tri(ring[Before(k, |ring|)], ring[k], ring[After(k, |ring|)])
    {
    }

    // The test for ears, corner by corner.
    ghost function EarTest(rs: seq<int>): int -> bool
      reads this
    {
      var r, here := ring, this;
      (k: int) => 0 <= k < |r| && here.Clear(TriAt(r, k).a, TriAt(r, k).b, TriAt(r, k).c, rs)
    }

    // List the ears among all but the last corner of the ring.
    method BuildEars()
      requires RingOk() && SpansApart() && ReflexesTyped(nodes[..], reflexes.Contents())
      requires ears.Contents() == [] && trianglesLeft >= 1 && EarsMatch(nodes[..], ring, [])
      modifies nodes, ears, ears.data
      ensures Consistent() && reflexes.Contents() == old(reflexes.Contents())
      ensures EarsListed(EarTest(reflexes.Contents()), old(nodes[..]), nodes[..], ring, ears.Contents(), |ring| - 1)
    {
      hide Legal, RingAfter, Distinct, Below, DistinctCorners, ReflexesTyped, Linked, EarsMatch, Clear, EarsListed,
           TriAt;
      var n1 := first;
      var i := trianglesLeft;
      ghost var k: nat, ns0, rs := 0, nodes[..], reflexes.Contents();
      ghost var test := EarTest(rs);
      LinkedDistinct(ns0, first, ring);
      NoEarsListed(test, ns0, ring);
      while i >= 0
        invariant -1 <= i <= trianglesLeft && k == trianglesLeft - i && n1 == ring[k]
        invariant Consistent() && reflexes.Contents() == rs
        invariant EarsListed(test, ns0, nodes[..], ring, ears.Contents(), k)
        decreases i
      {
        LinkedAt(nodes[..], first, ring, k);
        CornerAt(ring, k);
        EarsNext(test, ns0, nodes[..], ring, ears.Contents(), k);
        if nodes[n1].typ == Convex {
          var ear := IsEar(nodes[n1].prev, n1, nodes[n1].next);
          if ear {
            ListEar(n1, k);
          }
        }
        n1 := nodes[n1].next;
        i := i - 1;
        k := k + 1;
      }
    }

    lemma NoEarsListed(test: int -> bool, ns: seq<Node>, ring: seq<int>)
      ensures EarsListed(test, ns, ns, ring, [], 0)
    {
    }

    method ListEar(v: int, ghost k: nat)
      requires Consistent() && k < |ring| && v == ring[k] && 0 <= v < n && nodes[v].typ == Convex
      modifies nodes, ears, ears.data
      ensures Consistent() && reflexes.Contents() == old(reflexes.Contents())
      ensures ears.Contents() == old(ears.Contents()) + [v]
      ensures nodes[..] == old(nodes[..])[v := old(nodes[v]).(typ := Ear)]
    {
      hide Linked, Legal, RingAfter, EarsMatch, ReflexesTyped, Swapped, Distinct, Below;
      ghost var ns, es, rs := nodes[..], ears.Contents(), reflexes.Contents();
      SpanFacts(ns, ring, es, rs, v);
      PutAtEnd(es, n, v);
      LeftAlone(rs, n, v);
      nodes[v] := nodes[v].(typ := Ear);
      ears.PushBack(v);
      Retyped(ns, v, Ear, ring, es, ears.Contents(), rs, rs);
      LinkedFrame(ns, nodes[..], first, ring);
    }

    // No reflex corner but the triangle's own lies inside it.
    ghost predicate Clear(i0: int, i1: int, i2: int, rs: seq<int>) {
      forall v :: v in rs ==> v == i0 || v == i1 || v == i2 || !containsPoint(i0, i1, i2, v)
    }

    method IsEar(i0: int, i1: int, i2: int) returns (b: bool)
      requires reflexes.Valid()
      ensures b <==> Clear(i0, i1, i2, reflexes.Contents())
    {
      var p := 0;
      while p < reflexes.size
        invariant 0 <= p <= reflexes.size
        invariant Clear(i0, i1, i2, reflexes.Contents()[..p])
      {
        var v := reflexes.data[p];
        if v != i0 && v != i1 && v != i2 {
          if containsPoint(i0, i1, i2, v) {
            assert v in reflexes.Contents();
            return false;
          }
        }
        p := p + 1;
      }
      return true;
    }

    ghost function TypeOf(k: nat, rs: seq<int>): NodeType
      requires k < |ring|
      reads this
    {
      var t := TriAt(ring, k);
      if !clockwise(t.a, t.b, t.c) then Reflex else if Clear(t.a, t.b, t.c, rs) then Ear else Convex
    }

    // Bring the type of corner k, and the spans, up to date with its neighbours.
    method ReclassifyNode(n1: int, ghost k: nat)
      requires Consistent() && k < |ring| && n1 == ring[k]
      modifies nodes, ears, ears.data, reflexes, reflexes.data
      ensures Consistent()
      ensures nodes[n1].typ == old(TypeOf(k, reflexes.Contents()))
      ensures SameBut(old(reflexes.Contents()), reflexes.Contents(), n1)
      ensures forall i :: 0 <= i < nodes.Length && i != n1 ==> nodes[i] == old(nodes[i])
    {
      hide Linked, EarsMatch, ReflexesTyped, Legal, RingAfter, Clear, Distinct, Below, DistinctCorners, SameBut;
      LinkedAt(nodes[..], first, ring, k);
      SameReflexes(reflexes.Contents(), n1);
      var n0, n2 := nodes[n1].prev, nodes[n1].next;
      var typ;
      if !clockwise(n0, n1, n2) {
        typ := Reflex;
      } else {
        var ear := IsEar(n0, n1, n2);
        typ := if ear then Ear else Convex;
      }
      if typ == nodes[n1].typ {
        return;
      }
      Retype(n1, typ);
    }

    // Give corner n1 another type and move it from span to span.
    method Retype(n1: int, typ: NodeType)
      requires Consistent() && 0 <= n1 < nodes.Length && n1 in ring && typ != nodes[n1].typ
      modifies nodes, ears, ears.data, reflexes, reflexes.data
      ensures Consistent() && nodes[..] == old(nodes[..])[n1 := old(nodes[n1]).(typ := typ)]
      ensures SameBut(old(reflexes.Contents()), reflexes.Contents(), n1)
    {
      hide Linked, EarsMatch, ReflexesTyped, Legal, RingAfter, Swapped, Distinct, Below, DistinctCorners, SameBut;
      ghost var ns, es, rs := nodes[..], ears.Contents(), reflexes.Contents();
      ghost var at := -1;
      SpanFacts(ns, ring, es, rs, n1);
      if nodes[n1].typ == Reflex {
        at := reflexes.FindEraseUnsorted(n1);
      } else if nodes[n1].typ == Ear {
        at := ears.FindEraseUnsorted(n1);
      }
      if typ == Reflex {
        PutAtEnd(rs, n, n1);
        reflexes.PushBack(n1);
      } else if typ == Ear {
        PutAtEnd(es, n, n1);
        ears.PushBack(n1);
      }
      nodes[n1] := nodes[n1].(typ := typ);
      assert nodes[..] == ns[n1 := ns[n1].(typ := typ)];
      if typ != Reflex { TakenOut(rs, reflexes.Contents(), at, n, n1); }
      if typ != Ear { TakenOut(es, ears.Contents(), at, n, n1); }
      Retyped(ns, n1, typ, ring, es, ears.Contents(), rs, reflexes.Contents());
      LinkedFrame(ns, nodes[..], first, ring);
      SwappedMembers(rs, reflexes.Contents(), n, n1, typ == Reflex);
    }

    lemma SpanFacts(ns: seq<Node>, ring: seq<int>, es: seq<int>, rs: seq<int>, v: int)
      requires EarsMatch(ns, ring, es) && ReflexesTyped(ns, rs) && 0 <= v < |ns| && v in ring
      ensures Distinct(es) && Below(es, |ns|) && Distinct(rs) && Below(rs, |ns|)
      ensures ns[v].typ == Ear <==> v in es
      ensures ns[v].typ != Reflex ==> v !in rs
    {
    }

    // Put `current` in front of `prev` on the ring that is being turned round.
    method Turn(prev: int, current: int)
      requires 0 <= first < nodes.Length && 0 <= prev < nodes.Length && 0 <= current < nodes.Length
      modifies nodes
      ensures nodes[..] == TurnOne(old(nodes[..]), first, prev, current)
    {
      nodes[current] := nodes[current].(next := prev);
      nodes[prev] := nodes[prev].(prev := current);
      nodes[first] := nodes[first].(next := current);
      nodes[current] := nodes[current].(prev := first);
    }

    // Turn the ring round in place.
    method FlipNodeList()
      requires RingOk() && SpansApart()
      modifies this`first, this`ring, this`moves, nodes
      ensures RingOk() && moves == old(moves) + [Flip] && ring == Reverse(old(ring))
      ensures forall i :: 0 <= i < nodes.Length ==> nodes[i].typ == old(nodes[i].typ)
    {
      hide Legal, RingAfter, DistinctCorners, Linked, PartlyTurned, TurnOne;
      ghost var r, ns0 := ring, nodes[..];
      LinkedDistinct(ns0, first, r);
      LinkedAt(ns0, first, r, 0);
      TurnStart(ns0, r);
      var prev, temp, current := first, first, nodes[first].next;
      nodes[prev] := nodes[prev].(next := prev, prev := prev);
      ghost var ns, k: nat := nodes[..], 1;
      while current != first
        invariant 1 <= k <= |r| && prev == r[k-1] && current == r[if k == |r| then 0 else k]
        invariant first == r[0] && ring == r && moves == old(moves)
        invariant 0 <= prev < n && ns == nodes[..] && |ns| == n && PartlyTurned(ns0, ns, r, k)
        decreases |r| - k
      {
        FirstAgain(r, n, k);
        TurnedOne(ns0, ns, r, k);
        LinkedAt(ns0, first, r, k);
        temp := nodes[current].next;
        Turn(prev, current);
        ns := TurnOne(ns, first, prev, current);
        prev := current;
        current := temp;
        k := k + 1;
      }
      FirstAgain(r, n, k);
      first := prev;
      ring := Reverse(r);
      moves := moves + [Flip];
      TurnedAll(ns0, ns, r);
      FlipIsLegal(n, old(moves));
    }

    lemma FirstAgain(r: seq<int>, n: nat, k: nat)
      requires DistinctCorners(r, n) && 1 <= k <= |r|
      ensures k < |r| <==> r[if k == |r| then 0 else k] != r[0]
    {
    }

    lemma TurnedAll(ns0: seq<Node>, ns: seq<Node>, r: seq<int>)
      requires |r| >= 2 && DistinctCorners(r, |ns0|) && PartlyTurned(ns0, ns, r, |r|)
      ensures Linked(ns, r[|r|-1], Reverse(r)) && forall j :: 0 <= j < |ns| ==> ns[j].typ == ns0[j].typ
    {
      Reversed(ns, r);
    }

    lemma FlipIsLegal(n: nat, moves: seq<Move>)
      requires Legal(n, moves)
      ensures Legal(n, moves + [Flip]) && RingAfter(n, moves + [Flip]) == Reverse(RingAfter(n, moves))
    {
      assert (moves + [Flip])[..|moves|] == moves;
    }

    // Start over the other way round: types and spans are rebuilt for all corners but the
    // last, which keeps the type it has.
    method StartOver()
      requires Valid() && trianglesLeft > 0 && ears.size == 0
      modifies this`first, this`ring, this`moves, nodes, ears, ears.data, reflexes, reflexes.data
      ensures Consistent() && EarsTurn(clockwise, ring, ears.Contents()) && trianglesLeft == old(trianglesLeft)
      ensures moves == old(moves) + [Flip] && ring == Reverse(old(ring))
      ensures EarByEar(clockwise, containsPoint, n, moves)
      ensures forall k :: 0 <= k < |ring| - 1 ==>
        && (ring[k] in reflexes.Contents() <==> Back(clockwise, ring, k))
        && (ring[k] in ears.Contents() <==> IsClearCorner(k))
      ensures ListsEars(clockwise, containsPoint, ring, ears.Contents())
    {
      hide Legal, RingAfter, Linked, EarsMatch, ReflexesTyped, Distinct, Below, DistinctCorners, Clear, ReflexesListed,
           EarsListed, EarTest, TriAt, Back, ListsEars, EarsTurn, NoEar, EarByEar;
      NoEarTypes(nodes[..], ring);
      if moves == [] { NoneListed(clockwise, containsPoint, ring); }
      FlipNodeList();
      EarNext(clockwise, containsPoint, n, old(moves), Flip);
      ReverseCorners(old(ring));
      ResetTypes();
      ghost var ns0 := nodes[..];
      reflexes.Clear();
      BuildReflexes();
      OnlyReflexes(ns0, nodes[..], reflexes.Contents());
      NoEars(nodes[..], ring);
      ghost var ns1, rs := nodes[..], reflexes.Contents();
      BuildEars();
      Rebuilt(ns0, ns1, rs);
    }

    lemma EarsAreListed(ns0: seq<Node>, ns1: seq<Node>, ns2: seq<Node>, rs: seq<int>, es: seq<int>)
      requires forall k :: 0 <= k < |ring| - 1 ==> 0 <= ring[k] < |ns0| && ns0[ring[k]].typ == Convex
      requires |ring| >= 2 && ReflexesListed(clockwise, ns0, ns1, ring, rs, |ring| - 1) && ReflexesTyped(ns1, rs)
      requires EarsListed(EarTest(rs), ns1, ns2, ring, es, |ring| - 1)
      ensures ListsEars(clockwise, containsPoint, ring, es)
    {
      hide TriAt, EarIn, LastIsLatest, Clear, Back;
      ListedCorners(ns0, ns1, ns2, rs, es);
      forall j | 0 <= j < |ring| - 1 ensures ring[j] in es <==> EarIn(clockwise, containsPoint, ring, j) {
        EarInIs(rs, j);
      }
    }

    lemma EarInIs(rs: seq<int>, j: nat)
      requires j < |ring| && |ring| >= 1 && (forall v :: v in rs ==> v in ring[..|ring|-1])
      requires forall k :: 0 <= k < |ring| - 1 ==> (ring[k] in rs <==> Back(clockwise, ring, k))
      ensures EarIn(clockwise, containsPoint, ring, j) <==>
        !Back(clockwise, ring, j) && Clear(TriAt(ring, j).a, TriAt(ring, j).b, TriAt(ring, j).c, rs)
    {
      hide TriAt;
    }

    lemma OnlyReflexes(ns0: seq<Node>, ns1: seq<Node>, rs: seq<int>)
      requires |ring| >= 1 && ReflexesListed(clockwise, ns0, ns1, ring, rs, |ring| - 1)
      ensures |ns1| == |ns0| && forall v :: 0 <= v < |ns0| ==> ns1[v].typ == ns0[v].typ || ns1[v].typ == Reflex
    {
    }

    lemma ListedCorners(ns0: seq<Node>, ns1: seq<Node>, ns2: seq<Node>, rs: seq<int>, es: seq<int>)
      requires forall k :: 0 <= k < |ring| - 1 ==> 0 <= ring[k] < |ns0| && ns0[ring[k]].typ == Convex
      requires |ring| >= 2 && ReflexesListed(clockwise, ns0, ns1, ring, rs, |ring| - 1) && ReflexesTyped(ns1, rs)
      requires EarsListed(EarTest(rs), ns1, ns2, ring, es, |ring| - 1)
      ensures forall k :: 0 <= k < |ring| - 1 ==>
        (ring[k] in rs <==> Back(clockwise, ring, k))
        && (ring[k] in es <==>
              !Back(clockwise, ring, k) && Clear(TriAt(ring, k).a, TriAt(ring, k).b, TriAt(ring, k).c, rs))
    {
      hide Clear, TriAt;
      forall k | 0 <= k < |ring| - 1
        ensures (ring[k] in rs <==> Back(clockwise, ring, k))
          && (ring[k] in es <==>
              !Back(clockwise, ring, k) && Clear(TriAt(ring, k).a, TriAt(ring, k).b, TriAt(ring, k).c, rs))
      {
        assert ns1[ring[k]].typ == Convex <==> ring[k] !in rs;
      }
    }

    lemma ReverseCorners(r: seq<int>)
      ensures forall v :: v in Reverse(r) ==> v in r
    {
    }

    lemma NoEarTypes(ns: seq<Node>, ring: seq<int>)
      requires EarsMatch(ns, ring, [])
      ensures forall v :: v in ring && 0 <= v < |ns| ==> ns[v].typ != Ear
    {
    }

    method ResetTypes()
      requires RingOk() && trianglesLeft > 0
      modifies nodes
      ensures RingOk()
      ensures forall v :: 0 <= v < n ==> nodes[v].typ == old(nodes[v].typ) || nodes[v].typ == Convex
      ensures forall k :: 0 <= k < |ring| - 1 ==> 0 <= ring[k] < n && nodes[ring[k]].typ == Convex
    {
      hide Legal, RingAfter, Linked, DistinctCorners;
      var node := first;
      var i := trianglesLeft;
      ghost var k: nat, ns0 := 0, nodes[..];
      LinkedDistinct(ns0, first, ring);
      while i >= 0
        invariant -1 <= i <= trianglesLeft && k == trianglesLeft - i && node == ring[k] && RingOk()
        invariant forall v :: 0 <= v < n ==> nodes[v] == ns0[v] || nodes[v] == ns0[v].(typ := Convex)
        invariant forall j :: 0 <= j < k ==> 0 <= ring[j] < n && nodes[ring[j]].typ == Convex
        decreases i
      {
        LinkedAt(nodes[..], first, ring, k);
        ghost var ns := nodes[..];
        nodes[node] := nodes[node].(typ := Convex);
        LinkedFrame(ns, nodes[..], first, ring);
        node := nodes[node].next;
        i := i - 1;
        k := k + 1;
      }
    }

    // The corner to clip next: the last ear listed or, when even starting over finds none,
    // the first corner of the ring.
    method TakeEar() returns (ear: int, ghost k: nat)
      requires Valid() && trianglesLeft > 0
      modifies this`first, this`ring, this`moves, nodes, ears, ears.data, reflexes, reflexes.data
      ensures RingOk() && SpansApart() && trianglesLeft == old(trianglesLeft)
      ensures if old(ears.size) == 0 then moves == old(moves) + [Flip] else moves == old(moves)
      ensures k < |ring| && ear == ring[k]
      ensures old(ears.size) > 0 ==> ear == Last(old(ears.Contents())) && nodes[..] == old(nodes[..])
      ensures if old(ears.size) == 0 then ring == Reverse(old(ring)) && TakenAnew(clockwise, containsPoint, ring, k)
        else ring == old(ring) && !Back(clockwise, ring, k)
      ensures EarsTurn(clockwise, ring, ears.Contents())
      ensures EarByEar(clockwise, containsPoint, n, moves) && MayClip(clockwise, containsPoint, moves, ring, k)
      ensures EarsMatch(nodes[..], Remove(ring, k), ears.Contents()) && ReflexesTyped(nodes[..], reflexes.Contents())
    {
      hide Legal, RingAfter, Linked, EarsMatch, ReflexesTyped, Distinct, Below, DistinctCorners, Clear, ListsEars,
           TakenAnew, Back, NoEar, EarByEar;
      ghost var degenerate := false;
      RingFits(nodes[..], first, ring);
      if ears.size == 0 {
        StartOver();
        if ears.size == 0 {
          NoneListed(clockwise, containsPoint, ring);
          degenerate := true;
          ears.PushBack(first);
        }
      }
      LinkedDistinct(nodes[..], first, ring);
      ghost var es := ears.Contents();
      ears.size := ears.size - 1;
      ear := ears.data[ears.size];
      assert ears.Contents() == es[..|es|-1];
      if degenerate {
        k := 0;
        DropCorner(nodes[..], ring, [], 0);
      } else {
        k := EarPosition(nodes[..], ring, es);
        if old(ears.size) == 0 || moves == [] { LastListed(clockwise, containsPoint, ring, es, k, |nodes[..]|); }
        DropEar(nodes[..], ring, es, k);
      }
    }

    lemma RingFits(ns: seq<Node>, first: int, ring: seq<int>)
      requires Linked(ns, first, ring)
      ensures |ns| >= 1
    {
    }

    lemma EarPosition(ns: seq<Node>, ring: seq<int>, es: seq<int>) returns (k: nat)
      requires EarsMatch(ns, ring, es) && es != []
      ensures k < |ring| && ring[k] == es[|es|-1]
    {
      var v := es[|es|-1];
      assert v in es;
      k :| 0 <= k < |ring| && ring[k] == v;
    }

    lemma DropEar(ns: seq<Node>, ring: seq<int>, es: seq<int>, k: nat)
      requires EarsMatch(ns, ring, es) && es != [] && k < |ring| && ring[k] == es[|es|-1] && DistinctCorners(ring, |ns|)
      ensures EarsMatch(ns, Remove(ring, k), es[..|es|-1])
    {
      var r := Remove(ring, k);
      assert forall v :: v in r <==> v in ring && v != ring[k] by { RemoveMembers(ring, |ns|, k); }
      assert es == es[..|es|-1] + [ring[k]];
    }

    lemma RemoveMembers(ring: seq<int>, n: nat, k: nat)
      requires DistinctCorners(ring, n) && k < |ring|
      ensures forall v :: v in Remove(ring, k) <==> v in ring && v != ring[k]
    {
      forall v ensures v in Remove(ring, k) <==> v in ring && v != ring[k] {
        if v in ring && v != ring[k] {
          var j :| 0 <= j < |ring| && ring[j] == v;
          assert Remove(ring, k)[if j < k then j else j - 1] == v;
        }
      }
    }

    lemma DropCorner(ns: seq<Node>, ring: seq<int>, es: seq<int>, k: nat)
      requires EarsMatch(ns, ring, es) && es == [] && k < |ring| && DistinctCorners(ring, |ns|)
      ensures EarsMatch(ns, Remove(ring, k), es)
    {
      RemoveMembers(ring, |ns|, k);
    }

    // Clip off one more corner.
    method GetNextTriangle() returns (tri: Tri, ghost k: nat)
      requires Valid() && trianglesLeft > 0
      modifies this, nodes, ears, ears.data, reflexes, reflexes.data
      ensures Valid() && trianglesLeft == old(trianglesLeft) - 1
      ensures moves == old(moves) + (if old(ears.size) == 0 then [Flip] else []) + [Clip(k)]
      ensures Triangles(n, moves) == old(Triangles(n, moves)) + [tri]
      ensures old(ears.size) > 0 ==>
        && tri.b == Last(old(ears.Contents())) && k < |old(ring)| && tri.b == old(ring)[k]
        && !Back(clockwise, old(ring), k)
      ensures old(ears.size) == 0 ==>
        var r := Reverse(old(ring)); k < |r| && tri.b == r[k] && TakenAnew(clockwise, containsPoint, r, k)
      ensures old(ears.size) > 0 ==>
        forall v :: 0 <= v < n && v != tri.a && v != tri.c ==> nodes[v].typ == old(nodes[v].typ)
      ensures forall j :: 0 <= j < |ring| && (ring[j] == tri.a || ring[j] == tri.c) ==>
        0 <= ring[j] < n && nodes[ring[j]].typ == TypeOf(j, reflexes.Contents()) && ListedByType(j)
    {
      hide Legal, RingAfter, Triangles, Linked, EarsMatch, ReflexesTyped, Distinct, Below, DistinctCorners, Clear,
           Unlinked, TypeOf, TakenAnew, Back, EarsTurn, EarByEar, MayClip, ListsEars,
           ListedByType;
      if ears.size == 0 { FlipEmitsNothing(n, moves); }
      var ear;
      ear, k := TakeEar();
      assert moves == old(moves) + if old(ears.size) == 0 then [Flip] else [];
      tri := ClipEar(ear, k);
    }

    // Clip off the ear that has been taken from its span.
    method ClipEar(ear: int, ghost k: nat) returns (tri: Tri)
      requires RingOk() && SpansApart() && trianglesLeft > 0 && k < |ring| && ear == ring[k]
      requires EarsMatch(nodes[..], Remove(ring, k), ears.Contents()) && ReflexesTyped(nodes[..], reflexes.Contents())
      requires EarsTurn(clockwise, ring, ears.Contents())
      requires EarByEar(clockwise, containsPoint, n, moves) && MayClip(clockwise, containsPoint, moves, ring, k)
      modifies this`first, this`ring, this`moves, this`trianglesLeft, nodes, ears, ears.data, reflexes, reflexes.data
      ensures Valid() && trianglesLeft == old(trianglesLeft) - 1
      ensures moves == old(moves) + [Clip(k)] && Triangles(n, moves) == old(Triangles(n, moves)) + [tri]
      ensures tri.b == ear
      ensures forall v :: 0 <= v < n && v != tri.a && v != tri.c ==> nodes[v].typ == old(nodes[v].typ)
      ensures forall j :: 0 <= j < |ring| && (ring[j] == tri.a || ring[j] == tri.c) ==>
        0 <= ring[j] < n && nodes[ring[j]].typ == TypeOf(j, reflexes.Contents()) && ListedByType(j)
    {
      hide Legal, RingAfter, Triangles, Linked, EarsMatch, ReflexesTyped, Distinct, Below, DistinctCorners, Clear,
           Unlinked, TypeOf, EarsTurn, EarByEar, MayClip, ListedByType;
      ghost var ns, r, ms, es := nodes[..], ring, moves, ears.Contents();
      ClipNext(n, ms, k);
      EarNext(clockwise, containsPoint, n, ms, Clip(k));
      LinkedDistinct(ns, first, r);
      LinkedAt(ns, first, r, k);
      UnlinkedIsLinked(ns, first, r, k);
      tri := Tri(nodes[ear].prev, ear, nodes[ear].next);
      Unlink(ear);
      SameTypes(ns, ear, Remove(r, k), ears.Contents(), reflexes.Contents());
      if ear == first {
        first := nodes[ear].next;
      }
      ring, moves, trianglesLeft := Remove(r, k), ms + [Clip(k)], trianglesLeft - 1;
      UnlinkedKeeps(ns, ear, r, k);
      ReclassifyBoth(nodes[ear].prev, nodes[ear].next, if k == 0 then |ring| - 1 else k - 1,
                     if k == |r| - 1 then 0 else k);
      StillTurn(ns, r, k, es, tri);
      forall j | 0 <= j < |ring| && (ring[j] == tri.a || ring[j] == tri.c) ensures ListedByType(j) {
        ByType(j);
      }
    }

    // The corner is listed as an ear exactly if it is one now, and as reflex only if it turns back.
    ghost predicate ListedByType(j: nat)
      requires j < |ring| && ears.Valid() && reflexes.Valid()
      reads this, ears, ears.data, reflexes, reflexes.data
    {
      && (ring[j] in ears.Contents() <==> IsClearCorner(j))
      && (ring[j] in reflexes.Contents() ==> Back(clockwise, ring, j))
    }

    lemma ByType(j: nat)
      requires j < |ring| && Consistent() && 0 <= ring[j] < n
      requires nodes[ring[j]].typ == TypeOf(j, reflexes.Contents())
      ensures ListedByType(j)
    {
      hide Legal, RingAfter, Linked, Distinct, Below, TriAt, Clear;
      assert nodes[..][ring[j]] == nodes[ring[j]];
    }

    // Ears that have not been reclassified turn clockwise as they did before.
    lemma StillTurn(ns: seq<Node>, r: seq<int>, k: nat, es: seq<int>, tri: Tri)
      requires Consistent() && k < |r| && ring == Remove(r, k) && DistinctCorners(r, n) && |ns| == n
      requires EarsMatch(ns, ring, es) && EarsTurn(clockwise, r, es) && tri == TriAt(r, k)
      requires forall v :: 0 <= v < n && v != tri.a && v != tri.c ==> nodes[v].typ == ns[v].typ
      requires forall j :: 0 <= j < |ring| && (ring[j] == tri.a || ring[j] == tri.c) ==>
        0 <= ring[j] < n && nodes[ring[j]].typ == TypeOf(j, reflexes.Contents())
      ensures EarsTurn(clockwise, ring, ears.Contents())
    {
      hide Legal, RingAfter, Linked, DistinctCorners, Remove, ReflexesTyped, TriAt, Back, TypeOf;
      var es' := ears.Contents();
      LinkedDistinct(nodes[..], first, ring);
      CornersInRange(ring, n);
      forall j | 0 <= j < |ring| && ring[j] in es' ensures !Back(clockwise, ring, j) {
        assert nodes[..][ring[j]].typ == Ear;
        if ring[j] == tri.a || ring[j] == tri.c {
          EarTurns(j, reflexes.Contents());
        } else {
          OtherCorners(r, k, j, n);
          SameTurn(ring, j, r, if j < k then j else j + 1);
        }
      }
    }

    lemma EarTurns(j: nat, rs: seq<int>)
      requires j < |ring| && TypeOf(j, rs) == Ear
      ensures !Back(clockwise, ring, j)
    {
    }

    lemma SameTurn(r: seq<int>, j: nat, r': seq<int>, i: nat)
      requires j < |r| && i < |r'| && TriAt(r, j) == TriAt(r', i)
      ensures Back(clockwise, r, j) <==> Back(clockwise, r', i)
    {
    }

    // Turns clockwise, with no reflex corner but its own inside.
    ghost predicate IsClearCorner(k: nat)
      requires k < |ring| && reflexes.Valid()
      reads this, reflexes, reflexes.data
    {
      !Back(clockwise, ring, k) && Clear(TriAt(ring, k).a, TriAt(ring, k).b, TriAt(ring, k).c, reflexes.Contents())
    }

    // Whether a corner of the triangle at position k is listed as reflex does not matter there.
    lemma TypeStays(k: nat, rs: seq<int>, rs': seq<int>, v: int)
      requires k < |ring| && SameBut(rs, rs', v)
      requires v == TriAt(ring, k).a || v == TriAt(ring, k).b || v == TriAt(ring, k).c
      ensures TypeOf(k, rs) == TypeOf(k, rs')
    {
    }

    // Reclassify the corners on either side of a clipped one.
    method ReclassifyBoth(a: int, c: int, ghost ka: nat, ghost kc: nat)
      requires Consistent() && ka < |ring| && kc == After(ka, |ring|) && a == ring[ka] && c == ring[kc]
      modifies nodes, ears, ears.data, reflexes, reflexes.data
      ensures Consistent()
      ensures forall v :: 0 <= v < n && v != a && v != c ==> nodes[v] == old(nodes[v])
      ensures forall j :: 0 <= j < |ring| && (ring[j] == a || ring[j] == c) ==>
        0 <= ring[j] < n && nodes[ring[j]].typ == TypeOf(j, reflexes.Contents())
    {
      hide Legal, RingAfter, Linked, EarsMatch, ReflexesTyped, Distinct, Below, DistinctCorners, Clear, SameBut, TypeOf,
           Last;
      LinkedDistinct(nodes[..], first, ring);
      CornersInRange(ring, n);
      SameCorner(ring, n, ka, kc);
      ghost var rs0 := reflexes.Contents();
      ReclassifyNode(a, ka);
      ghost var rs1 := reflexes.Contents();
      TypeStays(ka, rs0, rs1, a);
      ReclassifyNode(c, kc);
      TypeStays(ka, rs1, reflexes.Contents(), c);
      TypeStays(kc, rs1, reflexes.Contents(), c);
      forall j | 0 <= j < |ring| && (ring[j] == a || ring[j] == c) ensures j == ka || j == kc {
        SameCorner(ring, n, j, ka);
        SameCorner(ring, n, j, kc);
      }
    }

    method Unlink(v: int)
      requires 0 <= v < nodes.Length && 0 <= nodes[v].next < nodes.Length && 0 <= nodes[v].prev < nodes.Length
      modifies nodes
      ensures nodes[..] == Unlinked(old(nodes[..]), v)
    {
      var next, prev := nodes[v].next, nodes[v].prev;
      nodes[next] := nodes[next].(prev := prev);
      nodes[prev] := nodes[prev].(next := next);
    }

    lemma SameTypes(ns: seq<Node>, v: int, ring: seq<int>, es: seq<int>, rs: seq<int>)
      requires 0 <= v < |ns| && 0 <= ns[v].next < |ns| && 0 <= ns[v].prev < |ns|
      requires EarsMatch(ns, ring, es) && ReflexesTyped(ns, rs)
      ensures EarsMatch(Unlinked(ns, v), ring, es) && ReflexesTyped(Unlinked(ns, v), rs)
      ensures |Unlinked(ns, v)| == |ns| && forall u :: 0 <= u < |ns| ==> Unlinked(ns, v)[u].typ == ns[u].typ
    {
    }

    // The clipped node still points to the corners that were on either side of it.
    lemma UnlinkedKeeps(ns: seq<Node>, v: int, r: seq<int>, k: nat)
      requires k < |r| && |r| >= 3 && v == r[k] && DistinctCorners(r, |ns|)
      requires 0 <= v < |ns| && ns[v].next == r[After(k, |r|)] && ns[v].prev == r[Before(k, |r|)]
      ensures var s, ns' := Remove(r, k), Unlinked(ns, v);
        && ns'[v].prev == s[if k == 0 then |s| - 1 else k - 1] != v
        && ns'[v].next == s[if k == |r| - 1 then 0 else k] != v
        && ns'[v].next == ns[v].next && ns'[v].prev == ns[v].prev
    {
    }

    lemma FlipEmitsNothing(n: nat, moves: seq<Move>)
      requires Legal(n, moves)
      ensures Legal(n, moves + [Flip]) && Triangles(n, moves + [Flip]) == Triangles(n, moves)
    {
      assert (moves + [Flip])[..|moves|] == moves;
    }
  }

  ghost predicate ProperTri(t: Tri, n: nat) {
    0 <= t.a < n && 0 <= t.b < n && 0 <= t.c < n && t.a != t.b && t.b != t.c && t.a != t.c
  }

  // The ring always had an ear after it was turned round.
  ghost predicate NeverStuck(cw: (int, int, int) -> bool, inside: (int, int, int, int) -> bool, n: nat,
                             moves: seq<Move>)
    requires Legal(n, moves)
  {
    if moves == [] then true
    else
      var front := moves[..|moves|-1];
      && NeverStuck(cw, inside, n, front)
      && (moves[|moves|-1].Clip? && front != [] && Last(front).Flip? ==> !NoEar(cw, inside, RingAfter(n, front)))
  }

  // Then every triangle turns clockwise.
  lemma {:induction false} EveryEarTurns(cw: (int, int, int) -> bool, inside: (int, int, int, int) -> bool, n: nat,
                                         moves: seq<Move>)
    requires Legal(n, moves) && EarByEar(cw, inside, n, moves) && NeverStuck(cw, inside, n, moves)
    ensures forall t :: t in Triangles(n, moves) ==> cw(t.a, t.b, t.c)
    decreases |moves|
  {
    hide NoEar, TriAt;
    if moves != [] {
      EveryEarTurns(cw, inside, n, moves[..|moves|-1]);
    }
  }

  // The triangles of some run that clips ears.
  ghost predicate EarClipped(cw: (int, int, int) -> bool, inside: (int, int, int, int) -> bool, n: nat,
                             tris: seq<Tri>) {
    exists moves :: Legal(n, moves) && EarByEar(cw, inside, n, moves) && tris == Triangles(n, moves)
  }

  // The triangles of an n-gon, whatever the geometry, triangulate it.
  method TriangulateAll(n: nat, clockwise: (int, int, int) -> bool, containsPoint: (int, int, int, int) -> bool)
    returns (tris: seq<Tri>, ghost moves: seq<Move>)
    requires n >= 3
    ensures IsTriangulation(n, tris)
    ensures Legal(n, moves) && Clips(moves) == n - 2 && tris == Triangles(n, moves)
    ensures EarByEar(clockwise, containsPoint, n, moves)
  {
    hide Legal, RingAfter, Triangles, Linked, EarsMatch, ReflexesTyped, EdgeCount, IsSide, Cuts, Clips, IsTriangulation,
         EarsTurn, EarByEar, ListsEars;
    var t := new Triangulator.Init(n, clockwise, containsPoint);
    NothingYet(n);
    tris, moves := [], [];
    ghost var front, k: nat := [], 0;
    while t.trianglesLeft > 0
      invariant t.Valid() && t.n == n && fresh(t) && fresh(t.nodes) && fresh(t.ears) && fresh(t.ears.data)
      invariant fresh(t.reflexes) && fresh(t.reflexes.data)
      invariant t.moves == moves && Legal(n, moves) && tris == Triangles(n, moves)
      invariant |tris| == n - 2 - t.trianglesLeft && 0 <= t.trianglesLeft <= n - 2
      invariant t.trianglesLeft < n - 2 ==> moves == front + [Clip(k)]
      decreases t.trianglesLeft
    {
      var tri;
      front := t.moves + if t.ears.size == 0 then [Flip] else [];
      tri, k := t.GetNextTriangle();
      tris := tris + [tri];
      moves := t.moves;
    }
    FullRun(n, front, k);
  }

  // What a run of moves that ends with the last clip has cut the polygon into.
  lemma FullRun(n: nat, front: seq<Move>, k: nat)
    requires Legal(n, front + [Clip(k)]) && |Triangles(n, front + [Clip(k)])| == n - 2
    ensures IsTriangulation(n, Triangles(n, front + [Clip(k)])) && Clips(front + [Clip(k)]) == n - 2
  {
    hide Legal, RingAfter, Triangles, EdgeCount, IsSide, Cuts, Clips;
    var moves := front + [Clip(k)];
    var tris := Triangles(n, moves);
    RingShrinks(n, moves);
    LegalFront(n, front, Clip(k));
    forall e ensures EdgeCount(tris, e) == if IsSide(n, e) then 1 else if e in Cuts(n, front) then 2 else 0 {
      Triangulates(n, front, k, e);
    }
    forall i | 0 <= i < |tris| ensures ProperTri(tris[i], n) { TrianglesProper(n, moves, i); }
  }

  // n-2 triangles with different corners; every side of the polygon bounds exactly one of them,
  // and every other edge none or two.
  ghost predicate IsTriangulation(n: nat, tris: seq<Tri>) {
    && n >= 3 && |tris| == n - 2 && (forall i :: 0 <= i < |tris| ==> ProperTri(tris[i], n))
    && (forall e :: IsSide(n, e) ==> EdgeCount(tris, e) == 1)
    && forall e :: !IsSide(n, e) ==> EdgeCount(tris, e) == 0 || EdgeCount(tris, e) == 2
  }

  lemma LegalFront(n: nat, front: seq<Move>, m: Move)
    requires Legal(n, front + [m])
    ensures Legal(n, front)
  {
    assert (front + [m])[..|front|] == front;
  }

  lemma NothingYet(n: nat)
    requires n >= 3
    ensures Legal(n, []) && Triangles(n, []) == []
  {
  }
}