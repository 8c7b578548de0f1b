// Linked lists threaded through an array of nodes by index.
module NodeLists {
  import opened Counting
  import opened Skyline

  datatype Node = Node(x: int, y: int, next: int)

  // The null pointer.
  const NIL: int := -1

  // What node i of a run of nodes points to, when the run leads on to `target`.
  function Successor(s: seq<int>, i: int, target: int): int
    requires 0 <= i < |s|
  {
    if i + 1 < |s| then s[i+1] else target
  }

  ghost predicate InRange(s: seq<int>, n: int) {
    forall i :: 0 <= i < |s| ==> 0 <= s[i] < n
  }

  // From `head`, the nodes of s in order, and then `target`.
  ghost predicate Run(ns: seq<Node>, head: int, s: seq<int>, target: int) {
    && head == (if s == [] then target else s[0])
    && InRange(s, |ns|)
    && forall i {:trigger Successor(s, i, target)} :: 0 <= i < |s| ==> ns[s[i]].next == Successor(s, i, target)
  }

  ghost predicate Chain(ns: seq<Node>, head: int, s: seq<int>) {
    Run(ns, head, s, NIL)
  }

  ghost predicate Apart(a: seq<int>, b: seq<int>) {
    forall i, j :: 0 <= i < |a| && 0 <= j < |b| ==> a[i] != b[j]
  }

  // Two lists share no node and use every one of the n nodes.
  ghost predicate Partition(a: seq<int>, f: seq<int>, n: int) {
    Distinct(a) && Distinct(f) && Apart(a, f) && |a| + |f| == n
  }

  // The breakpoints that a list of nodes holds.
  function Steps(ns: seq<Node>, s: seq<int>): (r: seq<Step>)
    requires InRange(s, |ns|)
    ensures |r| == |s|
    ensures forall i :: 0 <= i < |s| ==> r[i] == Step(ns[s[i]].x, ns[s[i]].y)
  {
    seq(|s|, i requires 0 <= i < |s| => Step(ns[s[i]].x, ns[s[i]].y))
  }

  lemma RunHead(ns: seq<Node>, head: int, s: seq<int>, target: int)
    requires Run(ns, head, s, target)
    ensures InRange(s, |ns|) && head == if s == [] then target else s[0]
  {
  }

  lemma RunAt(ns: seq<Node>, head: int, s: seq<int>, target: int, i: nat)
    requires Run(ns, head, s, target) && i < |s|
    ensures 0 <= s[i] < |ns| && ns[s[i]].next == Successor(s, i, target)
  {
  }

  // A run survives changes that leave the links of its nodes alone.
  lemma RunFrame(ns: seq<Node>, ns': seq<Node>, head: int, s: seq<int>, target: int)
    requires Run(ns, head, s, target) && |ns| == |ns'|
    requires forall i :: 0 <= i < |s| ==> 0 <= s[i] < |ns| && ns'[s[i]].next == ns[s[i]].next
    ensures Run(ns', head, s, target)
  {
    forall i | 0 <= i < |s| ensures ns'[s[i]].next == Successor(s, i, target) {
      RunAt(ns, head, s, target, i);
    }
  }

  lemma RunConcat(ns: seq<Node>, head: int, a: seq<int>, mid: int, b: seq<int>, target: int)
    requires Run(ns, head, a, mid) && Run(ns, mid, b, target)
    ensures Run(ns, head, a + b, target)
  {
    forall i | 0 <= i < |a + b| ensures ns[(a + b)[i]].next == Successor(a + b, i, target) {
      if i < |a| { RunAt(ns, head, a, mid, i); } else { RunAt(ns, mid, b, target, i - |a|); }
    }
  }

  lemma RunSplit(ns: seq<Node>, head: int, s: seq<int>, target: int, k: nat)
    requires Run(ns, head, s, target) && k <= |s|
    ensures Run(ns, head, s[..k], if k < |s| then s[k] else target)
    ensures Run(ns, if k < |s| then s[k] else target, s[k..], target)
  {
    var mid := if k < |s| then s[k] else target;
    forall i | 0 <= i < k ensures ns[s[..k][i]].next == Successor(s[..k], i, mid) {
      RunAt(ns, head, s, target, i);
    }
    forall i | 0 <= i < |s| - k ensures ns[s[k..][i]].next == Successor(s[k..], i, target) {
      RunAt(ns, head, s, target, i + k);
    }
  }

  // Redirecting the last node of a run.
  lemma RunRedirect(ns: seq<Node>, head: int, s: seq<int>, target: int, target': int)
    requires Run(ns, head, s, target) && Distinct(s) && s != []
    ensures var v := s[|s|-1];
      0 <= v < |ns| && Run(ns[v := ns[v].(next := target')], head, s, target')
  {
    var v := s[|s|-1];
    var ns' := ns[v := ns[v].(next := target')];
    forall i | 0 <= i < |s| ensures ns'[s[i]].next == Successor(s, i, target') {
      RunAt(ns, head, s, target, i);
    }
  }

  lemma RunPush(ns: seq<Node>, head: int, s: seq<int>, target: int, v: int)
    requires Run(ns, head, s, target) && 0 <= v < |ns| && v !in s
    ensures Run(ns[v := ns[v].(next := head)], v, [v] + s, target)
  {
    var ns' := ns[v := ns[v].(next := head)];
    RunFrame(ns, ns', head, s, target);
    assert Run(ns', v, [v], head) by { assert Successor([v], 0, head) == head; }
    RunConcat(ns', v, [v], head, s, target);
  }

  /** Moving covered nodes to the free list */

  // The first j nodes of r pushed one after another on f.
  function Pushed(r: seq<int>, j: nat, f: seq<int>): (p: seq<int>)
    requires j <= |r|
    ensures |p| == |f| + j
  {
    if j == 0 then f else [r[j-1]] + Pushed(r, j - 1, f)
  }

  lemma {:induction false} PushedMembers(r: seq<int>, j: nat, f: seq<int>, v: int)
    requires j <= |r|
    ensures v in Pushed(r, j, f) <==> v in r[..j] || v in f
  {
    if j > 0 {
      PushedMembers(r, j - 1, f, v);
      assert r[..j] == r[..j-1] + [r[j-1]];
    }
  }

  lemma {:induction false} PushedDistinct(r: seq<int>, j: nat, f: seq<int>)
    requires j <= |r| && Distinct(r) && Distinct(f) && Apart(r, f)
    ensures Distinct(Pushed(r, j, f))
  {
    if j > 0 {
      PushedDistinct(r, j - 1, f);
      PushedMembers(r, j - 1, f, r[j-1]);
    }
  }

  // Moving node j of run r from the front of what remains of the run to the free list.
  lemma FreeStep(ns: seq<Node>, r: seq<int>, j: nat, f0: seq<int>, f: seq<int>, freeHead: int)
    requires j + 1 < |r| && Distinct(r) && Apart(r, f0)
    requires Run(ns, r[j], r[j..], NIL) && Run(ns, freeHead, f, NIL) && f == Pushed(r, j, f0)
    ensures 0 <= r[j] < |ns| && 0 <= r[j+1] < |ns|
    ensures var ns' := ns[r[j] := ns[r[j]].(next := freeHead)];
      && Run(ns', r[j+1], r[j+1..], NIL)
      && ns'[r[j+1]].next == Successor(r, j + 1, NIL)
      && Run(ns', r[j], [r[j]] + f, NIL)
    ensures [r[j]] + f == Pushed(r, j + 1, f0)
    ensures ns[r[j]].next == r[j+1]
  {
    var ns' := ns[r[j] := ns[r[j]].(next := freeHead)];
    RunAt(ns, r[j], r[j..], NIL, 0);
    PushedMembers(r, j, f0, r[j]);
    RunPush(ns, freeHead, f, NIL, r[j]);
    RunSplit(ns, r[j], r[j..], NIL, 1);
    assert r[j..][1..] == r[j+1..];
    RunFrame(ns, ns', r[j+1], r[j+1..], NIL);
    RunAt(ns', r[j+1], r[j+1..], NIL, 0);
  }

  // Only the links of nodes in t may differ.
  ghost predicate Relinked(ns0: seq<Node>, ns: seq<Node>, t: seq<int>) {
    && |ns| == |ns0|
    && (forall i :: 0 <= i < |ns| ==> ns[i].x == ns0[i].x && ns[i].y == ns0[i].y)
    && (forall i :: 0 <= i < |ns| && i !in t ==> ns[i] == ns0[i])
  }

  lemma RelinkOne(ns0: seq<Node>, ns: seq<Node>, r: seq<int>, j: nat, next: int)
    requires j < |r| && Relinked(ns0, ns, r[..j]) && 0 <= r[j] < |ns|
    ensures Relinked(ns0, ns[r[j] := ns[r[j]].(next := next)], r[..j+1])
  {
    assert r[..j+1] == r[..j] + [r[j]];
  }

  lemma UnchangedLinks(ns: seq<Node>, r: seq<int>)
    ensures Relinked(ns, ns, r[..0])
  {
  }

  lemma RelinkedAt(ns0: seq<Node>, ns: seq<Node>, t: seq<int>, i: int)
    requires Relinked(ns0, ns, t)
    ensures |ns| == |ns0| && (0 <= i < |ns| ==> ns[i].x == ns0[i].x && ns[i].y == ns0[i].y)
  {
  }

  lemma PushedNone(r: seq<int>, f: seq<int>)
    ensures Pushed(r, 0, f) == f
  {
  }

  /** Splicing a fresh node into the active list */

  // What is known of the two lists while a fresh node waits to be linked in: `pre` leads to
  // the fresh node, `r` is the rest of the active list and f the free list.
  ghost predicate Opened(ns: seq<Node>, head: int, pre: seq<int>, node: int, cur: int, r: seq<int>, freeHead: int,
                         f: seq<int>) {
    && Run(ns, head, pre, node) && Run(ns, cur, r, NIL) && Run(ns, freeHead, f, NIL)
    && 0 <= node < |ns|
  }

  // All nodes in play, each once.
  ghost predicate Separate(pre: seq<int>, node: int, r: seq<int>, f: seq<int>) {
    && Distinct(pre) && Distinct(r) && Distinct(f)
    && Apart(pre, r) && Apart(pre, f) && Apart(r, f)
    && node !in pre && node !in r && node !in f
  }

  lemma SeparateParts(a: seq<int>, f: seq<int>, k: nat)
    requires Distinct(a) && Distinct(f) && Apart(a, f) && f != [] && k <= |a|
    ensures Separate(a[..k], f[0], a[k..], f[1..])
  {
  }

  lemma OpenedParts(ns: seq<Node>, head: int, pre: seq<int>, node: int, cur: int, r: seq<int>, freeHead: int,
                    f: seq<int>, f0: seq<int>, a: seq<int>)
    requires Opened(ns, head, pre, node, cur, r, freeHead, f)
    requires f0 != [] && node == f0[0] && f == f0[1..] && Separate(pre, node, r, f) && a == pre + r
    ensures Run(ns, cur, r, NIL) && Run(ns, freeHead, f, NIL) && 0 <= node < |ns| && node !in a
    ensures Distinct(r) && Distinct(f) && Apart(r, f)
  {
  }

  // Taking node f[0] and pointing the k-th link of the active list at it.
  lemma OpenAt(ns: seq<Node>, head: int, a: seq<int>, freeHead: int, f: seq<int>, k: nat, x: int, y: int)
    requires Run(ns, head, a, NIL) && Run(ns, freeHead, f, NIL) && f != [] && k < |a|
    requires Distinct(a) && Distinct(f) && Apart(a, f)
    ensures freeHead == f[0] && 0 <= f[0] < |ns| && (k > 0 ==> 0 <= a[k-1] < |ns| && a[k-1] != f[0])
    ensures var ns1 := ns[f[0] := Node(x, y, ns[f[0]].next)];
      var ns2 := if k == 0 then ns1 else ns1[a[k-1] := ns1[a[k-1]].(next := f[0])];
      Opened(ns2, if k == 0 then f[0] else head, a[..k], f[0], a[k], a[k..], ns[f[0]].next, f[1..])
  {
    var ns1 := ns[f[0] := Node(x, y, ns[f[0]].next)];
    var ns2 := if k == 0 then ns1 else ns1[a[k-1] := ns1[a[k-1]].(next := f[0])];
    RunAt(ns, freeHead, f, NIL, 0);
    RunSplit(ns, freeHead, f, NIL, 1);
    RunSplit(ns, head, a, NIL, k);
    RunFrame(ns, ns1, head, a[..k], a[k]);
    RunFrame(ns, ns2, a[k], a[k..], NIL);
    RunFrame(ns, ns2, ns[f[0]].next, f[1..], NIL);
    if k > 0 { RunRedirect(ns1, head, a[..k], a[k], f[0]); }
  }

  // Freeing the first j nodes of the rest, linking the fresh node to what remains.
  lemma CloseAt(ns: seq<Node>, ns3: seq<Node>, head: int, pre: seq<int>, node: int, r: seq<int>,
                freeHead: int, f: seq<int>, freeHead3: int, j: nat, x: int)
    requires j < |r| && Separate(pre, node, r, f)
    requires Opened(ns, head, pre, node, r[0], r, freeHead, f)
    requires Relinked(ns, ns3, r[..j]) && Run(ns3, r[j], r[j..], NIL) && Run(ns3, freeHead3, Pushed(r, j, f), NIL)
    ensures 0 <= r[j] < |ns3| && 0 <= node < |ns3| && r[j] != node
    ensures var ns4 := ns3[node := ns3[node].(next := r[j])];
      var ns5 := ns4[r[j] := ns4[r[j]].(x := x)];
      && Run(ns5, head, pre + [node] + r[j..], NIL)
      && Run(ns5, freeHead3, Pushed(r, j, f), NIL)
  {
    RunHead(ns3, r[j], r[j..], NIL);
    var ns4 := ns3[node := ns3[node].(next := r[j])];
    var ns5 := ns4[r[j] := ns4[r[j]].(x := x)];
    RunHead(ns, head, pre, node);
    RunFrame(ns, ns5, head, pre, node);
    RunFrame(ns3, ns5, r[j], r[j..], NIL);
    assert Run(ns5, node, [node], r[j]) by { assert Successor([node], 0, r[j]) == r[j]; }
    RunConcat(ns5, head, pre, node, [node], r[j]);
    RunConcat(ns5, head, pre + [node], r[j], r[j..], NIL);
    forall i | 0 <= i < |Pushed(r, j, f)| ensures Pushed(r, j, f)[i] != node {
      PushedMembers(r, j, f, Pushed(r, j, f)[i]);
    }
    RunHead(ns3, freeHead3, Pushed(r, j, f), NIL);
    RunFrame(ns3, ns5, freeHead3, Pushed(r, j, f), NIL);
  }

  lemma ClosedPartition(pre: seq<int>, node: int, r: seq<int>, f: seq<int>, j: nat, n: int)
    requires Separate(pre, node, r, f) && j < |r| && |pre| + |r| + |f| + 1 == n
    ensures Partition(pre + [node] + r[j..], Pushed(r, j, f), n)
  {
    var a := pre + [node] + r[j..];
    PushedDistinct(r, j, f);
    forall i, m | 0 <= i < |a| && 0 <= m < |Pushed(r, j, f)| ensures a[i] != Pushed(r, j, f)[m] {
      PushedMembers(r, j, f, Pushed(r, j, f)[m]);
    }
  }

  lemma {:induction false} StopAtShift(s: seq<Step>, m: nat, j: nat, e: int)
    requires m + j < |s|
    ensures StopAt(s[m..], j, e) + m == StopAt(s, m + j, e)
    decreases |s| - j
  {
    if m + j + 1 < |s| && s[m+j+1].x <= e { StopAtShift(s, m, j + 1, e); }
  }

  // The list that comes out of the splice holds the skyline with the box placed.
  lemma ClosedSteps(ns0: seq<Node>, ns5: seq<Node>, a: seq<int>, node: int, k: nat, j: nat, x: int, w: int, top: int)
    requires InRange(a, |ns0|) && InRange(a, |ns5|) && k + 1 < |a| && 0 <= node < |ns5|
    requires var s, n := Steps(ns0, a), Kept(Steps(ns0, a), k, x);
      && n + j < |a| && j == StopAt(s[n..], 0, x + w)
      && (forall i :: 0 <= i < |a| ==> ns5[a[i]].y == s[i].y)
      && (forall i :: 0 <= i < |a| && i != n + j ==> ns5[a[i]].x == s[i].x)
      && ns5[a[n+j]].x == Max(s[n+j].x, x + w)
      && ns5[node].x == x && ns5[node].y == top
    ensures var n := Kept(Steps(ns0, a), k, x);
      && InRange(a[..n] + [node] + a[n..][j..], |ns5|)
      && Steps(ns5, a[..n] + [node] + a[n..][j..]) == Place(Steps(ns0, a), k, x, w, top)
  {
    hide Place, StopAt, Kept, Steps, InRange;
    var s, n := Steps(ns0, a), Kept(Steps(ns0, a), k, x);
    StopAtShift(s, n, 0, x + w);
    PlaceShape(s, k, x, w, top);
    SplicedIndex(a, n, j, node);
    StepsMatch(ns5, a, node, n, j, s, Place(s, k, x, w, top));
  }

  lemma StepsMatch(ns: seq<Node>, a: seq<int>, node: int, n: nat, j: nat, s: seq<Step>, t: seq<Step>)
    requires InRange(a, |ns|) && 0 <= node < |ns| && |s| == |a| && n + j < |a| && |t| == n + 1 + |a| - n - j
    requires forall i :: 0 <= i < n ==> t[i] == s[i] == Step(ns[a[i]].x, ns[a[i]].y)
    requires t[n] == Step(ns[node].x, ns[node].y)
    requires t[n+1] == Step(ns[a[n+j]].x, ns[a[n+j]].y)
    requires forall i :: n + 2 <= i < |t| ==>
      t[i] == s[i - n - 1 + (n + j)] == Step(ns[a[i - 1 + j]].x, ns[a[i - 1 + j]].y)
    ensures var a' := a[..n] + [node] + a[n..][j..]; InRange(a', |ns|) && Steps(ns, a') == t
  {
    SplicedIndex(a, n, j, node);
    var a' := a[..n] + [node] + a[n..][j..];
    assert InRange(a', |ns|);
    assert forall i :: 0 <= i < |t| ==> Steps(ns, a')[i] == t[i];
  }

  lemma SplicedIndex(a: seq<int>, n: nat, j: nat, node: int)
    requires n + j < |a|
    ensures var a' := a[..n] + [node] + a[n..][j..];
      && |a'| == n + 1 + |a| - n - j
      && (forall i :: 0 <= i < n ==> a'[i] == a[i]) && a'[n] == node
      && (forall i :: n < i < |a'| ==> a'[i] == a[i - 1 + j])
  {
    assert a[n..][j..] == a[n+j..];
  }

  // Every node but one keeps its breakpoint.
  ghost predicate SameSteps(ns: seq<Node>, ns': seq<Node>, node: int) {
    |ns| == |ns'| && forall i :: 0 <= i < |ns| && i != node ==> ns[i].x == ns'[i].x && ns[i].y == ns'[i].y
  }

  lemma SplicedValues(ns0: seq<Node>, ns2: seq<Node>, ns3: seq<Node>, ns5: seq<Node>, a: seq<int>,
                      k: nat, node: int, r: seq<int>, j: nat, x: int, w: int, top: int)
    requires InRange(a, |ns0|) && Distinct(a) && 0 <= node < |ns0| && node !in a && k + 1 < |a|
    requires SameSteps(ns0, ns2, node) && ns2[node].x == x && ns2[node].y == top
    requires var n := Kept(Steps(ns0, a), k, x); n <= |a| && r == a[n..] && j < |r|
    requires Relinked(ns2, ns3, r[..j])
    requires 0 <= r[j] < |ns3| && r[j] != node
    requires var ns4 := ns3[node := ns3[node].(next := r[j])];
      ns5 == ns4[r[j] := ns4[r[j]].(x := Max(ns4[r[j]].x, x + w))]
    requires j == StopAt(Steps(ns0, a)[Kept(Steps(ns0, a), k, x)..], 0, x + w)
    ensures var n := Kept(Steps(ns0, a), k, x);
      && InRange(a[..n] + [node] + r[j..], |ns5|)
      && Steps(ns5, a[..n] + [node] + r[j..]) == Place(Steps(ns0, a), k, x, w, top)
  {
    hide Place, StopAt, Relinked, Kept;
    var n := Kept(Steps(ns0, a), k, x);
    RelinkedAt(ns2, ns3, r[..j], 0);
    forall i | 0 <= i < |ns0| ensures ns3[i].x == ns2[i].x && ns3[i].y == ns2[i].y { RelinkedAt(ns2, ns3, r[..j], i); }
    assert a[n+j] == r[j];
    ClosedSteps(ns0, ns5, a, node, k, j, x, w, top);
  }

  lemma StepsAgree(ns: seq<Node>, ns': seq<Node>, a: seq<int>, n: nat, node: int)
    requires InRange(a, |ns|) && n <= |a| && node !in a && SameSteps(ns, ns', node)
    ensures Steps(ns', a[n..]) == Steps(ns, a)[n..]
  {
  }
}
