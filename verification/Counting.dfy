// Sequences without repetition, and how many different numbers there are below n.
module Counting {

  ghost predicate Distinct(s: seq<int>) {
    forall i, j :: 0 <= i < j < |s| ==> s[i] != s[j]
  }

  ghost predicate Below(s: seq<int>, n: int) {
    forall i :: 0 <= i < |s| ==> 0 <= s[i] < n
  }

  function UpTo(n: nat): (s: set<int>)
    ensures |s| == n && forall v :: v in s <==> 0 <= v < n
  {
    if n == 0 then {} else UpTo(n - 1) + {n - 1}
  }

  lemma {:induction false} DistinctCount(s: seq<int>)
    requires Distinct(s)
    ensures |set v | v in s| == |s|
  {
    if s != [] {
      var front, last := s[..|s|-1], s[|s|-1];
      DistinctCount(front);
      assert (set v | v in s) == (set v | v in front) + {last};
    }
  }

  // Distinct numbers below n are at most n.
  lemma DistinctFit(s: seq<int>, n: nat)
    requires Distinct(s) && Below(s, n)
    ensures |s| <= n
  {
    var a := set v | v in s;
    DistinctCount(s);
    assert UpTo(n) == a + (UpTo(n) - a);
  }

  // Room for one more: v is not among them.
  lemma RoomFor(s: seq<int>, n: nat, v: int)
    requires Distinct(s) && Below(s, n) && v !in s && 0 <= v < n
    ensures |s| < n
  {
    DistinctFit(s + [v], n);
  }

  // n distinct numbers below n leave none out.
  lemma AllHit(s: seq<int>, n: nat, v: int) returns (m: nat)
    requires |s| == n && Distinct(s) && Below(s, n) && 0 <= v < n
    ensures m < n && s[m] == v
  {
    var a := set u | u in s;
    DistinctCount(s);
    assert a <= UpTo(n);
    assert UpTo(n) == a + (UpTo(n) - a);
    assert UpTo(n) - a == {};
    assert v in a || v in UpTo(n) - a;
    m :| 0 <= m < n && s[m] == v;
  }
}
