// A set of code points kept as bits, and the list of ranges built from it.
module GlyphRanges {

  /** Bits of a word */

  function Mask(k: nat): bv32 {
    if k == 0 then 1 else Mask(k - 1) << 1
  }

  function And(a: bv32, b: bv32): bv32 { a & b }

  function Or(a: bv32, b: bv32): bv32 { a | b }

  predicate Bit(w: bv32, k: nat) { And(w, Mask(k)) != 0 }

  lemma {:induction false} MasksApart(i: nat, k: nat)
    requires i < k
    ensures Mask(i) & Mask(k) == 0 && Mask(k) & Mask(i) == 0
  {
    if i == 0 { LowBit(Mask(k - 1)); } else { MasksApart(i - 1, k - 1); ShiftedApart(Mask(i - 1), Mask(k - 1)); }
  }

  lemma LowBit(b: bv32)
    ensures 1 & (b << 1) == 0 && (b << 1) & 1 == 0
  {
  }

  lemma ShiftedApart(a: bv32, b: bv32)
    requires a & b == 0
    ensures (a << 1) & (b << 1) == 0 && (b << 1) & (a << 1) == 0
  {
  }

  lemma {:induction false} MaskVanishes(k: nat, n: nat)
    requires Mask(k) == 0
    ensures Mask(k + n) == 0
  {
    if n > 0 { MaskVanishes(k, n - 1); }
  }

  lemma MaskNonzero(k: nat)
    requires k < 32
    ensures Mask(k) != 0
  {
    if Mask(k) == 0 {
      MaskVanishes(k, 31 - k);
      TopMask();
      assert false;
    }
  }

  lemma TopMask()
    ensures Mask(31) == 0x8000_0000
  {
    assert Mask(4) == 0x10;
    assert Mask(8) == 0x100;
    assert Mask(12) == 0x1000;
    assert Mask(16) == 0x1_0000;
    assert Mask(20) == 0x10_0000;
    assert Mask(24) == 0x100_0000;
    assert Mask(28) == 0x1000_0000;
  }

  lemma AndOfOr(w: bv32, a: bv32, b: bv32)
    ensures And(Or(w, a), b) == Or(And(w, b), And(a, b))
  {
  }

  lemma OrZero(a: bv32, b: bv32)
    ensures Or(a, b) == 0 <==> a == 0 && b == 0
  {
  }

  lemma AndSelf(a: bv32)
    ensures And(a, a) == a && And(0, a) == 0
  {
  }

  lemma AndApart(i: nat, k: nat)
    requires i != k
    ensures And(Mask(i), Mask(k)) == 0
  {
    hide Mask;
    if i < k { MasksApart(i, k); } else { MasksApart(k, i); }
  }

  // Setting a bit sets no other.
  lemma BitOfOr(w: bv32, i: nat, k: nat)
    requires i < 32 && k < 32
    ensures Bit(Or(w, Mask(i)), k) <==> Bit(w, k) || k == i
  {
    hide Mask, And, Or;
    AndOfOr(w, Mask(i), Mask(k));
    OrZero(And(w, Mask(k)), And(Mask(i), Mask(k)));
    if i == k {
      AndSelf(Mask(k));
      MaskNonzero(k);
    } else {
      AndApart(i, k);
    }
  }

  lemma NoBits(k: nat)
    ensures !Bit(0, k)
  {
    hide Mask, And;
    AndSelf(Mask(k));
  }

  /** Ranges */

  datatype Range = Range(lo: int, hi: int)

  ghost predicate Covers(rs: seq<Range>, n: int) {
    exists k :: 0 <= k < |rs| && rs[k].lo <= n <= rs[k].hi
  }

  // Nonempty, in order, and with a gap between neighbours.
  ghost predicate Canonical(rs: seq<Range>) {
    && (forall k :: 0 <= k < |rs| ==> 0 <= rs[k].lo <= rs[k].hi)
    && forall j, k :: 0 <= j < k < |rs| ==> rs[j].hi + 1 < rs[k].lo
  }

  // The ranges of a set, in canonical form.
  ghost predicate RangesOf(rs: seq<Range>, s: set<int>) {
    Canonical(rs) && forall n :: Covers(rs, n) <==> n in s
  }

  function Flat(rs: seq<Range>): seq<int> {
    if rs == [] then [] else Flat(rs[..|rs|-1]) + [rs[|rs|-1].lo, rs[|rs|-1].hi]
  }

  // A set has only one list of ranges in canonical form.
  lemma RangesUnique(a: seq<Range>, b: seq<Range>, s: set<int>)
    requires RangesOf(a, s) && RangesOf(b, s)
    ensures a == b
  {
    hide Covers, Canonical;
    CanonicalUnique(a, b);
  }

  lemma {:induction false} CanonicalUnique(a: seq<Range>, b: seq<Range>)
    requires Canonical(a) && Canonical(b) && forall n :: Covers(a, n) <==> Covers(b, n)
    ensures a == b
  {
    hide Covers, Canonical;
    CoversFirst(a);
    CoversFirst(b);
    if a != [] && b != [] {
      SameLast(a, b);
      var a', b' := a[..|a|-1], b[..|b|-1];
      FrontCovers(a, 0);
      FrontCovers(b, 0);
      forall n ensures Covers(a', n) <==> Covers(b', n) {
        FrontCovers(a, n);
        FrontCovers(b, n);
      }
      CanonicalUnique(a', b');
      assert a == a' + [a[|a|-1]] && b == b' + [b[|b|-1]];
    }
  }

  lemma CoversFirst(a: seq<Range>)
    requires Canonical(a)
    ensures a != [] <==> exists n :: Covers(a, n)
  {
    if a != [] { assert Covers(a, a[0].lo); }
  }

  lemma FrontCovers(a: seq<Range>, n: int)
    requires Canonical(a) && a != []
    ensures Canonical(a[..|a|-1])
    ensures Covers(a[..|a|-1], n) <==> Covers(a, n) && n < a[|a|-1].lo
  {
    var a' := a[..|a|-1];
    if Covers(a', n) {
      var k :| 0 <= k < |a'| && a'[k].lo <= n <= a'[k].hi;
      assert a[k] == a'[k];
    }
    if Covers(a, n) && n < a[|a|-1].lo {
      var k :| 0 <= k < |a| && a[k].lo <= n <= a[k].hi;
      assert a'[k] == a[k];
    }
  }

  lemma LastIsHighest(a: seq<Range>)
    requires Canonical(a) && a != []
    ensures var p := a[|a|-1];
      Covers(a, p.lo) && Covers(a, p.hi) && (forall n :: n > p.hi ==> !Covers(a, n)) && !Covers(a, p.lo - 1)
      && forall n :: p.lo <= n <= p.hi ==> Covers(a, n)
  {
  }

  lemma SameLast(a: seq<Range>, b: seq<Range>)
    requires Canonical(a) && Canonical(b) && a != [] && b != [] && forall n :: Covers(a, n) <==> Covers(b, n)
    ensures a[|a|-1] == b[|b|-1]
  {
    hide Covers, Canonical;
    LastIsHighest(a);
    LastIsHighest(b);
  }

  lemma CoversMore(rs: seq<Range>, r: Range, n: int)
    ensures Covers(rs + [r], n) <==> Covers(rs, n) || r.lo <= n <= r.hi
  {
    var more := rs + [r];
    if Covers(rs, n) {
      var k :| 0 <= k < |rs| && rs[k].lo <= n <= rs[k].hi;
      assert more[k] == rs[k];
    }
    if r.lo <= n <= r.hi { assert more[|rs|] == r; }
  }

  // A list is read up to a zero where a range would start.
  predicate Terminated(list: seq<int>) {
    list != [] && (list[0] == 0 || (|list| >= 2 && Terminated(list[2..])))
  }

  function Listed(list: seq<int>): seq<Range>
    requires Terminated(list)
  {
    if list[0] == 0 then [] else [Range(list[0], list[1])] + Listed(list[2..])
  }

  lemma {:induction false} FlatIsListed(rs: seq<Range>, k: nat, tail: seq<int>)
    requires k <= |rs| && (forall i :: k <= i < |rs| ==> rs[i].lo != 0)
    ensures |Flat(rs)| == 2 * |rs|
    ensures Terminated(Flat(rs)[2 * k..] + [0] + tail) && Listed(Flat(rs)[2 * k..] + [0] + tail) == rs[k..]
    decreases |rs| - k
  {
    FlatAt(rs, k);
    var list := Flat(rs)[2 * k..] + [0] + tail;
    if k < |rs| {
      FlatIsListed(rs, k + 1, tail);
      assert list[2..] == Flat(rs)[2 * (k + 1)..] + [0] + tail;
    }
  }

  lemma {:induction false} FlatAt(rs: seq<Range>, k: nat)
    requires k <= |rs|
    ensures |Flat(rs)| == 2 * |rs|
    ensures k < |rs| ==> Flat(rs)[2 * k] == rs[k].lo && Flat(rs)[2 * k + 1] == rs[k].hi
    decreases |rs|
  {
    if rs != [] {
      FlatAt(rs[..|rs|-1], if k < |rs| then k else |rs| - 1);
      if k == |rs| - 1 { FlatAt(rs[..|rs|-1], k); }
    }
  }

  // Reading back the list of a set restores the set exactly when code point zero is not in it;
  // otherwise nothing is read.
  lemma ListRestores(rs: seq<Range>, tail: seq<int>)
    requires Canonical(rs)
    ensures Terminated(Flat(rs) + [0] + tail)
    ensures forall n :: Covers(Listed(Flat(rs) + [0] + tail), n) <==> Covers(rs, n) && !Covers(rs, 0)
  {
    hide Flat, Listed, Terminated;
    var list := Flat(rs) + [0] + tail;
    FlatAt(rs, 0);
    if rs != [] && rs[0].lo == 0 {
      assert Covers(rs, 0);
      ZeroFirst(list);
    } else {
      FlatIsListed(rs, 0, tail);
      assert Flat(rs)[0..] == Flat(rs) && rs[0..] == rs;
      assert !Covers(rs, 0);
    }
  }

  lemma ZeroFirst(list: seq<int>)
    requires list != [] && list[0] == 0
    ensures Terminated(list) && Listed(list) == []
  {
  }

  /** The builder */

  class Builder {
    const max: int            // the largest code point
    const usedChars: array<bv32>

    ghost predicate Valid() { max >= 0 && (max + 1) % 32 == 0 && usedChars.Length * 32 == max + 1 }

    predicate Has(n: int)
      requires Valid() && 0 <= n <= max
      reads usedChars
    {
      Bit(usedChars[n / 32], n % 32)
    }

    // The code points in use.
    ghost function Used(): (s: set<int>)
      requires Valid()
      reads usedChars
      ensures forall n :: n in s <==> 0 <= n <= max && Has(n)
    {
      set n | 0 <= n <= max && Has(n)
    }

    constructor (max: int)
      requires max >= 0 && (max + 1) % 32 == 0
      ensures Valid() && this.max == max && Used() == {} && fresh(usedChars)
    {
      hide Bit;
      this.max := max;
      usedChars := new bv32[(max + 1) / 32](_ => 0);
      new;
      forall n | 0 <= n <= max ensures !Has(n) { NoBits(n % 32); }
    }

    method GetBit(n: int) returns (b: bool)
      requires Valid() && 0 <= n <= max
      ensures b <==> n in Used()
    {
      var mask := Mask(n % 32);
      b := And(usedChars[n / 32], mask) != 0;
    }

    method SetBit(n: int)
      requires Valid() && 0 <= n <= max
      modifies usedChars
      ensures Used() == old(Used()) + {n}
    {
      hide Bit, Or, Mask;
      var mask := Mask(n % 32);
      usedChars[n / 32] := Or(usedChars[n / 32], mask);
      forall m | 0 <= m <= max ensures Has(m) <==> old(Has(m)) || m == n {
        if m / 32 == n / 32 { BitOfOr(old(usedChars[n / 32]), n % 32, m % 32); }
      }
    }

    // Append the ranges of the set, and a zero.
    method BuildRanges(out0: seq<int>) returns (out: seq<int>)
      requires Valid()
      ensures exists rs :: RangesOf(rs, Used()) && out == out0 + Flat(rs) + [0]
    {
      hide Covers, Has, Flat;
      out := out0;
      ghost var rs: seq<Range> := [];
      FlatNone();
      NothingCovered();
      assert out0 + [] == out0;
      var n := 0;
      while n <= max
        invariant 0 <= n <= max + 1 && Canonical(rs) && out == out0 + Flat(rs)
        invariant forall m :: Covers(rs, m) <==> m in Used() && m < n
        invariant rs != [] ==> rs[|rs|-1].hi < n && (rs[|rs|-1].hi + 1 == n ==> n !in Used())
      {
        var b := GetBit(n);
        if b {
          ghost var lo := n;
          out := out + [n];
          n := RunEnd(n);
          out := out + [n];
          FlatMore(rs, Range(lo, n));
          forall m ensures Covers(rs + [Range(lo, n)], m) <==> m in Used() && m < n + 1 {
            CoversMore(rs, Range(lo, n), m);
          }
          rs := rs + [Range(lo, n)];
        }
        n := n + 1;
      }
      assert RangesOf(rs, Used());
      out := out + [0];
    }

    // The last of the code points in use that follow n without a gap.
    method RunEnd(n0: int) returns (n: int)
      requires Valid() && 0 <= n0 <= max && n0 in Used()
      ensures n0 <= n <= max && (forall m :: n0 <= m <= n ==> m in Used()) && n + 1 !in Used()
    {
      hide Has;
      n := n0;
      while n < max
        invariant n0 <= n <= max && forall m :: n0 <= m <= n ==> m in Used()
      {
        var b := GetBit(n + 1);
        if !b {
          return;
        }
        n := n + 1;
      }
    }

    // Add the ranges of a list that ends with a zero.
    method AddRanges(list: seq<int>)
      requires Valid() && Terminated(list) && forall k :: 0 <= k < |list| ==> list[k] >= 0
      modifies usedChars
      ensures forall n :: n in Used() <==> n in old(Used()) || (n <= max && Covers(Listed(list), n))
    {
      hide Covers, Has;
      var p := 0;
      ghost var done: seq<Range> := [];
      assert list[0..] == list;
      NothingCovered();
      while list[p] != 0
        invariant 0 <= p < |list| && Terminated(list[p..]) && done + Listed(list[p..]) == Listed(list)
        invariant forall n :: n in Used() <==> n in old(Used()) || (n <= max && Covers(done, n))
        decreases |list| - p
      {
        assert list[p..][2..] == list[p + 2..] && list[p..][1] == list[p + 1];
        ghost var r, before := Range(list[p], list[p + 1]), Used();
        var c := list[p];
        while c <= list[p + 1] && c <= max
          invariant list[p] <= c
          invariant forall n :: n in Used() <==> n in before || (list[p] <= n < c && n <= list[p + 1] && n <= max)
          decreases max - c
        {
          SetBit(c);
          c := c + 1;
        }
        forall n ensures Covers(done + [r], n) <==> Covers(done, n) || r.lo <= n <= r.hi { CoversMore(done, r, n); }
        done := done + [r];
        p := p + 2;
      }
      assert done == Listed(list);
    }
  }

  lemma FlatNone()
    ensures Flat([]) == []
  {
  }

  lemma NothingCovered()
    ensures forall n :: !Covers([], n)
  {
  }

  lemma FlatMore(rs: seq<Range>, r: Range)
    ensures Flat(rs + [r]) == Flat(rs) + [r.lo, r.hi]
  {
    assert (rs + [r])[..|rs|] == rs;
  }
}
