// The Adler-32 checksum (section 8.2 of RFC 1950), and its computation in blocks.
module Adler {
  import opened Common

  const MOD: int := 65521
  const LIMIT: int := 0x1_0000_0000
  const BLOCK: int := 5552

  datatype Sums = Sums(s1: nat, s2: nat)

  // One byte, reduced at once.
  function Next(s: Sums, b: Byte): Sums {
    var s1 := (s.s1 + b) % MOD;
    Sums(s1, (s.s2 + s1) % MOD)
  }

  function Reduced(s: Sums, d: seq<Byte>): Sums {
    if d == [] then s else Next(Reduced(s, d[..|d|-1]), d[|d|-1])
  }

  // The checksum continued over d, one byte at a time.
  function Checksum(adler: nat, d: seq<Byte>): int {
    var s := Reduced(Sums(adler % 0x1_0000, adler / 0x1_0000), d);
    s.s2 * 0x1_0000 + s.s1
  }

  // The same sums without any reduction.
  function Raw(s: Sums, d: seq<Byte>): (r: Sums)
    ensures r.s1 >= s.s1 && r.s2 >= s.s2
  {
    if d == [] then s
    else
      var t := Raw(s, d[..|d|-1]);
      var s1 := t.s1 + d[|d|-1];
      Sums(s1, t.s2 + s1)
  }

  function Mod(x: int): (m: int)
    ensures 0 <= m < MOD
  {
    x % MOD
  }

  function Residues(s: Sums): Sums { Sums(Mod(s.s1), Mod(s.s2)) }

  lemma ModAdd(x: int, y: int)
    ensures Mod(Mod(x) + y) == Mod(x + y) == Mod(x + Mod(y))
  {
    assert x == x / MOD * MOD + x % MOD;
    assert y == y / MOD * MOD + y % MOD;
  }

  // Reducing before a byte or after it makes no difference.
  lemma NextOfResidues(s: Sums, b: Byte)
    ensures Next(Residues(s), b) == Next(s, b) == Residues(Sums(s.s1 + b, s.s2 + s.s1 + b))
  {
    ModAdd(s.s1, b);
    ModAdd(s.s2, s.s1 + b);
    ModAdd(Mod(s.s2), s.s1 + b);
    hide Mod;
    assert Next(s, b) == Sums(Mod(s.s1 + b), Mod(s.s2 + Mod(s.s1 + b))) by { NextIs(s, b); }
    NextIs(Residues(s), b);
  }

  lemma NextIs(s: Sums, b: Byte)
    ensures Next(s, b) == Sums(Mod(s.s1 + b), Mod(s.s2 + Mod(s.s1 + b)))
  {
  }

  // A nonempty run of bytes: reducing at the end is as good as reducing every time.
  lemma {:induction false} ReduceOnce(s: Sums, d: seq<Byte>)
    requires d != []
    ensures Reduced(s, d) == Residues(Raw(s, d))
    ensures Reduced(Residues(s), d) == Reduced(s, d)
  {
    hide Mod, Next;
    var front, b := d[..|d|-1], d[|d|-1];
    if front == [] {
      NextOfResidues(s, b);
    } else {
      ReduceOnce(s, front);
      NextOfResidues(Raw(s, front), b);
    }
  }

  lemma {:induction false} ReducedJoin(s: Sums, d: seq<Byte>, e: seq<Byte>)
    ensures Reduced(s, d + e) == Reduced(Reduced(s, d), e)
  {
    hide Next;
    if e == [] {
      assert d + e == d;
    } else {
      assert (d + e)[..|d + e|-1] == d + e[..|e|-1];
      ReducedJoin(s, d, e[..|e|-1]);
    }
  }

  /** The sums written out */

  function SumOf(d: seq<Byte>): nat {
    if d == [] then 0 else SumOf(d[..|d|-1]) + d[|d|-1]
  }

  // The first byte counted as often as there are bytes, the last one once.
  function Weighted(d: seq<Byte>): nat {
    if d == [] then 0 else |d| * d[0] + Weighted(d[1..])
  }

  lemma {:induction false} WeightedLast(d: seq<Byte>, b: Byte)
    ensures Weighted(d + [b]) == Weighted(d) + SumOf(d + [b])
    decreases |d|
  {
    hide SumOf;
    if d == [] {
      assert [b][1..] == [] && [b][..0] == [] && [] + [b] == [b];
      SumFirst([b]);
      NoBytes();
    } else {
      var e := d[1..];
      WeightedLast(e, b);
      assert (d + [b])[1..] == e + [b];
      SumFirst(d + [b]);
      OneMore(|d|, d[0]);
    }
  }

  lemma {:induction false} SumFirst(d: seq<Byte>)
    requires d != []
    ensures SumOf(d) == d[0] + SumOf(d[1..])
    decreases |d|
  {
    if |d| == 1 {
      assert d[1..] == [] && d[..0] == [];
    } else {
      var front := d[..|d|-1];
      SumFirst(front);
      assert front[1..] == d[1..][..|d|-2];
    }
  }

  lemma {:induction false} RawIsSums(s: Sums, d: seq<Byte>)
    ensures Raw(s, d) == Sums(s.s1 + SumOf(d), s.s2 + |d| * s.s1 + Weighted(d))
  {
    hide SumOf, Weighted;
    if d == [] {
      NoBytes();
    } else {
      var front, b := d[..|d|-1], d[|d|-1];
      RawIsSums(s, front);
      assert d == front + [b];
      WeightedLast(front, b);
      SumLast(d);
      OneMore(|front|, s.s1);
    }
  }

  lemma SumLast(d: seq<Byte>)
    requires d != []
    ensures SumOf(d) == SumOf(d[..|d|-1]) + d[|d|-1]
  {
  }

  lemma OneMore(n: nat, x: nat)
    ensures (n + 1) * x == n * x + x
  {
  }

  // The lower half of the checksum is the sum of the bytes, the upper half the sum of the sums
  // after each byte, both modulo 65521 and continued from those of `adler`.
  lemma ChecksumIsSums(adler: nat, d: seq<Byte>)
    requires adler % 0x1_0000 < 65521 && adler / 0x1_0000 < 65521
    ensures Checksum(adler, d) % 0x1_0000 == (adler % 0x1_0000 + SumOf(d)) % 65521
    ensures Checksum(adler, d) / 0x1_0000 == (adler / 0x1_0000 + |d| * (adler % 0x1_0000) + Weighted(d)) % 65521
  {
    hide SumOf, Weighted, Reduced, Raw, Next;
    var s := Sums(adler % 0x1_0000, adler / 0x1_0000);
    RawIsSums(s, d);
    if d == [] {
      NoBytes();
      ReducedNone(s);
    } else {
      ReduceOnce(s, d);
    }
    Halves(Reduced(s, d).s1, Reduced(s, d).s2);
  }

  lemma NoBytes()
    ensures SumOf([]) == 0 && Weighted([]) == 0
  {
  }

  lemma Halves(lo: nat, hi: nat)
    requires lo < 0x1_0000
    ensures (hi * 0x1_0000 + lo) % 0x1_0000 == lo && (hi * 0x1_0000 + lo) / 0x1_0000 == hi
  {
  }

  /** No sum leaves 32 bits */

  // What n bytes can add up to, from sums of sixteen bits.
  lemma {:induction false} RawBound(s: Sums, d: seq<Byte>)
    requires s.s1 < 0x1_0000 && s.s2 < 0x1_0000
    ensures var n, r := |d|, Raw(s, d); r.s1 <= 65535 + 255 * n && 2 * r.s2 <= 131070 * (n + 1) + 255 * (n * (n + 1))
  {
    if d != [] {
      var n := |d|;
      RawBound(s, d[..n-1]);
      assert n * (n + 1) == (n - 1) * n + 2 * n;
    }
  }

  // Up to a whole block of bytes neither sum overflows.
  lemma BlockFits(s: Sums, d: seq<Byte>)
    requires s.s1 < 0x1_0000 && s.s2 < 0x1_0000 && |d| <= BLOCK
    ensures Raw(s, d).s1 < LIMIT && Raw(s, d).s2 < LIMIT
  {
    var n := |d|;
    RawBound(s, d);
    Squares(n, BLOCK);
  }

  lemma Squares(n: nat, m: nat)
    requires n <= m
    ensures n * (n + 1) <= m * (m + 1)
  {
  }

  // A 32-bit addition that must not wrap.
  function Add(x: nat, y: nat): (r: nat)
    requires x + y < LIMIT
    ensures r == x + y
  {
    x + y
  }

  // One byte added to both sums, without reduction.
  method Absorb(s1: nat, s2: nat, b: Byte, ghost s: Sums, ghost d: seq<Byte>) returns (t1: nat, t2: nat)
    requires Sums(s1, s2) == Raw(s, d) && s.s1 < 0x1_0000 && s.s2 < 0x1_0000 && |d| < BLOCK
    ensures Sums(t1, t2) == Raw(s, d + [b])
  {
    BlockFits(s, d + [b]);
    assert (d + [b])[..|d|] == d;
    t1 := Add(s1, b);
    t2 := Add(s2, t1);
  }

  // The bytes of one block, eight at a time and then one by one.
  method SumBlock(buffer: seq<Byte>, at: nat, n: nat, s1: nat, s2: nat) returns (t1: nat, t2: nat)
    requires at + n <= |buffer| && n <= BLOCK && s1 < 0x1_0000 && s2 < 0x1_0000
    ensures Sums(t1, t2) == Raw(Sums(s1, s2), buffer[at..at+n])
  {
    hide Raw;
    RawNone(Sums(s1, s2));
    ghost var s := Sums(s1, s2);
    t1, t2 := s1, s2;
    var p, i := at, 0;
    assert buffer[at..p] == [];
    while i + 7 < n
      invariant 0 <= i <= n && p == at + i && Sums(t1, t2) == Raw(s, buffer[at..p])
    {
      t1, t2 := AbsorbAt(buffer, at, p, t1, t2, s);
      t1, t2 := AbsorbAt(buffer, at, p + 1, t1, t2, s);
      t1, t2 := AbsorbAt(buffer, at, p + 2, t1, t2, s);
      t1, t2 := AbsorbAt(buffer, at, p + 3, t1, t2, s);
      t1, t2 := AbsorbAt(buffer, at, p + 4, t1, t2, s);
      t1, t2 := AbsorbAt(buffer, at, p + 5, t1, t2, s);
      t1, t2 := AbsorbAt(buffer, at, p + 6, t1, t2, s);
      t1, t2 := AbsorbAt(buffer, at, p + 7, t1, t2, s);
      p := p + 8;
      i := i + 8;
    }
    while i < n
      invariant 0 <= i <= n && p == at + i && Sums(t1, t2) == Raw(s, buffer[at..p])
    {
      t1, t2 := AbsorbAt(buffer, at, p, t1, t2, s);
      p := p + 1;
      i := i + 1;
    }
  }

  lemma RawNone(s: Sums)
    ensures Raw(s, []) == s
  {
  }

  method AbsorbAt(buffer: seq<Byte>, ghost at: nat, p: nat, s1: nat, s2: nat, ghost s: Sums) returns (t1: nat, t2: nat)
    requires at <= p < |buffer| && p - at < BLOCK && s.s1 < 0x1_0000 && s.s2 < 0x1_0000
    requires Sums(s1, s2) == Raw(s, buffer[at..p])
    ensures Sums(t1, t2) == Raw(s, buffer[at..p+1])
  {
    hide Raw;
    t1, t2 := Absorb(s1, s2, buffer[p], s, buffer[at..p]);
    assert buffer[at..p] + [buffer[p]] == buffer[at..p+1];
  }

  // The checksum of a buffer, continued from `adler`. The first block is what does not make up
  // a whole one, and may be empty.
  method Adler32(adler: nat, buffer: seq<Byte>) returns (r: nat)
    requires adler < LIMIT
    ensures r == Checksum(adler, buffer) < LIMIT
  {
    hide Raw, Mod, Reduced, Checksum;
    var s1: nat, s2: nat := adler % 0x1_0000, adler / 0x1_0000;
    ghost var s := Sums(s1, s2);
    var at, buflen := 0, |buffer|;
    var blocklen := buflen % BLOCK;
    assert buffer[at..] == buffer;
    while buflen > 0
      invariant 0 <= at <= |buffer| == buflen + at && s1 < 0x1_0000 && s2 < 0x1_0000
      invariant (at == 0 && blocklen == buflen % BLOCK) || (blocklen == BLOCK && buflen % BLOCK == 0)
      invariant Reduced(Sums(s1, s2), buffer[at..]) == Reduced(s, buffer)
      decreases buflen, BLOCK - blocklen
    {
      var t1, t2 := SumBlock(buffer, at, blocklen, s1, s2);
      BlockDone(Sums(s1, s2), buffer[at..], blocklen);
      assert buffer[at..][..blocklen] == buffer[at..at+blocklen] && buffer[at..][blocklen..] == buffer[at+blocklen..];
      s1, s2 := t1 % MOD, t2 % MOD;
      ModIs(t1);
      ModIs(t2);
      at := at + blocklen;
      BlocksLeft(buflen, blocklen);
      buflen := buflen - blocklen;
      blocklen := BLOCK;
    }
    ReducedNone(Sums(s1, s2));
    assert buffer[at..] == [];
    ChecksumOf(adler, buffer, Sums(s1, s2));
    r := s2 * 0x1_0000 + s1;
  }

  lemma ChecksumOf(adler: nat, d: seq<Byte>, t: Sums)
    requires Reduced(Sums(adler % 0x1_0000, adler / 0x1_0000), d) == t && t.s1 < 0x1_0000 && t.s2 < 0x1_0000
    ensures Checksum(adler, d) == t.s2 * 0x1_0000 + t.s1 < LIMIT
  {
  }

  lemma BlocksLeft(n: nat, m: nat)
    requires m <= n && (m == n % BLOCK || (m == BLOCK && n % BLOCK == 0))
    ensures (n - m) % BLOCK == 0
  {
  }

  lemma ModIs(x: int)
    ensures Mod(x) == x % MOD
  {
  }

  lemma ReducedNone(s: Sums)
    ensures Reduced(s, []) == s
  {
  }

  // Summing a block, which may be empty, and then reducing does not change the checksum to come.
  lemma BlockDone(s: Sums, d: seq<Byte>, n: nat)
    requires d != [] && n <= |d|
    ensures Reduced(Residues(Raw(s, d[..n])), d[n..]) == Reduced(s, d)
  {
    hide Mod, Next, Raw;
    if n == 0 {
      RawNone(s);
      assert d[..0] == [] && d[0..] == d;
      ReduceOnce(s, d);
    } else {
      ReduceOnce(s, d[..n]);
      ReducedJoin(s, d[..n], d[n..]);
      assert d[..n] + d[n..] == d;
    }
  }

  /** What the checksum catches */

  lemma {:induction false} RawDiffer(s: Sums, d: seq<Byte>, e: seq<Byte>, k: nat)
    requires k < |d| == |e| && d[..k] == e[..k] && d[k+1..] == e[k+1..]
    ensures Raw(s, d).s1 - Raw(s, e).s1 == (d[k] as int) - (e[k] as int)
  {
    var n := |d| - 1;
    if k < n {
      assert d[..n][..k] == d[..k] && e[..n][..k] == e[..k];
      assert d[..n][k+1..] == d[k+1..][..n-k-1] == e[..n][k+1..];
      RawDiffer(s, d[..n], e[..n], k);
      assert d[n] == d[k+1..][n-k-1];
    } else {
      assert d[..n] == d[..k];
    }
  }

  // Two buffers that differ in one byte have different checksums.
  lemma OneByteShows(adler: nat, d: seq<Byte>, e: seq<Byte>, k: nat)
    requires adler < LIMIT && k < |d| == |e| && d[..k] == e[..k] && d[k+1..] == e[k+1..] && d[k] != e[k]
    ensures Checksum(adler, d) != Checksum(adler, e)
  {
    hide Raw, Reduced;
    var s := Sums(adler % 0x1_0000, adler / 0x1_0000);
    ReduceOnce(s, d);
    ReduceOnce(s, e);
    RawDiffer(s, d, e, k);
    ModDiffer(Raw(s, d).s1, Raw(s, e).s1);
  }

  lemma ModDiffer(x: int, y: int)
    requires x != y && -256 < x - y < 256
    ensures Mod(x) != Mod(y)
  {
  }
}
