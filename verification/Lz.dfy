// The compressed stream: what its pieces stand for, how they are coded, and how they are read back.
module Lz {
  import opened Common
  import opened Adler

  /** Numbers in the stream, most significant byte first */

  // Nothing checks for the end of the stream; what lies behind it reads as zero here.
  function At(s: seq<Byte>, i: int): Byte {
    if 0 <= i < |s| then s[i] else 0
  }

  function In2(s: seq<Byte>, i: int): (v: int)
    ensures At(s, i) * 0x100 <= v < At(s, i) * 0x100 + 0x100
  {
    At(s, i) * 0x100 + At(s, i + 1)
  }

  function In3(s: seq<Byte>, i: int): (v: int)
    ensures At(s, i) * 0x1_0000 <= v < At(s, i) * 0x1_0000 + 0x1_0000
  {
    At(s, i) * 0x1_0000 + In2(s, i + 1)
  }

  function In4(s: seq<Byte>, i: int): (v: int)
    ensures 0 <= v < LIMIT
  {
    At(s, i) * 0x100_0000 + In3(s, i + 1)
  }

  function Low(v: int): Byte { v % 0x100 }

  function Out2(v: int): (r: seq<Byte>)
    ensures |r| == 2
  {
    [Low(v / 0x100), Low(v)]
  }

  function Out3(v: int): (r: seq<Byte>)
    ensures |r| == 3
  {
    [Low(v / 0x1_0000), Low(v / 0x100), Low(v)]
  }

  function Out4(v: int): (r: seq<Byte>)
    ensures |r| == 4
  {
    [Low(v / 0x100_0000), Low(v / 0x1_0000), Low(v / 0x100), Low(v)]
  }

  // The stream holds the bytes d from position i on.
  predicate Holds(s: seq<Byte>, i: int, d: seq<Byte>) {
    0 <= i && i + |d| <= |s| && s[i..i+|d|] == d
  }

  lemma HoldsAt(s: seq<Byte>, i: int, d: seq<Byte>, k: nat)
    requires Holds(s, i, d) && k < |d|
    ensures At(s, i + k) == d[k]
  {
    assert s[i..i+|d|][k] == s[i+k];
  }

  lemma HoldsSplit(s: seq<Byte>, i: int, d: seq<Byte>, e: seq<Byte>)
    requires Holds(s, i, d + e)
    ensures Holds(s, i, d) && Holds(s, i + |d|, e)
  {
    var t := s[i..i+|d|+|e|];
    assert t[..|d|] == d && t[|d|..] == e;
    assert s[i..i+|d|] == t[..|d|] && s[i+|d|..i+|d|+|e|] == t[|d|..];
  }

  lemma LowOf(v: int)
    requires 0 <= v
    ensures v == v / 0x100 * 0x100 + Low(v)
    ensures v < 0x100 ==> Low(v) == v
  {
  }

  lemma Shift(v: int)
    requires 0 <= v
    ensures v / 0x100 / 0x100 == v / 0x1_0000 && v / 0x1_0000 / 0x100 == v / 0x100_0000
  {
  }

  lemma In2Out2(s: seq<Byte>, i: int, v: int)
    requires Holds(s, i, Out2(v)) && 0 <= v < 0x1_0000
    ensures In2(s, i) == v && At(s, i) == v / 0x100
  {
    HoldsAt(s, i, Out2(v), 0);
    HoldsAt(s, i, Out2(v), 1);
    hide Low, Holds;
    LowOf(v);
    LowOf(v / 0x100);
  }

  lemma In3Out3(s: seq<Byte>, i: int, v: int)
    requires Holds(s, i, Out3(v)) && 0 <= v < 0x100_0000
    ensures In3(s, i) == v && At(s, i) == v / 0x1_0000
  {
    HoldsAt(s, i, Out3(v), 0);
    HoldsAt(s, i, Out3(v), 1);
    HoldsAt(s, i, Out3(v), 2);
    hide Low, Holds;
    LowOf(v);
    LowOf(v / 0x100);
    LowOf(v / 0x1_0000);
    Shift(v);
  }

  lemma In4Out4(s: seq<Byte>, i: int, v: int)
    requires Holds(s, i, Out4(v)) && 0 <= v < LIMIT
    ensures In4(s, i) == v
  {
    HoldsAt(s, i, Out4(v), 0);
    HoldsAt(s, i, Out4(v), 1);
    HoldsAt(s, i, Out4(v), 2);
    HoldsAt(s, i, Out4(v), 3);
    hide Low, Holds;
    LowOf(v);
    LowOf(v / 0x100);
    LowOf(v / 0x1_0000);
    LowOf(v / 0x100_0000);
    Shift(v);
  }

  /** Pieces */

  // Bytes as they are, or a repeat of what was written `dist` bytes ago.
  datatype Piece = Literal(bytes: seq<Byte>) | Copy(dist: int, len: int)

  // Position k of a pattern of `dist` bytes that starts over again and again.
  function Wrap(k: nat, dist: nat): (r: nat)
    requires 0 < dist
    ensures r < dist
  {
    if k < dist then k else Wrap(k - dist, dist)
  }

  // The last dist bytes, over and over.
  function Repeated(out: seq<Byte>, dist: int, len: nat): (r: seq<Byte>)
    requires 0 < dist <= |out|
    ensures |r| == len && forall k :: 0 <= k < len ==> r[k] == out[|out| - dist + Wrap(k, dist)]
  {
    seq(len, k requires 0 <= k < len => out[|out| - dist + Wrap(k, dist)])
  }

  function Length(p: Piece): int { if p.Literal? then |p.bytes| else p.len }

  predicate Reaches(p: Piece, n: nat) { p.Copy? ==> 0 < p.dist <= n && p.len >= 0 }

  function Write(out: seq<Byte>, p: Piece): (r: seq<Byte>)
    requires Reaches(p, |out|)
    ensures |r| == |out| + Length(p)
  {
    out + if p.Literal? then p.bytes else Repeated(out, p.dist, p.len)
  }

  function Total(ps: seq<Piece>): int {
    if ps == [] then 0 else Total(ps[..|ps|-1]) + Length(ps[|ps|-1])
  }

  // No piece reaches back beyond the start.
  predicate Playable(ps: seq<Piece>) {
    ps == [] || (Playable(ps[..|ps|-1]) && Total(ps[..|ps|-1]) >= 0 && Reaches(ps[|ps|-1], Total(ps[..|ps|-1])))
  }

  // What a sequence of pieces writes.
  function Play(ps: seq<Piece>): (d: seq<Byte>)
    requires Playable(ps)
    ensures |d| == Total(ps)
  {
    if ps == [] then [] else Write(Play(ps[..|ps|-1]), ps[|ps|-1])
  }

  /** Reading */

  datatype Parsed = More(piece: Piece, next: int) | End

  function Slice(s: seq<Byte>, from: int, len: nat): (r: seq<Byte>)
    ensures |r| == len
  {
    seq<Byte>(len, k => At(s, from + k))
  }

  // The piece at position i of the stream.
  function Parse(s: seq<Byte>, i: int): (r: Parsed)
    ensures r.More? ==> Length(r.piece) > 0 && r.next > i && (r.piece.Copy? ==> r.piece.dist > 0)
  {
    var t := At(s, i);
    if t >= 0x80 then More(Copy(At(s, i + 1) + 1, t - 0x80 + 1), i + 2)
    else if t >= 0x40 then More(Copy(In2(s, i) - 0x4000 + 1, At(s, i + 2) + 1), i + 3)
    else if t >= 0x20 then var n := t - 0x20 + 1; More(Literal(Slice(s, i + 1, n)), i + 1 + n)
    else if t >= 0x18 then More(Copy(In3(s, i) - 0x18_0000 + 1, At(s, i + 3) + 1), i + 4)
    else if t >= 0x10 then More(Copy(In3(s, i) - 0x10_0000 + 1, In2(s, i + 3) + 1), i + 5)
    else if t >= 0x08 then var n := In2(s, i) - 0x0800 + 1; More(Literal(Slice(s, i + 2, n)), i + 2 + n)
    else if t == 0x07 then var n := In2(s, i + 1) + 1; More(Literal(Slice(s, i + 3, n)), i + 3 + n)
    else if t == 0x06 then More(Copy(In3(s, i + 1) + 1, At(s, i + 4) + 1), i + 5)
    else if t == 0x04 then More(Copy(In3(s, i + 1) + 1, In2(s, i + 4) + 1), i + 6)
    else End
  }

  // The stream from position i on, appended to what is there so far, if it comes out at olen
  // bytes with the right checksum.
  function Expand(s: seq<Byte>, i: int, out: seq<Byte>, olen: nat): Option<seq<Byte>>
    requires |out| <= olen
    decreases olen - |out|
  {
    var r := Parse(s, i);
    if r.End? then
      if At(s, i) == 0x05 && At(s, i + 1) == 0xfa && |out| == olen && Checksum(1, out) == In4(s, i + 2) then Some(out)
      else None
    else if |out| + Length(r.piece) > olen || !Reaches(r.piece, |out|) then None
    else Expand(s, r.next, Write(out, r.piece), olen)
  }

  const SIGNATURE: int := 0x57bc_0000

  function Decode(s: seq<Byte>): Option<seq<Byte>> {
    if In4(s, 0) != SIGNATURE || In4(s, 4) != 0 then None else Expand(s, 16, [], In4(s, 8))
  }

  // Where reading from position i on comes to something that is no piece.
  function EndOf(s: seq<Byte>, i: nat): (e: nat)
    ensures e >= i && Parse(s, e).End?
    decreases |s| - i
  {
    if Parse(s, i).End? then i else EndOf(s, Parse(s, i).next)
  }

  lemma {:induction false} ExpandChecks(s: seq<Byte>, i: nat, out: seq<Byte>, olen: nat)
    requires |out| <= olen && Expand(s, i, out, olen).Some?
    ensures var d, e := Expand(s, i, out, olen).value, EndOf(s, i);
      |d| == olen && out <= d && At(s, e) == 0x05 && At(s, e + 1) == 0xfa && Checksum(1, d) == In4(s, e + 2)
    decreases olen - |out|
  {
    hide Checksum, In4, In3, In2, Slice, Repeated, Parse;
    var r := Parse(s, i);
    if r.More? { ExpandChecks(s, r.next, Write(out, r.piece), olen); }
  }

  // What is accepted has the announced length, and the checksum that follows the end mark where
  // reading stops.
  lemma DecodeChecks(s: seq<Byte>)
    requires Decode(s).Some?
    ensures var d, e := Decode(s).value, EndOf(s, 16);
      && |d| == In4(s, 8) && In4(s, 0) == SIGNATURE && In4(s, 4) == 0
      && At(s, e) == 0x05 && At(s, e + 1) == 0xfa && Checksum(1, d) == In4(s, e + 2)
  {
    hide Expand, In4, Checksum, EndOf;
    ExpandChecks(s, 16, [], In4(s, 8));
  }

  /** Writing */

  // The code of a copy, where there is one for its distance and length.
  predicate Copyable(dist: int, len: int) {
    && 0 < dist && 2 < len
    && ((len <= 0x80 && dist <= 0x100) || (len > 5 && len <= 0x100 && dist <= 0x4000)
        || (len > 7 && len <= 0x100 && dist <= 0x8_0000) || (len > 8 && len <= 0x1_0000 && dist <= 0x8_0000)
        || (len > 9 && len <= 0x1_0000 && dist <= 0x100_0000))
  }

  function CopyCode(dist: int, len: int): seq<Byte>
    requires Copyable(dist, len)
  {
    if len <= 0x80 && dist <= 0x100 then [Low(0x80 + len - 1), Low(dist - 1)]
    else if len > 5 && len <= 0x100 && dist <= 0x4000 then Out2(0x4000 + dist - 1) + [Low(len - 1)]
    else if len > 7 && len <= 0x100 && dist <= 0x8_0000 then Out3(0x18_0000 + dist - 1) + [Low(len - 1)]
    else if len > 8 && len <= 0x1_0000 && dist <= 0x8_0000 then Out3(0x10_0000 + dist - 1) + Out2(len - 1)
    else if len <= 0x100 then [0x06] + Out3(dist - 1) + [Low(len - 1)]
    else [0x04] + Out3(dist - 1) + Out2(len - 1)
  }

  function LiteralHead(n: int): seq<Byte>
    requires 0 < n <= 0x1_0000
  {
    if n <= 32 then [Low(0x20 + n - 1)]
    else if n <= 2048 then Out2(0x0800 + n - 1)
    else Out3(0x07_0000 + n - 1)
  }

  predicate Coded(p: Piece) {
    if p.Literal? then 0 < |p.bytes| <= 0x1_0000 else Copyable(p.dist, p.len)
  }

  function Code(p: Piece): seq<Byte>
    requires Coded(p)
  {
    if p.Literal? then LiteralHead(|p.bytes|) + p.bytes else CopyCode(p.dist, p.len)
  }

  predicate AllCoded(ps: seq<Piece>) { forall i :: 0 <= i < |ps| ==> Coded(ps[i]) }

  function Codes(ps: seq<Piece>): seq<Byte>
    requires AllCoded(ps)
  {
    if ps == [] then [] else Codes(ps[..|ps|-1]) + Code(ps[|ps|-1])
  }

  /** What is written is what is read */

  lemma CopyIsRead(s: seq<Byte>, i: int, dist: int, len: int)
    requires Copyable(dist, len) && Holds(s, i, CopyCode(dist, len))
    ensures Parse(s, i) == More(Copy(dist, len), i + |CopyCode(dist, len)|)
  {
    hide Holds, Parse, CopyCode, Copyable;
    if len <= 0x80 && dist <= 0x100 {
      NearCopy(s, i, dist, len);
    } else if len <= 0x100 && dist <= 0x8_0000 {
      MiddleCopy(s, i, dist, len);
    } else if dist <= 0x8_0000 {
      LongCopy(s, i, dist, len);
    } else {
      FarCopy(s, i, dist, len);
    }
  }

  lemma NearCopy(s: seq<Byte>, i: int, dist: int, len: int)
    requires Copyable(dist, len) && Holds(s, i, CopyCode(dist, len)) && len <= 0x80 && dist <= 0x100
    ensures Parse(s, i) == More(Copy(dist, len), i + |CopyCode(dist, len)|)
  {
    hide Holds, Slice, In2, In3, Out2, Out3, Low, At;
    var c := CopyCode(dist, len);
    LowOf(dist - 1);
    LowOf(0x80 + len - 1);
    HoldsAt(s, i, c, 0);
    HoldsAt(s, i, c, 1);
  }

  lemma MiddleCopy(s: seq<Byte>, i: int, dist: int, len: int)
    requires Copyable(dist, len) && Holds(s, i, CopyCode(dist, len)) && !(len <= 0x80 && dist <= 0x100) && len <= 0x100
      && dist <= 0x8_0000
    ensures Parse(s, i) == More(Copy(dist, len), i + |CopyCode(dist, len)|)
  {
    hide Holds, Slice, In2, In3, Out2, Out3, Low, At;
    var c := CopyCode(dist, len);
    LowOf(len - 1);
    HoldsAt(s, i, c, 0);
    if len > 5 && dist <= 0x4000 {
      HoldsAt(s, i, c, 2);
      HoldsSplit(s, i, Out2(0x4000 + dist - 1), [Low(len - 1)]);
      In2Out2(s, i, 0x4000 + dist - 1);
    } else {
      HoldsAt(s, i, c, 3);
      HoldsSplit(s, i, Out3(0x18_0000 + dist - 1), [Low(len - 1)]);
      In3Out3(s, i, 0x18_0000 + dist - 1);
    }
  }

  lemma LongCopy(s: seq<Byte>, i: int, dist: int, len: int)
    requires Copyable(dist, len) && Holds(s, i, CopyCode(dist, len)) && len > 0x100 && dist <= 0x8_0000
    ensures Parse(s, i) == More(Copy(dist, len), i + |CopyCode(dist, len)|)
  {
    hide Holds, Slice, In2, In3, Out2, Out3, Low, At;
    var c := CopyCode(dist, len);
    HoldsAt(s, i, c, 0);
    HoldsSplit(s, i, Out3(0x10_0000 + dist - 1), Out2(len - 1));
    In3Out3(s, i, 0x10_0000 + dist - 1);
    In2Out2(s, i + 3, len - 1);
  }

  lemma FarCopy(s: seq<Byte>, i: int, dist: int, len: int)
    requires Copyable(dist, len) && Holds(s, i, CopyCode(dist, len)) && dist > 0x8_0000
    ensures Parse(s, i) == More(Copy(dist, len), i + |CopyCode(dist, len)|)
  {
    hide Holds, Slice, In2, In3, Out2, Out3, Low, At;
    var c := CopyCode(dist, len);
    LowOf(len - 1);
    HoldsAt(s, i, c, 0);
    if len <= 0x100 {
      HoldsAt(s, i, c, 4);
      HoldsSplit(s, i, [0x06] + Out3(dist - 1), [Low(len - 1)]);
      HoldsSplit(s, i, [0x06], Out3(dist - 1));
      In3Out3(s, i + 1, dist - 1);
    } else {
      HoldsSplit(s, i, [0x04] + Out3(dist - 1), Out2(len - 1));
      HoldsSplit(s, i, [0x04], Out3(dist - 1));
      In3Out3(s, i + 1, dist - 1);
      In2Out2(s, i + 4, len - 1);
    }
  }

  lemma SliceIs(s: seq<Byte>, i: int, d: seq<Byte>)
    requires Holds(s, i, d)
    ensures Slice(s, i, |d|) == d
  {
    forall k | 0 <= k < |d| ensures At(s, i + k) == d[k] { HoldsAt(s, i, d, k); }
  }

  lemma LiteralIsRead(s: seq<Byte>, i: int, d: seq<Byte>)
    requires 0 < |d| <= 0x1_0000 && Holds(s, i, LiteralHead(|d|) + d)
    ensures Parse(s, i) == More(Literal(d), i + |LiteralHead(|d|)| + |d|)
  {
    hide Holds, Slice, LiteralHead, Parse;
    var h := LiteralHead(|d|);
    HoldsSplit(s, i, h, d);
    SliceIs(s, i + |h|, d);
    if |d| <= 32 {
      ShortHead(s, i, |d|);
    } else if |d| <= 2048 {
      MediumHead(s, i, |d|);
    } else {
      LongHead(s, i, |d|);
    }
  }

  lemma ShortHead(s: seq<Byte>, i: int, n: int)
    requires 0 < n <= 32 && Holds(s, i, LiteralHead(n))
    ensures Parse(s, i) == More(Literal(Slice(s, i + |LiteralHead(n)|, n)), i + |LiteralHead(n)| + n)
  {
    hide Holds, Slice, In2, In3;
    HoldsAt(s, i, LiteralHead(n), 0);
  }

  lemma MediumHead(s: seq<Byte>, i: int, n: int)
    requires 32 < n <= 2048 && Holds(s, i, LiteralHead(n))
    ensures Parse(s, i) == More(Literal(Slice(s, i + |LiteralHead(n)|, n)), i + |LiteralHead(n)| + n)
  {
    hide Holds, Slice, In2, In3;
    HoldsAt(s, i, LiteralHead(n), 0);
    In2Out2(s, i, 0x0800 + n - 1);
  }

  lemma LongHead(s: seq<Byte>, i: int, n: int)
    requires 2048 < n <= 0x1_0000 && Holds(s, i, LiteralHead(n))
    ensures Parse(s, i) == More(Literal(Slice(s, i + |LiteralHead(n)|, n)), i + |LiteralHead(n)| + n)
  {
    hide Holds, Slice;
    HoldsAt(s, i, LiteralHead(n), 0);
    In3Out3(s, i, 0x07_0000 + n - 1);
  }

  lemma PieceIsRead(s: seq<Byte>, i: int, p: Piece)
    requires Coded(p) && Holds(s, i, Code(p))
    ensures Parse(s, i) == More(p, i + |Code(p)|)
  {
    hide Holds, Parse, Copyable, CopyCode, LiteralHead;
    if p.Literal? { LiteralIsRead(s, i, p.bytes); } else { CopyIsRead(s, i, p.dist, p.len); }
  }

  lemma {:induction false} PlayGrows(ps: seq<Piece>, k: nat)
    requires Playable(ps) && AllCoded(ps) && k <= |ps|
    ensures Playable(ps[..k]) && |Play(ps[..k])| <= |Play(ps)|
    decreases |ps|
  {
    if k < |ps| {
      var front := ps[..|ps|-1];
      assert Coded(ps[|ps|-1]);
      PlayGrows(front, k);
      assert front[..k] == ps[..k];
    } else {
      assert ps[..k] == ps;
    }
  }

  // Reading the codes of some pieces plays them.
  lemma {:induction false} PiecesAreRead(s: seq<Byte>, i: int, ps: seq<Piece>, olen: nat)
    requires AllCoded(ps) && Playable(ps) && Holds(s, i, Codes(ps)) && |Play(ps)| <= olen
    ensures Expand(s, i, [], olen) == Expand(s, i + |Codes(ps)|, Play(ps), olen)
  {
    hide Holds, Parse, Code, Write, Reaches;
    if ps != [] {
      var front, p := ps[..|ps|-1], ps[|ps|-1];
      assert Coded(p) && AllCoded(front);
      HoldsSplit(s, i, Codes(front), Code(p));
      PiecesAreRead(s, i, front, olen);
      PieceIsRead(s, i + |Codes(front)|, p);
    }
  }

  function Header(length: int, window: int): seq<Byte> {
    [0x57, 0xbc] + Out2(0) + Out4(0) + Out4(length) + Out4(window)
  }

  function Trailer(adler: int): seq<Byte> { Out2(0x05fa) + Out4(adler) }

  // A stream made of the codes of pieces is read as what the pieces write, whatever follows it.
  lemma StreamIsRead(ps: seq<Piece>, window: int, rest: seq<Byte>)
    requires AllCoded(ps) && Playable(ps) && |Play(ps)| < LIMIT
    requires 0 <= Checksum(1, Play(ps)) < LIMIT
    ensures var d := Play(ps);
      Decode(Header(|d|, window) + Codes(ps) + Trailer(Checksum(1, d)) + rest) == Some(d)
  {
    hide Expand, Codes, Play, Playable, AllCoded, Checksum, Parse;
    var d := Play(ps);
    var h, t := Header(|d|, window), Trailer(Checksum(1, d));
    var s := h + Codes(ps) + t + rest;
    assert Holds(s, 0, h) && Holds(s, 16, Codes(ps)) && Holds(s, 16 + |Codes(ps)|, t) by {
      assert s[0..16] == h && s[16..16+|Codes(ps)|] == Codes(ps) && s[16+|Codes(ps)|..16+|Codes(ps)|+|t|] == t;
    }
    HeaderIsRead(s, |d|, window);
    PiecesAreRead(s, 16, ps, |d|);
    TrailerIsRead(s, 16 + |Codes(ps)|, d);
  }

  lemma HeaderIsRead(s: seq<Byte>, length: int, window: int)
    requires Holds(s, 0, Header(length, window)) && 0 <= length < LIMIT
    ensures In4(s, 0) == SIGNATURE && In4(s, 4) == 0 && In4(s, 8) == length
  {
    hide Holds;
    var h := Header(length, window);
    HoldsSplit(s, 0, [0x57, 0xbc] + Out2(0) + Out4(0) + Out4(length), Out4(window));
    HoldsSplit(s, 0, [0x57, 0xbc] + Out2(0) + Out4(0), Out4(length));
    HoldsSplit(s, 0, [0x57, 0xbc] + Out2(0), Out4(0));
    In4Out4(s, 8, length);
    In4Out4(s, 4, 0);
    HoldsAt(s, 0, h, 0);
    HoldsAt(s, 0, h, 1);
    HoldsAt(s, 0, h, 2);
    HoldsAt(s, 0, h, 3);
  }

  lemma TrailerIsRead(s: seq<Byte>, i: int, d: seq<Byte>)
    requires 0 <= Checksum(1, d) < LIMIT && Holds(s, i, Trailer(Checksum(1, d)))
    ensures Expand(s, i, d, |d|) == Some(d)
  {
    hide Holds, Checksum;
    HoldsSplit(s, i, Out2(0x05fa), Out4(Checksum(1, d)));
    HoldsAt(s, i, Out2(0x05fa), 0);
    HoldsAt(s, i, Out2(0x05fa), 1);
    In4Out4(s, i + 2, Checksum(1, d));
  }
}
