// The decoder: what it reads, character by character, and what that amounts to.
module Base64Decoder {
  import opened Common
  import opened Base64

  /** Reading */

  // The end of a C string counts as one of its characters, so a zero byte is always skipped.
  predicate Skips(skips: seq<Byte>, c: Byte) {
    Reverse(c) == NONE && (c in skips || c == 0)
  }

  // The first place from p on that is not skipped.
  function Skipped(s: seq<Byte>, skips: seq<Byte>, p: nat): (q: nat)
    requires p <= |s|
    ensures p <= q <= |s| && (q < |s| ==> !Skips(skips, s[q])) && forall k :: p <= k < q ==> Skips(skips, s[k])
    decreases |s| - p
  {
    if p == |s| || !Skips(skips, s[p]) then p else Skipped(s, skips, p + 1)
  }

  datatype Read = Got(value: int, next: nat) | Failed(error: Error)

  predicate Misplaced(v: int, n: nat, prev: int) {
    (v == PAD && n < 2) || (n == 3 && prev == PAD && v != PAD)
  }

  // Value n of a group, read from place p on; after the second the text may end.
  function ReadSymbol(s: seq<Byte>, skips: seq<Byte>, p: nat, n: nat, prev: int): (r: Read)
    requires p <= |s|
    ensures r.Got? ==> p <= r.next <= |s| && 0 <= r.value <= PAD && (n < 2 ==> r.next > p && r.value < PAD)
  {
    var q := Skipped(s, skips, p);
    if q == |s| then if n < 2 then Failed(UnexpectedEnd) else Got(PAD, q)
    else
      var v := Reverse(s[q]);
      if v == NONE then Failed(InvalidCharacter(q))
      else if Misplaced(v, n, prev) then Failed(InvalidEquals)
      else Got(v, q + 1)
  }

  datatype Group = Group(v: seq<int>, next: nat) | Bad(error: Error)

  ghost predicate IsGroup(v: seq<int>) {
    |v| <= 4 && forall k :: 0 <= k < |v| ==> 0 <= v[k] <= PAD && (k < 2 ==> v[k] < PAD)
  }

  // The rest of a group that begins with v.
  function ReadGroup(s: seq<Byte>, skips: seq<Byte>, p: nat, v: seq<int>): (r: Group)
    requires p <= |s| && IsGroup(v)
    ensures r.Group? ==> p <= r.next <= |s| && |r.v| == 4 && IsGroup(r.v) && (|v| < 2 ==> r.next > p)
    decreases 4 - |v|
  {
    if |v| == 4 then Group(v, p)
    else
      var r := ReadSymbol(s, skips, p, |v|, if v == [] then 0 else v[|v|-1]);
      if r.Failed? then Bad(r.error) else ReadGroup(s, skips, r.next, v + [r.value])
  }

  // The bytes of a group.
  function Bytes(v: seq<int>): seq<Byte>
    requires |v| == 4 && IsGroup(v)
  {
    [v[0] * 4 + v[1] / 16]
    + (if v[2] != PAD then [v[1] % 16 * 16 + v[2] / 4] else [])
    + if v[2] != PAD && v[3] != PAD then [v[2] % 4 * 64 + v[3]] else []
  }

  function DecodeFrom(s: seq<Byte>, skips: seq<Byte>, p: nat, out: seq<Byte>): Result<seq<Byte>>
    requires p <= |s|
    decreases |s| - p
  {
    if p == |s| then Ok(out)
    else
      var g := ReadGroup(s, skips, p, []);
      if g.Bad? then Err(g.error) else DecodeFrom(s, skips, g.next, out + Bytes(g.v))
  }

  function Decoded(s: seq<Byte>, skips: seq<Byte>): Result<seq<Byte>> { DecodeFrom(s, skips, 0, []) }

  // Read the four values of a group into i.
  method ReadValues(s: seq<Byte>, skips: seq<Byte>, table: array<int>, p0: nat, i: array<int>)
    returns (p: nat, err: Option<Error>)
    requires p0 < |s| && i.Length == 4 && i != table
    requires table.Length == 256 && forall c :: 0 <= c < 256 ==> table[c] == Reverse(c)
    modifies i
    ensures var g := ReadGroup(s, skips, p0, []);
      if g.Bad? then err == Some(g.error) else err == None && i[..] == g.v && p == g.next
  {
    hide Reverse, ReadGroup;
    ghost var g := ReadGroup(s, skips, p0, []);
    p := p0;
    var n := 0;
    assert i[..0] == [];
    while n < 4
      invariant 0 <= n <= 4 && p0 <= p <= |s| && IsGroup(i[..n]) && ReadGroup(s, skips, p, i[..n]) == g
    {
      ghost var v, start := i[..n], p;
      GroupStep(s, skips, p, v);
      while true
        invariant start <= p <= |s| && i[..n] == v && Skipped(s, skips, p) == Skipped(s, skips, start)
        decreases |s| - p
      {
        if p >= |s| {
          if n < 2 {
            return p, Some(UnexpectedEnd);
          }
          i[n] := PAD;
          break;
        }
        i[n] := table[s[p]];
        assert i[..n] == v;
        if i[n] != NONE {
          if (i[n] == PAD && n < 2) || (n == 3 && i[n - 1] == PAD && i[n] != PAD) {
            return p, Some(InvalidEquals);
          }
          p := p + 1;
          break;
        }
        if !(s[p] in skips || s[p] == 0) {
          return p, Some(InvalidCharacter(p));
        }
        p := p + 1;
      }
      assert i[..n + 1] == v + [i[n]];
      n := n + 1;
    }
    GroupDone(s, skips, p, i[..4]);
    assert i[..4] == i[..];
    err := None;
  }

  method Decode(s: seq<Byte>, skips: seq<Byte>) returns (r: Result<seq<Byte>>)
    ensures r == Decoded(s, skips)
  {
    hide Reverse, ReadGroup, Bytes;
    var reverseTable := new int[256];
    InitReverseTable(reverseTable);
    var output: seq<Byte> := [];
    var i := new int[4];
    var p := 0;
    while p < |s|
      invariant 0 <= p <= |s| && forall c :: 0 <= c < 256 ==> reverseTable[c] == Reverse(c)
      invariant DecodeFrom(s, skips, p, output) == Decoded(s, skips)
      decreases |s| - p
    {
      ghost var g, was := ReadGroup(s, skips, p, []), output;
      var err;
      p, err := ReadValues(s, skips, reverseTable, p, i);
      if err.Some? {
        return Err(err.value);
      }
      GroupDone(s, skips, p, g.v);
      output := output + [i[0] * 4 % 0x100 + i[1] / 16 % 4];
      if i[2] != PAD {
        output := output + [i[1] % 16 * 16 + i[2] / 4 % 16];
      }
      if i[2] != PAD && i[3] != PAD {
        output := output + [i[2] % 4 * 64 + i[3]];
      }
      assert output == was + Bytes(g.v);
    }
    r := Ok(output);
  }

  lemma GroupStep(s: seq<Byte>, skips: seq<Byte>, p: nat, v: seq<int>)
    requires p <= |s| && IsGroup(v) && |v| < 4
    ensures var r := ReadSymbol(s, skips, p, |v|, if v == [] then 0 else v[|v|-1]);
      && (r.Failed? ==> ReadGroup(s, skips, p, v) == Bad(r.error))
      && (r.Got? ==> IsGroup(v + [r.value]) && ReadGroup(s, skips, p, v) == ReadGroup(s, skips, r.next, v + [r.value]))
  {
    hide ReadSymbol;
  }

  lemma GroupDone(s: seq<Byte>, skips: seq<Byte>, p: nat, v: seq<int>)
    requires p <= |s| && IsGroup(v) && |v| == 4
    ensures ReadGroup(s, skips, p, v) == Group(v, p)
    ensures Bytes(v) ==
      [v[0] * 4 % 0x100 + v[1] / 16 % 4] + (if v[2] != PAD then [v[1] % 16 * 16 + v[2] / 4 % 16] else [])
      + if v[2] != PAD && v[3] != PAD then [v[2] % 4 * 64 + v[3]] else []
  {
  }
}
