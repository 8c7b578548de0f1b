// Base64 (section 4 of RFC 4648): encoding by blocks of three bytes, and a decoder that skips
// line breaks and takes text with or without padding.
module Base64 {
  import opened Common

  datatype Error = UnexpectedEnd | InvalidEquals | InvalidCharacter(at: int)
  datatype Result<T> = Ok(value: T) | Err(error: Error)

  const PAD: int := 64
  const NONE: int := 255

  const EQUALS: Byte := 61

  /** The alphabet: upper case, lower case, digits, plus and slash */

  function Symbol(v: int): (c: Byte)
    requires 0 <= v < 64
  {
    if v < 26 then 65 + v
    else if v < 52 then 97 + v - 26
    else if v < 62 then 48 + v - 52
    else if v == 62 then 43
    else 47
  }

  const ALPHABET: string := "ABCDEFGHIJKLMNOPQRSTUVWXYZ" + "abcdefghijklmnopqrstuvwxyz" + "0123456789+/"

  lemma SymbolIsAlphabet(v: int)
    requires 0 <= v < 64
    ensures |ALPHABET| == 64
    ensures Symbol(v) == ALPHABET[v] as int
    ensures EQUALS == '=' as int
  {
    if v < 26 {
      assert ALPHABET[v] == ALPHABET[..26][v];
    } else if v < 52 {
      assert ALPHABET[v] == ALPHABET[26..52][v - 26];
    }
  }

  // What a character stands for: a value, padding or nothing.
  function Reverse(c: Byte): (v: int)
    ensures 0 <= v <= PAD || v == NONE
  {
    if 65 <= c <= 90 then c - 65
    else if 97 <= c <= 122 then c - 97 + 26
    else if 48 <= c <= 57 then c - 48 + 52
    else if c == 43 then 62
    else if c == 47 then 63
    else if c == EQUALS then PAD
    else NONE
  }

  lemma ReverseOfSymbol(v: int)
    requires 0 <= v < 64
    ensures Reverse(Symbol(v)) == v
  {
  }

  // Fill the reverse table from the alphabet.
  method InitReverseTable(table: array<int>)
    requires table.Length == 256
    modifies table
    ensures forall c :: 0 <= c < 256 ==> table[c] == Reverse(c)
  {
    forall c | 0 <= c < 256 { table[c] := NONE; }
    var i := 0;
    while i < 64
      invariant 0 <= i <= 64
      invariant forall c :: 0 <= c < 256 ==> table[c] == if Reverse(c) < i then Reverse(c) else NONE
    {
      ReverseOfSymbol(i);
      table[Symbol(i)] := i;
      i := i + 1;
    }
    table[EQUALS] := PAD;
  }

  /** Encoding */

  // The four values that a block of three bytes splits into.
  function Sextets(i0: Byte, i1: Byte, i2: Byte): (v: seq<int>)
    ensures |v| == 4 && forall k :: 0 <= k < 4 ==> 0 <= v[k] < 64
  {
    [i0 / 4, i0 % 4 * 16 + i1 / 16, i1 % 16 * 4 + i2 / 64, i2 % 64]
  }

  // The values of all full blocks and of what is left over, padding included.
  function Values(d: seq<Byte>, padded: bool): (v: seq<int>)
    ensures forall k :: 0 <= k < |v| ==> 0 <= v[k] <= PAD
    ensures padded ==> |v| % 4 == 0
  {
    if |d| == 0 then []
    else if |d| == 1 then
      var v := Sextets(d[0], 0, 0);
      if padded then [v[0], v[1], PAD, PAD] else [v[0], v[1]]
    else if |d| == 2 then
      var v := Sextets(d[0], d[1], 0);
      if padded then [v[0], v[1], v[2], PAD] else [v[0], v[1], v[2]]
    else Sextets(d[0], d[1], d[2]) + Values(d[3..], padded)
  }

  function Char(v: int): Byte
    requires 0 <= v <= PAD
  {
    if v == PAD then EQUALS else Symbol(v)
  }

  function Chars(v: seq<int>): (s: seq<Byte>)
    requires forall k :: 0 <= k < |v| ==> 0 <= v[k] <= PAD
    ensures |s| == |v| && forall k :: 0 <= k < |v| ==> s[k] == Char(v[k])
  {
    seq<Byte>(|v|, k requires 0 <= k < |v| => Char(v[k]))
  }

  // How many values come before those of block i.
  lemma {:induction false} ValuesBefore(d: seq<Byte>, i: nat, padded: bool)
    requires 3 * i <= |d|
    ensures |Values(d, padded)| == 4 * i + |Values(d[3 * i..], padded)|
    ensures Values(d, padded)[4 * i..] == Values(d[3 * i..], padded)
  {
    hide Values;
    if i == 0 {
      assert d[0..] == d && Values(d, padded)[0..] == Values(d, padded);
    } else {
      ValuesBefore(d[3..], i - 1, padded);
      var rest := d[3 * i..];
      assert d[3..][3 * (i - 1)..] == rest;
      FirstBlock(d, padded);
      Later(Values(d, padded), 4, 4 * (i - 1));
    }
  }

  lemma FirstBlock(d: seq<Byte>, padded: bool)
    requires |d| >= 3
    ensures |Values(d, padded)| == 4 + |Values(d[3..], padded)| && Values(d, padded)[4..] == Values(d[3..], padded)
  {
    if |d| == 3 { assert d[3..] == []; }
  }

  lemma Later(v: seq<int>, a: nat, b: nat)
    requires a + b <= |v|
    ensures v[a..][b..] == v[a + b..]
  {
  }

  lemma {:induction false} ValueCount(d: seq<Byte>, padded: bool)
    ensures var n := |d|;
      |Values(d, padded)| == if padded then (n + 2) / 3 * 4 else n / 3 * 4 + if n % 3 == 0 then 0 else 1 + n % 3
    decreases |d|
  {
    if |d| > 2 { ValueCount(d[3..], padded); }
  }

  // The values of the first block.
  lemma FirstValues(d: seq<Byte>, padded: bool)
    requires d != []
    ensures var v, n := Values(d, padded), |d|;
      var i1: Byte := if n > 1 then d[1] else 0;
      var i2: Byte := if n > 2 then d[2] else 0;
      && |v| >= 2 && v[0] == d[0] / 4 && v[1] == d[0] % 4 * 16 + i1 / 16
      && (|v| > 2 <==> n > 1 || padded) && (|v| > 3 <==> n > 2 || padded) && (n <= 3 ==> |v| <= 4)
      && (|v| > 2 ==> v[2] == if n > 1 then i1 % 16 * 4 + i2 / 64 else PAD)
      && (|v| > 3 ==> v[3] == if n > 2 then i2 % 64 else PAD)
  {
  }

  lemma LateValue(d: seq<Byte>, padded: bool, i: nat, k: nat)
    requires 3 * i <= |d| && k < |Values(d[3 * i..], padded)|
    ensures 4 * i + k < |Values(d, padded)| && Values(d, padded)[4 * i + k] == Values(d[3 * i..], padded)[k]
  {
    hide Values;
    ValuesBefore(d, i, padded);
    assert Values(d, padded)[4 * i..][k] == Values(d, padded)[4 * i + k];
  }

  // One block of the text, at its place.
  method EncodeBlock(d: seq<Byte>, padded: bool, i: nat, outp: array<Byte>)
    requires 3 * i < |d| && outp.Length == 4 * i + |Values(d[3 * i..], padded)|
    modifies outp
    ensures forall k :: 0 <= k < 4 * i ==> outp[k] == old(outp[k])
    ensures forall k :: 4 * i <= k < 4 * i + 4 && k < outp.Length ==>
      outp[k] == Char(Values(d[3 * i..], padded)[k - 4 * i])
    ensures 3 * i + 3 >= |d| ==> outp.Length <= 4 * i + 4
    ensures 3 * i + 3 < |d| ==> outp.Length >= 4 * i + 4
  {
    hide Values, Symbol;
    var n := |d|;
    var last := i == (n + 2) / 3 - 1;
    FirstValues(d[3 * i..], padded);
    var i0 := d[i * 3];
    var i1: Byte := if n > i * 3 + 1 then d[i * 3 + 1] else 0;
    var i2: Byte := if n > i * 3 + 2 then d[i * 3 + 2] else 0;
    var n0, n1 := i0 / 4, i0 % 4 * 16 + i1 / 16;
    var n2, n3 := i1 % 16 * 4 + i2 / 64, i2 % 64;
    outp[i * 4] := Symbol(n0);
    outp[i * 4 + 1] := Symbol(n1);
    if !last {
      outp[i * 4 + 2] := Symbol(n2);
      outp[i * 4 + 3] := Symbol(n3);
    } else {
      if n > i * 3 + 1 {
        outp[i * 4 + 2] := Symbol(n2);
      } else if padded {
        outp[i * 4 + 2] := EQUALS;
      }
      if n > i * 3 + 2 {
        outp[i * 4 + 3] := Symbol(n3);
      } else if padded {
        outp[i * 4 + 3] := EQUALS;
      }
    }
  }

  method Encode(d: seq<Byte>, padded: bool) returns (s: seq<Byte>)
    ensures s == Chars(Values(d, padded))
  {
    hide Values, Char;
    var n := |d|;
    var blockCount := (n + 2) / 3;
    ValueCount(d, padded);
    ghost var v := Values(d, padded);
    var outp := new Byte[if padded then blockCount * 4 else n / 3 * 4 + (if n % 3 == 0 then 0 else 1 + n % 3)](_ => 0);
    var i := 0;
    while i < blockCount
      invariant 0 <= i <= blockCount
      invariant forall k :: 0 <= k < |v| && (k < 4 * i || i == blockCount) ==> outp[k] == Char(v[k])
    {
      ValuesBefore(d, i, padded);
      EncodeBlock(d, padded, i, outp);
      forall k | 0 <= k < |v| && (k < 4 * (i + 1) || i + 1 == blockCount) ensures outp[k] == Char(v[k]) {
        if k >= 4 * i { LateValue(d, padded, i, k - 4 * i); }
      }
      i := i + 1;
    }
    s := outp[..];
  }
}
