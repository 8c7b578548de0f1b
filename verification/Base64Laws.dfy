// What the decoder does to a text as a whole: it depends only on the values that the text's
// characters stand for, and undoes the encoder.
module Base64Laws {
  import opened Common
  import opened Base64
  import opened Base64Decoder

  // Every character is in the alphabet, padding or skipped.
  ghost predicate Clean(s: seq<Byte>, skips: seq<Byte>) {
    forall i :: 0 <= i < |s| ==> Reverse(s[i]) != NONE || Skips(skips, s[i])
  }

  // What the characters from p on stand for.
  function ValuesFrom(s: seq<Byte>, p: nat): (v: seq<int>)
    requires p <= |s|
    ensures forall k :: 0 <= k < |v| ==> 0 <= v[k] <= PAD
    decreases |s| - p
  {
    if p == |s| then []
    else (if Reverse(s[p]) == NONE then [] else [Reverse(s[p])]) + ValuesFrom(s, p + 1)
  }

  // Does the text end in skipped characters?
  predicate Trailing(s: seq<Byte>) { s != [] && Reverse(s[|s|-1]) == NONE }

  function Filled(v: seq<int>): (g: seq<int>)
    requires 2 <= |v|
    ensures |g| == 4 && forall k :: 0 <= k < 4 ==> g[k] == if k < |v| then v[k] else PAD
  {
    if |v| == 2 then [v[0], v[1], PAD, PAD] else if |v| == 3 then [v[0], v[1], v[2], PAD] else v[..4]
  }

  // Decoding values alone. Skipped characters at the end matter only after a complete group.
  function Meaning(v: seq<int>, trailing: bool, out: seq<Byte>): Result<seq<Byte>>
    requires forall k :: 0 <= k < |v| ==> 0 <= v[k] <= PAD
  {
    if v == [] then if trailing then Err(UnexpectedEnd) else Ok(out)
    else if v[0] == PAD then Err(InvalidEquals)
    else if |v| == 1 then Err(UnexpectedEnd)
    else if v[1] == PAD || (|v| > 3 && v[2] == PAD && v[3] != PAD) then Err(InvalidEquals)
    else if |v| < 4 then Ok(out + Bytes(Filled(v)))
    else Meaning(v[4..], trailing, out + Bytes(Filled(v)))
  }

  /** Reading by values */

  lemma {:induction false} ValuesSkipped(s: seq<Byte>, skips: seq<Byte>, p: nat)
    requires p <= |s| && Clean(s, skips)
    ensures var q := Skipped(s, skips, p);
      && ValuesFrom(s, p) == ValuesFrom(s, q) && (q < |s| ==> Reverse(s[q]) != NONE)
    decreases |s| - p
  {
    if p < |s| && Skips(skips, s[p]) { ValuesSkipped(s, skips, p + 1); }
  }

  // The values from p on are v, and there is one right before.
  ghost predicate Rest(s: seq<Byte>, p: nat, v: seq<int>) {
    0 < p <= |s| && ValuesFrom(s, p) == v && Reverse(s[p-1]) != NONE
  }

  // One value is read, or the end is reached.
  lemma SymbolRead(s: seq<Byte>, skips: seq<Byte>, p: nat, n: nat, prev: int)
    requires p <= |s| && Clean(s, skips)
    ensures var v, r := ValuesFrom(s, p), ReadSymbol(s, skips, p, n, prev);
      if v == [] then r == if n < 2 then Failed(UnexpectedEnd) else Got(PAD, |s|)
      else if Misplaced(v[0], n, prev) then r == Failed(InvalidEquals)
      else r.Got? && r.value == v[0] && p < r.next <= |s| && Rest(s, r.next, v[1..])
  {
    hide Reverse, Skips, Misplaced;
    ValuesSkipped(s, skips, p);
    var q := Skipped(s, skips, p);
    if q < |s| { assert ValuesFrom(s, q)[1..] == ValuesFrom(s, q + 1); }
  }

  // The next value of a group that begins with g.
  lemma GroupNext(s: seq<Byte>, skips: seq<Byte>, p: nat, g: seq<int>, v: seq<int>) returns (q: nat)
    requires p <= |s| && Clean(s, skips) && IsGroup(g) && |g| < 4 && v == ValuesFrom(s, p)
    ensures q <= |s| && ValuesFrom(s, q) == if v == [] then [] else v[1..]
    ensures var n, prev := |g|, if g == [] then 0 else g[|g|-1];
      if v == [] && n < 2 then ReadGroup(s, skips, p, g) == Bad(UnexpectedEnd)
      else if v != [] && Misplaced(v[0], n, prev) then ReadGroup(s, skips, p, g) == Bad(InvalidEquals)
      else
        var g' := g + [if v == [] then PAD else v[0]];
        && IsGroup(g') && ReadGroup(s, skips, p, g) == ReadGroup(s, skips, q, g')
        && (if v == [] then q == |s| else p < q && Reverse(s[q-1]) != NONE)
  {
    hide Reverse, Clean, ReadSymbol, ReadGroup, ValuesFrom, Misplaced, IsGroup;
    var n, prev := |g|, if g == [] then 0 else g[|g|-1];
    SymbolRead(s, skips, p, n, prev);
    GroupStep(s, skips, p, g);
    var r := ReadSymbol(s, skips, p, n, prev);
    if r.Got? { q := r.next; } else { q := AfterValue(s, p); }
    NoneAtEnd(s);
  }

  lemma NoneAtEnd(s: seq<Byte>)
    ensures ValuesFrom(s, |s|) == []
  {
  }

  lemma {:induction false} AfterValue(s: seq<Byte>, p: nat) returns (q: nat)
    requires p <= |s|
    ensures q <= |s| && ValuesFrom(s, q) == if ValuesFrom(s, p) == [] then [] else ValuesFrom(s, p)[1..]
    decreases |s| - p
  {
    hide Reverse;
    if p == |s| { return p; }
    if Reverse(s[p]) == NONE {
      q := AfterValue(s, p + 1);
    } else {
      assert ValuesFrom(s, p)[1..] == ValuesFrom(s, p + 1);
      q := p + 1;
    }
  }

  // A group is read as its values say.
  lemma GroupRead(s: seq<Byte>, skips: seq<Byte>, p: nat, v: seq<int>)
    requires p <= |s| && Clean(s, skips) && v == ValuesFrom(s, p)
    ensures var g := ReadGroup(s, skips, p, []);
      if v == [] then g == Bad(UnexpectedEnd)
      else if v[0] == PAD then g == Bad(InvalidEquals)
      else if |v| == 1 then g == Bad(UnexpectedEnd)
      else if v[1] == PAD || (|v| > 3 && v[2] == PAD && v[3] != PAD) then g == Bad(InvalidEquals)
      else
        && g.Group? && g.v == Filled(v)
        && (|v| < 4 ==> g.next == |s|)
        && (|v| >= 4 ==> ValuesFrom(s, g.next) == v[4..] && Reverse(s[g.next-1]) != NONE)
  {
    hide Reverse, Clean, ReadGroup, ValuesFrom, Filled;
    var q := GroupNext(s, skips, p, [], v);
    if v != [] && v[0] != PAD {
      assert [] + [v[0]] == [v[0]];
      q := GroupNext(s, skips, q, [v[0]], v[1..]);
      if |v| > 1 && v[1] != PAD {
        assert [v[0]] + [v[1]] == [v[0], v[1]] && v[1..][1..] == v[2..];
        GroupEnd(s, skips, p, q, v);
      }
    }
  }

  // The second half of a group.
  lemma GroupEnd(s: seq<Byte>, skips: seq<Byte>, p: nat, q2: nat, v: seq<int>)
    requires p < q2 <= |s| && Clean(s, skips) && |v| > 1 && IsGroup([v[0], v[1]]) && ValuesFrom(s, q2) == v[2..]
    ensures var g := ReadGroup(s, skips, q2, [v[0], v[1]]);
      if |v| > 3 && v[2] == PAD && v[3] != PAD then g == Bad(InvalidEquals)
      else
        && g.Group? && g.v == Filled(v)
        && (|v| < 4 ==> g.next == |s|)
        && (|v| >= 4 ==> ValuesFrom(s, g.next) == v[4..] && q2 < g.next && Reverse(s[g.next-1]) != NONE)
  {
    hide Reverse, Clean, ReadGroup, ValuesFrom;
    var q3 := GroupNext(s, skips, q2, [v[0], v[1]], v[2..]);
    var v2 := if |v| > 2 then v[2] else PAD;
    var v3 := if |v| > 3 then v[3] else PAD;
    var rest := if |v| > 2 then v[3..] else [];
    assert [v[0], v[1]] + [v2] == [v[0], v[1], v2] && (|v| > 2 ==> v[2..][1..] == v[3..]);
    var q4 := GroupNext(s, skips, q3, [v[0], v[1], v2], rest);
    if !(|v| > 3 && v2 == PAD && v3 != PAD) {
      assert [v[0], v[1], v2] + [v3] == [v[0], v[1], v2, v3];
      if |v| > 3 { assert v[3..][1..] == v[4..] && v[..4] == [v[0], v[1], v2, v3]; }
      GroupDone(s, skips, q4, [v[0], v[1], v2, v3]);
    }
  }

  // A text whose characters are all in order is decoded as its values are.
  lemma {:induction false} DecodeFromMeaning(s: seq<Byte>, skips: seq<Byte>, p: nat, out: seq<Byte>)
    requires p <= |s| && Clean(s, skips) && (p == |s| ==> !Trailing(s))
    ensures DecodeFrom(s, skips, p, out) == Meaning(ValuesFrom(s, p), Trailing(s), out)
    decreases |s| - p
  {
    hide Reverse, ReadGroup, Clean, Bytes, Filled, Skips;
    var v := ValuesFrom(s, p);
    if p < |s| {
      GroupRead(s, skips, p, v);
      if v == [] { TrailingOnly(s, p); }
      var g := ReadGroup(s, skips, p, []);
      if g.Group? {
        if |v| < 4 {
        } else {
          DecodeFromMeaning(s, skips, g.next, out + Bytes(g.v));
        }
      }
    }
  }

  lemma {:induction false} TrailingOnly(s: seq<Byte>, p: nat)
    requires p < |s| && ValuesFrom(s, p) == []
    ensures Trailing(s)
    decreases |s| - p
  {
    hide Reverse;
    if p + 1 < |s| { TrailingOnly(s, p + 1); }
  }

  lemma DecodeMeaning(s: seq<Byte>, skips: seq<Byte>)
    requires Clean(s, skips)
    ensures Decoded(s, skips) == Meaning(ValuesFrom(s, 0), Trailing(s), [])
  {
    DecodeFromMeaning(s, skips, 0, []);
  }

  /** Round trips */

  lemma {:induction false} ValuesOfChars(v: seq<int>, p: nat)
    requires p <= |v| && forall k :: 0 <= k < |v| ==> 0 <= v[k] <= PAD
    ensures ValuesFrom(Chars(v), p) == v[p..]
    decreases |v| - p
  {
    if p < |v| {
      CharStandsFor(v[p]);
      ValuesOfChars(v, p + 1);
      assert v[p..] == [v[p]] + v[p + 1..];
    }
  }

  lemma CharStandsFor(v: int)
    requires 0 <= v <= PAD
    ensures Reverse(Char(v)) == v
  {
    if v < PAD { ReverseOfSymbol(v); }
  }

  lemma CharsAreClean(v: seq<int>, skips: seq<Byte>)
    requires forall k :: 0 <= k < |v| ==> 0 <= v[k] <= PAD
    ensures Clean(Chars(v), skips) && !Trailing(Chars(v))
  {
    hide Reverse, Char;
    forall k | 0 <= k < |v| ensures Reverse(Chars(v)[k]) != NONE { CharStandsFor(v[k]); }
  }

  // Three bytes come back from their four values.
  lemma BlockMeaning(i0: Byte, i1: Byte, i2: Byte)
    ensures var v := Sextets(i0, i1, i2);
      && IsGroup(v) && Bytes(v) == [i0, i1, i2]
      && (i2 == 0 ==> Bytes([v[0], v[1], v[2], PAD]) == [i0, i1])
      && (i1 == 0 ==> Bytes([v[0], v[1], PAD, PAD]) == [i0])
  {
  }

  lemma {:induction false} MeaningOfValues(d: seq<Byte>, padded: bool, out: seq<Byte>)
    ensures Meaning(Values(d, padded), false, out) == Ok(out + d)
    decreases |d|
  {
    hide Bytes, Sextets, Meaning, Filled;
    if |d| == 0 {
      assert out + d == out;
      NoMeaning(out);
    } else if |d| < 3 {
      ShortValues(d, padded, out);
    } else {
      BlockMeaning(d[0], d[1], d[2]);
      LongMeaning(Sextets(d[0], d[1], d[2]), Values(d[3..], padded), out);
      MeaningOfValues(d[3..], padded, out + [d[0], d[1], d[2]]);
      assert out + [d[0], d[1], d[2]] + d[3..] == out + d;
    }
  }

  lemma NoMeaning(out: seq<Byte>)
    ensures Meaning([], false, out) == Ok(out)
  {
  }

  lemma ShortValues(d: seq<Byte>, padded: bool, out: seq<Byte>)
    requires 1 <= |d| <= 2
    ensures Meaning(Values(d, padded), false, out) == Ok(out + d)
  {
    hide Bytes, Sextets, Meaning;
    var v := Values(d, padded);
    if |d| == 1 {
      BlockMeaning(d[0], 0, 0);
      assert Filled(v) == [v[0], v[1], PAD, PAD] && d == [d[0]];
    } else {
      BlockMeaning(d[0], d[1], 0);
      assert Filled(v) == [v[0], v[1], v[2], PAD] && d == [d[0], d[1]];
    }
    ShortMeaning(v, out, d);
  }

  lemma LongMeaning(b: seq<int>, rest: seq<int>, out: seq<Byte>)
    requires |b| == 4 && (forall k :: 0 <= k < 4 ==> 0 <= b[k] < PAD)
    requires forall k :: 0 <= k < |rest| ==> 0 <= rest[k] <= PAD
    ensures IsGroup(b) && Meaning(b + rest, false, out) == Meaning(rest, false, out + Bytes(b))
  {
    hide Bytes;
    assert Filled(b + rest) == b && (b + rest)[4..] == rest;
  }

  lemma ShortMeaning(v: seq<int>, out: seq<Byte>, d: seq<Byte>)
    requires (forall k :: 0 <= k < |v| ==> 0 <= v[k] <= PAD) && 2 <= |v| <= 4 && v[0] < PAD && v[1] < PAD
    requires |v| > 3 && v[2] == PAD ==> v[3] == PAD
    requires Bytes(Filled(v)) == d
    ensures Meaning(v, false, out) == Ok(out + d)
  {
    hide Bytes;
    if |v| == 4 { assert v[4..] == []; }
  }

  // Decoding undoes encoding, with padding and without.
  lemma RoundTrip(d: seq<Byte>, padded: bool, skips: seq<Byte>)
    ensures Decoded(Chars(Values(d, padded)), skips) == Ok(d)
  {
    hide Meaning, Values, Decoded, Clean;
    var v := Values(d, padded);
    CharsAreClean(v, skips);
    DecodeMeaning(Chars(v), skips);
    ValuesOfChars(v, 0);
    assert v[0..] == v && [] + d == d;
    MeaningOfValues(d, padded, []);
  }

  /** Concatenation */

  function Prepend(d: seq<Byte>, r: Result<seq<Byte>>): Result<seq<Byte>> {
    if r.Ok? then Ok(d + r.value) else r
  }

  lemma {:induction false} MeaningPrefix(v: seq<int>, trailing: bool, d: seq<Byte>, out: seq<Byte>)
    requires forall k :: 0 <= k < |v| ==> 0 <= v[k] <= PAD
    ensures Meaning(v, trailing, d + out) == Prepend(d, Meaning(v, trailing, out))
    decreases |v|
  {
    hide Bytes, Filled;
    if |v| > 1 && v[0] != PAD && v[1] != PAD && !(|v| > 3 && v[2] == PAD && v[3] != PAD) {
      var b := Bytes(Filled(v));
      assert d + out + b == d + (out + b);
      if |v| >= 4 { MeaningPrefix(v[4..], trailing, d, out + b); }
    }
  }

  lemma {:induction false} MeaningJoin(v: seq<int>, w: seq<int>, trailing: bool, out: seq<Byte>)
    requires (forall k :: 0 <= k < |v| ==> 0 <= v[k] <= PAD) && (forall k :: 0 <= k < |w| ==> 0 <= w[k] <= PAD)
    requires |v| % 4 == 0 && Meaning(v, false, out).Ok?
    ensures Meaning(v + w, trailing, out) == Meaning(w, trailing, Meaning(v, false, out).value)
    decreases |v|
  {
    hide Bytes;
    if v == [] {
      assert v + w == w;
    } else {
      assert (v + w)[4..] == v[4..] + w && Filled(v + w) == Filled(v);
      MeaningJoin(v[4..], w, trailing, out + Bytes(Filled(v)));
    }
  }

  lemma {:induction false} ValuesJoin(s: seq<Byte>, t: seq<Byte>, p: nat)
    requires p <= |s|
    ensures ValuesFrom(s + t, p) == ValuesFrom(s, p) + ValuesFrom(t, 0)
    decreases |s| - p
  {
    hide Reverse;
    if p == |s| { ValuesShift(s, t, 0); } else { ValuesJoin(s, t, p + 1); }
  }

  lemma {:induction false} ValuesShift(s: seq<Byte>, t: seq<Byte>, p: nat)
    requires p <= |t|
    ensures ValuesFrom(s + t, |s| + p) == ValuesFrom(t, p)
    decreases |t| - p
  {
    hide Reverse;
    if p < |t| { ValuesShift(s, t, p + 1); }
  }

  // A padded encoding in front of any text puts the bytes it encodes in front.
  lemma Concatenation(d: seq<Byte>, t: seq<Byte>, skips: seq<Byte>)
    requires Clean(t, skips)
    ensures Decoded(Chars(Values(d, true)) + t, skips) == Prepend(d, Decoded(t, skips))
  {
    hide Meaning, Values, Decoded, ValuesFrom, Reverse;
    var v, s := Values(d, true), Chars(Values(d, true));
    CharsAreClean(v, skips);
    if t == [] {
      assert s + t == s;
      RoundTrip(d, true, skips);
      NothingDecoded(skips);
      assert d + [] == d;
    } else {
      DecodeMeaning(s + t, skips);
      DecodeMeaning(t, skips);
      ValuesOfChars(v, 0);
      assert v[0..] == v;
      ValuesJoin(s, t, 0);
      MeaningOfValues(d, true, []);
      MeaningJoin(v, ValuesFrom(t, 0), Trailing(t), []);
      MeaningPrefix(ValuesFrom(t, 0), Trailing(t), d, []);
      assert [] + d == d + [];
    }
  }

  lemma NothingDecoded(skips: seq<Byte>)
    ensures Decoded([], skips) == Ok([])
  {
  }

  function EncodedAll(ds: seq<seq<Byte>>): seq<Byte> {
    if ds == [] then [] else Chars(Values(ds[0], true)) + EncodedAll(ds[1..])
  }

  function Joined(ds: seq<seq<Byte>>): seq<Byte> {
    if ds == [] then [] else ds[0] + Joined(ds[1..])
  }

  // Padded encodings one after another decode to all that was encoded.
  lemma {:induction false} Concatenations(ds: seq<seq<Byte>>, skips: seq<Byte>)
    ensures Clean(EncodedAll(ds), skips) && Decoded(EncodedAll(ds), skips) == Ok(Joined(ds))
  {
    hide Values, Decoded, Reverse, Skips;
    if ds == [] {
      NothingDecoded(skips);
    } else {
      Concatenations(ds[1..], skips);
      CharsAreClean(Values(ds[0], true), skips);
      Concatenation(ds[0], EncodedAll(ds[1..]), skips);
    }
  }

  /** Skipped characters */

  ghost predicate AllSkipped(k: seq<Byte>, skips: seq<Byte>) { forall i :: 0 <= i < |k| ==> Skips(skips, k[i]) }

  lemma {:induction false} NoValues(k: seq<Byte>, skips: seq<Byte>, p: nat)
    requires AllSkipped(k, skips) && p <= |k|
    ensures ValuesFrom(k, p) == []
    decreases |k| - p
  {
    if p < |k| { NoValues(k, skips, p + 1); }
  }

  // Line breaks before the last value change nothing.
  lemma LineBreaks(a: seq<Byte>, k: seq<Byte>, b: seq<Byte>, skips: seq<Byte>)
    requires Clean(a, skips) && AllSkipped(k, skips) && Clean(b, skips) && b != []
    ensures Decoded(a + k + b, skips) == Decoded(a + b, skips)
  {
    hide Decoded, Meaning, Reverse, ValuesFrom, Skips;
    NoValues(k, skips, 0);
    ValuesJoin(a + k, b, 0);
    ValuesJoin(a, k, 0);
    ValuesJoin(a, b, 0);
    assert ValuesFrom(a, 0) + [] == ValuesFrom(a, 0);
    DecodeMeaning(a + k + b, skips);
    DecodeMeaning(a + b, skips);
  }

  lemma {:induction false} MeaningTrailing(v: seq<int>, out: seq<Byte>)
    requires forall k :: 0 <= k < |v| ==> 0 <= v[k] <= PAD
    ensures Meaning(v, true, out) ==
      if |v| % 4 == 0 && Meaning(v, false, out).Ok? then Err(UnexpectedEnd) else Meaning(v, false, out)
    decreases |v|
  {
    hide Bytes, Filled;
    if |v| >= 4 && v[0] != PAD && v[1] != PAD { MeaningTrailing(v[4..], out + Bytes(Filled(v))); }
  }

  // Line breaks after the last value are an error exactly when the last group is complete.
  lemma TrailingBreaks(a: seq<Byte>, k: seq<Byte>, skips: seq<Byte>)
    requires Clean(a, skips) && !Trailing(a) && AllSkipped(k, skips) && k != []
    ensures Decoded(a + k, skips) ==
      if |ValuesFrom(a, 0)| % 4 == 0 && Decoded(a, skips).Ok? then Err(UnexpectedEnd) else Decoded(a, skips)
  {
    hide Decoded, Meaning, Reverse, ValuesFrom;
    NoValues(k, skips, 0);
    ValuesJoin(a, k, 0);
    assert ValuesFrom(a, 0) + [] == ValuesFrom(a, 0);
    DecodeMeaning(a + k, skips);
    DecodeMeaning(a, skips);
    MeaningTrailing(ValuesFrom(a, 0), []);
  }

  /** Errors */

  // Nothing is decoded past a character that is not in order.
  lemma {:induction false} OnlyClean(s: seq<Byte>, skips: seq<Byte>, p: nat, out: seq<Byte>)
    requires p <= |s| && DecodeFrom(s, skips, p, out).Ok?
    ensures forall i :: p <= i < |s| ==> Reverse(s[i]) != NONE || Skips(skips, s[i])
    decreases |s| - p
  {
    hide Reverse, Bytes, ReadGroup, Skips;
    if p < |s| {
      var g := ReadGroup(s, skips, p, []);
      GroupClean(s, skips, p, []);
      OnlyClean(s, skips, g.next, out + Bytes(g.v));
    }
  }

  lemma SymbolClean(s: seq<Byte>, skips: seq<Byte>, p: nat, n: nat, prev: int)
    requires p <= |s| && ReadSymbol(s, skips, p, n, prev).Got?
    ensures forall i :: p <= i < ReadSymbol(s, skips, p, n, prev).next ==> Reverse(s[i]) != NONE || Skips(skips, s[i])
  {
    hide Reverse, Skips, Misplaced;
  }

  lemma {:induction false} GroupClean(s: seq<Byte>, skips: seq<Byte>, p: nat, v: seq<int>)
    requires p <= |s| && IsGroup(v) && ReadGroup(s, skips, p, v).Group?
    ensures forall i :: p <= i < ReadGroup(s, skips, p, v).next ==> Reverse(s[i]) != NONE || Skips(skips, s[i])
    decreases 4 - |v|
  {
    hide Reverse, Misplaced, Skips, ReadSymbol;
    if |v| < 4 {
      var r := ReadSymbol(s, skips, p, |v|, if v == [] then 0 else v[|v|-1]);
      GroupStep(s, skips, p, v);
      SymbolClean(s, skips, p, |v|, if v == [] then 0 else v[|v|-1]);
      GroupClean(s, skips, r.next, v + [r.value]);
    }
  }

  lemma DecodedIsClean(s: seq<Byte>, skips: seq<Byte>)
    requires Decoded(s, skips).Ok?
    ensures Clean(s, skips)
  {
    OnlyClean(s, skips, 0, []);
  }
}
