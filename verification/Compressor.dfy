// The compressor that makes the streams: it looks for repeats through a hash table and writes
// them, and the bytes between them, as pieces.
module Compressor {
  import opened Common
  import opened Adler
  import opened Lz

  // Is a match of this length worth its distance?
  predicate NotCrap(best: int, dist: int) {
    (best > 2 && dist <= 0x100) || (best > 5 && dist <= 0x4000) || (best > 7 && dist <= 0x8_0000)
  }

  predicate Worthwhile(best: int, dist: int, window: int) {
    dist <= window && (best > 9 || NotCrap(best, dist))
  }

  // A match is worth its distance exactly when there is a code for it, up to the distance that any
  // code can hold.
  lemma WorthwhileIffCode(best: int, dist: int, window: int)
    requires best <= 0x1_0000 && 0 < dist <= 0x100_0000
    ensures Worthwhile(best, dist, window) <==> dist <= window && Copyable(dist, best)
  {
  }

  // The n bytes at q repeat those at t.
  ghost predicate Repeats(d: seq<Byte>, t: int, q: int, n: int) {
    0 <= t < q && 0 <= n && q + n <= |d| && forall j :: q <= j < q + n ==> d[j] == d[j - (q - t)]
  }

  // The best match so far: none yet, or `best` bytes that repeat those `dist` bytes back.
  ghost predicate IsMatch(d: seq<Byte>, q: int, best: int, dist: int, most: int, window: int) {
    (best == 2 && dist == 0) ||
    (2 < best <= most && dist > 0 && Longest(d, q - dist, q, best, most) && Worthwhile(best, dist, window))
  }

  // n bytes at q repeat those at t, and no more do.
  ghost predicate Longest(d: seq<Byte>, t: int, q: int, n: int, most: int) {
    Repeats(d, t, q, n) && n <= most && (n < most && q + n < |d| ==> d[t + n] != d[q + n])
  }

  // No match at t that is worth its distance is longer than `best`.
  ghost predicate NoLonger(d: seq<Byte>, t: int, q: int, most: int, window: int, best: int) {
    t >= 0 ==> forall n :: 2 < n <= most && Repeats(d, t, q, n) && Worthwhile(n, q - t, window) ==> n <= best
  }

  lemma LongestIsLongest(d: seq<Byte>, t: int, q: int, most: int, window: int, m: int, best: int)
    requires Longest(d, t, q, m, most) && q + most <= |d| && (Worthwhile(m, q - t, window) ==> m <= best)
    ensures NoLonger(d, t, q, most, window, best)
  {
    hide Worthwhile;
    if t >= 0 {
      forall n | 2 < n <= most && Repeats(d, t, q, n) ensures n <= m { RepeatsAgree(d, t, q, n); }
      WorthMore(q - t, window);
    }
  }

  lemma RepeatsAgree(d: seq<Byte>, t: nat, q: nat, n: nat)
    requires Repeats(d, t, q, n)
    ensures forall i :: t <= i < t + n ==> d[i] == d[i + q - t]
  {
    forall i | t <= i < t + n ensures d[i] == d[i + q - t] {
      var j := i + q - t;
      assert d[j] == d[j - (q - t)];
    }
  }

  // A longer match from the same place is worth its distance if a shorter one is.
  lemma WorthMore(dist: int, window: int)
    ensures forall n, m :: n <= m && Worthwhile(n, dist, window) ==> Worthwhile(m, dist, window)
  {
  }

  lemma StillNoLonger(d: seq<Byte>, t: int, q: int, most: int, window: int, b: int, best: int)
    requires NoLonger(d, t, q, most, window, b) && b <= best
    ensures NoLonger(d, t, q, most, window, best)
  {
  }

  // How far two places agree.
  method MatchLen(d: seq<Byte>, t: nat, q: nat, maxlen: nat) returns (n: nat)
    requires t < q && q + maxlen <= |d|
    ensures Longest(d, t, q, n, maxlen)
  {
    n := 0;
    while n < maxlen
      invariant n <= maxlen && Repeats(d, t, q, n)
    {
      if d[t + n] != d[q + n] {
        return;
      }
      n := n + 1;
    }
  }

  // A repeat, even one that overlaps itself, is what copying writes.
  lemma {:induction false} RepeatAt(d: seq<Byte>, q: nat, dist: nat, n: nat, k: nat)
    requires 0 < dist <= q && Repeats(d, q - dist, q, n) && k < n
    ensures d[q + k] == d[q - dist + Wrap(k, dist)]
    decreases k
  {
    assert d[q + k] == d[q + k - dist];
    if k >= dist { RepeatAt(d, q, dist, n, k - dist); }
  }

  lemma RepeatIsCopy(d: seq<Byte>, q: nat, dist: nat, n: nat)
    requires 0 < dist <= q && Repeats(d, q - dist, q, n)
    ensures Write(d[..q], Copy(dist, n)) == d[..q + n]
  {
    hide Wrap;
    var r := Repeated(d[..q], dist, n);
    forall k | 0 <= k < n ensures r[k] == d[q + k] { RepeatAt(d, q, dist, n, k); }
    assert d[..q + n] == d[..q] + r;
  }

  // Is a match long enough, and not too far back for a code?
  predicate Taken(best: int, dist: int) { best > 2 && dist <= 0x100_0000 }

  // The best match found at a place where one was looked for.
  datatype Choice = Choice(q: int, best: int, dist: int)

  // Where to go on.
  function After(c: Choice): int { c.q + if Taken(c.best, c.dist) then c.best else 1 }

  function Reached(run: seq<Choice>): int { if run == [] then 0 else After(Last(run)) }

  // The copies among pieces, in order.
  function Copies(ps: seq<Piece>): seq<Piece> {
    if ps == [] then [] else Copies(ps[..|ps|-1]) + if ps[|ps|-1].Copy? then [ps[|ps|-1]] else []
  }

  lemma CopiesNext(ps: seq<Piece>, p: Piece)
    ensures Copies(ps + [p]) == Copies(ps) + if p.Copy? then [p] else []
  {
    assert (ps + [p])[..|ps|] == ps;
  }

  // The matches taken, as pieces.
  function Matches(run: seq<Choice>): seq<Piece> {
    if run == [] then []
    else
      var c := Last(run);
      Matches(run[..|run|-1]) + if Taken(c.best, c.dist) then [Copy(c.dist, c.best)] else []
  }

  class Compressor {
    const input: seq<Byte>
    const window: int
    const hashes: (int, int) -> nat   // hash k of the bytes at position q
    const chash: array<int>           // the position last seen with a hash, or -1
    var out: seq<Byte>
    ghost var pieces: seq<Piece>

    ghost predicate Table(q: int)
      reads chash
    {
      chash.Length > 0 && forall i :: 0 <= i < chash.Length ==> -1 <= chash[i] < q
    }

    // A stream that is a header and the codes of pieces that write the input up to `lit`.
    ghost predicate WroteBy(ps: seq<Piece>, o: seq<Byte>, lit: int) {
      && 0 <= lit <= |input| < 0x8000_0000
      && AllCoded(ps) && Playable(ps) && Play(ps) == input[..lit]
      && o == Header(|input|, window) + Codes(ps)
    }

    ghost predicate Wrote(lit: int)
      reads this`out, this`pieces
    {
      WroteBy(pieces, out, lit)
    }

    constructor (input: seq<Byte>, window: int, hashes: (int, int) -> nat, hashSize: nat)
      requires hashSize > 0
      ensures this.input == input && this.window == window && Table(0) && fresh(chash) && out == [] && pieces == []
    {
      this.input, this.window, this.hashes := input, window, hashes;
      chash := new int[hashSize](_ => -1);
      out, pieces := [], [];
    }

    method Put(v: int)
      modifies this`out
      ensures out == old(out) + [Low(v)]
    {
      out := out + [Low(v)];
    }

    method Put2(v: int)
      modifies this`out
      ensures out == old(out) + Out2(v)
    {
      Put(v / 0x100); Put(v);
    }

    method Put3(v: int)
      modifies this`out
      ensures out == old(out) + Out3(v)
    {
      Put(v / 0x1_0000); Put(v / 0x100); Put(v);
    }

    method Put4(v: int)
      modifies this`out
      ensures out == old(out) + Out4(v)
    {
      Put(v / 0x100_0000); Put(v / 0x1_0000); Put(v / 0x100); Put(v);
    }

    lemma WroteMore(lit: int, p: Piece, before: seq<Byte>, ps: seq<Piece>)
      requires 0 < Length(p) && lit + Length(p) <= |input| && WroteBy(ps, before, lit)
      requires Coded(p) && Reaches(p, lit) && Write(input[..lit], p) == input[..lit + Length(p)]
      requires pieces == ps + [p] && out == before + Code(p)
      ensures Wrote(lit + Length(p))
    {
      hide Code, Coded, Write, Header, Reaches, Length;
      assert pieces[..|pieces|-1] == ps;
    }

    lemma InInput(lit: int)
      requires Wrote(lit)
      ensures 0 <= lit <= |input| < 0x8000_0000
    {
    }

    // Write n bytes as they are, at most 65536 in one piece.
    method OutLiterals(from: nat, n: nat)
      requires Wrote(from) && from + n <= |input|
      modifies this`out, this`pieces
      ensures Wrote(from + n) && Copies(pieces) == Copies(old(pieces))
      ensures |pieces| == |old(pieces)| + (n + 0xffff) / 0x1_0000
      decreases n
    {
      hide WroteBy, Out2, Out3, Low, Copies;
      InInput(from);
      var at, numlit := from, n;
      while numlit > 0x1_0000
        invariant at + numlit == from + n && Wrote(at) && Copies(pieces) == Copies(old(pieces))
        invariant |pieces| + (numlit + 0xffff) / 0x1_0000 == |old(pieces)| + (n + 0xffff) / 0x1_0000
      {
        OutLiterals(at, 0x1_0000);
        at := at + 0x1_0000;
        numlit := numlit - 0x1_0000;
      }
      OutRun(at, numlit);
    }

    // Write up to 65536 bytes as one piece.
    method OutRun(at: nat, numlit: nat)
      requires Wrote(at) && at + numlit <= |input| && numlit <= 0x1_0000
      modifies this`out, this`pieces
      ensures Wrote(at + numlit) && Copies(pieces) == Copies(old(pieces))
      ensures |pieces| == |old(pieces)| + if numlit == 0 then 0 else 1
    {
      hide WroteBy, LiteralHead, Copies;
      InInput(at);
      if numlit == 0 {
        return;
      }
      ghost var before, ps := out, pieces;
      PutHead(numlit);
      out := out + input[at..at + numlit];
      ghost var p := Literal(input[at..at + numlit]);
      CopiesNext(ps, p);
      pieces := pieces + [p];
      assert input[..at] + input[at..at + numlit] == input[..at + numlit];
      assert out == before + Code(p);
      WroteMore(at, p, before, ps);
    }

    method PutHead(numlit: nat)
      requires 0 < numlit <= 0x1_0000
      modifies this`out
      ensures out == old(out) + LiteralHead(numlit)
    {
      hide Out2, Out3, Low;
      if numlit <= 32 {
        Put(0x20 + numlit - 1);
      } else if numlit <= 2048 {
        Put2(0x0800 + numlit - 1);
      } else {
        Put3(0x07_0000 + numlit - 1);
      }
    }

    // The code of a match, written after the bytes before it.
    method OutMatch(lit: nat, q: nat, best: int, dist: int) returns (q': nat, lit': nat)
      requires Wrote(lit) && lit <= q && IsMatch(input, q, best, dist, Most(q), window) && q < |input|
      modifies this`out, this`pieces
      ensures Wrote(lit') && q < q' <= |input|
      ensures if Taken(best, dist)
        then q' == lit' == q + best && Copies(pieces) == Copies(old(pieces)) + [Copy(dist, best)]
        else q' == q + 1 && lit' == lit && out == old(out) && pieces == old(pieces)
    {
      hide WroteBy, Out2, Out3, Low, Copies, Repeats, Longest, IsMatch, Most;
      if best > 2 { MatchFacts(q, best, dist); }
      if best < 3 {
        return q + 1, lit;
      } else if best > 2 && best <= 0x80 && dist <= 0x100 {
        OutLiterals(lit, q - lit);
        ghost var before := out;
        Put(0x80 + best - 1);
        Put(dist - 1);
        q', lit' := MatchDone(before, q, best, dist);
      } else if best > 5 && best <= 0x100 && dist <= 0x4000 {
        OutLiterals(lit, q - lit);
        ghost var before := out;
        Put2(0x4000 + dist - 1);
        Put(best - 1);
        q', lit' := MatchDone(before, q, best, dist);
      } else if best > 7 && best <= 0x100 && dist <= 0x8_0000 {
        OutLiterals(lit, q - lit);
        ghost var before := out;
        Put3(0x18_0000 + dist - 1);
        Put(best - 1);
        q', lit' := MatchDone(before, q, best, dist);
      } else if best > 8 && best <= 0x1_0000 && dist <= 0x8_0000 {
        OutLiterals(lit, q - lit);
        ghost var before := out;
        Put3(0x10_0000 + dist - 1);
        Put2(best - 1);
        q', lit' := MatchDone(before, q, best, dist);
      } else if best > 9 && dist <= 0x100_0000 {
        OutLiterals(lit, q - lit);
        ghost var before := out;
        PutFar(best, dist);
        q', lit' := MatchDone(before, q, best, dist);
      } else {
        return q + 1, lit;
      }
    }

    lemma MatchFacts(q: nat, best: int, dist: int)
      requires IsMatch(input, q, best, dist, Most(q), window) && best > 2
      ensures 0 < dist <= q && q + best <= |input| && best <= 0x1_0000 && Repeats(input, q - dist, q, best)
      ensures Worthwhile(best, dist, window)
    {
    }

    // The code of a match too far back for the shorter codes.
    method PutFar(best: int, dist: int)
      modifies this`out
      ensures out == old(out) +
        if best <= 0x100 then [0x06] + Out3(dist - 1) + [Low(best - 1)] else [0x04] + Out3(dist - 1) + Out2(best - 1)
    {
      hide Out2, Out3, Low;
      LowOf(0x06);
      LowOf(0x04);
      if best <= 0x100 {
        Put(0x06);
        Put3(dist - 1);
        Put(best - 1);
      } else {
        Put(0x04);
        Put3(dist - 1);
        Put2(best - 1);
      }
    }

    // Note the match just written, and go on behind it.
    method MatchDone(ghost before: seq<Byte>, q: nat, best: nat, dist: nat) returns (q': nat, lit': nat)
      requires 0 < dist && Copyable(dist, best) && Repeats(input, q - dist, q, best)
      requires out == before + CopyCode(dist, best)
      requires WroteBy(pieces, before, q)
      modifies this`pieces
      ensures q' == lit' == q + best && Wrote(lit') && Copies(pieces) == Copies(old(pieces)) + [Copy(dist, best)]
    {
      hide CopyCode, Write, WroteBy, Copies;
      ghost var p, ps := Copy(dist, best), pieces;
      CopiesNext(ps, p);
      RepeatIsCopy(input, q, dist, best);
      pieces := pieces + [p];
      WroteMore(q, p, before, ps);
      return q + best, q + best;
    }

    // Try one earlier place; `again` says not to retry the distance already found.
    method Try(t: int, q: nat, most: nat, best0: int, dist0: int, again: bool) returns (best: int, dist: int)
      requires -1 <= t < q && q + most <= |input| && IsMatch(input, q, best0, dist0, most, window)
      ensures IsMatch(input, q, best, dist, most, window) && best >= best0
      ensures NoLonger(input, t, q, most, window, best) && (dist == dist0 || dist == q - t)
    {
      hide Repeats, Worthwhile;
      best, dist := best0, dist0;
      if t >= 0 {
        if !again || dist != q - t {
          var m := MatchLen(input, t, q, most);
          if m > best && Worthwhile(m, q - t, window) {
            best, dist := m, q - t;
          }
          LongestIsLongest(input, t, q, most, window, m, best);
        } else {
          LongestIsLongest(input, t, q, most, window, best, best);
        }
      }
    }

    // How long a match at q may be.
    function Most(q: int): int { if q + 0x1_0000 > |input| then |input| - q else 0x1_0000 }

    // Does one of the hashes of the bytes at q lead to place i of the table?
    predicate HashesTo(q: int, i: int)
      requires chash.Length > 0
    {
      exists k :: 0 <= k < 4 && hashes(q, k) % chash.Length == i
    }

    lemma FourHashes(q: int)
      requires chash.Length > 0
      ensures forall i :: HashesTo(q, i) <==>
        i == hashes(q, 0) % chash.Length || i == hashes(q, 1) % chash.Length
        || i == hashes(q, 2) % chash.Length || i == hashes(q, 3) % chash.Length
    {
    }

    // The place last looked at that has hash i, or -1.
    ghost function Seen(run: seq<Choice>, i: int): int
      requires chash.Length > 0
    {
      if run == [] then -1
      else if HashesTo(Last(run).q, i) then Last(run).q
      else Seen(run[..|run|-1], i)
    }

    // The place last looked at with hash k of the bytes at q.
    ghost function SeenBy(run: seq<Choice>, q: int, k: int): int
      requires chash.Length > 0
    {
      Seen(run, hashes(q, k) % chash.Length)
    }

    // Of the places last looked at with the same hashes the match is at one, and no match worth its
    // distance at any of them is longer.
    ghost predicate BestOfFour(front: seq<Choice>, c: Choice)
      requires chash.Length > 0
    {
      && IsMatch(input, c.q, c.best, c.dist, Most(c.q), window)
      && (forall k :: 0 <= k < 4 ==> NoLonger(input, SeenBy(front, c.q, k), c.q, Most(c.q), window, c.best))
      && (c.dist == 0 || exists k :: 0 <= k < 4 && c.dist == c.q - SeenBy(front, c.q, k))
    }

    // A match was looked for at the start, and from then on behind each match taken or one byte on.
    ghost predicate Chosen(run: seq<Choice>)
      requires chash.Length > 0
    {
      run == [] ||
      (var front, c := run[..|run|-1], Last(run);
       Chosen(front) && c.q == Reached(front) && c.q + 12 < |input| && BestOfFour(front, c))
    }

    // What the table holds.
    ghost predicate Remembers(run: seq<Choice>)
      requires chash.Length > 0
      reads chash
    {
      forall i :: 0 <= i < chash.Length ==> chash[i] == Seen(run, i)
    }

    lemma SeenNext(run: seq<Choice>, c: Choice)
      requires chash.Length > 0
      ensures forall i :: Seen(run + [c], i) == if HashesTo(c.q, i) then c.q else Seen(run, i)
      ensures Matches(run + [c]) == Matches(run) + if Taken(c.best, c.dist) then [Copy(c.dist, c.best)] else []
      ensures Chosen(run + [c]) <==> Chosen(run) && c.q == Reached(run) && c.q + 12 < |input| && BestOfFour(run, c)
      ensures Reached(run + [c]) == After(c)
    {
      hide HashesTo, BestOfFour, After;
      assert (run + [c])[..|run|] == run;
    }

    // Try four earlier places one after another.
    method TryFour(t1: int, t2: int, t3: int, t4: int, q: nat, most: nat) returns (best: int, dist: int)
      requires -1 <= t1 < q && -1 <= t2 < q && -1 <= t3 < q && -1 <= t4 < q && q + most <= |input|
      ensures IsMatch(input, q, best, dist, most, window)
      ensures forall t :: t == t1 || t == t2 || t == t3 || t == t4 ==> NoLonger(input, t, q, most, window, best)
      ensures dist == 0 || dist == q - t1 || dist == q - t2 || dist == q - t3 || dist == q - t4
    {
      hide Repeats, Worthwhile, NoLonger, Longest;
      best, dist := Try(t1, q, most, 2, 0, false);
      ghost var b1 := best;
      best, dist := Try(t2, q, most, best, dist, true);
      ghost var b2 := best;
      best, dist := Try(t3, q, most, best, dist, true);
      ghost var b3 := best;
      best, dist := Try(t4, q, most, best, dist, true);
      StillNoLonger(input, t1, q, most, window, b1, best);
      StillNoLonger(input, t2, q, most, window, b2, best);
      StillNoLonger(input, t3, q, most, window, b3, best);
    }

    // The best of four earlier places with the same hashes as the bytes at q.
    method FindMatch(q: nat, ghost run: seq<Choice>) returns (best: int, dist: int)
      requires Table(q) && Remembers(run) && q < |input|
      modifies chash
      ensures Table(q + 1) && IsMatch(input, q, best, dist, Most(q), window)
      ensures BestOfFour(run, Choice(q, best, dist)) && Remembers(run + [Choice(q, best, dist)])
    {
      hide Repeats, Worthwhile, NoLonger, Longest, IsMatch, HashesTo, Matches, Chosen, Reached, Seen, Most,
           BestOfFour;
      FourHashes(q);
      MostIs(q);
      var most := if q + 0x1_0000 > |input| then |input| - q else 0x1_0000;
      var h1, h2 := hashes(q, 0) % chash.Length, hashes(q, 1) % chash.Length;
      var h3, h4 := hashes(q, 2) % chash.Length, hashes(q, 3) % chash.Length;
      best, dist := TryFour(chash[h1], chash[h2], chash[h3], chash[h4], q, most);
      SeenNext(run, Choice(q, best, dist));
      IsBestOfFour(run, q, best, dist, chash[h1], chash[h2], chash[h3], chash[h4]);
      Note(q, h1, h2, h3, h4);
    }

    // Lead all four hashes to q.
    method Note(q: nat, h1: nat, h2: nat, h3: nat, h4: nat)
      requires h1 < chash.Length && h2 < chash.Length && h3 < chash.Length && h4 < chash.Length
      modifies chash
      ensures forall i :: 0 <= i < chash.Length ==>
        chash[i] == if i == h1 || i == h2 || i == h3 || i == h4 then q else old(chash[i])
    {
      chash[h1], chash[h2], chash[h3], chash[h4] := q, q, q, q;
    }

    lemma MostIs(q: int)
      ensures Most(q) == if q + 0x1_0000 > |input| then |input| - q else 0x1_0000
    {
    }

    lemma IsBestOfFour(run: seq<Choice>, q: int, best: int, dist: int, t1: int, t2: int, t3: int, t4: int)
      requires chash.Length > 0 && IsMatch(input, q, best, dist, Most(q), window)
      requires t1 == SeenBy(run, q, 0) && t2 == SeenBy(run, q, 1) && t3 == SeenBy(run, q, 2) && t4 == SeenBy(run, q, 3)
      requires forall t :: t == t1 || t == t2 || t == t3 || t == t4 ==> NoLonger(input, t, q, Most(q), window, best)
      requires dist == 0 || dist == q - t1 || dist == q - t2 || dist == q - t3 || dist == q - t4
      ensures BestOfFour(run, Choice(q, best, dist))
    {
      hide SeenBy, IsMatch, NoLonger, Most;
      forall k | 0 <= k < 4 ensures NoLonger(input, SeenBy(run, q, k), q, Most(q), window, best) {
        assert k == 0 || k == 1 || k == 2 || k == 3;
      }
    }

    // Compress all of the input but the literals still pending at its end.
    method CompressChunk() returns (pending: nat, adler: nat, ghost run: seq<Choice>)
      requires Wrote(0) && Table(0)
      modifies this`out, this`pieces, chash
      ensures pending <= |input| && Wrote(|input| - pending) && adler == Checksum(1, input) < LIMIT
      ensures Chosen(run) && Reached(run) + 12 >= |input| && Copies(pieces) == old(Copies(pieces)) + Matches(run)
    {
      hide WroteBy, IsMatch, Checksum, Seen, HashesTo, BestOfFour, Chosen, Reached, Matches, Copies, NoLonger;
      run := [];
      NothingChosen();
      InInput(0);
      var q, lit := 0, 0;
      while q < |input| && q + 12 < |input|
        invariant 0 <= lit <= q <= |input| && Wrote(lit) && Table(q)
        invariant Chosen(run) && q == Reached(run) && Remembers(run)
        invariant Copies(pieces) == old(Copies(pieces)) + Matches(run)
        decreases |input| - q
      {
        var best, dist := FindMatch(q, run);
        SeenNext(run, Choice(q, best, dist));
        run := run + [Choice(q, best, dist)];
        q, lit := OutMatch(lit, q, best, dist);
      }
      if q < |input| {
        q := |input|;
      }
      assert input[..q] == input;
      pending := q - lit;
      adler := Adler32(1, input[..q]);
    }

    // The stream is the codes of the pieces between its header and its trailer.
    ghost predicate IsStream()
      reads this`out, this`pieces
    {
      AllCoded(pieces) && out == Header(|input|, window) + Codes(pieces) + Trailer(Checksum(1, input))
    }

    lemma NothingChosen()
      requires chash.Length > 0
      ensures Chosen([]) && Reached([]) == 0 && Matches([]) == [] && forall i :: Seen([], i) == -1
    {
    }

    // Compress the input. What comes out is read back as the input, whatever the hash functions
    // are and whatever follows it in memory.
    method Compress() returns (ghost run: seq<Choice>)
      requires out == [] && pieces == [] && Table(0) && |input| < 0x8000_0000
      modifies this`out, this`pieces, chash
      ensures forall rest :: Decode(out + rest) == Some(input)
      ensures IsStream() && Copies(pieces) == Matches(run) && Chosen(run) && Reached(run) + 12 >= |input|
    {
      hide WroteBy, Table, Decode, Checksum, Chosen, Matches, Reached, Copies, Seen, IsStream;
      NoCopies();
      Put(0x57); Put(0xbc);
      Put2(0);
      Put4(0);
      Put4(|input|);
      Put4(window);
      Started();
      var literals, adler;
      literals, adler, run := CompressChunk();
      OutLiterals(|input| - literals, literals);
      ghost var before := out;
      Put2(0x05fa);
      Put4(adler);
      Finished(before, adler, []);
      forall rest ensures Decode(out + rest) == Some(input) {
        Finished(before, adler, rest);
      }
    }

    lemma NoCopies()
      ensures Copies([]) == []
    {
    }

    lemma Started()
      requires |input| < 0x8000_0000 && pieces == []
      requires out == [0x57] + [0xbc] + Out2(0) + Out4(0) + Out4(|input|) + Out4(window)
      ensures Wrote(0)
    {
      hide Out2, Out4;
      assert out == Header(|input|, window) + Codes([]);
    }

    lemma Finished(before: seq<Byte>, adler: int, rest: seq<Byte>)
      requires WroteBy(pieces, before, |input|) && adler == Checksum(1, input) && 0 <= adler < LIMIT
      requires out == before + Out2(0x05fa) + Out4(adler)
      ensures Decode(out + rest) == Some(input) && IsStream()
    {
      hide Out2, Out4, Decode, Checksum, Codes, Play, Playable, AllCoded, Header;
      assert input[..|input|] == input;
      StreamIsRead(pieces, window, rest);
      assert out == before + Trailer(adler);
    }
  }
}
