// Decompression in place: matches copy from the output buffer into itself, byte by byte, so a
// match may run over bytes that it has just written.
module Decompressor {
  import opened Common
  import opened Adler
  import opened Lz

  // What one piece does to the output, up to the position `end`. Too long a piece, or one that
  // reaches back too far, moves the end beyond the announced length instead.
  twostate predicate Written(output: array<Byte>, dout: nat, p: Piece, end: nat, olen: nat)
    requires dout <= olen <= output.Length
    reads output
  {
    if dout + Length(p) <= olen && Reaches(p, dout) then
      end == dout + Length(p) && output[..end] == Write(old(output[..dout]), p)
    else end > olen
  }

  // Copy `length` bytes from `data` on to the end of the output.
  method Match(output: array<Byte>, dout: nat, data: int, length: nat, olen: nat) returns (end: nat)
    requires dout <= olen <= output.Length && data < dout
    modifies output
    ensures Written(output, dout, Copy(dout - data, length), end, olen)
    ensures output[olen..] == old(output[olen..])
  {
    if dout + length > olen {
      return dout + length;
    }
    if data < 0 {
      return olen + 1;
    }
    end := CopyBytes(output, dout, data, length);
  }

  method CopyBytes(output: array<Byte>, dout: nat, data: nat, length: nat) returns (end: nat)
    requires data < dout && dout + length <= output.Length
    modifies output
    ensures end == dout + length
    ensures output[..end] == old(output[..dout]) + Repeated(old(output[..dout]), dout - data, length)
    ensures output[end..] == old(output[end..])
  {
    hide Repeated, Wrap;
    ghost var was, dist := output[..dout], dout - data;
    end := dout;
    var from := data;
    var left := length;
    while left > 0
      invariant 0 <= left <= length && end == dout + (length - left) && from == end - dist
      invariant output[..end] == was + Repeated(was, dist, length - left)
      invariant output[end..] == old(output[..])[end..]
    {
      RepeatedNext(was, dist, length - left);
      ghost var before := output[..];
      var b := output[from];
      assert b == output[..end][from];
      output[end] := b;
      assert output[..] == before[end := b];
      assert output[..end + 1] == before[..end] + [b];
      end, from, left := end + 1, from + 1, left - 1;
    }
  }

  // The next byte of a repeat is the one `dist` places back, new or old.
  lemma RepeatedNext(was: seq<Byte>, dist: int, n: nat)
    requires 0 < dist <= |was|
    ensures var out := was + Repeated(was, dist, n);
      Repeated(was, dist, n + 1) == Repeated(was, dist, n) + [out[|out| - dist]]
  {
    if n >= dist { assert Wrap(n, dist) == Wrap(n - dist, dist); }
  }

  // Copy bytes of the stream to the end of the output.
  method Lit(output: array<Byte>, dout: nat, s: seq<Byte>, data: nat, length: nat, olen: nat) returns (end: nat)
    requires dout <= olen <= output.Length
    modifies output
    ensures Written(output, dout, Literal(Slice(s, data, length)), end, olen)
    ensures output[olen..] == old(output[olen..])
  {
    end := dout + length;
    if end > olen {
      return;
    }
    forall k | dout <= k < end { output[k] := At(s, data + (k - dout)); }
    assert output[..end] == old(output[..dout]) + Slice(s, data, length);
  }

  // Read one piece of the stream; `next` is `i` if there is none.
  method Token(output: array<Byte>, dout: nat, s: seq<Byte>, i: nat, olen: nat) returns (next: nat, end: nat)
    requires dout <= olen <= output.Length
    modifies output
    ensures var r := Parse(s, i);
      if r.More? then next == r.next && Written(output, dout, r.piece, end, olen)
      else next == i && end == dout && output[..] == old(output[..])
    ensures output[olen..] == old(output[olen..])
  {
    hide In2, In3, Slice, At, Repeated, Written;
    var t := At(s, i);
    end := dout;
    next := i;
    if t >= 0x20 {
      if t >= 0x80 {
        end := Match(output, dout, dout - At(s, i + 1) - 1, t - 0x80 + 1, olen);
        next := i + 2;
      } else if t >= 0x40 {
        end := Match(output, dout, dout - (In2(s, i) - 0x4000 + 1), At(s, i + 2) + 1, olen);
        next := i + 3;
      } else {
        end := Lit(output, dout, s, i + 1, t - 0x20 + 1, olen);
        next := i + 1 + (t - 0x20 + 1);
      }
    } else {
      if t >= 0x18 {
        end := Match(output, dout, dout - (In3(s, i) - 0x18_0000 + 1), At(s, i + 3) + 1, olen);
        next := i + 4;
      } else if t >= 0x10 {
        end := Match(output, dout, dout - (In3(s, i) - 0x10_0000 + 1), In2(s, i + 3) + 1, olen);
        next := i + 5;
      } else if t >= 0x08 {
        end := Lit(output, dout, s, i + 2, In2(s, i) - 0x0800 + 1, olen);
        next := i + 2 + (In2(s, i) - 0x0800 + 1);
      } else if t == 0x07 {
        end := Lit(output, dout, s, i + 3, In2(s, i + 1) + 1, olen);
        next := i + 3 + (In2(s, i + 1) + 1);
      } else if t == 0x06 {
        end := Match(output, dout, dout - (In3(s, i + 1) + 1), At(s, i + 4) + 1, olen);
        next := i + 5;
      } else if t == 0x04 {
        end := Match(output, dout, dout - (In3(s, i + 1) + 1), In2(s, i + 4) + 1, olen);
        next := i + 6;
      }
    }
  }

  // Decompress a stream into a buffer of the length it announces; zero means that it is refused.
  method Decompress(output: array<Byte>, s: seq<Byte>) returns (r: nat)
    requires In4(s, 8) <= output.Length
    modifies output
    ensures var d := Decode(s);
      if d.Some? then r == |d.value| <= output.Length && output[..r] == d.value else r == 0
    ensures output[In4(s, 8)..] == old(output[In4(s, 8)..])
  {
    hide In4, Parse, Expand, Checksum, Write, Reaches;
    if In4(s, 0) != SIGNATURE {
      return 0;
    }
    if In4(s, 4) != 0 {
      return 0;
    }
    var olen: nat := In4(s, 8);
    var i, dout := 16, 0;
    while true
      invariant dout <= olen <= output.Length && i >= 0
      invariant Expand(s, i, output[..dout], olen) == Decode(s)
      invariant output[olen..] == old(output[olen..])
      decreases olen - dout
    {
      ghost var out := output[..dout];
      ExpandStep(s, i, out, olen);
      var next, end := Token(output, dout, s, i, olen);
      if next == i {
        assert output[..dout] == out;
        if At(s, i) == 0x05 && At(s, i + 1) == 0xfa {
          if dout != olen {
            return 0;
          }
          var sum := Adler32(1, output[..olen]);
          if sum != In4(s, i + 2) {
            return 0;
          }
          return olen;
        } else {
          return 0;
        }
      }
      if end > olen {
        return 0;
      }
      i, dout := next, end;
    }
  }

  // One round of reading.
  lemma ExpandStep(s: seq<Byte>, i: int, out: seq<Byte>, olen: nat)
    requires |out| <= olen
    ensures var r := Parse(s, i);
      Expand(s, i, out, olen) ==
        if r.End? then
          if At(s, i) == 0x05 && At(s, i + 1) == 0xfa && |out| == olen && Checksum(1, out) == In4(s, i + 2) then
            Some(out)
          else None
        else if |out| + Length(r.piece) > olen || !Reaches(r.piece, |out|) then None
        else Expand(s, r.next, Write(out, r.piece), olen)
    ensures Parse(s, i).More? ==> Length(Parse(s, i).piece) > 0 && Parse(s, i).next > i
  {
  }
}
