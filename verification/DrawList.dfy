// The draw list: indices are reserved under a current command, and settings changes decide
// lazily whether to open a new command, restyle an unused one or fall back to the previous one.
module DrawList {
  import opened Common
  import opened DrawTrace

  predicate Ordered(c: Clip) { c.x <= c.z && c.y <= c.w }

  function MaxReal(a: real, b: real): real { if a < b then b else a }

  function MinReal(a: real, b: real): real { if a < b then a else b }

  predicate Covers(c: Clip, px: real, py: real) { c.x <= px < c.z && c.y <= py < c.w }

  // The rectangle that pushing `cr` on top of `current` leaves in force: what both cover, or what
  // `cr` covers, and in either case not inside out.
  function PushedClip(cr: Clip, current: Clip, intersect: bool): (r: Clip)
    ensures Ordered(r) && (!intersect && Ordered(cr) ==> r == cr)
    ensures forall px, py :: Covers(r, px, py) <==> Covers(cr, px, py) && (intersect ==> Covers(current, px, py))
    ensures r.x >= cr.x && r.y >= cr.y && (intersect ==> r.x >= current.x && r.y >= current.y)
  {
    var c := if intersect then
        Clip(MaxReal(cr.x, current.x), MaxReal(cr.y, current.y), MinReal(cr.z, current.z), MinReal(cr.w, current.w))
      else cr;
    Clip(c.x, c.y, MaxReal(c.x, c.z), MaxReal(c.y, c.w))
  }

  // What taking up the settings in force does to commands: the last one, if unused, gets
  // them, and one is added only where there is none or the last is used under others.
  ghost predicate TakenUp(before: seq<Cmd>, cmds: seq<Cmd>, h: Header) {
    && cmds != [] && Last(cmds).callback.None?
    && if before == [] then |cmds| == 1 && !Used(cmds[0])
       else
         && |cmds| == |before| + (if Used(Last(before)) && Last(before).header != h then 1 else 0)
         && (forall i :: 0 <= i < |before| - 1 ==> cmds[i] == before[i])
         && if Used(Last(before)) then cmds[|before|-1] == Last(before) && (|cmds| > |before| ==> !Used(Last(cmds)))
            else !Used(Last(cmds))
  }

  // What is left of indices in 16 bits.
  function Narrow(ix: seq<int>): (r: seq<int>)
    ensures |r| == |ix| && forall i :: 0 <= i < |ix| ==> r[i] == ix[i] % 65536
  {
    seq(|ix|, i requires 0 <= i < |ix| => ix[i] % 65536)
  }

  lemma NarrowJoin(a: seq<int>, b: seq<int>)
    ensures Narrow(a + b) == Narrow(a) + Narrow(b)
  {
  }

  const NO_HEADER: Header := Header(Clip(0.0, 0.0, 0.0, 0.0), 0, 0)

  class DrawList {
    const fullscreen: Clip
    var allowVtxOffset: bool
    var cmdBuffer: seq<Cmd>
    var idxBuffer: seq<int>
    var vtxCount: int        // size of the vertex buffer
    var vtxWrite: int        // where the next vertex goes
    var idxWrite: int        // where the next index goes
    var vtxCurrentIdx: int   // number the next vertex gets
    var header: Header
    var clipStack: seq<Clip>
    var texStack: seq<int>

    ghost var log: seq<Tag>

    // Clip rectangles are not inside out, and the write positions lie in the buffers.
    ghost predicate InBounds()
      reads this
    {
      && Ordered(fullscreen) && Ordered(header.clip)
      && (forall i :: 0 <= i < |clipStack| ==> Ordered(clipStack[i]))
      && 0 <= header.vtxOffset && 0 <= vtxCurrentIdx && header.vtxOffset + vtxCurrentIdx == vtxWrite <= vtxCount
      && 0 <= idxWrite <= |idxBuffer|
    }

    // The buffers agree with the record.
    ghost predicate Consistent()
      reads this
    {
      Records(cmdBuffer, |idxBuffer|, log) && InBounds()
    }

    lemma WritesInRange()
      requires Consistent()
      ensures 0 <= idxWrite <= |idxBuffer| && 0 <= vtxCurrentIdx <= vtxWrite <= vtxCount
    {
      hide Records;
    }

    // And the list is open for drawing.
    ghost predicate Recording()
      reads this
    {
      Consistent() && cmdBuffer != [] && Last(cmdBuffer).callback.None?
    }

    ghost predicate Valid()
      reads this
    {
      Recording() && Last(cmdBuffer).header == header
    }

    // Everything reserved has been written.
    ghost predicate Settled()
      reads this
    {
      vtxWrite == vtxCount && idxWrite == |idxBuffer|
    }

    // No two neighbouring commands could have been one, now or when drawing goes on, and only the
    // last may be unused.
    ghost predicate Batched()
      reads this
    {
      Tight(cmdBuffer) && OffsetsUpTo(cmdBuffer, header.vtxOffset)
    }

    // So no buffer of fewer commands stands for the same record, an unused last one aside.
    lemma BatchedIsFewest(others: seq<Cmd>)
      requires Consistent() && Batched() && Records(others, |idxBuffer|, log)
      ensures |cmdBuffer| <= |others| + if cmdBuffer != [] && !Used(Last(cmdBuffer)) then 1 else 0
    {
      hide Records, Maximal, Compact;
      FewestCommands(cmdBuffer, others, |idxBuffer|, log);
    }

    constructor (fullscreen: Clip)
      requires Ordered(fullscreen)
      ensures Valid() && Settled() && Batched() && !allowVtxOffset
      ensures log == [] && idxBuffer == [] && header == NO_HEADER && cmdBuffer == [Cmd(NO_HEADER, 0, 0, None)]
    {
      this.fullscreen := fullscreen;
      allowVtxOffset := false;
      idxBuffer, vtxCount, vtxWrite, idxWrite, vtxCurrentIdx := [], 0, 0, 0, 0;
      header, clipStack, texStack, log := NO_HEADER, [], [], [];
      cmdBuffer := [Cmd(NO_HEADER, 0, 0, None)];
      new;
      NothingRecorded([]);
      AppendEmpty([], 0, [], NO_HEADER);
      assert [] + [Cmd(NO_HEADER, 0, 0, None)] == cmdBuffer;
    }

    // Open a new command under the current settings.
    method AddDrawCmd()
      requires Consistent()
      modifies this`cmdBuffer
      ensures Valid()
      ensures cmdBuffer == old(cmdBuffer) + [Cmd(header, |idxBuffer|, 0, None)]
      ensures old(OffsetsUpTo(cmdBuffer, header.vtxOffset)) ==> OffsetsUpTo(cmdBuffer, header.vtxOffset)
      ensures old(Maximal(cmdBuffer)) && (old(cmdBuffer) == [] || Differ(Last(old(cmdBuffer)), Last(cmdBuffer))) ==>
        Maximal(cmdBuffer)
      ensures old(Compact(cmdBuffer)) && (old(cmdBuffer) == [] || Used(Last(old(cmdBuffer)))) ==> Compact(cmdBuffer)
    {
      hide Records, Maximal, Differ;
      assert header.clip.x <= header.clip.z && header.clip.y <= header.clip.w;
      AppendEmpty(cmdBuffer, |idxBuffer|, log, header);
      if Maximal(cmdBuffer) && (cmdBuffer == [] || Differ(Last(cmdBuffer), Cmd(header, |idxBuffer|, 0, None))) {
        MaximalAppend(cmdBuffer, Cmd(header, |idxBuffer|, 0, None));
      }
      cmdBuffer := cmdBuffer + [Cmd(header, |idxBuffer|, 0, None)];
    }

    // Can the command before an unused last one simply be continued?
    predicate CanFallBack()
      requires cmdBuffer != []
      reads this
    {
      && Last(cmdBuffer).elemCount == 0 && |cmdBuffer| > 1
      && cmdBuffer[|cmdBuffer|-2].header == header
      && cmdBuffer[|cmdBuffer|-2].idxOffset + cmdBuffer[|cmdBuffer|-2].elemCount == Last(cmdBuffer).idxOffset
      && cmdBuffer[|cmdBuffer|-2].callback.None?
    }

    // Give the last command, unused and not continuing the one before, the current settings.
    lemma RestyleKeeps(c: Cmd)
      requires Recording() && c == Last(cmdBuffer).(header := header)
      requires Last(cmdBuffer).elemCount == 0 || Last(cmdBuffer).header == header
      ensures Records(cmdBuffer[|cmdBuffer|-1 := c], |idxBuffer|, log)
      ensures OffsetsUpTo(cmdBuffer, header.vtxOffset) ==> OffsetsUpTo(cmdBuffer[|cmdBuffer|-1 := c], header.vtxOffset)
      ensures Maximal(cmdBuffer) && !CanFallBack() ==> Maximal(cmdBuffer[|cmdBuffer|-1 := c])
      ensures Compact(cmdBuffer) ==> Compact(cmdBuffer[|cmdBuffer|-1 := c])
    {
      hide Records, Maximal;
      if Last(cmdBuffer).elemCount == 0 {
        RestyleEmpty(cmdBuffer, |idxBuffer|, log, header);
        if |cmdBuffer| > 1 { NeighboursAdjoin(cmdBuffer, |idxBuffer|, log); }
        if Maximal(cmdBuffer) && !CanFallBack() { MaximalReplace(cmdBuffer, c); }
      } else {
        assert cmdBuffer[|cmdBuffer|-1 := c] == cmdBuffer;
      }
    }

    lemma FallBackKeeps()
      requires Recording() && CanFallBack()
      ensures var front := cmdBuffer[..|cmdBuffer|-1];
        && Records(front, |idxBuffer|, log)
        && (OffsetsUpTo(cmdBuffer, header.vtxOffset) ==> OffsetsUpTo(front, header.vtxOffset))
        && (Maximal(cmdBuffer) ==> Maximal(front)) && (Compact(cmdBuffer) ==> Compact(front))
    {
      hide Records;
      PopEmpty(cmdBuffer, |idxBuffer|, log);
    }

    method OnChangedClipRect()
      requires Recording() && Last(cmdBuffer).header.(clip := header.clip) == header
      modifies this`cmdBuffer
      ensures Valid() && (old(Batched()) ==> Batched())
    {
      hide Records, Maximal, OffsetsUpTo;
      var curr := Last(cmdBuffer);
      if curr.elemCount != 0 && curr.header.clip != header.clip {
        AddDrawCmd();
        return;
      }
      if CanFallBack() {
        FallBackKeeps();
        cmdBuffer := cmdBuffer[..|cmdBuffer|-1];
        return;
      }
      RestyleKeeps(curr.(header := curr.header.(clip := header.clip)));
      cmdBuffer := cmdBuffer[|cmdBuffer|-1 := curr.(header := curr.header.(clip := header.clip))];
    }

    method OnChangedTexture()
      requires Consistent() && cmdBuffer != []
      requires Last(cmdBuffer).callback.None? ==> Last(cmdBuffer).header.(tex := header.tex) == header
      modifies this`cmdBuffer
      ensures Consistent()
      ensures Last(old(cmdBuffer)).callback.None? ==> Valid() && (old(Batched()) ==> Batched())
      ensures Last(old(cmdBuffer)).callback.Some? ==> cmdBuffer == old(cmdBuffer)
    {
      hide Records, Maximal, OffsetsUpTo;
      CallbackDrawsNothing(cmdBuffer, |idxBuffer|, log);
      var curr := Last(cmdBuffer);
      if curr.elemCount != 0 && curr.header.tex != header.tex {
        AddDrawCmd();
        return;
      }
      if curr.callback.Some? {
        return;
      }
      if CanFallBack() {
        FallBackKeeps();
        cmdBuffer := cmdBuffer[..|cmdBuffer|-1];
        return;
      }
      RestyleKeeps(curr.(header := curr.header.(tex := header.tex)));
      cmdBuffer := cmdBuffer[|cmdBuffer|-1 := curr.(header := curr.header.(tex := header.tex))];
    }

    // The vertex offset has moved on: number vertices from zero again.
    method OnChangedVtxOffset()
      requires Records(cmdBuffer, |idxBuffer|, log) && cmdBuffer != [] && Last(cmdBuffer).callback.None?
      requires Ordered(fullscreen) && Ordered(header.clip)
      requires forall i :: 0 <= i < |clipStack| ==> Ordered(clipStack[i])
      requires Last(cmdBuffer).header.(vtxOffset := header.vtxOffset) == header
      requires header.vtxOffset == vtxCount == vtxWrite && 0 <= vtxCount && 0 <= idxWrite <= |idxBuffer|
      modifies this`cmdBuffer, this`vtxCurrentIdx
      ensures Valid() && vtxCurrentIdx == 0
      ensures old(Tight(cmdBuffer)) && OffsetsUpTo(old(cmdBuffer), header.vtxOffset - 1) ==>
        Batched()
    {
      hide Records, Maximal;
      vtxCurrentIdx := 0;
      var curr := Last(cmdBuffer);
      if curr.elemCount != 0 {
        AddDrawCmd();
        return;
      }
      RestyleKeeps(curr.(header := curr.header.(vtxOffset := header.vtxOffset)));
      cmdBuffer := cmdBuffer[|cmdBuffer|-1 := curr.(header := curr.header.(vtxOffset := header.vtxOffset))];
    }

    method PushClipRect(cr: Clip, intersect: bool)
      requires Valid()
      modifies this`clipStack, this`header, this`cmdBuffer
      ensures Valid() && (old(Batched()) ==> Batched())
      ensures header == old(header).(clip := PushedClip(cr, old(header.clip), intersect))
      ensures clipStack == old(clipStack) + [header.clip]
    {
      hide Records, Maximal, OffsetsUpTo;
      var c := PushedClip(cr, header.clip, intersect);
      clipStack := clipStack + [c];
      header := header.(clip := c);
      OnChangedClipRect();
    }

    method PopClipRect()
      requires Valid() && clipStack != []
      modifies this`clipStack, this`header, this`cmdBuffer
      ensures Valid() && (old(Batched()) ==> Batched())
      ensures clipStack == old(clipStack)[..|old(clipStack)|-1]
      ensures header == old(header).(clip := if clipStack == [] then fullscreen else Last(clipStack))
    {
      hide Records, Maximal, OffsetsUpTo;
      clipStack := clipStack[..|clipStack|-1];
      header := header.(clip := if clipStack == [] then fullscreen else Last(clipStack));
      OnChangedClipRect();
    }

    method PushTexture(tex: int)
      requires Valid()
      modifies this`texStack, this`header, this`cmdBuffer
      ensures Valid() && (old(Batched()) ==> Batched())
      ensures header == old(header).(tex := tex) && texStack == old(texStack) + [tex]
    {
      hide Records, Maximal, OffsetsUpTo;
      texStack := texStack + [tex];
      header := header.(tex := tex);
      OnChangedTexture();
    }

    method PopTexture()
      requires Valid() && texStack != []
      modifies this`texStack, this`header, this`cmdBuffer
      ensures Valid() && (old(Batched()) ==> Batched())
      ensures texStack == old(texStack)[..|old(texStack)|-1]
      ensures header == old(header).(tex := if texStack == [] then 0 else Last(texStack))
    {
      hide Records, Maximal, OffsetsUpTo;
      texStack := texStack[..|texStack|-1];
      header := header.(tex := if texStack == [] then 0 else Last(texStack));
      OnChangedTexture();
    }

    method SetTexture(tex: int)
      requires Valid() && (header.tex == tex || texStack != [])
      modifies this`texStack, this`header, this`cmdBuffer
      ensures Valid() && (old(Batched()) ==> Batched())
      ensures header == old(header).(tex := tex)
      ensures texStack == if old(header.tex) == tex then old(texStack) else old(texStack)[|old(texStack)|-1 := tex]
    {
      hide Records, Maximal, OffsetsUpTo;
      if header.tex == tex {
        return;
      }
      header := header.(tex := tex);
      texStack := texStack[|texStack|-1 := tex];
      OnChangedTexture();
    }

    // Record a callback between the indices drawn so far and those to come.
    method AddCallback(cb: Callback)
      requires Valid()
      modifies this`cmdBuffer, this`log
      ensures Valid() && log == old(log) + [Marker(cb)] && (old(Batched()) ==> Batched())
    {
      hide Records, Maximal;
      ghost var cmds := cmdBuffer;
      if Last(cmdBuffer).elemCount != 0 {
        AddDrawCmd();
        assert cmdBuffer[..|cmdBuffer|-1] == cmds;
      }
      if cmdBuffer == cmds && Maximal(cmds) { MaximalFront(cmds); }
      MarkCallback(cb);
    }

    // Turn the last command, under which nothing is drawn, into the callback.
    method MarkCallback(cb: Callback)
      requires Valid() && Last(cmdBuffer).elemCount == 0
      modifies this`cmdBuffer, this`log
      ensures Valid() && log == old(log) + [Marker(cb)]
      ensures
        old(Maximal(cmdBuffer[..|cmdBuffer|-1]) && Compact(cmdBuffer) && OffsetsUpTo(cmdBuffer, header.vtxOffset)) ==>
          Batched()
    {
      hide Records, Maximal;
      var curr := Last(cmdBuffer);
      MakeCallback(cmdBuffer, |idxBuffer|, log, cb);
      if Maximal(cmdBuffer[..|cmdBuffer|-1]) { CallbackMaximal(cmdBuffer, cb, Cmd(header, |idxBuffer|, 0, None)); }
      cmdBuffer := cmdBuffer[|cmdBuffer|-1 := curr.(callback := Some(cb))];
      log := log + [Marker(cb)];
      AddDrawCmd();
    }

    // Room for more vertices and indices, the latter under the current command. When 16-bit
    // numbers would run out and offsets are allowed, vertices are numbered afresh first.
    method PrimReserve(idxs: nat, vtxs: nat, fill: seq<int>)
      requires Valid() && Settled() && |fill| == idxs
      modifies this`cmdBuffer, this`idxBuffer, this`vtxCount, this`vtxWrite, this`idxWrite, this`vtxCurrentIdx,
        this`header, this`log
      ensures Valid()
      ensures var anew := allowVtxOffset && old(vtxCurrentIdx) + vtxs >= 65536;
        && header == (if anew then old(header).(vtxOffset := old(vtxCount)) else old(header))
        && vtxCurrentIdx == (if anew then 0 else old(vtxCurrentIdx))
      ensures log == old(log) + Repeat(header, idxs)
      ensures idxBuffer == old(idxBuffer) + fill && vtxCount == old(vtxCount) + vtxs
      ensures vtxWrite == old(vtxCount) && idxWrite == |old(idxBuffer)|
      ensures old(Batched()) && vtxs < 65536 ==> Batched()
    {
      hide Records, Maximal, Repeat;
      if vtxCurrentIdx + vtxs >= 65536 && allowVtxOffset {
        header := header.(vtxOffset := vtxCount);
        OnChangedVtxOffset();
      }
      var c := Last(cmdBuffer);
      Extend(cmdBuffer, |idxBuffer|, log, idxs);
      ExtendKeepsMaximal(cmdBuffer, c.(elemCount := c.elemCount + idxs));
      cmdBuffer := cmdBuffer[|cmdBuffer|-1 := c.(elemCount := c.elemCount + idxs)];
      log := log + Repeat(header, idxs);
      vtxWrite := vtxCount;
      vtxCount := vtxCount + vtxs;
      idxWrite := |idxBuffer|;
      idxBuffer := idxBuffer + fill;
    }

    // Give back unused room from the end of the last reservation.
    method PrimUnreserve(idxs: nat, vtxs: nat)
      requires Valid() && idxs <= Last(cmdBuffer).elemCount
      requires idxs <= |idxBuffer| - idxWrite && vtxs <= vtxCount - vtxWrite
      modifies this`cmdBuffer, this`idxBuffer, this`vtxCount, this`log
      ensures Valid() && (old(Batched()) ==> Batched())
      ensures idxs <= |old(log)| && log == old(log)[..|old(log)|-idxs]
      ensures idxBuffer == old(idxBuffer)[..|old(idxBuffer)|-idxs] && vtxCount == old(vtxCount) - vtxs
    {
      hide Records, Maximal;
      var c := Last(cmdBuffer);
      Shrink(cmdBuffer, |idxBuffer|, log, idxs);
      ExtendKeepsMaximal(cmdBuffer, c.(elemCount := c.elemCount - idxs));
      cmdBuffer := cmdBuffer[|cmdBuffer|-1 := c.(elemCount := c.elemCount - idxs)];
      log := log[..|log|-idxs];
      vtxCount := vtxCount - vtxs;
      idxBuffer := idxBuffer[..|idxBuffer|-idxs];
    }

    // Write the next vertex; only its number matters here.
    method PrimWriteVtx()
      requires Valid() && vtxWrite < vtxCount
      modifies this`vtxWrite, this`vtxCurrentIdx
      ensures Valid() && vtxWrite == old(vtxWrite) + 1 && vtxCurrentIdx == old(vtxCurrentIdx) + 1
    {
      hide Records;
      vtxWrite := vtxWrite + 1;
      vtxCurrentIdx := vtxCurrentIdx + 1;
    }

    method PrimWriteIdx(idx: int)
      requires Valid() && idxWrite < |idxBuffer|
      modifies this`idxWrite, this`idxBuffer
      ensures Valid() && idxWrite == old(idxWrite) + 1 && idxBuffer == old(idxBuffer)[old(idxWrite) := idx]
    {
      hide Records;
      idxBuffer := idxBuffer[idxWrite := idx];
      idxWrite := idxWrite + 1;
    }

    // Write several indices, each cut to 16 bits.
    method PrimWriteIdxs(ix: seq<int>)
      requires Valid() && idxWrite + |ix| <= |idxBuffer|
      modifies this`idxWrite, this`idxBuffer
      ensures Valid() && |idxBuffer| == |old(idxBuffer)| && idxWrite == old(idxWrite) + |ix|
      ensures idxBuffer[..idxWrite] == old(idxBuffer[..idxWrite]) + Narrow(ix)
    {
      hide Records;
      idxBuffer := idxBuffer[..idxWrite] + Narrow(ix) + idxBuffer[idxWrite + |ix|..];
      idxWrite := idxWrite + |ix|;
    }

    // Write n vertices; their number, too, is added in 16 bits.
    method PrimWriteVtxs(n: nat)
      requires Valid() && vtxWrite + n <= vtxCount && n < 65536
      modifies this`vtxWrite, this`vtxCurrentIdx
      ensures Valid() && vtxWrite == old(vtxWrite) + n && vtxCurrentIdx == old(vtxCurrentIdx) + n
    {
      hide Records;
      vtxWrite := vtxWrite + n;
      vtxCurrentIdx := vtxCurrentIdx + n % 65536;
    }

    // Join the last two commands when they turn out alike.
    method TryMergeDrawCmds()
      requires Valid() && |cmdBuffer| >= 2
      modifies this`cmdBuffer
      ensures Valid() && (old(Batched()) ==> Batched())
      ensures var n, curr, prev := |old(cmdBuffer)|, Last(old(cmdBuffer)), old(cmdBuffer)[|old(cmdBuffer)|-2];
        if Differ(prev, curr) then cmdBuffer == old(cmdBuffer) else |cmdBuffer| == n - 1
    {
      hide Records, OffsetsUpTo;
      NeighboursAdjoin(cmdBuffer, |idxBuffer|, log);
      var curr, prev := Last(cmdBuffer), cmdBuffer[|cmdBuffer|-2];
      if curr.header == prev.header && prev.idxOffset + prev.elemCount == curr.idxOffset
         && curr.callback.None? && prev.callback.None? {
        Join(cmdBuffer, |idxBuffer|, log);
        cmdBuffer := cmdBuffer[..|cmdBuffer|-2] + [prev.(elemCount := prev.elemCount + curr.elemCount)];
      }
    }

    // Drop unused commands from the end; the list is then no longer open for drawing.
    method PopUnusedDrawCmd()
      requires Consistent()
      modifies this`cmdBuffer
      ensures Consistent()
      ensures cmdBuffer == [] || Last(cmdBuffer).elemCount != 0 || Last(cmdBuffer).callback.Some?
      ensures cmdBuffer <= old(cmdBuffer)
      ensures forall i :: |cmdBuffer| <= i < |old(cmdBuffer)| ==> !Used(old(cmdBuffer)[i])
    {
      hide Records;
      while cmdBuffer != []
        invariant Consistent() && cmdBuffer <= old(cmdBuffer)
        invariant forall i :: |cmdBuffer| <= i < |old(cmdBuffer)| ==> !Used(old(cmdBuffer)[i])
        decreases |cmdBuffer|
      {
        var curr := Last(cmdBuffer);
        if curr.elemCount != 0 || curr.callback.Some? {
          return;
        }
        PopEmpty(cmdBuffer, |idxBuffer|, log);
        cmdBuffer := cmdBuffer[..|cmdBuffer|-1];
      }
    }

    // Bring the last command into line with the current settings; one is added only behind a
    // command that is used under others.
    method TakeUpSettings()
      requires Recording()
      modifies this`cmdBuffer
      ensures Valid() && (old(Compact(cmdBuffer)) ==> Compact(cmdBuffer))
      ensures TakenUp(old(cmdBuffer), cmdBuffer, header)
      ensures old(Maximal(cmdBuffer)) && (Used(Last(old(cmdBuffer))) || old(!CanFallBack())) ==> Maximal(cmdBuffer)
    {
      hide Records, Maximal;
      var curr := Last(cmdBuffer);
      if curr.elemCount == 0 {
        RestyleKeeps(curr.(header := header));
        cmdBuffer := cmdBuffer[|cmdBuffer|-1 := curr.(header := header)];
      } else if curr.header != header {
        AddDrawCmd();
      }
    }

    // What a renderer makes of the buffers is exactly what was recorded, at any time.
    lemma RendersRecord()
      requires Consistent()
      ensures IndexCount(log) == |idxBuffer| && Render(cmdBuffer, idxBuffer) == Play(log, idxBuffer)
    {
      RenderIsRecord(cmdBuffer, log, |idxBuffer|, idxBuffer);
    }
  }
}
