// Draw commands, the trace a renderer reads off them, and the plain record of what was drawn.
module DrawTrace {
  import opened Common

  datatype Clip = Clip(x: real, y: real, z: real, w: real)

  // The settings that commands are grouped by.
  datatype Header = Header(clip: Clip, tex: int, vtxOffset: int)

  datatype Callback = Callback(fn: int, data: int)

  datatype Cmd = Cmd(header: Header, idxOffset: int, elemCount: int, callback: Option<Callback>)

  // What a renderer does, one index or callback at a time.
  datatype Event = Draw(header: Header, idx: int) | Call(callback: Callback)

  // The plain record: the settings in force when each index was reserved, and the callbacks.
  datatype Tag = Index(header: Header) | Marker(callback: Callback)

  function Repeat(h: Header, n: nat): (t: seq<Tag>)
    ensures |t| == n && forall i :: 0 <= i < n ==> t[i] == Index(h)
  {
    seq(n, i => Index(h))
  }

  function TagsOf(c: Cmd): seq<Tag>
    requires c.elemCount >= 0
  {
    if c.callback.Some? then [Marker(c.callback.value)] else Repeat(c.header, c.elemCount)
  }

  function Total(cmds: seq<Cmd>): int {
    if cmds == [] then 0 else Total(cmds[..|cmds|-1]) + cmds[|cmds|-1].elemCount
  }

  // Counts are natural and callbacks carry no indices.
  ghost predicate Counted(cmds: seq<Cmd>) {
    forall i :: 0 <= i < |cmds| ==> cmds[i].elemCount >= 0 && (cmds[i].callback.Some? ==> cmds[i].elemCount == 0)
  }

  // Commands cover the index buffer from its start, one after another.
  ghost predicate Laid(cmds: seq<Cmd>) {
    cmds == [] || (Laid(cmds[..|cmds|-1]) && cmds[|cmds|-1].idxOffset == Total(cmds[..|cmds|-1]))
  }

  function Tags(cmds: seq<Cmd>): seq<Tag>
    requires Counted(cmds)
  {
    if cmds == [] then [] else Tags(cmds[..|cmds|-1]) + TagsOf(cmds[|cmds|-1])
  }

  // A command buffer over n indices that stands for the given record.
  ghost predicate Records(cmds: seq<Cmd>, n: int, log: seq<Tag>) {
    Counted(cmds) && Laid(cmds) && Total(cmds) == n && Tags(cmds) == log
  }

  /** Editing the end of a command buffer */

  lemma Append(cmds: seq<Cmd>, c: Cmd)
    requires Counted(cmds) && c.elemCount >= 0 && (c.callback.Some? ==> c.elemCount == 0)
    ensures Counted(cmds + [c]) && Total(cmds + [c]) == Total(cmds) + c.elemCount
    ensures Tags(cmds + [c]) == Tags(cmds) + TagsOf(c)
    ensures Laid(cmds + [c]) <==> Laid(cmds) && c.idxOffset == Total(cmds)
  {
    assert (cmds + [c])[..|cmds|] == cmds;
  }

  lemma TotalSplit(cmds: seq<Cmd>)
    requires cmds != []
    ensures Total(cmds) == Total(cmds[..|cmds|-1]) + cmds[|cmds|-1].elemCount
  {
  }

  lemma TagsSplit(cmds: seq<Cmd>)
    requires cmds != [] && Counted(cmds) && Counted(cmds[..|cmds|-1])
    ensures Tags(cmds) == Tags(cmds[..|cmds|-1]) + TagsOf(cmds[|cmds|-1])
  {
    hide TagsOf;
  }

  lemma LaidSplit(cmds: seq<Cmd>)
    requires cmds != []
    ensures Laid(cmds) <==> Laid(cmds[..|cmds|-1]) && cmds[|cmds|-1].idxOffset == Total(cmds[..|cmds|-1])
  {
    hide Total;
  }

  lemma Split(cmds: seq<Cmd>)
    requires cmds != [] && Counted(cmds)
    ensures var n := |cmds| - 1;
      && Counted(cmds[..n]) && cmds == cmds[..n] + [cmds[n]]
      && Total(cmds) == Total(cmds[..n]) + cmds[n].elemCount
      && Tags(cmds) == Tags(cmds[..n]) + TagsOf(cmds[n])
      && (Laid(cmds) <==> Laid(cmds[..n]) && cmds[n].idxOffset == Total(cmds[..n]))
  {
    hide Total, Tags, Laid, TagsOf, Counted;
    CountedFront(cmds);
    TotalSplit(cmds);
    TagsSplit(cmds);
    LaidSplit(cmds);
    FrontAndLast(cmds);
  }

  lemma CountedFront(cmds: seq<Cmd>)
    requires cmds != [] && Counted(cmds)
    ensures Counted(cmds[..|cmds|-1])
    ensures var c := cmds[|cmds|-1]; c.elemCount >= 0 && (c.callback.Some? ==> c.elemCount == 0)
  {
  }

  lemma RepeatSplit(h: Header, m: nat, k: nat)
    ensures Repeat(h, m + k) == Repeat(h, m) + Repeat(h, k)
  {
  }

  lemma CallbackDrawsNothing(cmds: seq<Cmd>, n: int, log: seq<Tag>)
    requires Records(cmds, n, log) && cmds != []
    ensures Last(cmds).callback.Some? ==> Last(cmds).elemCount == 0
  {
    hide Total, Tags, Laid;
  }

  // A fresh command with nothing drawn under it.
  lemma AppendEmpty(cmds: seq<Cmd>, n: int, log: seq<Tag>, h: Header)
    requires Records(cmds, n, log)
    ensures Records(cmds + [Cmd(h, n, 0, None)], n, log)
  {
    Append(cmds, Cmd(h, n, 0, None));
  }

  // Dropping a command that nothing was drawn under.
  lemma PopEmpty(cmds: seq<Cmd>, n: int, log: seq<Tag>)
    requires Records(cmds, n, log) && cmds != []
    requires cmds[|cmds|-1].elemCount == 0 && cmds[|cmds|-1].callback.None?
    ensures Records(cmds[..|cmds|-1], n, log)
  {
    Split(cmds);
  }

  // Changing the settings of a command that nothing was drawn under.
  lemma RestyleEmpty(cmds: seq<Cmd>, n: int, log: seq<Tag>, h: Header)
    requires Records(cmds, n, log) && cmds != []
    requires cmds[|cmds|-1].elemCount == 0 && cmds[|cmds|-1].callback.None?
    ensures Records(cmds[|cmds|-1 := cmds[|cmds|-1].(header := h)], n, log)
  {
    var m := |cmds| - 1;
    Split(cmds);
    Append(cmds[..m], cmds[m].(header := h));
    assert cmds[m := cmds[m].(header := h)] == cmds[..m] + [cmds[m].(header := h)];
  }

  // Turning an empty command into a callback.
  lemma MakeCallback(cmds: seq<Cmd>, n: int, log: seq<Tag>, cb: Callback)
    requires Records(cmds, n, log) && cmds != []
    requires cmds[|cmds|-1].elemCount == 0 && cmds[|cmds|-1].callback.None?
    ensures Records(cmds[|cmds|-1 := cmds[|cmds|-1].(callback := Some(cb))], n, log + [Marker(cb)])
  {
    var m := |cmds| - 1;
    Split(cmds);
    Append(cmds[..m], cmds[m].(callback := Some(cb)));
    assert cmds[m := cmds[m].(callback := Some(cb))] == cmds[..m] + [cmds[m].(callback := Some(cb))];
  }

  // Drawing k more indices under the last command.
  lemma Extend(cmds: seq<Cmd>, n: int, log: seq<Tag>, k: nat)
    requires Records(cmds, n, log) && cmds != [] && cmds[|cmds|-1].callback.None?
    ensures var m := |cmds| - 1;
      Records(cmds[m := cmds[m].(elemCount := cmds[m].elemCount + k)], n + k, log + Repeat(cmds[m].header, k))
  {
    hide Total, Tags, Laid, Repeat;
    var m := |cmds| - 1;
    var c := cmds[m].(elemCount := cmds[m].elemCount + k);
    Split(cmds);
    Append(cmds[..m], c);
    assert cmds[m := c] == cmds[..m] + [c];
    RepeatSplit(c.header, cmds[m].elemCount, k);
  }

  // Taking back the last k indices drawn under the last command.
  lemma Shrink(cmds: seq<Cmd>, n: int, log: seq<Tag>, k: nat)
    requires Records(cmds, n, log) && cmds != [] && cmds[|cmds|-1].callback.None? && k <= cmds[|cmds|-1].elemCount
    ensures var m := |cmds| - 1;
      && k <= |log|
      && Records(cmds[m := cmds[m].(elemCount := cmds[m].elemCount - k)], n - k, log[..|log|-k])
  {
    hide Total, Tags, Laid, Repeat;
    var m := |cmds| - 1;
    var c := cmds[m].(elemCount := cmds[m].elemCount - k);
    Split(cmds);
    Append(cmds[..m], c);
    assert cmds[m := c] == cmds[..m] + [c];
    RepeatSplit(c.header, c.elemCount, k);
  }

  // Joining the last two commands when they have the same settings.
  lemma Join(cmds: seq<Cmd>, n: int, log: seq<Tag>)
    requires Records(cmds, n, log) && |cmds| >= 2
    requires var a, b := cmds[|cmds|-2], cmds[|cmds|-1];
      a.header == b.header && a.callback.None? && b.callback.None?
    ensures var m := |cmds| - 2;
      Records(cmds[..m] + [cmds[m].(elemCount := cmds[m].elemCount + cmds[m+1].elemCount)], n, log)
  {
    hide Total, Tags, Laid, Repeat;
    var m := |cmds| - 2;
    Split(cmds);
    Extend(cmds[..m+1], Total(cmds[..m+1]), Tags(cmds[..m+1]), cmds[m+1].elemCount);
    assert cmds[..m+1][m := cmds[m].(elemCount := cmds[m].elemCount + cmds[m+1].elemCount)]
        == cmds[..m] + [cmds[m].(elemCount := cmds[m].elemCount + cmds[m+1].elemCount)];
  }

  /** The renderer's reading */

  function DrawAll(h: Header, idx: seq<int>): (e: seq<Event>)
    ensures |e| == |idx| && forall i :: 0 <= i < |e| ==> e[i] == Draw(h, idx[i])
  {
    seq(|idx|, i requires 0 <= i < |idx| => Draw(h, idx[i]))
  }

  // One command: its callback, or the indices in the range it names.
  function RenderOne(c: Cmd, idx: seq<int>): seq<Event> {
    if c.callback.Some? then [Call(c.callback.value)]
    else if 0 <= c.idxOffset && 0 <= c.elemCount && c.idxOffset + c.elemCount <= |idx| then
      DrawAll(c.header, idx[c.idxOffset..c.idxOffset+c.elemCount])
    else []
  }

  function Render(cmds: seq<Cmd>, idx: seq<int>): seq<Event> {
    if cmds == [] then []
    else Render(cmds[..|cmds|-1], idx) + RenderOne(cmds[|cmds|-1], idx)
  }

  function IndexCount(log: seq<Tag>): nat {
    if log == [] then 0 else IndexCount(log[..|log|-1]) + if log[|log|-1].Index? then 1 else 0
  }

  // The record played back: the k-th index tag goes with index k of the buffer.
  function Play(log: seq<Tag>, idx: seq<int>): seq<Event>
    requires IndexCount(log) <= |idx|
  {
    if log == [] then []
    else
      var t := log[|log|-1];
      Play(log[..|log|-1], idx) + [if t.Index? then Draw(t.header, idx[IndexCount(log)-1]) else Call(t.callback)]
  }

  lemma {:induction false} CountOfRepeat(log: seq<Tag>, h: Header, n: nat)
    ensures IndexCount(log + Repeat(h, n)) == IndexCount(log) + n
    decreases n
  {
    if n == 0 {
      assert log + Repeat(h, 0) == log;
    } else {
      var l := log + Repeat(h, n);
      assert l[..|l|-1] == log + Repeat(h, n - 1);
      CountOfRepeat(log, h, n - 1);
    }
  }

  lemma {:induction false} PlayRepeat(log: seq<Tag>, h: Header, n: nat, idx: seq<int>)
    requires IndexCount(log) + n <= |idx|
    ensures IndexCount(log + Repeat(h, n)) == IndexCount(log) + n
    ensures Play(log + Repeat(h, n), idx) == Play(log, idx) + DrawAll(h, idx[IndexCount(log)..IndexCount(log)+n])
    decreases n
  {
    hide IndexCount, DrawAll;
    CountOfRepeat(log, h, n);
    if n == 0 {
      assert log + Repeat(h, 0) == log;
      assert DrawAll(h, idx[IndexCount(log)..IndexCount(log)]) == [];
    } else {
      var k, l := IndexCount(log), log + Repeat(h, n);
      assert l[..|l|-1] == log + Repeat(h, n - 1);
      PlayRepeat(log, h, n - 1, idx);
      assert DrawAll(h, idx[k..k+n]) == DrawAll(h, idx[k..k+n-1]) + [Draw(h, idx[k+n-1])];
    }
  }

  lemma {:induction false} RecordCount(cmds: seq<Cmd>, n: int, log: seq<Tag>)
    requires Records(cmds, n, log)
    ensures IndexCount(log) == n
    decreases |cmds|
  {
    if cmds != [] {
      var m := |cmds| - 1;
      Split(cmds);
      var front := Tags(cmds[..m]);
      RecordCount(cmds[..m], Total(cmds[..m]), front);
      if cmds[m].callback.Some? {
        assert (front + TagsOf(cmds[m]))[..|front|] == front;
      } else {
        CountOfRepeat(front, cmds[m].header, cmds[m].elemCount);
      }
    }
  }

  lemma PlayOne(front: seq<Tag>, c: Cmd, idx: seq<int>)
    requires c.elemCount >= 0 && (c.callback.Some? ==> c.elemCount == 0)
    requires c.idxOffset == IndexCount(front) && IndexCount(front) + c.elemCount <= |idx|
    ensures IndexCount(front + TagsOf(c)) == IndexCount(front) + c.elemCount
    ensures Play(front + TagsOf(c), idx) == Play(front, idx) + RenderOne(c, idx)
  {
    hide Repeat, DrawAll;
    if c.callback.Some? {
      assert (front + TagsOf(c))[..|front|] == front;
    } else {
      PlayRepeat(front, c.header, c.elemCount, idx);
    }
  }

  // Batching loses nothing: the renderer reads back exactly what was recorded.
  lemma {:induction false} RenderIsRecord(cmds: seq<Cmd>, log: seq<Tag>, n: nat, idx: seq<int>)
    requires Records(cmds, n, log) && n <= |idx|
    ensures IndexCount(log) == n && Render(cmds, idx) == Play(log, idx)
    decreases |cmds|
  {
    hide RenderOne, Total, Tags, Laid, TagsOf;
    RecordCount(cmds, n, log);
    if cmds == [] {
      NothingRecorded(cmds);
    } else {
      var m := |cmds| - 1;
      Split(cmds);
      TotalNatural(cmds[..m]);
      RenderIsRecord(cmds[..m], Tags(cmds[..m]), Total(cmds[..m]), idx);
      PlayOne(Tags(cmds[..m]), cmds[m], idx);
    }
  }

  lemma NothingRecorded(cmds: seq<Cmd>)
    requires cmds == []
    ensures Counted(cmds) && Tags(cmds) == [] && Total(cmds) == 0 && Laid(cmds)
  {
  }

  lemma {:induction false} TotalNatural(cmds: seq<Cmd>)
    requires Counted(cmds)
    ensures Total(cmds) >= 0
    decreases |cmds|
  {
    if cmds != [] { TotalNatural(cmds[..|cmds|-1]); }
  }

  /** No two neighbours could have been one command */

  predicate Differ(a: Cmd, b: Cmd) {
    a.callback.Some? || b.callback.Some? || a.header != b.header
  }

  predicate Maximal(cmds: seq<Cmd>) {
    |cmds| <= 1 || (Maximal(cmds[..|cmds|-1]) && Differ(cmds[|cmds|-2], cmds[|cmds|-1]))
  }

  lemma {:induction false} MaximalMeaning(cmds: seq<Cmd>)
    ensures Maximal(cmds) <==> forall i, j :: 0 <= i < j < |cmds| && j == i + 1 ==> Differ(cmds[i], cmds[j])
    decreases |cmds|
  {
    if |cmds| > 1 {
      var front := cmds[..|cmds|-1];
      MaximalMeaning(front);
      forall i, j | 0 <= i < j < |cmds| && j == i + 1 && Maximal(cmds) ensures Differ(cmds[i], cmds[j]) {
        if j < |cmds| - 1 { assert Differ(front[i], front[j]); }
      }
      if forall i, j :: 0 <= i < j < |cmds| && j == i + 1 ==> Differ(cmds[i], cmds[j]) {
        forall i, j | 0 <= i < j < |front| && j == i + 1 ensures Differ(front[i], front[j]) {
          assert Differ(cmds[i], cmds[j]);
        }
        var m := |cmds| - 2;
        assert Differ(cmds[m], cmds[m+1]);
      }
    }
  }

  lemma MaximalAppend(cmds: seq<Cmd>, c: Cmd)
    requires Maximal(cmds) && (cmds == [] || Differ(cmds[|cmds|-1], c))
    ensures Maximal(cmds + [c])
  {
    assert (cmds + [c])[..|cmds|] == cmds;
  }

  // The last command may change in any way that keeps it different from the one before.
  lemma MaximalReplace(cmds: seq<Cmd>, c: Cmd)
    requires Maximal(cmds) && cmds != [] && (|cmds| == 1 || Differ(cmds[|cmds|-2], c))
    ensures Maximal(cmds[|cmds|-1 := c])
  {
    var n := |cmds| - 1;
    assert cmds[n := c] == cmds[..n] + [c];
    if n > 0 { MaximalAppend(cmds[..n], c); }
  }

  // A command that draws something or calls back.
  predicate Used(c: Cmd) { c.elemCount != 0 || c.callback.Some? }

  // Only the last command may be unused.
  predicate Compact(cmds: seq<Cmd>) {
    forall i :: 0 <= i < |cmds| - 1 ==> Used(cmds[i])
  }

  predicate AllUsed(cmds: seq<Cmd>) {
    forall i :: 0 <= i < |cmds| ==> Used(cmds[i])
  }

  // No command could be spared, an unused last one aside.
  predicate Tight(cmds: seq<Cmd>) { Maximal(cmds) && Compact(cmds) }

  // How many commands a record takes at least: a new one for each callback, and for each index
  // that does not go on under the settings of the one before.
  function Runs(log: seq<Tag>): nat {
    if log == [] then 0
    else
      var n := |log| - 1;
      Runs(log[..n]) + if n > 0 && log[n].Index? && log[n-1] == log[n] then 0 else 1
  }

  lemma RunsOne(log: seq<Tag>, t: Tag)
    ensures Runs(log + [t]) == Runs(log) + if log != [] && t.Index? && log[|log|-1] == t then 0 else 1
  {
    assert (log + [t])[..|log|] == log;
  }

  lemma {:induction false} RunsRepeat(log: seq<Tag>, h: Header, n: nat)
    ensures Runs(log + Repeat(h, n)) ==
      Runs(log) + if n == 0 || (log != [] && log[|log|-1] == Index(h)) then 0 else 1
    decreases n
  {
    if n == 0 {
      assert log + Repeat(h, 0) == log;
    } else {
      RunsRepeat(log, h, n - 1);
      assert log + Repeat(h, n) == log + Repeat(h, n - 1) + [Index(h)];
      RunsOne(log + Repeat(h, n - 1), Index(h));
    }
  }

  lemma TagsEnd(cmds: seq<Cmd>)
    requires cmds != [] && Counted(cmds) && Used(cmds[|cmds|-1])
    ensures var c, log := cmds[|cmds|-1], Tags(cmds);
      log != [] && log[|log|-1] == if c.callback.Some? then Marker(c.callback.value) else Index(c.header)
  {
    CountedFront(cmds);
    TagsSplit(cmds);
  }

  // One more command is one more run, unless it draws nothing or goes on where the last one
  // stopped.
  lemma RunsNext(log: seq<Tag>, c: Cmd)
    requires c.elemCount >= 0
    ensures Runs(log + TagsOf(c)) <= Runs(log) + 1
    ensures Used(c) && (c.callback.Some? || log == [] || log[|log|-1] != Index(c.header)) ==>
      Runs(log + TagsOf(c)) == Runs(log) + 1
    ensures !Used(c) ==> Runs(log + TagsOf(c)) == Runs(log)
  {
    hide Runs, Repeat;
    if c.callback.Some? {
      RunsOne(log, Marker(c.callback.value));
    } else {
      RunsRepeat(log, c.header, c.elemCount);
    }
  }

  // No commands for a record are fewer than its runs.
  lemma {:induction false} RunsAtMost(cmds: seq<Cmd>)
    requires Counted(cmds)
    ensures Runs(Tags(cmds)) <= |cmds|
    decreases |cmds|
  {
    hide Runs, TagsOf, Tags;
    if cmds == [] {
      NothingRecorded(cmds);
      NoRuns();
    } else {
      CountedFront(cmds);
      TagsSplit(cmds);
      RunsAtMost(cmds[..|cmds|-1]);
      RunsNext(Tags(cmds[..|cmds|-1]), cmds[|cmds|-1]);
    }
  }

  lemma NoRuns()
    ensures Runs([]) == 0
  {
  }

  // Maximal and compact commands are as many as the runs, an unused last one aside.
  lemma {:induction false} RunsExactly(cmds: seq<Cmd>)
    requires Counted(cmds) && Tight(cmds)
    ensures Runs(Tags(cmds)) == |cmds| - if cmds != [] && !Used(cmds[|cmds|-1]) then 1 else 0
    decreases |cmds|
  {
    hide Runs, TagsOf, Tags;
    if cmds == [] {
      NothingRecorded(cmds);
      NoRuns();
    } else {
      var front, c := cmds[..|cmds|-1], cmds[|cmds|-1];
      CountedFront(cmds);
      TagsSplit(cmds);
      RunsExactly(front);
      RunsNext(Tags(front), c);
      if front != [] {
        TagsEnd(front);
      } else {
        NothingRecorded(front);
      }
    }
  }

  // So they are the fewest commands that stand for their record.
  lemma FewestCommands(cmds: seq<Cmd>, others: seq<Cmd>, n: int, log: seq<Tag>)
    requires Records(cmds, n, log) && Tight(cmds)
    requires Records(others, n, log)
    ensures |cmds| <= |others| + if cmds != [] && !Used(cmds[|cmds|-1]) then 1 else 0
  {
    hide Runs, Tags;
    RunsExactly(cmds);
    RunsAtMost(others);
  }

  // No command refers past vertex v.
  ghost predicate OffsetsUpTo(cmds: seq<Cmd>, v: int) {
    forall i :: 0 <= i < |cmds| ==> cmds[i].header.vtxOffset <= v
  }

  lemma NeighboursAdjoin(cmds: seq<Cmd>, n: int, log: seq<Tag>)
    requires Records(cmds, n, log) && |cmds| >= 2
    ensures cmds[|cmds|-2].idxOffset + cmds[|cmds|-2].elemCount == cmds[|cmds|-1].idxOffset
    ensures cmds[|cmds|-1].elemCount >= 0
  {
    Split(cmds);
    Split(cmds[..|cmds|-1]);
  }

  // A callback is a command of its own, and so is whatever follows it.
  lemma CallbackMaximal(cmds: seq<Cmd>, cb: Callback, c: Cmd)
    requires cmds != [] && Maximal(cmds[..|cmds|-1])
    ensures Maximal(cmds[|cmds|-1 := cmds[|cmds|-1].(callback := Some(cb))] + [c])
  {
    var n := |cmds| - 1;
    var d := cmds[n].(callback := Some(cb));
    assert cmds[n := d] == cmds[..n] + [d];
    MaximalAppend(cmds[..n], d);
    MaximalAppend(cmds[n := d], c);
  }

  lemma MaximalFront(cmds: seq<Cmd>)
    requires Maximal(cmds) && cmds != []
    ensures Maximal(cmds[..|cmds|-1])
  {
  }

  // How much a command draws has no say in whether it differs from its neighbours.
  lemma ExtendKeepsMaximal(cmds: seq<Cmd>, c: Cmd)
    requires cmds != [] && c == cmds[|cmds|-1].(elemCount := c.elemCount)
    ensures Maximal(cmds) ==> Maximal(cmds[|cmds|-1 := c])
    ensures forall v :: OffsetsUpTo(cmds, v) ==> OffsetsUpTo(cmds[|cmds|-1 := c], v)
  {
    if Maximal(cmds) { MaximalReplace(cmds, c); }
  }

  /** Splicing command buffers */

  // The commands of a buffer laid on from a given index.
  function Relaid(cmds: seq<Cmd>, start: int): (r: seq<Cmd>)
    ensures |r| == |cmds|
  {
    if cmds == [] then []
    else
      var n := |cmds| - 1;
      Relaid(cmds[..n], start) + [cmds[n].(idxOffset := start + Total(cmds[..n]))]
  }

  lemma {:induction false} RelaidKeeps(cmds: seq<Cmd>, start: int)
    requires Counted(cmds)
    ensures var r := Relaid(cmds, start);
      && Counted(r) && Total(r) == Total(cmds) && Tags(r) == Tags(cmds)
      && forall i :: 0 <= i < |r| ==> r[i] == cmds[i].(idxOffset := r[i].idxOffset)
    decreases |cmds|
  {
    hide Total, Tags, TagsOf;
    if cmds == [] {
      NothingRecorded([]);
    } else {
      var n := |cmds| - 1;
      Split(cmds);
      RelaidKeeps(cmds[..n], start);
      Append(Relaid(cmds[..n], start), cmds[n].(idxOffset := start + Total(cmds[..n])));
      SameTags(cmds[n], start + Total(cmds[..n]));
    }
  }

  lemma SameTags(c: Cmd, offset: int)
    requires c.elemCount >= 0
    ensures TagsOf(c.(idxOffset := offset)) == TagsOf(c)
  {
  }

  // Laying commands out anew changes neither their settings nor what they draw.
  lemma RelaidTight(cmds: seq<Cmd>, start: int)
    requires Counted(cmds) && Maximal(cmds) && AllUsed(cmds)
    ensures Maximal(Relaid(cmds, start)) && AllUsed(Relaid(cmds, start))
  {
    hide Relaid, Maximal;
    var r := Relaid(cmds, start);
    RelaidKeeps(cmds, start);
    MaximalMeaning(cmds);
    MaximalMeaning(r);
    forall i, j | 0 <= i < j < |r| && j == i + 1 ensures Differ(r[i], r[j]) {
      assert Differ(cmds[i], cmds[j]);
    }
    forall i | 0 <= i < |r| ensures Used(r[i]) { assert Used(cmds[i]); }
  }

  lemma {:induction false} MaximalConcat(a: seq<Cmd>, b: seq<Cmd>)
    requires Maximal(a) && Maximal(b) && (a == [] || b == [] || Differ(a[|a|-1], b[0]))
    ensures Maximal(a + b)
    decreases |b|
  {
    if b == [] {
      assert a + b == a;
    } else {
      var n := |b| - 1;
      MaximalConcat(a, b[..n]);
      assert a + b == a + b[..n] + [b[n]];
      MaximalAppend(a + b[..n], b[n]);
    }
  }

  // Commands without the first one, which has been joined to one before.
  lemma TightRest(cmds: seq<Cmd>)
    requires Counted(cmds) && cmds != [] && Maximal(cmds) && AllUsed(cmds)
    ensures Maximal(cmds[1..]) && AllUsed(cmds[1..]) && (|cmds| > 1 ==> Differ(cmds[0], cmds[1]))
  {
    hide Maximal;
    var r := cmds[1..];
    MaximalMeaning(cmds);
    MaximalMeaning(r);
    forall i, j | 0 <= i < j < |r| && j == i + 1 ensures Differ(r[i], r[j]) {
      assert Differ(cmds[i+1], cmds[j+1]);
    }
  }

  // Splicing commands on, the first joined to the last before when they are alike, spares as many
  // as can be spared.
  lemma SpliceTight(all: seq<Cmd>, cmds: seq<Cmd>, start: int, join: bool)
    requires Counted(all) && Maximal(all) && AllUsed(all) && Counted(cmds) && Maximal(cmds) && AllUsed(cmds)
    requires join <==> all != [] && cmds != [] && !Differ(all[|all|-1], cmds[0])
    ensures var m := |all| - 1;
      var all' := if join then all[m := all[m].(elemCount := all[m].elemCount + cmds[0].elemCount)] else all;
      var rest := if join then cmds[1..] else cmds;
      Maximal(all' + Relaid(rest, start)) && AllUsed(all' + Relaid(rest, start))
  {
    hide Maximal, Relaid, Counted, AllUsed, Differ;
    if join {
      var m := |all| - 1;
      JoinedTight(all, cmds);
      BehindTight(all[m := all[m].(elemCount := all[m].elemCount + cmds[0].elemCount)], cmds[1..], start);
    } else {
      BehindTight(all, cmds, start);
    }
  }

  lemma JoinedTight(all: seq<Cmd>, cmds: seq<Cmd>)
    requires Counted(all) && Maximal(all) && AllUsed(all) && Counted(cmds) && Maximal(cmds) && AllUsed(cmds)
    requires all != [] && cmds != [] && !Differ(all[|all|-1], cmds[0])
    ensures var m, rest := |all| - 1, cmds[1..];
      var all' := all[m := all[m].(elemCount := all[m].elemCount + cmds[0].elemCount)];
      && Maximal(all') && AllUsed(all') && Counted(rest) && Maximal(rest) && AllUsed(rest)
      && (rest != [] ==> Differ(all'[m], rest[0]))
  {
    hide Maximal;
    var m := |all| - 1;
    var all' := all[m := all[m].(elemCount := all[m].elemCount + cmds[0].elemCount)];
    assert Used(all[m]);
    ExtendKeepsMaximal(all, all'[m]);
    TightRest(cmds);
    assert Used(all'[m]);
  }

  lemma BehindTight(all: seq<Cmd>, rest: seq<Cmd>, start: int)
    requires Maximal(all) && AllUsed(all) && Counted(rest) && Maximal(rest) && AllUsed(rest)
    requires all == [] || rest == [] || Differ(all[|all|-1], rest[0])
    ensures Maximal(all + Relaid(rest, start)) && AllUsed(all + Relaid(rest, start))
  {
    hide Maximal, Relaid;
    RelaidKeeps(rest, start);
    RelaidTight(rest, start);
    MaximalConcat(all, Relaid(rest, start));
  }

  // Appending relaid commands to a recording.
  lemma {:induction false} Concatenate(a: seq<Cmd>, n: int, log: seq<Tag>, b: seq<Cmd>)
    requires Records(a, n, log) && Counted(b)
    ensures Records(a + Relaid(b, n), n + Total(b), log + Tags(b))
    decreases |b|
  {
    hide Total, Tags, TagsOf, Laid;
    if b == [] {
      NothingRecorded(b);
      assert a + Relaid(b, n) == a;
      assert log + Tags(b) == log;
    } else {
      var m := |b| - 1;
      Split(b);
      Concatenate(a, n, log, b[..m]);
      var c := b[m].(idxOffset := n + Total(b[..m]));
      SameTags(b[m], n + Total(b[..m]));
      Append(a + Relaid(b[..m], n), c);
      assert a + Relaid(b, n) == a + Relaid(b[..m], n) + [c];
      assert log + Tags(b) == log + Tags(b[..m]) + TagsOf(b[m]);
    }
  }

  // Moving the first command of b under the last one of a.
  lemma Absorb(a: seq<Cmd>, n: int, log: seq<Tag>, b: seq<Cmd>)
    requires Records(a, n, log) && Counted(b) && a != [] && b != []
    requires a[|a|-1].header == b[0].header && a[|a|-1].callback.None? && b[0].callback.None?
    ensures var m := |a| - 1;
      Records(a[m := a[m].(elemCount := a[m].elemCount + b[0].elemCount)], n + b[0].elemCount, log + TagsOf(b[0]))
    ensures Counted(b[1..]) && Total(b) == b[0].elemCount + Total(b[1..]) && Tags(b) == TagsOf(b[0]) + Tags(b[1..])
  {
    hide Records, Total, Tags;
    Extend(a, n, log, b[0].elemCount);
    SplitFirst(b);
  }

  lemma {:induction false} SplitFirst(b: seq<Cmd>)
    requires Counted(b) && b != []
    ensures Counted(b[1..]) && Total(b) == b[0].elemCount + Total(b[1..]) && Tags(b) == TagsOf(b[0]) + Tags(b[1..])
    decreases |b|
  {
    hide TagsOf;
    var m := |b| - 1;
    Split(b);
    if m == 0 {
      assert b[1..] == [] && b[..m] == [];
    } else {
      SplitFirst(b[..m]);
      assert b[1..][..|b[1..]|-1] == b[..m][1..];
      Split(b[1..]);
    }
  }
}
