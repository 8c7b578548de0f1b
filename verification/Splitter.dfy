// Channels: commands and indices can be recorded into several buffers in any order and are
// then spliced into one, in channel order.
module Splitter {
  import opened Common
  import opened DrawTrace
  import opened DrawList

  datatype Channel = Channel(cmds: seq<Cmd>, idx: seq<int>)

  function Flat<T>(ss: seq<seq<T>>): seq<T> {
    if ss == [] then [] else Flat(ss[..|ss|-1]) + ss[|ss|-1]
  }

  function FlatCmds(chs: seq<Channel>): seq<Cmd> {
    if chs == [] then [] else FlatCmds(chs[..|chs|-1]) + chs[|chs|-1].cmds
  }

  function FlatIdx(chs: seq<Channel>): seq<int> {
    if chs == [] then [] else FlatIdx(chs[..|chs|-1]) + chs[|chs|-1].idx
  }

  lemma FlatNext<T>(ss: seq<seq<T>>, i: nat)
    requires i < |ss|
    ensures Flat(ss[..i+1]) == Flat(ss[..i]) + ss[i]
  {
    assert ss[..i+1][..i] == ss[..i];
  }

  lemma FlatNextChannel(chs: seq<Channel>, i: nat)
    requires 1 <= i < |chs|
    ensures FlatCmds(chs[1..i+1]) == FlatCmds(chs[1..i]) + chs[i].cmds
    ensures FlatIdx(chs[1..i+1]) == FlatIdx(chs[1..i]) + chs[i].idx
  {
    assert chs[1..i+1][..i] == chs[1..i+1];
    assert chs[1..i+1][..i-1] == chs[1..i];
  }

  function ChannelIndices(chs: seq<Channel>): (r: seq<seq<int>>)
    ensures |r| == |chs| && forall i :: 0 <= i < |r| ==> r[i] == chs[i].idx
  {
    seq(|chs|, i requires 0 <= i < |chs| => chs[i].idx)
  }

  function ChannelCmds(chs: seq<Channel>): (r: seq<seq<Cmd>>)
    ensures |r| == |chs| && forall i :: 0 <= i < |r| ==> r[i] == chs[i].cmds
  {
    seq(|chs|, i requires 0 <= i < |chs| => chs[i].cmds)
  }

  lemma NoChannels(chs: seq<Channel>)
    requires chs == []
    ensures FlatCmds(chs) == [] && FlatIdx(chs) == []
  {
  }

  // A channel's buffers stand for its record, and it is open for drawing or untouched.
  ghost predicate Stored(ch: Channel, log: seq<Tag>) {
    && Records(ch.cmds, |ch.idx|, log)
    && (ch.cmds != [] ==> Last(ch.cmds).callback.None?)
  }

  lemma FlatEnd(chs: seq<Channel>)
    requires chs != []
    ensures var n := |chs| - 1;
      FlatCmds(chs) == FlatCmds(chs[..n]) + chs[n].cmds && FlatIdx(chs) == FlatIdx(chs[..n]) + chs[n].idx
  {
  }

  // The last nonempty channel's last command is the last one of them all.
  lemma {:induction false} FlatLast(chs: seq<Channel>, m: nat, c: Cmd)
    requires m < |chs| && chs[m].cmds != [] && forall k :: m < k < |chs| ==> chs[k].cmds == []
    ensures var all, cmds := FlatCmds(chs), chs[m].cmds;
      && all != [] && Last(all) == Last(cmds)
      && FlatCmds(chs[m := Channel(cmds[|cmds|-1 := c], chs[m].idx)]) == all[|all|-1 := c]
      && FlatIdx(chs[m := Channel(cmds[|cmds|-1 := c], chs[m].idx)]) == FlatIdx(chs)
    decreases |chs|
  {
    hide FlatCmds, FlatIdx;
    var cmds, n := chs[m].cmds, |chs| - 1;
    var chs' := chs[m := Channel(cmds[|cmds|-1 := c], chs[m].idx)];
    FlatEnd(chs);
    FlatEnd(chs');
    if m < n {
      FlatLast(chs[..n], m, c);
      assert chs'[..n] == chs[..n][m := Channel(cmds[|cmds|-1 := c], chs[m].idx)];
    } else {
      assert chs'[..n] == chs[..n];
    }
  }

  lemma {:induction false} FlatNothing(chs: seq<Channel>)
    requires forall k :: 0 <= k < |chs| ==> chs[k].cmds == []
    ensures FlatCmds(chs) == []
    decreases |chs|
  {
    if chs != [] { FlatNothing(chs[..|chs|-1]); }
  }

  lemma NothingFlat()
    ensures FlatIdx([]) == [] && Flat<int>([]) == []
  {
  }

  lemma {:induction false} FlatOfIndices(first: seq<int>, chs: seq<Channel>, all: seq<seq<int>>, n: nat)
    requires 1 <= n <= |chs| && |all| >= n && all[0] == first
    requires forall i :: 1 <= i < n ==> all[i] == chs[i].idx
    ensures Flat(all[..n]) == first + FlatIdx(chs[1..n])
    decreases n
  {
    hide Flat, FlatIdx;
    if n == 1 {
      FlatNext(all, 0);
      NothingFlat();
      assert all[..0] == [] && chs[1..1] == [];
    } else {
      FlatOfIndices(first, chs, all, n - 1);
      FlatNext(all, n - 1);
      FlatNextChannel(chs, n - 1);
    }
  }

  lemma FlatOne<T>(s: seq<T>)
    ensures Flat([s]) == s
  {
    assert [s][..0] == [];
  }

  // What is left of a channel once a trailing unused command is dropped.
  function Trimmed(cmds: seq<Cmd>): seq<Cmd> {
    if cmds != [] && Last(cmds).elemCount == 0 && Last(cmds).callback.None? then cmds[..|cmds|-1] else cmds
  }

  // Once an unused last command is dropped, none could be spared.
  ghost predicate Lean(cmds: seq<Cmd>) {
    Maximal(Trimmed(cmds)) && AllUsed(Trimmed(cmds))
  }

  lemma TightIsLean(cmds: seq<Cmd>)
    requires Tight(cmds)
    ensures Lean(cmds)
  {
  }

  lemma TakenUpLean(before: seq<Cmd>, cmds: seq<Cmd>, h: Header)
    requires TakenUp(before, cmds, h) && Lean(before)
    ensures Lean(cmds)
  {
    var n := |before| - 1;
    if before == [] {
      assert Trimmed(cmds) == [];
    } else if !Used(Last(before)) {
      assert Trimmed(cmds) == before[..n];
    } else if |cmds| == |before| {
      assert cmds == before;
    } else {
      assert cmds[..|cmds|-1] == before;
    }
  }

  // Dropping unused commands from the end of lean ones leaves none that could be spared.
  lemma PoppedTight(before: seq<Cmd>, cmds: seq<Cmd>)
    requires Lean(before) && cmds <= before && (cmds == [] || Used(Last(cmds)))
    requires forall i :: |cmds| <= i < |before| ==> !Used(before[i])
    ensures Maximal(cmds) && AllUsed(cmds)
  {
    var t := Trimmed(before);
    assert forall i :: |cmds| <= i < |t| ==> t[i] == before[i] && Used(t[i]);
    assert cmds == t;
  }

  lemma TrimmedKeeps(cmds: seq<Cmd>, n: int, log: seq<Tag>)
    requires Records(cmds, n, log)
    ensures Records(Trimmed(cmds), n, log)
  {
    hide Records;
    if cmds != [] && Last(cmds).elemCount == 0 && Last(cmds).callback.None? { PopEmpty(cmds, n, log); }
  }

  // Splicing one channel on, its first command joined to the last one when they are alike.
  lemma SpliceOn(all: seq<Cmd>, n: int, log: seq<Tag>, cmds: seq<Cmd>, k: int, l: seq<Tag>, join: bool)
    requires Records(all, n, log) && Records(cmds, k, l)
    requires join ==>
      all != [] && cmds != [] && Last(all).header == cmds[0].header && Last(all).callback.None? &&
        cmds[0].callback.None?
    ensures var m := |all| - 1;
      var all' := if join then all[m := all[m].(elemCount := all[m].elemCount + cmds[0].elemCount)] else all;
      var rest, start := if join then cmds[1..] else cmds, if join then n + cmds[0].elemCount else n;
      && Records(all' + Relaid(rest, start), n + k, log + l)
      && start + Total(rest) == n + k
  {
    hide Total, Tags, Laid, TagsOf;
    if join {
      var m := |all| - 1;
      Absorb(all, n, log, cmds);
      Concatenate(all[m := all[m].(elemCount := all[m].elemCount + cmds[0].elemCount)],
                  n + cmds[0].elemCount, log + TagsOf(cmds[0]), cmds[1..]);
      assert log + TagsOf(cmds[0]) + Tags(cmds[1..]) == log + l;
    } else {
      Concatenate(all, n, log, cmds);
    }
  }

  // What command k becomes.
  lemma {:induction false} RelaidAt(cmds: seq<Cmd>, start: int, k: nat)
    requires k < |cmds|
    ensures Relaid(cmds, start)[k] == cmds[k].(idxOffset := start + Total(cmds[..k]))
    decreases |cmds|
  {
    if k < |cmds| - 1 {
      var front := cmds[..|cmds|-1];
      RelaidAt(front, start, k);
      assert front[..k] == cmds[..k];
    }
  }

  lemma TotalNext(cmds: seq<Cmd>, n: nat)
    requires n <= |cmds|
    ensures n == 0 ==> Total(cmds[..n]) == 0
    ensures n < |cmds| ==> Total(cmds[..n+1]) == Total(cmds[..n]) + cmds[n].elemCount
  {
    if n < |cmds| { assert cmds[..n+1][..n] == cmds[..n]; }
  }

  // Lay commands out from index `start` on.
  method Relay(cmds0: seq<Cmd>, start: int) returns (cmds: seq<Cmd>, offset: int)
    ensures cmds == Relaid(cmds0, start) && offset == start + Total(cmds0)
  {
    hide Relaid, Total;
    cmds, offset := cmds0, start;
    var n := 0;
    TotalNext(cmds0, 0);
    while n < |cmds|
      invariant 0 <= n <= |cmds| == |cmds0| && offset == start + Total(cmds0[..n])
      invariant forall k :: 0 <= k < n ==> cmds[k] == Relaid(cmds0, start)[k]
      invariant forall k :: n <= k < |cmds| ==> cmds[k] == cmds0[k]
    {
      TotalNext(cmds0, n);
      RelaidAt(cmds0, start, n);
      cmds := cmds[n := cmds[n].(idxOffset := offset)];
      offset := offset + cmds[n].elemCount;
      n := n + 1;
    }
    assert cmds0[..n] == cmds0;
  }

  class Splitter {
    var current: int
    var count: int
    var channels: seq<Channel>

    ghost var logs: seq<seq<Tag>>

    constructor ()
      ensures current == 0 && count == 0 && channels == []
    {
      current, count, channels, logs := 0, 0, [], [];
    }

    // Drawing goes to channel `current`; the others are put by.
    ghost predicate Splitting(dl: DrawList)
      reads this, dl
    {
      && dl.Valid()
      && 1 <= count <= |channels| && 0 <= current < count && |logs| == count
      && forall i :: 0 <= i < count && i != current ==> Stored(channels[i], logs[i])
    }

    // What has been recorded in each channel.
    ghost function AllLogs(dl: DrawList): (r: seq<seq<Tag>>)
      requires 0 <= current < |logs|
      reads this, dl
      ensures |r| == |logs|
    {
      logs[current := dl.log]
    }

    // The indices of each channel.
    ghost function AllIdx(dl: DrawList): (r: seq<seq<int>>)
      requires 0 <= current < count <= |channels|
      reads this, dl
      ensures |r| == count
    {
      ChannelIndices(channels[..count])[current := dl.idxBuffer]
    }

    // The commands of each channel.
    ghost function AllCmds(dl: DrawList): (r: seq<seq<Cmd>>)
      requires 0 <= current < count <= |channels|
      reads this, dl
      ensures |r| == count
    {
      ChannelCmds(channels[..count])[current := dl.cmdBuffer]
    }

    // Start recording into n channels; what the list holds already becomes channel 0.
    method Split(dl: DrawList, n: int)
      requires dl.Valid() && current == 0 && count <= 1 && n >= 1
      modifies this
      ensures Splitting(dl) && count == n && current == 0
      ensures AllLogs(dl)[0] == dl.log && forall i :: 1 <= i < n ==> AllLogs(dl)[i] == []
      ensures AllIdx(dl)[0] == dl.idxBuffer && forall i :: 1 <= i < n ==> AllIdx(dl)[i] == []
      ensures AllCmds(dl)[0] == dl.cmdBuffer && forall i :: 1 <= i < n ==> AllCmds(dl)[i] == []
    {
      hide DrawList.Valid;
      if |channels| < n {
        channels := channels + seq(n - |channels|, i => Channel([], []));
      }
      count := n;
      channels := channels[0 := Channel([], [])];
      var i := 1;
      while i < n
        invariant 1 <= i <= n <= |channels| && current == 0 && count == n
        invariant forall j :: 0 <= j < i ==> channels[j] == Channel([], [])
      {
        channels := channels[i := Channel([], [])];
        i := i + 1;
      }
      logs := seq(n, j => []);
      NothingRecorded([]);
    }

    // Put the current channel by and take up another.
    method SetCurrentChannel(dl: DrawList, idx: int)
      requires Splitting(dl) && 0 <= idx < count
      modifies this`current, this`channels, this`logs
      modifies dl`cmdBuffer, dl`idxBuffer, dl`idxWrite, dl`log
      ensures Splitting(dl) && current == idx
      ensures AllLogs(dl) == old(AllLogs(dl)) && AllIdx(dl) == old(AllIdx(dl))
      ensures old(dl.Settled()) ==> dl.Settled()
      ensures forall k :: 0 <= k < count && k != idx ==> AllCmds(dl)[k] == old(AllCmds(dl))[k]
      ensures
        if old(current) == idx then dl.cmdBuffer == old(dl.cmdBuffer)
        else TakenUp(old(AllCmds(dl))[idx], dl.cmdBuffer, dl.header)
    {
      hide Records, TakenUp;
      if current == idx {
        return;
      }
      channels := channels[current := Channel(dl.cmdBuffer, dl.idxBuffer)];
      logs := logs[current := dl.log];
      current := idx;
      dl.cmdBuffer, dl.idxBuffer, dl.log := channels[idx].cmds, channels[idx].idx, logs[idx];
      dl.idxWrite := |dl.idxBuffer|;
      Resume(dl);
    }

    // Make the channel taken up ready for drawing.
    method Resume(dl: DrawList)
      requires dl.Consistent() && (dl.cmdBuffer != [] ==> Last(dl.cmdBuffer).callback.None?)
      modifies dl`cmdBuffer
      ensures dl.Valid() && TakenUp(old(dl.cmdBuffer), dl.cmdBuffer, dl.header)
    {
      hide Records;
      if dl.cmdBuffer == [] {
        dl.AddDrawCmd();
      } else {
        dl.TakeUpSettings();
      }
    }

    // The first i channels, list included, hold one recording after another; `lastCh` is the
    // one that holds the last command of all, if there is one.
    ghost predicate Merging(dl: DrawList, i: int, lastCh: int, idxOffset: int)
      reads this, dl
    {
      && 1 <= i <= count <= |channels| && |logs| == count
      && Records(dl.cmdBuffer + FlatCmds(channels[1..i]), idxOffset, Flat(logs[..i]))
      && idxOffset == |dl.idxBuffer| + |FlatIdx(channels[1..i])|
      && HoldsLast(dl, i, lastCh)
      && forall k :: i <= k < count ==> Stored(channels[k], logs[k])
    }

    ghost predicate HoldsLast(dl: DrawList, i: int, lastCh: int)
      requires 1 <= i <= |channels|
      reads this, dl
    {
      && -1 <= lastCh < i
      && (lastCh == -1 <==> dl.cmdBuffer == [] && FlatCmds(channels[1..i]) == [])
      && (lastCh == 0 ==> dl.cmdBuffer != [])
      && (lastCh >= 1 ==> channels[lastCh].cmds != [])
      && forall k :: 1 <= k < i && lastCh < k ==> channels[k].cmds == []
    }

    function LastCmd(dl: DrawList, lastCh: int): Cmd
      requires 0 <= lastCh < |channels|
      requires if lastCh == 0 then dl.cmdBuffer != [] else channels[lastCh].cmds != []
      reads this, dl
    {
      if lastCh == 0 then Last(dl.cmdBuffer) else Last(channels[lastCh].cmds)
    }

    lemma LastIsLast(dl: DrawList, i: int, lastCh: int, c: Cmd)
      requires 1 <= i <= |channels| && lastCh >= 0 && HoldsLast(dl, i, lastCh)
      ensures var all := dl.cmdBuffer + FlatCmds(channels[1..i]);
        && all != [] && Last(all) == LastCmd(dl, lastCh)
        && if lastCh == 0 then FlatCmds(channels[1..i]) == []
           else
             var cmds := channels[lastCh].cmds;
             var chs := channels[lastCh := Channel(cmds[|cmds|-1 := c], channels[lastCh].idx)];
             && dl.cmdBuffer + FlatCmds(chs[1..i]) == all[|all|-1 := c]
             && FlatIdx(chs[1..i]) == FlatIdx(channels[1..i])
    {
      hide FlatCmds, FlatIdx;
      if lastCh == 0 {
        FlatNothing(channels[1..i]);
      } else {
        FlatLast(channels[1..i], lastCh - 1, c);
        var cmds := channels[lastCh].cmds;
        var chs := channels[lastCh := Channel(cmds[|cmds|-1 := c], channels[lastCh].idx)];
        assert chs[1..i] == channels[1..i][lastCh-1 := chs[lastCh]];
      }
    }

    // Let the last command of all draw k more indices.
    method ExtendLast(dl: DrawList, ghost i: int, lastCh: int, k: int)
      requires 1 <= i <= |channels| && 0 <= lastCh && HoldsLast(dl, i, lastCh)
      modifies this`channels, dl`cmdBuffer
      ensures |channels| == |old(channels)| && HoldsLast(dl, i, lastCh)
      ensures forall j :: i <= j < |channels| ==> channels[j] == old(channels[j])
      ensures forall j :: 0 <= j < |channels| ==> channels[j].idx == old(channels[j].idx)
      ensures var all := old(dl.cmdBuffer + FlatCmds(channels[1..i]));
        && all != [] && dl.cmdBuffer + FlatCmds(channels[1..i])
          == all[|all|-1 := Last(all).(elemCount := Last(all).elemCount + k)]
      ensures FlatIdx(channels[1..i]) == old(FlatIdx(channels[1..i]))
    {
      var last := LastCmd(dl, lastCh);
      var c := last.(elemCount := last.elemCount + k);
      LastIsLast(dl, i, lastCh, c);
      if lastCh == 0 {
        dl.cmdBuffer := dl.cmdBuffer[|dl.cmdBuffer|-1 := c];
      } else {
        var cmds := channels[lastCh].cmds;
        channels := channels[lastCh := Channel(cmds[|cmds|-1 := c], channels[lastCh].idx)];
      }
    }

    // Put the spliced commands of channel i in place.
    method PutChannel(dl: DrawList, i: int, lastCh0: int, cmds: seq<Cmd>, idxOffset: int) returns (lastCh: int)
      requires 1 <= i < count <= |channels| && |logs| == count && HoldsLast(dl, i, lastCh0)
      requires Records(dl.cmdBuffer + FlatCmds(channels[1..i]) + cmds, idxOffset, Flat(logs[..i]) + logs[i])
      requires idxOffset == |dl.idxBuffer| + |FlatIdx(channels[1..i])| + |channels[i].idx|
      requires forall k :: i < k < count ==> Stored(channels[k], logs[k])
      modifies this`channels
      ensures Merging(dl, i + 1, lastCh, idxOffset)
      ensures |channels| == |old(channels)|
      ensures forall k :: 0 <= k < |channels| ==> channels[k].idx == old(channels[k].idx)
      ensures dl.cmdBuffer + FlatCmds(channels[1..i+1]) == old(dl.cmdBuffer + FlatCmds(channels[1..i])) + cmds
      ensures forall k :: i < k < |channels| ==> channels[k] == old(channels[k])
    {
      hide Records, Stored;
      lastCh := if cmds != [] then i else lastCh0;
      ghost var before := channels;
      channels := channels[i := Channel(cmds, channels[i].idx)];
      assert channels[1..i] == before[1..i];
      FlatNextChannel(channels, i);
      FlatNext(logs, i);
      assert dl.cmdBuffer + FlatCmds(channels[1..i+1]) == dl.cmdBuffer + FlatCmds(channels[1..i]) + cmds;
    }

    // The command of channel i that would be first, and the last one before it, are alike.
    predicate CanJoin(dl: DrawList, lastCh: int, cmds: seq<Cmd>)
      requires lastCh >= 0 ==> lastCh < |channels|
      requires if lastCh == 0 then dl.cmdBuffer != [] else lastCh > 0 ==> channels[lastCh].cmds != []
      reads this, dl
    {
      cmds != [] && lastCh >= 0 && LastCmd(dl, lastCh).header == cmds[0].header
      && LastCmd(dl, lastCh).callback.None? && cmds[0].callback.None?
    }

    // Splice channel i onto those before it.
    method MergeChannel(dl: DrawList, i: int, lastCh0: int, idxOffset0: int) returns (lastCh: int, idxOffset: int)
      requires Merging(dl, i, lastCh0, idxOffset0) && i < count
      modifies this`channels, dl`cmdBuffer
      ensures Merging(dl, i + 1, lastCh, idxOffset)
      ensures |channels| == |old(channels)|
      ensures forall k :: 0 <= k < |channels| ==> channels[k].idx == old(channels[k].idx)
      ensures forall k :: i < k < |channels| ==> channels[k] == old(channels[k])
      ensures old(SplicedTight(dl, i) && Lean(channels[i].cmds)) ==> SplicedTight(dl, i + 1)
    {
      hide Records, Stored, Flat, FlatCmds, FlatIdx, Trimmed, Relaid, Total, Tight, Maximal, AllUsed;
      idxOffset := idxOffset0;
      var cmds := Trimmed(channels[i].cmds);
      StoredRecords(channels[i], logs[i]);
      TrimmedKeeps(channels[i].cmds, |channels[i].idx|, logs[i]);
      ghost var all := dl.cmdBuffer + FlatCmds(channels[1..i]);
      var join := CanJoin(dl, lastCh0, cmds);
      if lastCh0 >= 0 { LastIsLast(dl, i, lastCh0, LastCmd(dl, lastCh0)); }
      SpliceOn(all, idxOffset, Flat(logs[..i]), cmds, |channels[i].idx|, logs[i], join);
      if SplicedTight(dl, i) && Lean(channels[i].cmds) {
        RecordsCounted(all, idxOffset, Flat(logs[..i]));
        RecordsCounted(cmds, |channels[i].idx|, logs[i]);
        SpliceTight(all, cmds, if join then idxOffset + cmds[0].elemCount else idxOffset, join);
      }
      if join {
        ExtendLast(dl, i, lastCh0, cmds[0].elemCount);
        idxOffset := idxOffset + cmds[0].elemCount;
        cmds := cmds[1..];
      }
      cmds, idxOffset := Relay(cmds, idxOffset);
      lastCh := PutChannel(dl, i, lastCh0, cmds, idxOffset);
    }

    lemma RecordsCounted(cmds: seq<Cmd>, n: int, log: seq<Tag>)
      requires Records(cmds, n, log)
      ensures Counted(cmds)
    {
    }

    // The commands of the list and of the channels up to i, one after another, are as few as can be.
    ghost predicate SplicedTight(dl: DrawList, i: int)
      requires 1 <= i <= |channels|
      reads this, dl
    {
      var all := dl.cmdBuffer + FlatCmds(channels[1..i]);
      Maximal(all) && AllUsed(all)
    }

    lemma StoredRecords(ch: Channel, log: seq<Tag>)
      requires Stored(ch, log)
      ensures Records(ch.cmds, |ch.idx|, log)
    {
    }

    // Move the spliced channels into the list.
    method CopyChannels(dl: DrawList)
      requires 1 <= count <= |channels|
      modifies dl`cmdBuffer, dl`idxBuffer, dl`idxWrite
      ensures dl.cmdBuffer == old(dl.cmdBuffer) + FlatCmds(channels[1..count])
      ensures dl.idxBuffer == old(dl.idxBuffer) + FlatIdx(channels[1..count]) && dl.idxWrite == |dl.idxBuffer|
    {
      hide FlatCmds, FlatIdx;
      var i := 1;
      NoChannels(channels[1..1]);
      while i < count
        invariant 1 <= i <= count
        invariant dl.cmdBuffer == old(dl.cmdBuffer) + FlatCmds(channels[1..i])
        invariant dl.idxBuffer == old(dl.idxBuffer) + FlatIdx(channels[1..i])
      {
        FlatNextChannel(channels, i);
        dl.cmdBuffer := dl.cmdBuffer + channels[i].cmds;
        dl.idxBuffer := dl.idxBuffer + channels[i].idx;
        i := i + 1;
      }
      dl.idxWrite := |dl.idxBuffer|;
    }

    // Splice all channels after the first.
    method MergeChannels(dl: DrawList)
      requires count > 1 && current == 0 && dl.Consistent() && |logs| == count <= |channels| && logs[0] == dl.log
      requires dl.cmdBuffer == [] || Last(dl.cmdBuffer).elemCount != 0 || Last(dl.cmdBuffer).callback.Some?
      requires forall k :: 1 <= k < count ==> Stored(channels[k], logs[k])
      modifies this`channels, dl`cmdBuffer
      ensures |channels| == |old(channels)|
      ensures forall k :: 0 <= k < |channels| ==> channels[k].idx == old(channels[k].idx)
      ensures Records(
        dl.cmdBuffer + FlatCmds(channels[1..count]), |dl.idxBuffer| + |FlatIdx(channels[1..count])|,
        Flat(logs[..count]))
      ensures old(Maximal(dl.cmdBuffer) && AllUsed(dl.cmdBuffer)) && AllLean(old(channels)) ==> SplicedTight(dl, count)
    {
      hide Records, Stored, Maximal, AllUsed, Lean, HoldsLast, FlatIdx, FlatCmds, Flat;
      ghost var tight := Maximal(dl.cmdBuffer) && AllUsed(dl.cmdBuffer) && AllLean(channels);
      MergingFirst(dl);
      var lastCh := if dl.cmdBuffer != [] then 0 else -1;
      var idxOffset := if dl.cmdBuffer != [] then Last(dl.cmdBuffer).idxOffset + Last(dl.cmdBuffer).elemCount else 0;
      var i := 1;
      while i < count
        invariant Merging(dl, i, lastCh, idxOffset)
        invariant |channels| == |old(channels)|
        invariant forall k :: 0 <= k < |channels| ==> channels[k].idx == old(channels[k].idx)
        invariant forall k :: i <= k < |channels| ==> channels[k] == old(channels[k])
        invariant tight ==> SplicedTight(dl, i)
        decreases count - i
      {
        lastCh, idxOffset := MergeChannel(dl, i, lastCh, idxOffset);
        i := i + 1;
      }
    }

    ghost predicate AllLean(chs: seq<Channel>)
      requires count <= |chs|
      reads this`count
    {
      forall k :: 1 <= k < count ==> Lean(chs[k].cmds)
    }

    // The list itself is the first recording.
    lemma MergingFirst(dl: DrawList)
      requires 1 <= count && dl.Consistent() && |logs| == count <= |channels| && logs[0] == dl.log
      requires forall k :: 1 <= k < count ==> Stored(channels[k], logs[k])
      ensures
        var idxOffset := if dl.cmdBuffer != [] then Last(dl.cmdBuffer).idxOffset + Last(dl.cmdBuffer).elemCount else 0;
        Merging(dl, 1, if dl.cmdBuffer != [] then 0 else -1, idxOffset)
      ensures Maximal(dl.cmdBuffer) && AllUsed(dl.cmdBuffer) ==> SplicedTight(dl, 1)
    {
      hide Records, Stored, Maximal, AllUsed;
      EndOfRecord(dl.cmdBuffer, |dl.idxBuffer|, dl.log);
      FlatNext(logs, 0);
      assert Flat(logs[..0]) == [] && Flat(logs[..1]) == dl.log;
      assert FlatCmds(channels[1..1]) == [] && dl.cmdBuffer + [] == dl.cmdBuffer;
    }

    lemma EndOfRecord(cmds: seq<Cmd>, n: int, log: seq<Tag>)
      requires Records(cmds, n, log)
      ensures n == if cmds != [] then Last(cmds).idxOffset + Last(cmds).elemCount else 0
    {
      if cmds != [] { DrawTrace.Split(cmds); }
    }

    // Splice the channels back into the list, in channel order.
    method Merge(dl: DrawList)
      requires Splitting(dl)
      modifies this, dl`cmdBuffer, dl`idxBuffer, dl`idxWrite, dl`log
      ensures dl.Valid() && count == 1 && current == 0
      ensures dl.log == Flat(old(AllLogs(dl))) && dl.idxBuffer == Flat(old(AllIdx(dl)))
      ensures dl.vtxCount == old(dl.vtxCount) && dl.header == old(dl.header)
      ensures old(count) > 1 && (forall k :: 0 <= k < old(count) ==> Lean(old(AllCmds(dl))[k])) ==> Tight(dl.cmdBuffer)
      ensures old(count) == 1 ==> dl.cmdBuffer == old(dl.cmdBuffer)
    {
      hide Records, Stored, Flat, FlatCmds, FlatIdx, Lean, Tight, TakenUp;
      if count <= 1 {
        NothingToMerge(dl);
        return;
      }
      ghost var cmds, was := AllCmds(dl), current;
      SetCurrentChannel(dl, 0);
      if Lean(cmds[0]) && was != 0 { TakenUpLean(cmds[0], dl.cmdBuffer, dl.header); }
      assert forall k :: 1 <= k < count ==> channels[k].cmds == AllCmds(dl)[k] == cmds[k];
      MergeAll(dl);
    }

    lemma NothingToMerge(dl: DrawList)
      requires Splitting(dl) && count <= 1
      ensures dl.log == Flat(AllLogs(dl)) && dl.idxBuffer == Flat(AllIdx(dl))
    {
      hide Records, Stored, Flat;
      FlatOne(dl.log);
      FlatOne(dl.idxBuffer);
      assert AllLogs(dl) == [dl.log] && AllIdx(dl) == [dl.idxBuffer];
    }

    method MergeAll(dl: DrawList)
      requires Splitting(dl) && current == 0 && count > 1
      modifies this, dl`cmdBuffer, dl`idxBuffer, dl`idxWrite, dl`log
      ensures dl.Valid() && count == 1 && current == 0
      ensures dl.log == Flat(old(AllLogs(dl))) && dl.idxBuffer == Flat(old(AllIdx(dl)))
      ensures old(Lean(dl.cmdBuffer) && AllLean(channels)) ==> Tight(dl.cmdBuffer)
    {
      hide Records, Stored, Flat, FlatCmds, FlatIdx, Lean, Tight, Maximal, AllUsed;
      ghost var idxs := AllIdx(dl);
      Splice(dl);
      FlatOfIndices(dl.idxBuffer, channels, idxs, count);
      assert idxs[..count] == idxs && logs[..count] == logs;
      Gather(dl);
      Reopen(dl);
      count := 1;
    }

    // Drop what the list has unused at its end, and splice the channels behind it.
    method Splice(dl: DrawList)
      requires Splitting(dl) && current == 0 && count > 1
      modifies this`channels, this`logs, dl`cmdBuffer
      ensures dl.InBounds() && |logs| == count <= |channels| && logs == old(AllLogs(dl))
      ensures forall k :: 0 <= k < |channels| ==> k < |old(channels)| && channels[k].idx == old(channels[k].idx)
      ensures Records(
        dl.cmdBuffer + FlatCmds(channels[1..count]), |dl.idxBuffer| + |FlatIdx(channels[1..count])|, Flat(logs))
      ensures old(Lean(dl.cmdBuffer) && AllLean(channels)) ==> SplicedTight(dl, count)
    {
      hide Records, Stored, Flat, FlatCmds, FlatIdx, Lean, Maximal, AllUsed;
      ghost var cmds := dl.cmdBuffer;
      dl.PopUnusedDrawCmd();
      if Lean(cmds) { PoppedTight(cmds, dl.cmdBuffer); }
      logs := logs[0 := dl.log];
      MergeChannels(dl);
      assert logs[..count] == logs;
    }

    // Take the spliced channels into the list, and their records with them.
    method Gather(dl: DrawList)
      requires 1 <= count <= |channels| && dl.InBounds()
      requires Records(
        dl.cmdBuffer + FlatCmds(channels[1..count]), |dl.idxBuffer| + |FlatIdx(channels[1..count])|, Flat(logs))
      modifies dl`cmdBuffer, dl`idxBuffer, dl`idxWrite, dl`log
      ensures dl.Consistent() && dl.log == Flat(logs)
      ensures dl.idxBuffer == old(dl.idxBuffer) + FlatIdx(channels[1..count])
      ensures dl.cmdBuffer == old(dl.cmdBuffer + FlatCmds(channels[1..count]))
    {
      hide Records, Flat, FlatCmds, FlatIdx;
      CopyChannels(dl);
      dl.log := Flat(logs);
    }

    // Make the list ready for drawing again.
    method Reopen(dl: DrawList)
      requires dl.Consistent()
      modifies dl`cmdBuffer
      ensures dl.Valid()
      ensures old(Maximal(dl.cmdBuffer) && AllUsed(dl.cmdBuffer)) ==> Tight(dl.cmdBuffer)
    {
      hide Records, Maximal;
      if dl.cmdBuffer == [] || Last(dl.cmdBuffer).callback.Some? {
        dl.AddDrawCmd();
      }
      dl.TakeUpSettings();
    }
  }
}
