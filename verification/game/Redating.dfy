/** Moves plugin timestamps forward until they follow the load order. */
module Redating {
  import opened Sequences

  /** Seconds between a redated plugin and the one before it. */
  const INTERVAL := 60

  /** The new timestamps of files that are walked in order, given the latest one so far. */
  function Redated(times: seq<int>, lastTime: int): (r: seq<int>)
    ensures |r| == |times|
  {
    if times == [] then []
    else if times[0] >= lastTime then [times[0]] + Redated(times[1..], times[0])
    else [lastTime + INTERVAL] + Redated(times[1..], lastTime + INTERVAL)
  }

  ghost predicate NonDecreasing(times: seq<int>) {
    forall i, j :: 0 <= i < j < |times| ==> times[i] <= times[j]
  }

  /** How many timestamps were changed. */
  function Changes(before: seq<int>, after: seq<int>): (n: nat)
    requires |before| == |after|
  {
    if before == [] then 0
    else (if before[0] == after[0] then 0 else 1) + Changes(before[1..], after[1..])
  }

  lemma NonDecreasingFrom(t: int, times: seq<int>)
    requires NonDecreasing(times) && (times != [] ==> t <= times[0])
    ensures NonDecreasing([t] + times)
  {
  }

  /** Afterwards the timestamps follow the load order, and none has gone back. */
  lemma {:induction false} RedatedIsOrdered(times: seq<int>, lastTime: int)
    ensures NonDecreasing([lastTime] + Redated(times, lastTime))
    ensures forall i :: 0 <= i < |times| ==> times[i] <= Redated(times, lastTime)[i]
    decreases |times|
  {
    if times != [] {
      var next := if times[0] >= lastTime then times[0] else lastTime + INTERVAL;
      RedatedIsOrdered(times[1..], next);
      assert Redated(times, lastTime) == [next] + Redated(times[1..], next);
      NonDecreasingFrom(lastTime, Redated(times, lastTime));
    }
  }

  /** No timestamp passes the latest original one by more than a minute for each file that was redated. */
  lemma {:induction false} RedatedIsBounded(times: seq<int>, lastTime: int, latest: int)
    requires lastTime <= latest && forall i :: 0 <= i < |times| ==> times[i] <= latest
    ensures forall i :: 0 <= i < |times| ==>
      Redated(times, lastTime)[i] <= latest + INTERVAL * Changes(times, Redated(times, lastTime))
    decreases |times|
  {
    if times != [] {
      var redate := times[0] < lastTime;
      var next := if redate then lastTime + INTERVAL else times[0];
      RedatedIsBounded(times[1..], next, if redate then latest + INTERVAL else latest);
      var r := Redated(times, lastTime);
      assert r[1..] == Redated(times[1..], next);
      assert Changes(times, r) == (if redate then 1 else 0) + Changes(times[1..], r[1..]);
      assert forall i :: 0 < i < |times| ==> r[i] == r[1..][i - 1];
    }
  }

  // --- Files ----------------------------------------------------------------------------

  class FileSystem {
    /** Where each plugin's file is, if it has one. */
    const paths: map<string, string>
    var times: map<string, int>

    constructor (paths: map<string, string>, times: map<string, int>)
      ensures this.paths == paths && this.times == times
    {
      this.paths := paths;
      this.times := times;
    }
  }

  /** The files of a load order; plugins without one are passed over. */
  function Files(paths: map<string, string>, loadOrder: seq<string>): (files: seq<string>) {
    if loadOrder == [] then []
    else
      var front := Files(paths, loadOrder[..|loadOrder| - 1]);
      var last := loadOrder[|loadOrder| - 1];
      if last in paths then front + [paths[last]] else front
  }

  /** One file for each plugin that has one, in the order of the plugins. */
  lemma {:induction false} FilesKeepOrder(paths: map<string, string>, loadOrder: seq<string>, more: seq<string>)
    ensures Files(paths, loadOrder + more) == Files(paths, loadOrder) + Files(paths, more)
    decreases |more|
  {
    if more == [] {
      assert loadOrder + more == loadOrder;
    } else {
      var front := more[..|more| - 1];
      assert (loadOrder + more)[..|loadOrder + more| - 1] == loadOrder + front;
      FilesKeepOrder(paths, loadOrder, front);
    }
  }

  lemma FilesOfOne(paths: map<string, string>, n: string)
    ensures Files(paths, [n]) == if n in paths then [paths[n]] else []
  {
    assert [n][..0] == [];
  }

  function TimesOf(times: map<string, int>, files: seq<string>): (r: seq<int>)
    requires forall f :: f in files ==> f in times
    ensures |r| == |files| && forall i :: 0 <= i < |r| ==> r[i] == times[files[i]]
  {
    seq(|files|, i requires 0 <= i < |files| => times[files[i]])
  }

  /** The latest timestamp after a walk. */
  function LastOf(times: seq<int>, lastTime: int): int {
    if times == [] then lastTime else Redated(times, lastTime)[|times| - 1]
  }

  lemma {:induction false} RedatedOfNext(times: seq<int>, t: int, lastTime: int)
    ensures Redated(times + [t], lastTime) ==
      Redated(times, lastTime) + [if t >= LastOf(times, lastTime) then t else LastOf(times, lastTime) + INTERVAL]
    ensures LastOf(times + [t], lastTime) ==
      (if t >= LastOf(times, lastTime) then t else LastOf(times, lastTime) + INTERVAL)
    decreases |times|
  {
    if times == [] {
      assert [t][1..] == [];
    } else {
      var next := if times[0] >= lastTime then times[0] else lastTime + INTERVAL;
      assert (times + [t])[1..] == times[1..] + [t];
      RedatedOfNext(times[1..], t, next);
      assert LastOf(times[1..], next) == LastOf(times, lastTime);
    }
  }

  lemma {:induction false} FilesOfPrefix(paths: map<string, string>, loadOrder: seq<string>, i: nat)
    requires i <= |loadOrder|
    ensures Files(paths, loadOrder[..i]) <= Files(paths, loadOrder)
    decreases |loadOrder|
  {
    if i == |loadOrder| {
      assert loadOrder[..i] == loadOrder;
    } else {
      FilesOfPrefix(paths, loadOrder[..|loadOrder| - 1], i);
      assert loadOrder[..|loadOrder| - 1][..i] == loadOrder[..i];
    }
  }

  /** The files walked so far have their new timestamps, and no other file has changed. */
  ghost predicate WalkedOver(files: seq<string>, epoch: int, was: map<string, int>, now: map<string, int>,
                             lastTime: int)
  {
    now.Keys == was.Keys && (forall f :: f in files ==> f in was) &&
    TimesOf(now, files) == Redated(TimesOf(was, files), epoch) && lastTime == LastOf(TimesOf(was, files), epoch) &&
    forall f :: f in was && f !in files ==> now[f] == was[f]
  }

  lemma WalkOn(files: seq<string>, epoch: int, was: map<string, int>, now: map<string, int>, lastTime: int, f: string,
               next: int)
    requires WalkedOver(files, epoch, was, now, lastTime) && f in was && f !in files
    requires next == if now[f] >= lastTime then now[f] else lastTime + INTERVAL
    ensures WalkedOver(files + [f], epoch, was, now[f := next], next)
  {
    hide Redated, LastOf;
    var more := now[f := next];
    assert TimesOf(was, files + [f]) == TimesOf(was, files) + [was[f]];
    RedatedOfNext(TimesOf(was, files), was[f], epoch);
    assert TimesOf(more, files + [f]) == TimesOf(now, files) + [next];
    assert forall g :: g in was && g !in files + [f] ==> g !in files;
  }

  // --- The loop over the files ----------------------------------------------------------

  /** The timestamps of all files during a walk, and the latest one met so far. */
  datatype Walked = Walked(times: map<string, int>, lastTime: int)

  /** One file of a walk. */
  function Step(before: Walked, f: string): (r: Walked)
    requires f in before.times
    ensures r.times.Keys == before.times.Keys
  {
    var next := if before.times[f] >= before.lastTime then before.times[f] else before.lastTime + INTERVAL;
    Walked(before.times[f := next], next)
  }

  /** A walk over files, in the course of which a file that occurs again shows its new timestamp. */
  function Walk(times: map<string, int>, files: seq<string>, epoch: int): (r: Walked)
    requires forall f :: f in files ==> f in times
    ensures r.times.Keys == times.Keys
  {
    if files == [] then Walked(times, epoch)
    else
      Step(Walk(times, files[..|files| - 1], epoch), files[|files| - 1])
  }

  /** Whatever the files, no timestamp goes back, and only files that are walked over change. */
  lemma {:induction false} WalkNeverGoesBack(times: map<string, int>, files: seq<string>, epoch: int)
    requires forall f :: f in files ==> f in times
    ensures forall f :: f in times ==> times[f] <= Walk(times, files, epoch).times[f]
    ensures forall f :: f in times && f !in files ==> times[f] == Walk(times, files, epoch).times[f]
  {
    if files != [] {
      var front := files[..|files| - 1];
      assert files == front + [files[|files| - 1]];
      WalkNeverGoesBack(times, front, epoch);
    }
  }

  /** A walk over different files gives them their new timestamps. */
  lemma {:induction false} WalkOverDistinct(times: map<string, int>, files: seq<string>, epoch: int)
    requires Distinct(files) && forall f :: f in files ==> f in times
    ensures var r := Walk(times, files, epoch); WalkedOver(files, epoch, times, r.times, r.lastTime)
  {
    if files != [] {
      var front, f := files[..|files| - 1], files[|files| - 1];
      assert files == front + [f];
      WalkOverDistinct(times, front, epoch);
      hide WalkedOver;
      var before, r := Walk(times, front, epoch), Walk(times, files, epoch);
      WalkOn(front, epoch, times, before.times, before.lastTime, f, r.lastTime);
    }
  }

  /** No timestamp of the files, and no time that the clock can show first, is later. */
  ghost predicate IsLatest(latest: int, times: map<string, int>, files: seq<string>, epoch: int) {
    epoch <= latest && forall f :: f in files ==> f in times && times[f] <= latest
  }

  /**
   * The files follow each other, and keep to the bound. A file keeps its timestamp if that is not
   * before the one ahead of it; otherwise it gets that of the one ahead, and a minute.
   */
  ghost predicate FollowsOrder(files: seq<string>, epoch: int, was: map<string, int>, now: map<string, int>)
    requires forall f :: f in files ==> f in was && f in now
  {
    NonDecreasing(TimesOf(now, files)) &&
    (forall i :: 0 <= i < |files| ==> IsPlaced(files, epoch, was, now, i)) &&
    forall latest, f :: IsLatest(latest, was, files, epoch) && f in files ==>
      now[f] <= latest + INTERVAL * Changes(TimesOf(was, files), TimesOf(now, files))
  }

  /** The timestamp of a file behind one with timestamp `ahead`. */
  function Placed(time: int, ahead: int): int {
    if time < ahead then ahead + 60 else time
  }

  lemma {:induction false} RedatedIsPlaced(times: seq<int>, lastTime: int, i: nat)
    requires i < |times|
    ensures var r := Redated(times, lastTime);
            r[i] == Placed(times[i], if i == 0 then lastTime else r[i - 1])
    decreases |times|
  {
    var next := if times[0] >= lastTime then times[0] else lastTime + INTERVAL;
    if i > 0 {
      RedatedIsPlaced(times[1..], next, i - 1);
    }
  }

  ghost predicate IsPlaced(files: seq<string>, epoch: int, was: map<string, int>, now: map<string, int>, i: int)
    requires 0 <= i < |files| && forall f :: f in files ==> f in was && f in now
  {
    now[files[i]] == Placed(was[files[i]], if i == 0 then epoch else now[files[i - 1]])
  }

  lemma FileIsPlaced(was: map<string, int>, now: map<string, int>, files: seq<string>, epoch: int, i: nat)
    requires (forall g :: g in files ==> g in was && g in now) && i < |files|
    requires TimesOf(now, files) == Redated(TimesOf(was, files), epoch)
    ensures IsPlaced(files, epoch, was, now, i)
  {
    hide Redated, Placed;
    RedatedIsPlaced(TimesOf(was, files), epoch, i);
    assert TimesOf(now, files)[i] == now[files[i]];
    assert i > 0 ==> TimesOf(now, files)[i - 1] == now[files[i - 1]];
  }

  /** The new timestamps keep to the bound. */
  lemma FileIsBounded(was: map<string, int>, now: map<string, int>, files: seq<string>, epoch: int, latest: int,
                      f: string)
    requires (forall g :: g in files ==> g in was && g in now) && f in files && IsLatest(latest, was, files, epoch)
    requires TimesOf(now, files) == Redated(TimesOf(was, files), epoch)
    ensures now[f] <= latest + INTERVAL * Changes(TimesOf(was, files), TimesOf(now, files))
  {
    hide Redated, Changes;
    RedatedIsBounded(TimesOf(was, files), epoch, latest);
    var i :| 0 <= i < |files| && files[i] == f;
    assert TimesOf(now, files)[i] == now[f];
  }

  lemma OrderOfRest(t: int, times: seq<int>)
    requires NonDecreasing([t] + times)
    ensures NonDecreasing(times)
  {
    assert times == ([t] + times)[1..];
  }

  /** This is how different files fare. */
  lemma WalkFollowsOrder(times: map<string, int>, files: seq<string>, epoch: int)
    requires Distinct(files) && forall f :: f in files ==> f in times
    ensures FollowsOrder(files, epoch, times, Walk(times, files, epoch).times)
  {
    hide Redated, NonDecreasing, TimesOf, Changes, Walk, IsLatest, LastOf, IsPlaced;
    var was, now := TimesOf(times, files), Walk(times, files, epoch).times;
    WalkOverDistinct(times, files, epoch);
    RedatedIsOrdered(was, epoch);
    OrderOfRest(epoch, Redated(was, epoch));
    forall i | 0 <= i < |files| ensures IsPlaced(files, epoch, times, now, i) {
      FileIsPlaced(times, now, files, epoch, i);
    }
    forall latest, f | IsLatest(latest, times, files, epoch) && f in files
      ensures now[f] <= latest + INTERVAL * Changes(was, TimesOf(now, files))
    {
      FileIsBounded(times, now, files, epoch, latest, f);
    }
  }

  // --- Files that occur more than once --------------------------------------------------

  /** No file that has been met before is older than the latest one met. */
  ghost predicate NoneIsRedatedAgain(times: map<string, int>, files: seq<string>, epoch: int)
    requires forall f :: f in files ==> f in times
  {
    forall j :: 0 <= j < |files| && files[j] in files[..j] ==>
      var before := Walk(times, files[..j], epoch); before.times[files[j]] >= before.lastTime
  }

  /** The latest timestamp is that of the last file, and none of the files' is later. */
  lemma {:induction false} LastIsLatest(times: map<string, int>, files: seq<string>, epoch: int)
    requires forall f :: f in files ==> f in times
    ensures var r := Walk(times, files, epoch);
            epoch <= r.lastTime && (files != [] ==> r.times[files[|files| - 1]] == r.lastTime) &&
            forall f :: f in files ==> epoch <= r.times[f] <= r.lastTime
  {
    if files != [] {
      var front := files[..|files| - 1];
      assert files == front + [files[|files| - 1]];
      LastIsLatest(times, front, epoch);
    }
  }

  /** How often a walk redates a file. */
  function Redatings(times: map<string, int>, files: seq<string>, epoch: int): nat
    requires forall f :: f in files ==> f in times
  {
    if files == [] then 0
    else
      var before := Walk(times, files[..|files| - 1], epoch);
      Redatings(times, files[..|files| - 1], epoch) +
      (if before.times[files[|files| - 1]] < before.lastTime then 1 else 0)
  }

  /** Whatever the files, no timestamp passes the latest one by more than a minute for each redating. */
  lemma {:induction false} WalkIsBounded(times: map<string, int>, files: seq<string>, epoch: int, latest: int)
    requires IsLatest(latest, times, files, epoch)
    ensures var r, bound := Walk(times, files, epoch), latest + INTERVAL * Redatings(times, files, epoch);
            r.lastTime <= bound && forall f :: f in files ==> r.times[f] <= bound
  {
    if files != [] {
      var front, f := files[..|files| - 1], files[|files| - 1];
      assert files == front + [f];
      WalkIsBounded(times, front, epoch, latest);
      WalkNeverGoesBack(times, front, epoch);
    }
  }

  lemma NoneIsRedatedAgainSplit(times: map<string, int>, files: seq<string>, epoch: int)
    requires files != [] && forall f :: f in files ==> f in times
    ensures var front, f := files[..|files| - 1], files[|files| - 1];
            var before := Walk(times, front, epoch);
            NoneIsRedatedAgain(times, files, epoch) <==>
            NoneIsRedatedAgain(times, front, epoch) && (f in front ==> before.times[f] >= before.lastTime)
  {
    hide Walk;
    var front := files[..|files| - 1];
    assert forall j :: 0 <= j < |front| ==> files[..j] == front[..j] && files[j] == front[j];
    assert files[..|front|] == front;
  }

  /** After a step, the files are in order if they were and the step does not redate one of them again. */
  lemma StepKeepsOrder(before: Walked, front: seq<string>, f: string)
    requires f in before.times && (forall g :: g in front ==> g in before.times && before.times[g] <= before.lastTime)
    requires front != [] ==> before.times[front[|front| - 1]] == before.lastTime
    ensures var now := Step(before, f).times;
            NonDecreasing(TimesOf(now, front + [f])) <==>
            NonDecreasing(TimesOf(before.times, front)) && (f in front ==> before.times[f] >= before.lastTime)
  {
    var was, now := before.times, Step(before, f).times;
    var all := TimesOf(now, front + [f]);
    if f in front && was[f] < before.lastTime {
      var i :| 0 <= i < |front| && front[i] == f;
      assert all[i] > all[|front| - 1];
    } else {
      assert all == TimesOf(was, front) + [now[f]];
      OrderOfNext(TimesOf(was, front), now[f]);
    }
  }

  lemma OrderOfNext(times: seq<int>, t: int)
    ensures NonDecreasing(times + [t]) <==> NonDecreasing(times) && (times != [] ==> times[|times| - 1] <= t)
  {
    var all := times + [t];
    if NonDecreasing(all) {
      forall i, j | 0 <= i < j < |times| ensures times[i] <= times[j] {
        assert all[i] <= all[j];
      }
      assert times != [] ==> all[|times| - 1] <= all[|times|];
    }
  }

  lemma OrderOfNextFile(times: map<string, int>, front: seq<string>, f: string)
    requires f in times && forall g :: g in front ==> g in times
    ensures NonDecreasing(TimesOf(times, front + [f])) <==>
            NonDecreasing(TimesOf(times, front)) && (front != [] ==> times[front[|front| - 1]] <= times[f])
  {
    assert TimesOf(times, front + [f]) == TimesOf(times, front) + [times[f]];
    OrderOfNext(TimesOf(times, front), times[f]);
  }

  /** The files end up in order if and only if no file is redated when it is met again. */
  lemma {:induction false} OrderedExactlyIfNoneRedatedAgain(times: map<string, int>, files: seq<string>, epoch: int)
    requires forall f :: f in files ==> f in times
    ensures NonDecreasing(TimesOf(Walk(times, files, epoch).times, files)) <==> NoneIsRedatedAgain(times, files, epoch)
  {
    if files != [] {
      var front, f := files[..|files| - 1], files[|files| - 1];
      assert files == front + [f];
      OrderedExactlyIfNoneRedatedAgain(times, front, epoch);
      LastIsLatest(times, front, epoch);
      NoneIsRedatedAgainSplit(times, files, epoch);
      StepKeepsOrder(Walk(times, front, epoch), front, f);
    }
  }

  /** A walk changes nothing if and only if the files are in order already, and none is older than the clock. */
  lemma {:induction false} OnlyOrderedFilesStay(times: map<string, int>, files: seq<string>, epoch: int)
    requires forall f :: f in files ==> f in times
    ensures Walk(times, files, epoch).times == times <==>
            NonDecreasing(TimesOf(times, files)) && forall f :: f in files ==> epoch <= times[f]
  {
    if files != [] {
      hide NonDecreasing, Step, TimesOf;
      var front, f := files[..|files| - 1], files[|files| - 1];
      assert files == front + [f];
      OnlyOrderedFilesStay(times, front, epoch);
      LastIsLatest(times, front, epoch);
      WalkNeverGoesBack(times, front, epoch);
      var before := Walk(times, front, epoch);
      StepStays(before, f, times);
      OrderOfNextFile(times, front, f);
      assert before.times == times && front != [] ==> before.lastTime == times[front[|front| - 1]];
    }
  }

  /** A step that leaves everything as it was at first has met a file that follows the others. */
  lemma StepStays(before: Walked, f: string, times: map<string, int>)
    requires f in before.times && before.times.Keys == times.Keys
    requires forall g :: g in times ==> times[g] <= before.times[g]
    ensures Step(before, f).times == times <==> before.times == times && before.lastTime <= times[f]
  {
    var now := Step(before, f).times;
    assert forall g :: g in times ==> before.times[g] <= now[g];
  }

  /** A second walk changes nothing if and only if the first redated no file that it had met before. */
  lemma WalkingTwiceIsWalkingOnce(times: map<string, int>, files: seq<string>, epoch: int)
    requires forall f :: f in files ==> f in times
    ensures var once := Walk(times, files, epoch).times;
            Walk(once, files, epoch).times == once <==> NoneIsRedatedAgain(times, files, epoch)
    ensures Distinct(files) ==> NoneIsRedatedAgain(times, files, epoch)
  {
    OrderedExactlyIfNoneRedatedAgain(times, files, epoch);
    LastIsLatest(times, files, epoch);
    OnlyOrderedFilesStay(Walk(times, files, epoch).times, files, epoch);
  }

  /** If two plugins share a file, it can end up out of order, and a second walk changes more. */
  lemma SharedFileBreaksOrder()
    ensures var times, files := map["f" := 100, "g" := 50], ["f", "g", "f"];
            var once := Walk(times, files, 0).times;
            !NonDecreasing(TimesOf(once, files)) && Walk(once, files, 0).times != once
  {
    var times, once := map["f" := 100, "g" := 50], map["f" := 220, "g" := 160];
    WalkOverThree(times, "f", "g", "f", 0);
    assert Walk(times, ["f", "g", "f"], 0).times == once;
    WalkOverThree(once, "f", "g", "f", 0);
    assert TimesOf(once, ["f", "g", "f"])[0] > TimesOf(once, ["f", "g", "f"])[1];
  }

  lemma WalkOverThree(times: map<string, int>, f: string, g: string, h: string, epoch: int)
    requires f in times && g in times && h in times
    ensures var a := Step(Walked(times, epoch), f);
            Walk(times, [f, g, h], epoch) == Step(Step(a, g), h)
  {
    assert [f, g, h][..2] == [f, g] && [f, g][..1] == [f] && [f][..0] == [];
    assert Walk(times, [f], epoch) == Step(Walk(times, [], epoch), f);
    assert Walk(times, [f, g], epoch) == Step(Walk(times, [f], epoch), g);
  }

  /** Redates one file if it is older than the one before it. */
  method RedateFile(fs: FileSystem, filepath: string, lastTime: int) returns (next: int)
    requires filepath in fs.times
    modifies fs`times
    ensures next == if old(fs.times)[filepath] >= lastTime then old(fs.times)[filepath] else lastTime + INTERVAL
    ensures fs.times == old(fs.times)[filepath := next]
  {
    var thisTime := fs.times[filepath];
    if thisTime >= lastTime {
      next := thisTime;
    } else {
      next := lastTime + INTERVAL;
      fs.times := fs.times[filepath := next];
    }
  }

  lemma NextFile(paths: map<string, string>, loadOrder: seq<string>, i: nat)
    requires i < |loadOrder|
    ensures var front := Files(paths, loadOrder[..i]);
            if loadOrder[i] in paths
            then Files(paths, loadOrder[..i + 1]) == front + [paths[loadOrder[i]]]
            else Files(paths, loadOrder[..i + 1]) == front
    ensures forall f :: f in Files(paths, loadOrder[..i + 1]) ==> f in Files(paths, loadOrder)
  {
    assert loadOrder[..i + 1][..i] == loadOrder[..i];
    FilesOfPrefix(paths, loadOrder, i + 1);
  }

  /**
   * Redates the files of a load order, if the game allows it. `epoch` is the least time that the
   * clock can show. Timestamps then follow the load order exactly if no file is redated again.
   */
  method RedatePlugins(fs: FileSystem, loadOrder: seq<string>, allowed: bool, epoch: int)
    requires forall f :: f in Files(fs.paths, loadOrder) ==> f in fs.times
    modifies fs`times
    ensures fs.times == if allowed then Walk(old(fs.times), Files(fs.paths, loadOrder), epoch).times else old(fs.times)
    ensures forall f :: f in old(fs.times) ==> old(fs.times)[f] <= fs.times[f]
    ensures forall f :: f in old(fs.times) && f !in Files(fs.paths, loadOrder) ==> old(fs.times)[f] == fs.times[f]
    ensures allowed && Distinct(Files(fs.paths, loadOrder)) ==>
              FollowsOrder(Files(fs.paths, loadOrder), epoch, old(fs.times), fs.times)
    ensures allowed ==>
              (NonDecreasing(TimesOf(fs.times, Files(fs.paths, loadOrder))) <==>
               NoneIsRedatedAgain(old(fs.times), Files(fs.paths, loadOrder), epoch))
  {
    hide Files, FollowsOrder, NonDecreasing, NoneIsRedatedAgain, Distinct;
    if !allowed {
      return;
    }
    ghost var was, files := fs.times, Files(fs.paths, loadOrder);
    var lastTime := epoch;
    NoFiles(fs.paths, loadOrder);
    for i := 0 to |loadOrder|
      invariant forall f :: f in Files(fs.paths, loadOrder[..i]) ==> f in was
      invariant Walked(fs.times, lastTime) == Walk(was, Files(fs.paths, loadOrder[..i]), epoch)
    {
      NextFile(fs.paths, loadOrder, i);
      ghost var front := Files(fs.paths, loadOrder[..i]);
      if loadOrder[i] in fs.paths {
        var filepath := fs.paths[loadOrder[i]];
        assert (front + [filepath])[..|front|] == front && filepath in front + [filepath];
        lastTime := RedateFile(fs, filepath, lastTime);
      }
    }
    assert loadOrder[..|loadOrder|] == loadOrder;
    WalkNeverGoesBack(was, files, epoch);
    OrderedExactlyIfNoneRedatedAgain(was, files, epoch);
    if Distinct(files) {
      WalkFollowsOrder(was, files, epoch);
    }
  }

  lemma NoFiles(paths: map<string, string>, loadOrder: seq<string>)
    ensures Files(paths, loadOrder[..0]) == []
  {
  }
}
