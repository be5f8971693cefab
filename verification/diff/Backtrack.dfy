/** The second phase of the diff: the snapshots are walked backwards to rebuild the path. */
module Backtrack {
  import opened Options
  import opened EditScripts
  import opened EditGraph
  import opened GreedyScripts
  import opened ShortestPath

  datatype Move = Move(prevX: int, prevY: int, x: int, y: int)

  /** A unit step inside the grid; a diagonal one joins equal rows. */
  predicate IsStep(a: seq<string>, b: seq<string>, m: Move) {
    0 <= m.prevX <= m.x <= |a| && 0 <= m.prevY <= m.y <= |b| &&
    if m.x == m.prevX then m.y == m.prevY + 1
    else if m.y == m.prevY then m.x == m.prevX + 1
    else m.x == m.prevX + 1 && m.y == m.prevY + 1 && a[m.prevX] == b[m.prevY]
  }

  /** The moves, latest first, form an unbroken chain of steps from (x, y) to the end. */
  ghost predicate LeadsToEnd(a: seq<string>, b: seq<string>, moves: seq<Move>, x: int, y: int)
    decreases |moves|
  {
    if moves == [] then
      x == |a| && y == |b|
    else
      var last := moves[|moves| - 1];
      IsStep(a, b, last) && last.prevX == x && last.prevY == y &&
      LeadsToEnd(a, b, moves[..|moves| - 1], last.x, last.y)
  }

  /** What a move does to the rows of `a`. */
  function EditOf(b: seq<string>, m: Move): Edit {
    if m.x == m.prevX then (if 0 <= m.prevY < |b| then Insert(b[m.prevY]) else Keep)
    else if m.y == m.prevY then Remove
    else Keep
  }

  /** The edit script that the moves spell when read from the last one pushed to the first. */
  function ScriptOf(b: seq<string>, moves: seq<Move>): (s: seq<Edit>)
    ensures |s| == |moves|
    decreases |moves|
  {
    if moves == [] then []
    else [EditOf(b, moves[|moves| - 1])] + ScriptOf(b, moves[..|moves| - 1])
  }

  /** Pushing a greedy step leaves a greedy script. */
  lemma PushGreedy(a: seq<string>, b: seq<string>, moves: seq<Move>, m: Move, c: int)
    requires IsStep(a, b, m) && LeadsToEnd(a, b, moves, m.x, m.y)
    requires IsGreedyStep(a, b, m.prevX, m.prevY, c, EditOf(b, m))
    requires IsGreedyFrom(ScriptOf(b, moves), a, b, m.x, m.y, if EditOf(b, m).Keep? then c else c + 1)
    ensures IsGreedyFrom(ScriptOf(b, moves + [m]), a, b, m.prevX, m.prevY, c)
  {
    hide IsGreedyStep, IsGreedyFrom;
    PushMove(a, b, moves, m);
    GreedyCons(EditOf(b, m), ScriptOf(b, moves), a, b, m.prevX, m.prevY, c);
  }

  lemma PushMove(a: seq<string>, b: seq<string>, moves: seq<Move>, m: Move)
    requires LeadsToEnd(a, b, moves, m.x, m.y) && IsStep(a, b, m)
    ensures LeadsToEnd(a, b, moves + [m], m.prevX, m.prevY)
    ensures ScriptOf(b, moves + [m]) == [EditOf(b, m)] + ScriptOf(b, moves)
    ensures Cost(ScriptOf(b, moves + [m])) == Cost(ScriptOf(b, moves)) + (if EditOf(b, m).Keep? then 0 else 1)
  {
  }

  /** A chain of steps is a script that turns the remaining rows of `a` into those of `b`. */
  lemma {:induction false} ChainIsScript(a: seq<string>, b: seq<string>, moves: seq<Move>, x: int, y: int)
    requires LeadsToEnd(a, b, moves, x, y)
    ensures 0 <= x <= |a| && 0 <= y <= |b|
    ensures Run(ScriptOf(b, moves), a[x..]) == Some(b[y..])
    decreases |moves|
  {
    if moves == [] {
      assert a[x..] == [] && b[y..] == [];
    } else {
      var last := moves[|moves| - 1];
      var rest := ScriptOf(b, moves[..|moves| - 1]);
      ChainIsScript(a, b, moves[..|moves| - 1], last.x, last.y);
      assert ([EditOf(b, last)] + rest)[1..] == rest;
      assert x < |a| ==> a[x..][1..] == a[x + 1..];
      assert y < |b| ==> b[y..] == [b[y]] + b[y + 1..];
    }
  }

  lemma EndIsFurthest(a: seq<string>, b: seq<string>, trace: seq<seq<int>>)
    requires IsShortestTrace(a, b, trace)
    ensures OnRound(|trace| - 1, |a| - |b|) && Furthest(a, b, |trace| - 1, |a| - |b|) == |a|
  {
    hide Furthest, Reach, IsTrace;
    EndIsHit(a, b, |trace| - 1);
    HitIsTheEnd(a, b, |trace| - 1, |a| - |b|);
  }

  /** The diagonal from which round d entered diagonal k, read off its snapshot. */
  function PrevK(s: seq<int>, origin: nat, d: nat, k: int): (prevK: int)
    requires |s| == 2 * origin + 1 && d <= origin && OnRound(d, k) && origin >= 1
    ensures 0 <= origin + prevK < |s| && (prevK == k + 1 || prevK == k - 1)
  {
    if TakesDown(s, origin, d, k) then k + 1 else k - 1
  }

  /** All rows from `lo` up to `hi` on diagonal k are equal. */
  ghost predicate AllMatch(a: seq<string>, b: seq<string>, lo: int, hi: int, k: int) {
    forall i {:trigger Matches(a, b, i, k)} :: lo <= i < hi ==> Matches(a, b, i, k)
  }

  /** Round d got to diagonal k by a step from (prevX, prevY) and then followed equal rows. */
  ghost predicate EntersFrom(a: seq<string>, b: seq<string>, d: nat, k: int, prevX: int, prevY: int)
    requires OnRound(d, k)
  {
    (prevX - prevY == k + 1 || prevX - prevY == k - 1) && 0 <= prevX &&
    EntryRow(k, prevX, prevY) <= Furthest(a, b, d, k) &&
    AllMatch(a, b, EntryRow(k, prevX, prevY), Furthest(a, b, d, k), k) &&
    (d == 0 ==> prevX == 0 && prevY == -1 && k == 0) &&
    (d > 0 ==> prevX - prevY == From(a, b, d, k) && prevX == Furthest(a, b, d - 1, prevX - prevY) && 0 <= prevY)
  }

  /** The row at which diagonal k is entered from (prevX, prevY). */
  function EntryRow(k: int, prevX: int, prevY: int): int {
    if prevX - prevY > k then prevX else prevX + 1
  }

  lemma SnapshotTellsEntry(a: seq<string>, b: seq<string>, d: nat, k: int, s: seq<int>)
    requires Holds(a, b, d - 1, d + 1, s) && d <= Origin(a, b) && OnRound(d, k)
    ensures var prevK := PrevK(s, Origin(a, b), d, k);
            var prevX := s[Origin(a, b) + prevK];
            EntersFrom(a, b, d, k, prevX, prevX - prevK)
  {
    ChoiceMatchesRecurrence(a, b, d, k, s);
    FurthestFollowsSnake(a, b, d, k);
    hide Furthest, Start;
    assert d == 0 || OnRound(d - 1, PrevK(s, Origin(a, b), d, k));
  }

  /** The step onto a diagonal is never a diagonal one. */
  lemma EntryIsStep(a: seq<string>, b: seq<string>, d: nat, k: int, prevX: int, prevY: int)
    requires d > 0 && OnRound(d, k) && EntersFrom(a, b, d, k, prevX, prevY)
    requires EntryRow(k, prevX, prevY) <= |a| && EntryRow(k, prevX, prevY) - k <= |b|
    ensures var m := Move(prevX, prevY, EntryRow(k, prevX, prevY), EntryRow(k, prevX, prevY) - k);
            IsStep(a, b, m) && !EditOf(b, m).Keep? && IsGreedyStep(a, b, prevX, prevY, d - 1, EditOf(b, m))
  {
    hide Furthest, IsGreedyStep;
    EntryIsGreedy(a, b, d, k, EditOf(b, Move(prevX, prevY, EntryRow(k, prevX, prevY), EntryRow(k, prevX, prevY) - k)));
  }

  /** Walks back along diagonal k until the previous row or column is reached. */
  method RetraceDiagonal(list1: seq<string>, list2: seq<string>, ghost d: nat, startX: nat, startY: nat,
                         prevX: int, prevY: int, earlier: seq<Move>)
    returns (moves: seq<Move>, x: nat, y: nat)
    requires OnRound(d, startX - startY) && startX == Furthest(list1, list2, d, startX - startY)
    requires EntersFrom(list1, list2, d, startX - startY, prevX, prevY)
    requires LeadsToEnd(list1, list2, earlier, startX, startY)
    requires IsGreedyFrom(ScriptOf(list2, earlier), list1, list2, startX, startY, d)
    ensures x == EntryRow(startX - startY, prevX, prevY) && y == x - (startX - startY)
    ensures x <= |list1| && y <= |list2| && LeadsToEnd(list1, list2, moves, x, y)
    ensures Cost(ScriptOf(list2, moves)) == Cost(ScriptOf(list2, earlier))
    ensures IsGreedyFrom(ScriptOf(list2, moves), list1, list2, x, y, d)
  {
    ChainIsScript(list1, list2, earlier, startX, startY);
    hide LeadsToEnd, ScriptOf, Cost, Furthest, OnRound, IsGreedyFrom;
    moves, x, y := earlier, startX, startY;
    while x > prevX && y > prevY
      invariant x - y == startX - startY && EntryRow(startX - startY, prevX, prevY) <= x <= startX
      invariant LeadsToEnd(list1, list2, moves, x, y)
      invariant Cost(ScriptOf(list2, moves)) == Cost(ScriptOf(list2, earlier))
      invariant IsGreedyFrom(ScriptOf(list2, moves), list1, list2, x, y, d)
    {
      assert Matches(list1, list2, x - 1, startX - startY);
      var m := Move(x - 1, y - 1, x, y);
      PushGreedy(list1, list2, moves, m, d);
      PushMove(list1, list2, moves, m);
      moves, x, y := moves + [m], x - 1, y - 1;
    }
  }

  /** The point before round d stepped onto diagonal k. */
  method FindEntry(list1: seq<string>, list2: seq<string>, snapshot: seq<int>, d: nat, k: int)
    returns (prevX: int, prevY: int)
    requires Holds(list1, list2, d - 1, d + 1, snapshot) && d <= Origin(list1, list2) && OnRound(d, k)
    ensures EntersFrom(list1, list2, d, k, prevX, prevY)
  {
    SnapshotTellsEntry(list1, list2, d, k, snapshot);
    var prevK := PrevK(snapshot, |list1| + |list2|, d, k);
    prevX := snapshot[|list1| + |list2| + prevK];
    prevY := prevX - prevK;
  }

  /** Walks back one round: along the diagonal it followed, then over the step by which it got there. */
  method RetraceRound(list1: seq<string>, list2: seq<string>, snapshot: seq<int>, d: nat, startX: nat, startY: nat,
                      earlier: seq<Move>)
    returns (moves: seq<Move>, x: int, y: int)
    requires Holds(list1, list2, d - 1, d + 1, snapshot) && d <= Origin(list1, list2)
    requires OnRound(d, startX - startY) && startX == Furthest(list1, list2, d, startX - startY)
    requires LeadsToEnd(list1, list2, earlier, startX, startY)
    requires IsGreedyFrom(ScriptOf(list2, earlier), list1, list2, startX, startY, d)
    ensures d > 0 ==> x >= 0 && y >= 0 && OnRound(d - 1, x - y) && x == Furthest(list1, list2, d - 1, x - y)
    ensures LeadsToEnd(list1, list2, moves, if d == 0 then 0 else x, if d == 0 then 0 else y)
    ensures Cost(ScriptOf(list2, moves)) == Cost(ScriptOf(list2, earlier)) + (if d == 0 then 0 else 1)
    ensures IsGreedyFrom(ScriptOf(list2, moves), list1, list2, if d == 0 then 0 else x, if d == 0 then 0 else y,
                         if d == 0 then 0 else d - 1)
  {
    hide Furthest, Holds, LeadsToEnd, ScriptOf, Cost, AllMatch, OnRound, IsStep, EditOf, IsGreedyFrom, IsGreedyStep;
    x, y := FindEntry(list1, list2, snapshot, d, startX - startY);
    var entryX, entryY;
    moves, entryX, entryY := RetraceDiagonal(list1, list2, d, startX, startY, x, y, earlier);
    if d > 0 {
      EntryIsStep(list1, list2, d, startX - startY, x, y);
      PushGreedy(list1, list2, moves, Move(x, y, entryX, entryY), d - 1);
      PushMove(list1, list2, moves, Move(x, y, entryX, entryY));
      moves := moves + [Move(x, y, entryX, entryY)];
    }
  }

  /** Rebuilds a path with as many insertions and deletions as the trace has rounds after the first. */
  method BacktrackTrace(list1: seq<string>, list2: seq<string>, trace: seq<seq<int>>) returns (moves: seq<Move>)
    requires IsShortestTrace(list1, list2, trace)
    ensures LeadsToEnd(list1, list2, moves, 0, 0)
    ensures Cost(ScriptOf(list2, moves)) == |trace| - 1 && IsGreedy(ScriptOf(list2, moves), list1, list2)
  {
    EndIsFurthest(list1, list2, trace);
    hide Furthest, LeadsToEnd, Reach, Cost, ScriptOf, IsGreedyFrom;
    var x, y := |list1|, |list2|;
    moves := [];
    StartOfChain(list1, list2);
    var d := |trace| - 1;
    while d >= 0
      invariant -1 <= d < |trace|
      invariant d >= 0 ==> x >= 0 && y >= 0 && OnRound(d, x - y) && x == Furthest(list1, list2, d, x - y)
      invariant LeadsToEnd(list1, list2, moves, if d >= 0 then x else 0, if d >= 0 then y else 0)
      invariant Cost(ScriptOf(list2, moves)) == |trace| - 1 - (if d >= 0 then d else 0)
      invariant IsGreedyFrom(ScriptOf(list2, moves), list1, list2, if d >= 0 then x else 0, if d >= 0 then y else 0,
                             if d >= 0 then d else 0)
    {
      moves, x, y := RetraceRound(list1, list2, trace[d], d, x, y, moves);
      d := d - 1;
    }
  }

  lemma StartOfChain(a: seq<string>, b: seq<string>)
    ensures LeadsToEnd(a, b, [], |a|, |b|) && Cost(ScriptOf(b, [])) == 0
    ensures forall c :: IsGreedyFrom(ScriptOf(b, []), a, b, |a|, |b|, c)
  {
  }
}
