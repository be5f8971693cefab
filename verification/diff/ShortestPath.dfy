/** The search phase of the diff: greedy rounds over one array, snapshotted once per round. */
module ShortestPath {
  import opened EditGraph

  /** Diagonal k lives at index Origin + k. */
  function Origin(a: seq<string>, b: seq<string>): nat {
    |a| + |b|
  }

  /**
   * `s` holds what round d left on its diagonals below `end`. Round -1 stands for the seed
   * that lets round 0 start at (0, 0): a down step from (0, -1).
   */
  ghost predicate Holds(a: seq<string>, b: seq<string>, d: int, end: int, s: seq<int>) {
    |s| == 2 * Origin(a, b) + 1 && -1 <= d <= Origin(a, b) && Origin(a, b) >= 1 &&
    (d == -1 ==> s[Origin(a, b) + 1] == 0) &&
    (d >= 0 ==> forall j {:trigger OnRound(d, j)} :: OnRound(d, j) && j < end ==>
      s[Origin(a, b) + j] == Furthest(a, b, d, j))
  }

  /** Snapshot d of a trace shows what round d - 1 left behind, which is all that round d reads. */
  ghost predicate IsTrace(a: seq<string>, b: seq<string>, trace: seq<seq<int>>) {
    forall d {:trigger trace[d]} :: 0 <= d < |trace| ==> d <= Origin(a, b) && Holds(a, b, d - 1, d + 1, trace[d])
  }

  /** What makes a trace the record of a shortest search. */
  ghost predicate IsShortestTrace(a: seq<string>, b: seq<string>, trace: seq<seq<int>>) {
    |trace| >= 1 && IsTrace(a, b, trace) &&
    Reach(a, b, |trace| - 1, |a|, |b|) &&
    forall d: nat :: d < |trace| - 1 ==> !Reach(a, b, d, |a|, |b|)
  }

  /** The choice that round d makes on diagonal k, read off the array. */
  predicate TakesDown(s: seq<int>, origin: nat, d: nat, k: int)
    requires |s| == 2 * origin + 1 && d <= origin && OnRound(d, k) && origin >= 1
  {
    k + d == 0 || (k != d && s[origin + k - 1] < s[origin + k + 1])
  }

  lemma ChoiceMatchesRecurrence(a: seq<string>, b: seq<string>, d: nat, k: int, s: seq<int>)
    requires Holds(a, b, d - 1, d + 1, s) && OnRound(d, k) && d <= Origin(a, b)
    ensures TakesDown(s, Origin(a, b), d, k) <==> d == 0 || ComesDown(a, b, d, k)
    ensures Start(a, b, d, k) ==
            if TakesDown(s, Origin(a, b), d, k) then s[Origin(a, b) + k + 1]
            else s[Origin(a, b) + k - 1] + 1
  {
    hide Furthest;
    assert OnRound(d - 1, k - 1) || k + d == 0;
    assert OnRound(d - 1, k + 1) || k == d;
  }

  lemma NothingHeldYet(a: seq<string>, b: seq<string>, d: nat, s: seq<int>)
    requires Holds(a, b, d - 1, d + 1, s) && d <= Origin(a, b)
    ensures OnRound(d, 0 - d) && Holds(a, b, d, 0 - d, s) && Missed(a, b, d, 0 - d)
  {
  }

  /** Writing one diagonal of round d leaves alone everything that round d still reads. */
  lemma WriteKeepsRounds(a: seq<string>, b: seq<string>, d: nat, k: int, s: seq<int>)
    requires Holds(a, b, d - 1, d + 1, s) && Holds(a, b, d, k, s) && OnRound(d, k)
    ensures var s' := s[Origin(a, b) + k := Furthest(a, b, d, k)];
            Holds(a, b, d - 1, d + 1, s') && Holds(a, b, d, k + 2, s')
  {
    hide Furthest;
    forall j | OnRound(d, j) && j < k + 2 ensures j <= k {
    }
  }

  /** Round d has not got past the end on any of its diagonals below `end`. */
  ghost predicate Missed(a: seq<string>, b: seq<string>, d: nat, end: int) {
    forall j {:trigger OnRound(d, j)} :: OnRound(d, j) && j < end ==> !Hit(a, b, d, j)
  }

  lemma MissOneMore(a: seq<string>, b: seq<string>, d: nat, k: int)
    requires OnRound(d, k) && Missed(a, b, d, k) && !Hit(a, b, d, k)
    ensures Missed(a, b, d, k + 2) && (k == d || (k + 2 <= d && OnRound(d, k + 2)))
  {
  }

  lemma MissedTheEnd(a: seq<string>, b: seq<string>, d: nat)
    requires Missed(a, b, d, d + 2)
    ensures !Reach(a, b, d, |a|, |b|)
  {
    hide Hit;
    if Reach(a, b, d, |a|, |b|) {
      EndIsHit(a, b, d);
    }
  }

  /** Enters diagonal k from the better neighbour. */
  method EnterDiagonal(list1: seq<string>, list2: seq<string>, v: array<int>, d: nat, k: int) returns (x: int)
    requires v.Length == 2 * Origin(list1, list2) + 1 && d <= Origin(list1, list2)
    requires Holds(list1, list2, d - 1, d + 1, v[..]) && OnRound(d, k)
    ensures x == Start(list1, list2, d, k)
  {
    ChoiceMatchesRecurrence(list1, list2, d, k, v[..]);
    hide Furthest, Start, ComesDown, Holds;
    var origin := |list1| + |list2|;
    if k == 0 - d || (k != d && v[origin + k - 1] < v[origin + k + 1]) {
      x := v[origin + k + 1];
    } else {
      x := v[origin + k - 1] + 1;
    }
  }

  /** Enters diagonal k and then steps over equal rows. */
  method ExtendDiagonal(list1: seq<string>, list2: seq<string>, v: array<int>, d: nat, k: int) returns (x: int)
    requires v.Length == 2 * Origin(list1, list2) + 1 && d <= Origin(list1, list2)
    requires Holds(list1, list2, d - 1, d + 1, v[..]) && OnRound(d, k)
    ensures x == Furthest(list1, list2, d, k)
  {
    FurthestFollowsSnake(list1, list2, d, k);
    hide Furthest, Start, Holds, OnRound;
    x := EnterDiagonal(list1, list2, v, d, k);
    var y := x - k;
    while x < |list1| && y < |list2| && list1[x] == list2[y]
      invariant 0 <= x && 0 <= y == x - k
      invariant Snake(list1, list2, x, k) == Furthest(list1, list2, d, k)
      decreases |list1| - x
    {
      x := x + 1;
      y := y + 1;
    }
  }

  /** One round of the search: extends every diagonal of d's parity, stopping early at the end. */
  method SearchRound(list1: seq<string>, list2: seq<string>, v: array<int>, d: nat) returns (found: bool)
    requires v.Length == 2 * Origin(list1, list2) + 1 && d <= Origin(list1, list2)
    requires Holds(list1, list2, d - 1, d + 1, v[..])
    requires forall e: nat :: e < d ==> !Reach(list1, list2, e, |list1|, |list2|)
    modifies v
    ensures found <==> Reach(list1, list2, d, |list1|, |list2|)
    ensures !found ==> Holds(list1, list2, d, d + 2, v[..])
  {
    var origin := |list1| + |list2|;
    var k: int := 0 - d;
    NothingHeldYet(list1, list2, d, v[..]);
    hide Furthest, Reach, Holds, Missed;
    while k <= d
      invariant 0 - d <= k && (k == d + 2 || (k <= d && OnRound(d, k)))
      invariant Holds(list1, list2, d - 1, d + 1, v[..]) && Holds(list1, list2, d, k, v[..])
      invariant Missed(list1, list2, d, k)
    {
      ghost var s := v[..];
      var x := ExtendDiagonal(list1, list2, v, d, k);
      WriteKeepsRounds(list1, list2, d, k, s);
      v[origin + k] := x;
      assert v[..] == s[origin + k := x];
      if x >= |list1| && x - k >= |list2| {
        HitIsTheEnd(list1, list2, d, k);
        return true;
      }
      MissOneMore(list1, list2, d, k);
      k := k + 2;
    }
    MissedTheEnd(list1, list2, d);
    return false;
  }

  /**
   * Finds the least number of insertions and deletions. There is always an answer, so the
   * loop never runs to its end.
   */
  method TraceShortestPath(list1: seq<string>, list2: seq<string>) returns (trace: seq<seq<int>>)
    requires |list1| + |list2| >= 1
    ensures IsShortestTrace(list1, list2, trace)
  {
    hide Furthest, Reach;
    var maxPathLength := |list1| + |list2|;
    var v := new int[maxPathLength * 2 + 1](_ => -1);
    v[maxPathLength + 1] := 0;
    trace := [];
    for d := 0 to maxPathLength + 1
      invariant |trace| == d && IsTrace(list1, list2, trace)
      invariant Holds(list1, list2, d - 1, d + 1, v[..])
      invariant forall e: nat :: e < d ==> !Reach(list1, list2, e, |list1|, |list2|)
    {
      trace := trace + [v[..]];
      var found := SearchRound(list1, list2, v, d);
      if found {
        return;
      }
    }
    EndIsReachable(list1, list2, |list1|, |list2|);
    assert false;
  }
}
