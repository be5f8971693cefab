/**
 * The edit graph of two lists of rows `a` and `b`. A point (x, y) stands for "x rows of a
 * and y rows of b are dealt with". Steps right (drop a row of a) and down (add a row of b)
 * cost one; a diagonal step joins equal rows and is free. Right and down steps may run off
 * the grid, as they do in the search, but diagonal steps exist only inside it.
 */
module EditGraph {
  /** (x, y) can be reached from (0, 0) with exactly d right and down steps. */
  ghost predicate Reach(a: seq<string>, b: seq<string>, d: nat, x: nat, y: nat)
    decreases x + y
  {
    (x == 0 && y == 0 && d == 0) ||
    (d > 0 && x > 0 && Reach(a, b, d - 1, x - 1, y)) ||
    (d > 0 && y > 0 && Reach(a, b, d - 1, x, y - 1)) ||
    (0 < x <= |a| && 0 < y <= |b| && a[x - 1] == b[y - 1] && Reach(a, b, d, x - 1, y - 1))
  }

  /** Row x of `a` and the row of `b` that lies across from it on diagonal k = x - y are equal. */
  predicate Matches(a: seq<string>, b: seq<string>, x: int, k: int) {
    0 <= x < |a| && 0 <= x - k < |b| && a[x] == b[x - k]
  }

  /** Follows diagonal steps from row x on diagonal k as far as they go. */
  function Snake(a: seq<string>, b: seq<string>, x: nat, k: int): (r: nat)
    requires k <= x
    ensures x <= r
    ensures forall i :: x <= i < r ==> Matches(a, b, i, k)
    ensures !Matches(a, b, r, k)
    decreases |a| - x
  {
    if Matches(a, b, x, k) then Snake(a, b, x + 1, k) else x
  }

  /** The diagonals that round d visits. */
  predicate OnRound(d: int, k: int) {
    -d <= k <= d && (d + k) % 2 == 0
  }

  /** The recurrence of the greedy search: where round d leaves off on diagonal k. */
  function Furthest(a: seq<string>, b: seq<string>, d: nat, k: int): (r: nat)
    requires OnRound(d, k)
    ensures k <= r
    decreases d
  {
    Snake(a, b, Start(a, b, d, k), k)
  }

  /** Where round d enters diagonal k, given where round d - 1 left off on its neighbours. */
  function Start(a: seq<string>, b: seq<string>, d: nat, k: int): (r: nat)
    requires OnRound(d, k)
    ensures k <= r
    decreases d, 1
  {
    if d == 0 then 0
    else if ComesDown(a, b, d, k) then Furthest(a, b, d - 1, k + 1)
    else Furthest(a, b, d - 1, k - 1) + 1
  }

  /** Whether round d enters diagonal k by a down step. */
  predicate ComesDown(a: seq<string>, b: seq<string>, d: nat, k: int)
    requires d > 0 && OnRound(d, k)
    decreases d, 0
  {
    k + d == 0 || (k != d && Furthest(a, b, d - 1, k - 1) < Furthest(a, b, d - 1, k + 1))
  }

  lemma FurthestFollowsSnake(a: seq<string>, b: seq<string>, d: nat, k: int)
    requires OnRound(d, k)
    ensures Furthest(a, b, d, k) == Snake(a, b, Start(a, b, d, k), k)
  {
  }

  // --- The recurrence computes the furthest reachable row -------------------------------

  lemma {:induction false} SnakeIsReachable(a: seq<string>, b: seq<string>, d: nat, x: nat, k: int)
    requires k <= x && Reach(a, b, d, x, x - k)
    ensures Reach(a, b, d, Snake(a, b, x, k), Snake(a, b, x, k) - k)
    decreases |a| - x
  {
    if Matches(a, b, x, k) {
      SnakeIsReachable(a, b, d, x + 1, k);
    }
  }

  /** The diagonal of round d - 1 from which round d enters diagonal k. */
  function From(a: seq<string>, b: seq<string>, d: nat, k: int): (j: int)
    requires d > 0 && OnRound(d, k)
    ensures OnRound(d - 1, j)
  {
    if ComesDown(a, b, d, k) then k + 1 else k - 1
  }

  lemma StartIsOneStepOn(a: seq<string>, b: seq<string>, d: nat, k: int)
    requires d > 0 && OnRound(d, k)
    requires var j := From(a, b, d, k); var x := Furthest(a, b, d - 1, j); Reach(a, b, d - 1, x, x - j)
    ensures Reach(a, b, d, Start(a, b, d, k), Start(a, b, d, k) - k)
  {
  }

  lemma {:induction false} FurthestIsReachable(a: seq<string>, b: seq<string>, d: nat, k: int)
    requires OnRound(d, k)
    ensures Reach(a, b, d, Start(a, b, d, k), Start(a, b, d, k) - k)
    ensures Reach(a, b, d, Furthest(a, b, d, k), Furthest(a, b, d, k) - k)
    decreases d
  {
    hide Furthest, Snake, ComesDown;
    if d > 0 {
      FurthestIsReachable(a, b, d - 1, From(a, b, d, k));
      StartIsOneStepOn(a, b, d, k);
    }
    SnakeIsReachable(a, b, d, Start(a, b, d, k), k);
    FurthestFollowsSnake(a, b, d, k);
  }

  lemma RightStepIsTaken(a: seq<string>, b: seq<string>, d: nat, k: int, x: nat)
    requires d > 0 && OnRound(d - 1, k - 1) && x <= Furthest(a, b, d - 1, k - 1) + 1
    ensures OnRound(d, k) && x <= Furthest(a, b, d, k)
  {
    assert x <= Start(a, b, d, k);
  }

  lemma DownStepIsTaken(a: seq<string>, b: seq<string>, d: nat, k: int, x: nat)
    requires d > 0 && OnRound(d - 1, k + 1) && x <= Furthest(a, b, d - 1, k + 1)
    ensures OnRound(d, k) && x <= Furthest(a, b, d, k)
  {
    assert x <= Start(a, b, d, k);
  }

  /** No matching rows are left where a round leaves off. */
  lemma DiagonalStepIsTaken(a: seq<string>, b: seq<string>, d: nat, k: int, x: nat)
    requires OnRound(d, k) && x <= Furthest(a, b, d, k)
    requires Matches(a, b, x, k)
    ensures x < Furthest(a, b, d, k)
  {
  }

  lemma {:induction false} FurthestIsMaximal(a: seq<string>, b: seq<string>, d: nat, x: nat, k: int)
    requires k <= x && Reach(a, b, d, x, x - k)
    ensures OnRound(d, k) && x <= Furthest(a, b, d, k)
    decreases x + (x - k)
  {
    hide Furthest;
    var y := x - k;
    if x == 0 && y == 0 && d == 0 {
    } else if d > 0 && x > 0 && Reach(a, b, d - 1, x - 1, y) {
      FurthestIsMaximal(a, b, d - 1, x - 1, k - 1);
      RightStepIsTaken(a, b, d, k, x);
    } else if d > 0 && y > 0 && Reach(a, b, d - 1, x, y - 1) {
      FurthestIsMaximal(a, b, d - 1, x, k + 1);
      DownStepIsTaken(a, b, d, k, x);
    } else {
      FurthestIsMaximal(a, b, d, x - 1, k);
      DiagonalStepIsTaken(a, b, d, k, x - 1);
    }
  }

  // --- Running off the grid -------------------------------------------------------------

  function Min(x: int, y: int): int { if x < y then x else y }

  /** A point off the grid costs at least the steps that led off it more than its nearest grid point. */
  lemma {:induction false} ClampToGrid(a: seq<string>, b: seq<string>, d: nat, x: nat, y: nat)
    requires Reach(a, b, d, x, y)
    ensures var x', y' := Min(x, |a|), Min(y, |b|);
            d >= (x - x') + (y - y') && Reach(a, b, d - (x - x') - (y - y'), x', y')
    decreases x + y
  {
    if x == 0 && y == 0 && d == 0 {
    } else if d > 0 && x > 0 && Reach(a, b, d - 1, x - 1, y) {
      ClampToGrid(a, b, d - 1, x - 1, y);
    } else if d > 0 && y > 0 && Reach(a, b, d - 1, x, y - 1) {
      ClampToGrid(a, b, d - 1, x, y - 1);
    } else {
      ClampToGrid(a, b, d, x - 1, y - 1);
    }
  }

  /** The test that ends the search: round d got past the last row of both lists on diagonal k. */
  predicate Hit(a: seq<string>, b: seq<string>, d: nat, k: int)
    requires OnRound(d, k)
  {
    Furthest(a, b, d, k) >= |a| && Furthest(a, b, d, k) - k >= |b|
  }

  /** Within a round the test holds on some diagonal only if an earlier round hit the end, or it is the end itself. */
  lemma HitIsTheEnd(a: seq<string>, b: seq<string>, d: nat, k: int)
    requires OnRound(d, k) && Hit(a, b, d, k)
    requires forall e: nat :: e < d ==> !Reach(a, b, e, |a|, |b|)
    ensures k == |a| - |b| && Furthest(a, b, d, k) == |a| && Reach(a, b, d, |a|, |b|)
  {
    hide Furthest, Reach;
    var x := Furthest(a, b, d, k);
    FurthestIsReachable(a, b, d, k);
    ClampToGrid(a, b, d, x, x - k);
    assert Reach(a, b, d - (x - |a|) - (x - k - |b|), |a|, |b|);
  }

  /** A round that can reach the end hits it on the end's own diagonal. */
  lemma EndIsHit(a: seq<string>, b: seq<string>, d: nat)
    requires Reach(a, b, d, |a|, |b|)
    ensures OnRound(d, |a| - |b|) && Hit(a, b, d, |a| - |b|)
  {
    hide Furthest;
    FurthestIsMaximal(a, b, d, |a|, |a| - |b|);
  }

  /** Dropping every row of a and then adding every row of b always works. */
  lemma {:induction false} EndIsReachable(a: seq<string>, b: seq<string>, x: nat, y: nat)
    ensures Reach(a, b, x + y, x, y)
    decreases x + y
  {
    if x > 0 {
      EndIsReachable(a, b, x - 1, y);
    } else if y > 0 {
      EndIsReachable(a, b, x, y - 1);
    }
  }
}
