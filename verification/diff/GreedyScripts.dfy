/** Of the cheapest scripts, exactly one makes the most of each instruction, and the search finds it. */
module GreedyScripts {
  import opened Options
  import opened EditScripts
  import opened EditGraph
  import opened Optimality

  // --- There is only one ----------------------------------------------------------------

  lemma PrefixReaches(s: seq<Edit>, a: seq<string>, b: seq<string>, i: nat)
    requires Run(s, a) == Some(b) && i <= |s|
    ensures CanReach(a, b, Uses(s[..i]), Makes(s[..i]), Cost(s[..i]))
  {
    PrefixRuns(s, a, b, i);
  }

  /** The last instruction of a stretch that is not a Keep, and how many Keeps follow it. */
  lemma {:induction false} LastEdit(s: seq<Edit>, n: nat) returns (i: nat)
    requires n <= |s| && Cost(s[..n]) > 0
    ensures i < n && !s[i].Keep? && Cost(s[..i]) == Cost(s[..n]) - 1
    ensures Uses(s[..n]) == Uses(s[..i + 1]) + (n - i - 1) && Makes(s[..n]) == Makes(s[..i + 1]) + (n - i - 1)
    decreases n
  {
    CountsOfNext(s, n - 1);
    if s[n - 1].Keep? {
      i := LastEdit(s, n - 1);
    } else {
      i := n - 1;
    }
  }

  lemma NotThere(a: seq<string>, b: seq<string>, k: int, x: int, c: int, x': int, y': int)
    requires Unreached(a, b, k, x, c) && CanReach(a, b, x', y', c)
    ensures x' - y' == k ==> x' < x
  {
  }

  /**
   * The last edit of a greedy stretch, and then only Keeps up to (x, y): if another stretch gets
   * there by an edit at the same cost, that edit is of the same kind and there are no Keeps.
   */
  lemma LastEditDecides(s: seq<Edit>, a: seq<string>, b: seq<string>, i: nat, x: int, y: int, c: int, keeps: nat,
                        other: Edit)
    requires IsGreedy(s, a, b) && i < |s| && !s[i].Keep? && !other.Keep? && Cost(s[..i]) == c
    requires x == Uses(s[..i + 1]) + keeps && y == Makes(s[..i + 1]) + keeps
    requires CanReach(a, b, if other.Insert? then x else x - 1, if other.Remove? then y else y - 1, c)
    ensures keeps == 0 || s[i].Insert? != other.Insert?
    ensures s[i].Remove? && other.Insert? ==> false
    ensures s[i].Insert? && other.Remove? && keeps > 0 ==> false
  {
    CountsOfNext(s, i);
    assert IsGreedyStep(a, b, Uses(s[..i]), Makes(s[..i]), c, s[i]);
    hide IsGreedyFrom, CanReach, Unreached, Uses, Makes, Cost;
    var x0: int, y0: int := Uses(s[..i]), Makes(s[..i]);
    var x': int, y': int := if other.Insert? then x else x - 1, if other.Remove? then y else y - 1;
    NotThere(a, b, x0 - y0, x0 + 1, c, x', y');
    if s[i].Remove? {
      NotThere(a, b, x0 - y0 + 2, x0 + 1, c, x', y');
    } else {
      NotThere(a, b, x0 - y0 - 2, x0, c, x', y');
    }
  }

  /** Two stretches that end at the same point at the same cost cannot end in different kinds of instruction. */
  lemma EndsAlike(s: seq<Edit>, t: seq<Edit>, a: seq<string>, b: seq<string>, n: nat, m: nat)
    requires Run(s, a) == Some(b) && IsGreedy(s, a, b) && 0 < n <= |s|
    requires Run(t, a) == Some(b) && 0 < m <= |t|
    requires Uses(s[..n]) == Uses(t[..m]) && Makes(s[..n]) == Makes(t[..m]) && Cost(s[..n]) == Cost(t[..m])
    requires IsGreedy(t, a, b) && !t[m - 1].Keep?
    ensures !s[n - 1].Keep? && (s[n - 1].Insert? <==> t[m - 1].Insert?)
  {
    hide IsGreedyFrom, CanReach, Uses, Makes, Cost, Run;
    CountsOfNext(t, m - 1);
    PrefixReaches(t, a, b, m - 1);
    var i := LastEdit(s, n);
    LastEditDecides(s, a, b, i, Uses(s[..n]), Makes(s[..n]), Cost(s[..i]), n - i - 1, t[m - 1]);
    if i == n - 1 {
      CountsOfNext(s, i);
      PrefixReaches(s, a, b, i);
      LastEditDecides(t, a, b, m - 1, Uses(s[..n]), Makes(s[..n]), Cost(s[..i]), 0, s[i]);
    }
  }

  /** Before instructions of the same kind, two stretches that end alike had come to the same point, too. */
  lemma StepBack(s: seq<Edit>, t: seq<Edit>, a: seq<string>, b: seq<string>, n: nat, m: nat)
    requires Run(s, a) == Some(b) && 0 < n <= |s| && Run(t, a) == Some(b) && 0 < m <= |t|
    requires Uses(s[..n]) == Uses(t[..m]) && Makes(s[..n]) == Makes(t[..m]) && Cost(s[..n]) == Cost(t[..m])
    requires (s[n - 1].Keep? <==> t[m - 1].Keep?) && (s[n - 1].Insert? <==> t[m - 1].Insert?)
    ensures Uses(s[..n - 1]) == Uses(t[..m - 1]) && Makes(s[..n - 1]) == Makes(t[..m - 1])
    ensures Cost(s[..n - 1]) == Cost(t[..m - 1]) && s[n - 1] == t[m - 1]
  {
    hide Uses, Makes, Cost, Run;
    CountsOfNext(s, n - 1);
    CountsOfNext(t, m - 1);
    PrefixRuns(s, a, b, n - 1);
    PrefixRuns(t, a, b, m - 1);
  }

  /** Greedy scripts that have come to the same point at the same cost have done so in the same way. */
  lemma {:induction false} PrefixesAgree(s: seq<Edit>, t: seq<Edit>, a: seq<string>, b: seq<string>, n: nat, m: nat)
    requires Run(s, a) == Some(b) && IsGreedy(s, a, b) && n <= |s|
    requires Run(t, a) == Some(b) && IsGreedy(t, a, b) && m <= |t|
    requires Uses(s[..n]) == Uses(t[..m]) && Makes(s[..n]) == Makes(t[..m]) && Cost(s[..n]) == Cost(t[..m])
    ensures s[..n] == t[..m]
    decreases n
  {
    hide IsGreedyFrom, Run, Uses, Makes, Cost;
    if n == 0 || m == 0 {
      NothingUsed(s[..n]);
      NothingUsed(t[..m]);
    } else {
      if !t[m - 1].Keep? {
        EndsAlike(s, t, a, b, n, m);
      } else if !s[n - 1].Keep? {
        EndsAlike(t, s, a, b, m, n);
      }
      StepBack(s, t, a, b, n, m);
      PrefixesAgree(s, t, a, b, n - 1, m - 1);
      assert s[..n] == s[..n - 1] + [s[n - 1]] && t[..m] == t[..m - 1] + [t[m - 1]];
    }
  }

  lemma NothingUsed(s: seq<Edit>)
    ensures Uses(s) == 0 && Makes(s) == 0 <==> s == []
  {
  }

  /** There is only one greedy script of a given cost. */
  lemma GreedyIsUnique(s: seq<Edit>, t: seq<Edit>, a: seq<string>, b: seq<string>)
    requires Run(s, a) == Some(b) && IsGreedy(s, a, b)
    requires Run(t, a) == Some(b) && IsGreedy(t, a, b) && Cost(s) == Cost(t)
    ensures s == t
  {
    PrefixRuns(s, a, b, |s|);
    PrefixRuns(t, a, b, |t|);
    assert s[..|s|] == s && t[..|t|] == t;
    PrefixesAgree(s, t, a, b, |s|, |t|);
  }

  // --- The search's choices are greedy --------------------------------------------------

  /** Spending two more, off the grid if need be, gets one row further. */
  lemma {:induction false} ReachLater(a: seq<string>, b: seq<string>, d: nat, x: nat, y: nat, j: nat)
    requires Reach(a, b, d, x, y)
    ensures Reach(a, b, d + 2 * j, x + j, y + j)
    decreases j
  {
    if j > 0 {
      ReachLater(a, b, d, x, y, j - 1);
      assert Reach(a, b, d + 2 * j - 1, x + j, y + j - 1);
    }
  }

  /** Where a round leaves off is as far as any script of that cost gets on the diagonal. */
  lemma FurthestBounds(a: seq<string>, b: seq<string>, d: nat, k: int, x: int)
    requires (d + k) % 2 == 0 && (OnRound(d, k) ==> Furthest(a, b, d, k) < x)
    ensures Unreached(a, b, k, x, d)
  {
    hide Furthest, Reach, Run, Cost;
    forall x', y' | x' - y' == k && x' >= x ensures !CanReach(a, b, x', y', d) {
      if CanReach(a, b, x', y', d) {
        var t :| Run(t, a[..x']) == Some(b[..y']) && Cost(t) <= d;
        ReachedByScript(a, b, x', y', t);
        FurthestIsMaximal(a, b, Cost(t), x', k);
        var j := (d - Cost(t)) / 2;
        assert d == Cost(t) + 2 * j;
        ReachLater(a, b, Cost(t), x', y', j);
        FurthestIsMaximal(a, b, d, x' + j, k);
      }
    }
  }

  lemma ReachedByScript(a: seq<string>, b: seq<string>, x: nat, y: nat, t: seq<Edit>)
    requires x <= |a| && y <= |b| && Run(t, a[..x]) == Some(b[..y])
    ensures Reach(a, b, Cost(t), x, y)
  {
    assert a[0..x] == a[..x] && b[0..y] == b[..y];
    ScriptIsPath(a, b, 0, 0, 0, x, y, t);
  }

  /** The step by which round d enters diagonal k is greedy. */
  lemma EntryIsGreedy(a: seq<string>, b: seq<string>, d: nat, k: int, e: Edit)
    requires d > 0 && OnRound(d, k) && (if ComesDown(a, b, d, k) then e.Insert? else e.Remove?)
    ensures var j := From(a, b, d, k); var x := Furthest(a, b, d - 1, j);
            IsGreedyStep(a, b, x, x - j, d - 1, e)
  {
    hide Furthest, Unreached;
    var j := From(a, b, d, k);
    var x := Furthest(a, b, d - 1, j);
    FurthestBounds(a, b, d - 1, j, x + 1);
    if ComesDown(a, b, d, k) {
      FurthestBounds(a, b, d - 1, k - 1, x);
    } else {
      FurthestBounds(a, b, d - 1, k + 1, x + 1);
    }
  }
}
