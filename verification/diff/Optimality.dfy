/**
 * Relates paths in the edit graph to edit scripts and to common subsequences: the length of a
 * shortest path is the least cost of any script, and what a cheapest script keeps is a longest
 * common subsequence.
 */
module Optimality {
  import opened Options
  import opened EditScripts
  import opened EditGraph

  /** Running a script from a reachable point walks a path of the script's cost to where the rows end. */
  lemma {:induction false} ScriptIsPath(a: seq<string>, b: seq<string>, d: nat, x: nat, y: nat, endX: nat, endY: nat,
                                        s: seq<Edit>)
    requires x <= endX <= |a| && y <= endY <= |b| && Reach(a, b, d, x, y)
    requires Run(s, a[x..endX]) == Some(b[y..endY])
    ensures Reach(a, b, d + Cost(s), endX, endY)
    decreases |s|
  {
    if s == [] {
      assert |a[x..endX]| == 0 && |b[y..endY]| == 0;
    } else {
      assert x < endX ==> a[x..endX][1..] == a[x + 1..endX] && a[x..endX][0] == a[x];
      assert y < endY ==> b[y..endY][1..] == b[y + 1..endY] && b[y..endY][0] == b[y];
      StepOfScript(s, a[x..endX], b[y..endY]);
      var x', y' := if s[0].Insert? then x else x + 1, if s[0].Remove? then y else y + 1;
      ScriptIsPath(a, b, if s[0].Keep? then d else d + 1, x', y', endX, endY, s[1..]);
    }
  }

  /** No script is cheaper than the number of the first round that reaches the end. */
  lemma NoCheaperScript(a: seq<string>, b: seq<string>, d: nat, s: seq<Edit>)
    requires forall e: nat :: e < d ==> !Reach(a, b, e, |a|, |b|)
    requires Run(s, a) == Some(b)
    ensures d <= Cost(s)
  {
    assert a[0..|a|] == a && b[0..|b|] == b;
    ScriptIsPath(a, b, 0, 0, 0, |a|, |b|, s);
  }

  /** Every common subsequence can be kept, at the cost of all the other rows. */
  lemma {:induction false} KeepSubsequence(a: seq<string>, b: seq<string>, c: seq<string>) returns (s: seq<Edit>)
    requires IsSubsequence(c, a) && IsSubsequence(c, b)
    ensures Run(s, a) == Some(b) && Cost(s) == |a| + |b| - 2 * |c|
    decreases |a| + |b|
  {
    if a == [] && b == [] {
      s := [];
    } else if a != [] && IsSubsequence(c, a[1..]) {
      var rest := KeepSubsequence(a[1..], b, c);
      s := [Remove] + rest;
      assert s[1..] == rest;
    } else if b != [] && IsSubsequence(c, b[1..]) {
      var rest := KeepSubsequence(a, b[1..], c);
      s := [Insert(b[0])] + rest;
      assert s[1..] == rest && [b[0]] + b[1..] == b;
    } else {
      var rest := KeepSubsequence(a[1..], b[1..], c[1..]);
      s := [Keep] + rest;
      assert s[1..] == rest && [b[0]] + b[1..] == b;
    }
  }

  /** The rows that a script keeps. */
  function Kept(s: seq<Edit>, rows: seq<string>): (c: seq<string>)
    requires Run(s, rows).Some?
  {
    if s == [] then []
    else if s[0].Insert? then Kept(s[1..], rows)
    else if s[0].Keep? then [rows[0]] + Kept(s[1..], rows[1..])
    else Kept(s[1..], rows[1..])
  }

  lemma {:induction false} KeptIsCommon(s: seq<Edit>, a: seq<string>, b: seq<string>)
    requires Run(s, a) == Some(b)
    ensures IsSubsequence(Kept(s, a), a) && IsSubsequence(Kept(s, a), b)
    ensures Cost(s) + 2 * |Kept(s, a)| == |a| + |b|
  {
    if s != [] {
      StepOfScript(s, a, b);
      KeptIsCommon(s[1..], if s[0].Insert? then a else a[1..], if s[0].Remove? then b else b[1..]);
      if s[0].Keep? {
        assert Kept(s, a)[1..] == Kept(s[1..], a[1..]);
      }
    }
  }

  ghost predicate IsCheapest(s: seq<Edit>, a: seq<string>, b: seq<string>) {
    Run(s, a) == Some(b) && forall t :: Run(t, a) == Some(b) ==> Cost(s) <= Cost(t)
  }

  /** A cheapest script keeps a longest common subsequence. */
  lemma CheapestKeepsLongest(s: seq<Edit>, a: seq<string>, b: seq<string>, c: seq<string>)
    requires IsCheapest(s, a, b)
    requires IsSubsequence(c, a) && IsSubsequence(c, b)
    ensures |c| <= |Kept(s, a)|
  {
    KeptIsCommon(s, a, b);
    var t := KeepSubsequence(a, b, c);
  }
}
