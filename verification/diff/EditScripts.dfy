/**
 * What it means to turn one list of rows into another, stated without any mention of
 * how a difference is searched for: edit scripts, their cost, and subsequences.
 */
module EditScripts {
  import opened Options

  /** One instruction of an edit script, which is read from left to right. */
  datatype Edit = Keep | Remove | Insert(text: string)

  /** Runs a script over `rows`; the script must use up every row. */
  function Run(script: seq<Edit>, rows: seq<string>): (r: Option<seq<string>>)
  {
    if script == [] then
      if rows == [] then Some([]) else None
    else if script[0].Insert? then
      Emit(script[0].text, Run(script[1..], rows))
    else if rows == [] then
      None
    else if script[0].Keep? then
      Emit(rows[0], Run(script[1..], rows[1..]))
    else
      Run(script[1..], rows[1..])
  }

  function Emit(text: string, rest: Option<seq<string>>): (r: Option<seq<string>>) {
    if rest.Some? then Some([text] + rest.value) else None
  }

  /** The number of insertions and deletions. */
  function Cost(script: seq<Edit>): (c: nat) {
    if script == [] then 0
    else (if script[0].Keep? then 0 else 1) + Cost(script[1..])
  }

  /** `c` can be had from `rows` by dropping rows. */
  ghost predicate IsSubsequence(c: seq<string>, rows: seq<string>) {
    c == [] ||
    (rows != [] && c[0] == rows[0] && IsSubsequence(c[1..], rows[1..])) ||
    (rows != [] && IsSubsequence(c, rows[1..]))
  }

  /** How many rows a script uses up. */
  function Uses(script: seq<Edit>): (n: nat) {
    if script == [] then 0
    else (if script[0].Insert? then 0 else 1) + Uses(script[1..])
  }

  /** How many rows a script puts out. */
  function Makes(script: seq<Edit>): (n: nat) {
    if script == [] then 0
    else (if script[0].Remove? then 0 else 1) + Makes(script[1..])
  }

  lemma {:induction false} CountsOfNext(script: seq<Edit>, i: nat)
    requires i < |script|
    ensures Uses(script[..i + 1]) == Uses(script[..i]) + (if script[i].Insert? then 0 else 1)
    ensures Makes(script[..i + 1]) == Makes(script[..i]) + (if script[i].Remove? then 0 else 1)
    ensures Cost(script[..i + 1]) == Cost(script[..i]) + (if script[i].Keep? then 0 else 1)
    decreases i
  {
    if i == 0 {
      assert script[..1][1..] == [] && script[..0] == [];
    } else {
      assert script[..i + 1][1..] == script[1..][..i] && script[..i][1..] == script[1..][..i - 1];
      CountsOfNext(script[1..], i - 1);
    }
  }

  /** The first instruction of a script accounts for the head of either list or of both. */
  lemma StepOfScript(s: seq<Edit>, u: seq<string>, w: seq<string>)
    requires s != [] && Run(s, u) == Some(w)
    ensures !s[0].Insert? ==> u != []
    ensures !s[0].Remove? ==> w != []
    ensures s[0].Keep? ==> u[0] == w[0]
    ensures s[0].Insert? ==> w[0] == s[0].text
    ensures Run(s[1..], if s[0].Insert? then u else u[1..]) == Some(if s[0].Remove? then w else w[1..])
  {
  }

  /** One more instruction in front of a script. */
  lemma RunCons(e: Edit, s: seq<Edit>, a: seq<string>, b: seq<string>, x: nat, y: nat)
    requires !e.Insert? ==> a != []
    requires !e.Remove? ==> b != [] && (if e.Insert? then e.text == b[0] else a[0] == b[0])
    requires var a', b' := if e.Insert? then a else a[1..], if e.Remove? then b else b[1..];
             x <= |a'| && y <= |b'| && Run(s, a'[..x]) == Some(b'[..y])
    ensures var x', y' := if e.Insert? then x else x + 1, if e.Remove? then y else y + 1;
            Run([e] + s, a[..x']) == Some(b[..y'])
    ensures Uses([e] + s) == Uses(s) + (if e.Insert? then 0 else 1)
    ensures Makes([e] + s) == Makes(s) + (if e.Remove? then 0 else 1)
  {
    assert ([e] + s)[1..] == s;
    assert !e.Insert? ==> a[..x + 1][1..] == a[1..][..x] && a[..x + 1][0] == a[0];
    assert !e.Remove? ==> b[..y + 1] == [b[0]] + b[1..][..y];
  }

  lemma PrefixOfNone(script: seq<Edit>, a: seq<string>, b: seq<string>)
    requires Run(script, a) == Some(b)
    ensures Uses(script[..0]) == 0 == Makes(script[..0]) && Run(script[..0], a[..0]) == Some(b[..0])
    ensures script == [] ==> a == [] == b
    ensures script != [] && script[0].Insert? ==> b != [] && script[0].text == b[0]
  {
  }

  /** Up to any point, a script turns the rows that it has used up into those that it has put out. */
  lemma {:induction false} PrefixRuns(script: seq<Edit>, a: seq<string>, b: seq<string>, i: nat)
    requires Run(script, a) == Some(b) && i <= |script|
    ensures Uses(script[..i]) <= |a| && Makes(script[..i]) <= |b|
    ensures Run(script[..i], a[..Uses(script[..i])]) == Some(b[..Makes(script[..i])])
    ensures i == |script| ==> Uses(script[..i]) == |a| && Makes(script[..i]) == |b|
    ensures i < |script| && script[i].Insert? ==>
      Makes(script[..i]) < |b| && script[i].text == b[Makes(script[..i])]
    decreases i
  {
    if i == 0 {
      PrefixOfNone(script, a, b);
    } else {
      hide Run, Uses, Makes;
      var e, rest := script[0], script[1..];
      StepOfScript(script, a, b);
      var a', b' := if e.Insert? then a else a[1..], if e.Remove? then b else b[1..];
      PrefixRuns(rest, a', b', i - 1);
      RunCons(e, rest[..i - 1], a, b, Uses(rest[..i - 1]), Makes(rest[..i - 1]));
      assert script[..i] == [e] + rest[..i - 1];
    }
  }

  // --- Which of the cheapest scripts ----------------------------------------------------

  /** The first y rows of b can be had from the first x rows of a at a cost of at most c. */
  ghost predicate CanReach(a: seq<string>, b: seq<string>, x: int, y: int, c: int) {
    0 <= x <= |a| && 0 <= y <= |b| && exists t :: Run(t, a[..x]) == Some(b[..y]) && Cost(t) <= c
  }

  /** Of the points with x - y == k, none with at least x rows of a can be reached at a cost of at most c. */
  ghost predicate Unreached(a: seq<string>, b: seq<string>, k: int, x: int, c: int) {
    forall x', y' :: x' - y' == k && x' >= x ==> !CanReach(a, b, x', y', c)
  }

  /**
   * An instruction at (x, y), after a cost of c, that makes the most of what has been spent. The
   * script has kept rows as long as it could: nothing further along could be reached at this cost.
   * A row is removed only if that gets at least as far as putting one out would, from whatever
   * could be reached; a row is put out only if that gets further than removing one would.
   */
  ghost predicate IsGreedyStep(a: seq<string>, b: seq<string>, x: int, y: int, c: int, e: Edit) {
    !e.Keep? ==>
      Unreached(a, b, x - y, x + 1, c) &&
      (e.Remove? ==> Unreached(a, b, x - y + 2, x + 1, c)) &&
      (e.Insert? ==> Unreached(a, b, x - y - 2, x, c))
  }

  /** All instructions make the most of what has been spent before, from (x, y) and a cost of c on. */
  ghost predicate IsGreedyFrom(s: seq<Edit>, a: seq<string>, b: seq<string>, x: int, y: int, c: int) {
    forall i :: 0 <= i < |s| ==>
      IsGreedyStep(a, b, x + Uses(s[..i]), y + Makes(s[..i]), c + Cost(s[..i]), s[i])
  }

  ghost predicate IsGreedy(s: seq<Edit>, a: seq<string>, b: seq<string>) {
    IsGreedyFrom(s, a, b, 0, 0, 0)
  }

  lemma GreedyCons(e: Edit, s: seq<Edit>, a: seq<string>, b: seq<string>, x: int, y: int, c: int)
    requires IsGreedyStep(a, b, x, y, c, e)
    requires IsGreedyFrom(s, a, b, if e.Insert? then x else x + 1, if e.Remove? then y else y + 1,
                          if e.Keep? then c else c + 1)
    ensures IsGreedyFrom([e] + s, a, b, x, y, c)
  {
    hide IsGreedyStep;
    var all := [e] + s;
    forall i | 0 <= i < |all|
      ensures IsGreedyStep(a, b, x + Uses(all[..i]), y + Makes(all[..i]), c + Cost(all[..i]), all[i])
    {
      if i > 0 {
        assert all[..i][1..] == s[..i - 1];
      }
    }
  }
}
