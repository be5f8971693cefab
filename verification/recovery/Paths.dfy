/** Paths, reachability and cycles of a relation on names. */
module Paths {
  type Rel = (string, string) -> bool

  ghost predicate IsPath(r: Rel, p: seq<string>) {
    p != [] && (|p| == 1 || (r(p[0], p[1]) && IsPath(r, p[1..])))
  }

  ghost predicate Connects(r: Rel, p: seq<string>, n: string, m: string) {
    IsPath(r, p) && p[0] == n && p[|p| - 1] == m
  }

  /** m can be reached from n in zero or more steps. */
  ghost predicate Reaches(r: Rel, n: string, m: string) {
    exists p :: Connects(r, p, n, m)
  }

  ghost predicate OnCycle(r: Rel, n: string) {
    exists m :: r(n, m) && Reaches(r, m, n)
  }

  ghost predicate Acyclic(r: Rel) {
    forall n :: !OnCycle(r, n)
  }

  lemma ReachesSelf(r: Rel, n: string)
    ensures Reaches(r, n, n)
  {
    assert Connects(r, [n], n, n);
  }

  lemma ReachesStep(r: Rel, n: string, m: string, x: string)
    requires r(n, m) && Reaches(r, m, x)
    ensures Reaches(r, n, x)
  {
    var p :| Connects(r, p, m, x);
    assert ([n] + p)[1..] == p;
    assert Connects(r, [n] + p, n, x);
  }

  /** A path either stays put or takes a first step. */
  lemma FirstStep(r: Rel, n: string, x: string) returns (m: string)
    requires Reaches(r, n, x) && n != x
    ensures r(n, m) && Reaches(r, m, x)
  {
    var p :| Connects(r, p, n, x);
    m := p[1];
    assert Connects(r, p[1..], m, x);
  }

  lemma {:induction false} PathsJoin(r: Rel, p: seq<string>, n: string, m: string, x: string)
    requires Connects(r, p, n, m) && Reaches(r, m, x)
    ensures Reaches(r, n, x)
    decreases |p|
  {
    if |p| > 1 {
      assert Connects(r, p[1..], p[1], m);
      PathsJoin(r, p[1..], p[1], m, x);
      ReachesStep(r, n, p[1], x);
    }
  }

  lemma ReachesThenStep(r: Rel, n: string, m: string, x: string)
    requires Reaches(r, n, m) && r(m, x)
    ensures Reaches(r, n, x)
  {
    ReachesSelf(r, x);
    ReachesStep(r, m, x, x);
    var p :| Connects(r, p, n, m);
    PathsJoin(r, p, n, m, x);
  }
}
