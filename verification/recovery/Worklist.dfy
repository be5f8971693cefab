/**
 * The worklist that closes the set of recovered names. It pops a name from the back of a
 * queue and pushes the names that the popped one loads after. It keeps no visited set, so it
 * stops exactly when no cycle can be reached from the queue.
 */
module Worklist {
  import opened Paths

  /** Which names each removed group loads after. Other names load after nothing here. */
  type Graph = map<string, seq<string>>

  function Successors(g: Graph, n: string): seq<string> {
    if n in g then g[n] else []
  }

  function RelOf(g: Graph): Rel {
    (n, m) => m in Successors(g, n)
  }

  /** One turn of the loop. */
  function Turn(g: Graph, queue: seq<string>): seq<string>
    requires queue != []
  {
    queue[..|queue| - 1] + Successors(g, queue[|queue| - 1])
  }

  /** The loop empties the queue within `turns` turns. */
  ghost predicate Drains(g: Graph, queue: seq<string>, turns: nat)
    decreases turns
  {
    queue == [] || (turns > 0 && Drains(g, Turn(g, queue), turns - 1))
  }

  /** A cycle can be reached from the name. */
  ghost predicate Loops(g: Graph, n: string) {
    exists c :: Reaches(RelOf(g), n, c) && OnCycle(RelOf(g), c)
  }

  /** Some queued name leads to x. */
  ghost predicate QueueReaches(g: Graph, queue: seq<string>, x: string) {
    exists q :: q in queue && Reaches(RelOf(g), q, x)
  }

  /** A turn settles the popped name and loses nothing else. */
  lemma TurnSettlesOne(g: Graph, queue: seq<string>, x: string)
    requires queue != []
    ensures QueueReaches(g, queue, x) <==> x == queue[|queue| - 1] || QueueReaches(g, Turn(g, queue), x)
  {
    var front, last := queue[..|queue| - 1], queue[|queue| - 1];
    assert queue == front + [last];
    ReachesSelf(RelOf(g), last);
    if QueueReaches(g, queue, x) && x != last {
      var q :| q in queue && Reaches(RelOf(g), q, x);
      if q !in front {
        var m := FirstStep(RelOf(g), last, x);
        assert m in Turn(g, queue);
      } else {
        assert q in Turn(g, queue);
      }
    }
    if QueueReaches(g, Turn(g, queue), x) {
      var q :| q in Turn(g, queue) && Reaches(RelOf(g), q, x);
      if q !in front {
        assert RelOf(g)(last, q);
        ReachesStep(RelOf(g), last, q, x);
      }
    }
  }

  // --- A measure for the queue ----------------------------------------------------------

  /** The number of pops that n causes, counted along paths that leave `avail` only once. */
  ghost function Weight(g: Graph, avail: set<string>, n: string): (w: nat)
    ensures w >= 1
    decreases avail, 0
  {
    if n in avail && n in g then 1 + WeightOfAll(g, avail - {n}, g[n]) else 1
  }

  ghost function WeightOfAll(g: Graph, avail: set<string>, names: seq<string>): nat
    decreases avail, |names| + 1
  {
    if names == [] then 0 else Weight(g, avail, names[0]) + WeightOfAll(g, avail, names[1..])
  }

  /** A name that cannot be reached has no bearing on the weight. */
  lemma {:induction false} UnreachedHasNoWeight(g: Graph, avail: set<string>, n: string, x: string)
    requires !Reaches(RelOf(g), n, x)
    ensures Weight(g, avail, n) == Weight(g, avail - {x}, n)
    decreases avail, 0
  {
    ReachesSelf(RelOf(g), n);
    if n in avail && n in g {
      forall m | m in g[n] ensures !Reaches(RelOf(g), m, x) {
        if Reaches(RelOf(g), m, x) {
          ReachesStep(RelOf(g), n, m, x);
        }
      }
      UnreachedHasNoWeightOfAll(g, avail - {n}, g[n], x);
      assert avail - {n} - {x} == avail - {x} - {n};
    }
  }

  lemma {:induction false} UnreachedHasNoWeightOfAll(g: Graph, avail: set<string>, names: seq<string>, x: string)
    requires forall m :: m in names ==> !Reaches(RelOf(g), m, x)
    ensures WeightOfAll(g, avail, names) == WeightOfAll(g, avail - {x}, names)
    decreases avail, |names| + 1
  {
    if names != [] {
      UnreachedHasNoWeight(g, avail, names[0], x);
      UnreachedHasNoWeightOfAll(g, avail, names[1..], x);
    }
  }

  lemma {:induction false} WeightOfConcat(g: Graph, avail: set<string>, s: seq<string>, t: seq<string>)
    ensures WeightOfAll(g, avail, s + t) == WeightOfAll(g, avail, s) + WeightOfAll(g, avail, t)
    decreases |s|
  {
    if s == [] {
      assert s + t == t;
    } else {
      assert (s + t)[0] == s[0] && (s + t)[1..] == s[1..] + t;
      WeightOfConcat(g, avail, s[1..], t);
    }
  }

  ghost function QueueWeight(g: Graph, queue: seq<string>): nat {
    WeightOfAll(g, g.Keys, queue)
  }

  /** Without a reachable cycle, every turn makes the queue lighter. */
  lemma TurnLosesWeight(g: Graph, queue: seq<string>)
    requires queue != [] && !Loops(g, queue[|queue| - 1])
    ensures QueueWeight(g, Turn(g, queue)) < QueueWeight(g, queue)
  {
    var front, n := queue[..|queue| - 1], queue[|queue| - 1];
    assert queue == front + [n];
    WeightOfConcat(g, g.Keys, front, [n]);
    WeightOfConcat(g, g.Keys, front, Successors(g, n));
    if n in g {
      forall m | m in g[n] ensures !Reaches(RelOf(g), m, n) {
        if Reaches(RelOf(g), m, n) {
          assert RelOf(g)(n, m);
          ReachesSelf(RelOf(g), n);
          assert OnCycle(RelOf(g), n);
        }
      }
      UnreachedHasNoWeightOfAll(g, g.Keys, g[n], n);
    }
    assert WeightOfAll(g, g.Keys, [n]) == Weight(g, g.Keys, n);
  }

  lemma TurnReachesNoCycle(g: Graph, queue: seq<string>)
    requires queue != [] && forall n :: n in queue ==> !Loops(g, n)
    ensures forall n :: n in Turn(g, queue) ==> !Loops(g, n)
  {
    var last := queue[|queue| - 1];
    forall n | n in Turn(g, queue) ensures !Loops(g, n) {
      if n in queue[..|queue| - 1] {
        assert n in queue;
      } else if Loops(g, n) {
        assert RelOf(g)(last, n);
        var c :| Reaches(RelOf(g), n, c) && OnCycle(RelOf(g), c);
        ReachesStep(RelOf(g), last, n, c);
        assert last in queue && Loops(g, last);
      }
    }
  }

  lemma {:induction false} DrainsWithoutCycle(g: Graph, queue: seq<string>)
    requires forall n :: n in queue ==> !Loops(g, n)
    ensures Drains(g, queue, QueueWeight(g, queue))
    decreases QueueWeight(g, queue)
  {
    if queue != [] {
      TurnLosesWeight(g, queue);
      TurnReachesNoCycle(g, queue);
      DrainsWithoutCycle(g, Turn(g, queue));
      DrainsLonger(g, Turn(g, queue), QueueWeight(g, Turn(g, queue)), QueueWeight(g, queue) - 1);
    }
  }

  lemma {:induction false} DrainsLonger(g: Graph, queue: seq<string>, turns: nat, more: nat)
    requires Drains(g, queue, turns) && turns <= more
    ensures Drains(g, queue, more)
    decreases turns
  {
    if queue != [] {
      DrainsLonger(g, Turn(g, queue), turns - 1, more - 1);
    }
  }

  /** A name from which a cycle can be reached is only ever replaced by another such name. */
  lemma LoopingStays(g: Graph, queue: seq<string>, n: string)
    requires n in queue && Loops(g, n)
    ensures exists m :: m in Turn(g, queue) && Loops(g, m)
  {
    var last := queue[|queue| - 1];
    if n in queue[..|queue| - 1] {
      assert n in Turn(g, queue);
    } else {
      assert n == last;
      var c :| Reaches(RelOf(g), n, c) && OnCycle(RelOf(g), c);
      var m: string;
      if n == c {
        m :| RelOf(g)(c, m) && Reaches(RelOf(g), m, c);
      } else {
        m := FirstStep(RelOf(g), n, c);
      }
      assert m in Turn(g, queue) && Loops(g, m);
    }
  }

  lemma {:induction false} NeverDrainsWithCycle(g: Graph, queue: seq<string>, n: string, turns: nat)
    requires n in queue && Loops(g, n)
    ensures !Drains(g, queue, turns)
    decreases turns
  {
    if turns > 0 {
      LoopingStays(g, queue, n);
      var m :| m in Turn(g, queue) && Loops(g, m);
      NeverDrainsWithCycle(g, Turn(g, queue), m, turns - 1);
    }
  }

  /** The loop stops if and only if no cycle can be reached from the names it starts with. */
  lemma StopsExactlyWithoutCycle(g: Graph, queue: seq<string>)
    ensures (exists turns: nat :: Drains(g, queue, turns)) <==> (forall n :: n in queue ==> !Loops(g, n))
  {
    if forall n :: n in queue ==> !Loops(g, n) {
      DrainsWithoutCycle(g, queue);
      assert exists turns: nat :: Drains(g, queue, turns);
    } else {
      var n :| n in queue && Loops(g, n);
      forall turns: nat ensures !Drains(g, queue, turns) {
        NeverDrainsWithCycle(g, queue, n, turns);
      }
    }
  }
}
