/** Which of the groups that a masterlist update removed are recovered, and why those. */
module RecoverySet {
  import opened Groups
  import opened Paths
  import opened Worklist

  /** Some group loads after the name. */
  ghost predicate IsAfterName(groups: seq<Group>, n: string) {
    exists g :: g in groups && n in g.after
  }

  /** User metadata puts a loaded plugin in the group. */
  ghost predicate IsPluginGroup(plugins: seq<string>, pluginGroups: map<string, string>, n: string) {
    exists p :: p in plugins && p in pluginGroups && pluginGroups[p] == n
  }

  /** The user's own data refers to a removed group. */
  ghost predicate UserRefersTo(user: seq<Group>, plugins: seq<string>, pluginGroups: map<string, string>,
                               removed: set<string>, n: string)
  {
    n in removed &&
    (n in Names(user) || IsAfterName(user, n) || IsPluginGroup(plugins, pluginGroups, n))
  }

  ghost function Referenced(user: seq<Group>, plugins: seq<string>, pluginGroups: map<string, string>,
                            removed: set<string>): (names: set<string>)
    ensures names <= removed
  {
    set n | n in removed && UserRefersTo(user, plugins, pluginGroups, removed, n)
  }

  /** What each removed group loads after: its first old definition decides. */
  function RemovedGraph(old_: seq<Group>, removed: set<string>): Graph {
    map n | n in removed && FindGroup(old_, n) < |old_| :: old_[FindGroup(old_, n)].after
  }

  /**
   * The names that one old group puts into the queue: what it loads after if it is referenced,
   * and its own name if it was removed and loads after a referenced group.
   */
  ghost predicate Queues(g: Group, removed: set<string>, referenced: set<string>, q: string) {
    if g.name in referenced then q in g.after
    else q == g.name && g.name in removed && exists a :: a in g.after && a in referenced
  }

  ghost predicate StartsQueued(old_: seq<Group>, removed: set<string>, referenced: set<string>, q: string) {
    exists g :: g in old_ && Queues(g, removed, referenced, q)
  }

  /** A removed group is recovered if it is referenced or can be reached from the queue's first content. */
  ghost predicate IsRecovered(old_: seq<Group>, removed: set<string>, referenced: set<string>, n: string) {
    n in removed &&
    (n in referenced ||
     exists q :: StartsQueued(old_, removed, referenced, q) && Reaches(RelOf(RemovedGraph(old_, removed)), q, n))
  }

  /** No cycle of removed groups can be reached from the queue's first content. */
  ghost predicate QueueIsSafe(old_: seq<Group>, removed: set<string>, referenced: set<string>) {
    forall q :: StartsQueued(old_, removed, referenced, q) ==> !Loops(RemovedGraph(old_, removed), q)
  }

  /**
   * A set of removed names that may be left alone: it holds what is referenced and the removed
   * groups directly after those, and with each name the removed names that it loads after.
   */
  ghost predicate IsClosed(old_: seq<Group>, removed: set<string>, referenced: set<string>, x: set<string>) {
    referenced <= x <= removed &&
    (forall g :: g in old_ && g.name in removed && (exists a :: a in g.after && a in referenced) ==> g.name in x) &&
    (forall n, m :: n in x && HasEdge(old_, n, m) && m in removed ==> m in x)
  }

  /** The recovered names as a set. */
  ghost function RecoveredNames(old_: seq<Group>, removed: set<string>, referenced: set<string>): set<string> {
    set n | n in removed && IsRecovered(old_, removed, referenced, n)
  }

  lemma UniqueGroup(groups: seq<Group>, g: Group)
    requires UniqueNames(groups) && g in groups
    ensures FindGroup(groups, g.name) < |groups| && groups[FindGroup(groups, g.name)] == g
  {
  }

  /** With each recovered name, the removed names that its group loads after are recovered. */
  lemma RecoveryFollowsEdges(old_: seq<Group>, removed: set<string>, referenced: set<string>, n: string, m: string)
    requires UniqueNames(old_) && IsRecovered(old_, removed, referenced, n)
    requires HasEdge(old_, n, m) && m in removed
    ensures IsRecovered(old_, removed, referenced, m)
  {
    var r := RelOf(RemovedGraph(old_, removed));
    var g :| g in old_ && g.name == n && m in g.after;
    UniqueGroup(old_, g);
    if n in referenced {
      assert Queues(g, removed, referenced, m);
      ReachesSelf(r, m);
    } else {
      var q :| StartsQueued(old_, removed, referenced, q) && Reaches(r, q, n);
      ReachesThenStep(r, q, n, m);
    }
  }

  lemma RecoveryIsClosed(old_: seq<Group>, removed: set<string>, referenced: set<string>)
    requires UniqueNames(old_) && referenced <= removed
    ensures IsClosed(old_, removed, referenced, RecoveredNames(old_, removed, referenced))
  {
    var x := RecoveredNames(old_, removed, referenced);
    forall g | g in old_ && g.name in removed && exists a :: a in g.after && a in referenced ensures g.name in x {
      if g.name !in referenced {
        assert Queues(g, removed, referenced, g.name);
        ReachesSelf(RelOf(RemovedGraph(old_, removed)), g.name);
      }
    }
    forall n, m | n in x && HasEdge(old_, n, m) && m in removed ensures m in x {
      RecoveryFollowsEdges(old_, removed, referenced, n, m);
    }
  }

  /** A path of removed groups cannot leave a closed set. */
  lemma {:induction false} PathStaysInClosed(old_: seq<Group>, removed: set<string>, referenced: set<string>,
                                             x: set<string>, p: seq<string>)
    requires IsClosed(old_, removed, referenced, x)
    requires IsPath(RelOf(RemovedGraph(old_, removed)), p)
    requires p[0] in x || p[0] !in removed
    ensures p[|p| - 1] in x || p[|p| - 1] !in removed
    decreases |p|
  {
    if |p| > 1 {
      assert RelOf(RemovedGraph(old_, removed))(p[0], p[1]);
      var g := old_[FindGroup(old_, p[0])];
      assert g in old_ && HasEdge(old_, p[0], p[1]);
      PathStaysInClosed(old_, removed, referenced, x, p[1..]);
    }
  }

  /** What is recovered is the least closed set. */
  lemma RecoveryIsLeast(old_: seq<Group>, removed: set<string>, referenced: set<string>, x: set<string>)
    requires IsClosed(old_, removed, referenced, x)
    ensures RecoveredNames(old_, removed, referenced) <= x
  {
    var r := RelOf(RemovedGraph(old_, removed));
    forall n | n in RecoveredNames(old_, removed, referenced) ensures n in x {
      if n !in referenced {
        var q :| StartsQueued(old_, removed, referenced, q) && Reaches(r, q, n);
        var g :| g in old_ && Queues(g, removed, referenced, q);
        assert q in g.after ==> HasEdge(old_, g.name, q);
        var p :| Connects(r, p, q, n);
        PathStaysInClosed(old_, removed, referenced, x, p);
      }
    }
  }

  /** The worklist stops exactly if no cycle of removed groups can be reached from its first content. */
  lemma WorklistStopsExactlyIfSafe(old_: seq<Group>, removed: set<string>, referenced: set<string>, queue: seq<string>)
    requires forall q :: q in queue <==> StartsQueued(old_, removed, referenced, q)
    ensures (exists turns: nat :: Drains(RemovedGraph(old_, removed), queue, turns)) <==>
            QueueIsSafe(old_, removed, referenced)
  {
    hide StartsQueued, Drains, Loops;
    StopsExactlyWithoutCycle(RemovedGraph(old_, removed), queue);
  }

  // An example of a cycle: A and B load after each other, the user has U load after A, and both
  // A and B are removed.

  function CycleOld(): seq<Group> {
    [Group("A", ["B"], ""), Group("B", ["A"], "")]
  }

  function CycleUser(): seq<Group> {
    [Group("U", ["A"], "")]
  }

  lemma CycleLoops()
    ensures Loops(RemovedGraph(CycleOld(), {"A", "B"}), "B")
  {
    var old_, removed := CycleOld(), {"A", "B"};
    var g := RemovedGraph(old_, removed);
    assert FindGroup(old_, "A") == 0 && FindGroup(old_, "B") == 1;
    assert g == map["A" := ["B"], "B" := ["A"]];
    var r := RelOf(g);
    assert ["B"][0] in ["B"] && ["A"][0] in ["A"];
    assert r("A", "B") && r("B", "A");
    ReachesSelf(r, "B");
    ReachesStep(r, "A", "B", "B");
    assert OnCycle(r, "B");
  }

  /** The worklist need not stop. */
  lemma WorklistMayRunForever(queue: seq<string>, turns: nat)
    requires var referenced := Referenced(CycleUser(), [], map[], {"A", "B"});
             forall q :: q in queue <==> StartsQueued(CycleOld(), {"A", "B"}, referenced, q)
    ensures !QueueIsSafe(CycleOld(), {"A", "B"}, Referenced(CycleUser(), [], map[], {"A", "B"}))
    ensures !Drains(RemovedGraph(CycleOld(), {"A", "B"}), queue, turns)
  {
    var old_, removed := CycleOld(), {"A", "B"};
    var referenced := Referenced(CycleUser(), [], map[], removed);
    CycleLoops();
    assert CycleUser()[0].after[0] == "A" && IsAfterName(CycleUser(), "A");
    assert old_[0].after[0] == "B" && Queues(old_[0], removed, referenced, "B");
    hide Loops, Drains;
    NeverDrainsWithCycle(RemovedGraph(old_, removed), queue, "B", turns);
  }
}
