/** What a user can rely on after a recovery: order is kept, no cycle appears, and nothing is left dangling. */
module RecoveryLaws {
  import opened Groups
  import opened Paths
  import opened Grafting
  import opened RecoverySet
  import opened GroupRecovery

  /** "n loads after m" among the groups. */
  ghost function EdgesOf(groups: seq<Group>): Rel {
    (n, m) => HasEdge(groups, n, m)
  }

  /** The edges that have to survive a recovery. */
  ghost function SourceEdgesOf(p: Plan, user: seq<Group>, old_: seq<Group>): Rel {
    (n, m) => p.SourceEdge(user, old_, n, m)
  }

  // --- Order ----------------------------------------------------------------------------

  /** Every surviving edge, and so every chain of them, orders the renamed groups as before. */
  lemma {:induction false} ChainSurvives(p: Plan, user: seq<Group>, old_: seq<Group>, groups: seq<Group>,
                                         c: seq<string>)
    requires Grafted(p, user, old_, groups) && IsPath(SourceEdgesOf(p, user, old_), c)
    ensures Reaches(EdgesOf(groups), p.Renamed(c[0]), p.Renamed(c[|c| - 1]))
    decreases |c|
  {
    if |c| == 1 {
      ReachesSelf(EdgesOf(groups), p.Renamed(c[0]));
    } else {
      ChainSurvives(p, user, old_, groups, c[1..]);
      assert p.SourceEdge(user, old_, c[0], c[1]);
      assert HasEdge(groups, p.Renamed(c[0]), p.Renamed(c[1]));
      ReachesStep(EdgesOf(groups), p.Renamed(c[0]), p.Renamed(c[1]), p.Renamed(c[|c| - 1]));
    }
  }

  lemma OrderSurvives(p: Plan, user: seq<Group>, old_: seq<Group>, groups: seq<Group>, n: string, m: string)
    requires Grafted(p, user, old_, groups)
    ensures p.SourceEdge(user, old_, n, m) ==> HasEdge(groups, p.Renamed(n), p.Renamed(m))
    ensures Reaches(SourceEdgesOf(p, user, old_), n, m) ==> Reaches(EdgesOf(groups), p.Renamed(n), p.Renamed(m))
  {
    if Reaches(SourceEdgesOf(p, user, old_), n, m) {
      var c :| Connects(SourceEdgesOf(p, user, old_), c, n, m);
      ChainSurvives(p, user, old_, groups, c);
    }
  }

  // --- Cycles ---------------------------------------------------------------------------

  /** The name occurs among the groups, as a group or in a list of groups to load after. */
  ghost predicate Mentions(groups: seq<Group>, n: string) {
    n in Names(groups) || IsAfterName(groups, n)
  }

  /** No name in use is what a changed name is changed to. */
  ghost predicate NoClash(p: Plan, user: seq<Group>, old_: seq<Group>) {
    forall n :: n in p.changes ==> !Mentions(user, p.changes[n]) && !Mentions(old_, p.changes[n])
  }

  lemma AppendedNamesDiffer(n: string, m: string)
    requires n + SUFFIX == m + SUFFIX
    ensures n == m
  {
    assert |n| == |m|;
    forall i | 0 <= i < |n| ensures n[i] == m[i] {
      assert (n + SUFFIX)[i] == n[i] && (m + SUFFIX)[i] == m[i];
    }
  }

  /** Renaming keeps mentioned names apart. */
  lemma RenamingIsInjective(p: Plan, user: seq<Group>, old_: seq<Group>, n: string, m: string)
    requires IsRecoveryMap(p.changes) && NoClash(p, user, old_)
    requires Mentions(user, n) || Mentions(old_, n)
    requires Mentions(user, m) || Mentions(old_, m)
    requires p.Renamed(n) == p.Renamed(m)
    ensures n == m
  {
    if n in p.changes && m in p.changes {
      AppendedNamesDiffer(n, m);
    }
  }

  lemma SourceIsMentioned(p: Plan, user: seq<Group>, old_: seq<Group>, n: string, m: string)
    requires p.SourceEdge(user, old_, n, m)
    ensures Mentions(user, n) || Mentions(old_, n)
    ensures Mentions(user, m) || Mentions(old_, m)
  {
  }

  /** After renaming, n goes by the name of m, which is not itself changed. */
  predicate TakesNameOf(p: Plan, n: string, m: string) {
    n in p.changes && m !in p.changes && m == n + SUFFIX
  }

  /** The names are one and the same after renaming. */
  predicate Coincide(p: Plan, n: string, m: string) {
    n == m || TakesNameOf(p, n, m) || TakesNameOf(p, m, n)
  }

  lemma CoincideExactly(p: Plan, n: string, m: string)
    requires IsRecoveryMap(p.changes)
    ensures Coincide(p, n, m) <==> p.Renamed(n) == p.Renamed(m)
  {
    if n in p.changes && m in p.changes && n + SUFFIX == m + SUFFIX {
      AppendedNamesDiffer(n, m);
    }
  }

  /** The surviving edges as they were before the update, except that names which will coincide count as one. */
  ghost function GluedEdgesOf(p: Plan, user: seq<Group>, old_: seq<Group>): Rel {
    (n, m) => exists x :: p.SourceEdge(user, old_, n, x) && Coincide(p, x, m)
  }

  lemma {:induction false} GluedChainSurvives(p: Plan, user: seq<Group>, old_: seq<Group>, groups: seq<Group>,
                                              c: seq<string>)
    requires IsRecoveryMap(p.changes) && Grafted(p, user, old_, groups) && IsPath(GluedEdgesOf(p, user, old_), c)
    ensures Reaches(EdgesOf(groups), p.Renamed(c[0]), p.Renamed(c[|c| - 1]))
    decreases |c|
  {
    if |c| == 1 {
      ReachesSelf(EdgesOf(groups), p.Renamed(c[0]));
    } else {
      GluedChainSurvives(p, user, old_, groups, c[1..]);
      GluedEdgeSurvives(p, user, old_, groups, c[0], c[1]);
      ReachesStep(EdgesOf(groups), p.Renamed(c[0]), p.Renamed(c[1]), p.Renamed(c[|c| - 1]));
    }
  }

  lemma GluedEdgeSurvives(p: Plan, user: seq<Group>, old_: seq<Group>, groups: seq<Group>, n: string, m: string)
    requires IsRecoveryMap(p.changes) && Grafted(p, user, old_, groups) && GluedEdgesOf(p, user, old_)(n, m)
    ensures HasEdge(groups, p.Renamed(n), p.Renamed(m))
  {
    var x :| p.SourceEdge(user, old_, n, x) && Coincide(p, x, m);
    CoincideExactly(p, x, m);
  }

  /**
   * A chain of new edges that starts where a surviving edge from n to x ended up comes from a
   * chain of glued edges that starts with n, and ends at any name that ended up where it does.
   */
  lemma {:induction false} ChainComesFromGlued(p: Plan, user: seq<Group>, old_: seq<Group>, groups: seq<Group>,
                                               c: seq<string>, n: string, x: string, y: string) returns (z: string)
    requires IsRecoveryMap(p.changes) && Grafted(p, user, old_, groups) && IsPath(EdgesOf(groups), c)
    requires p.SourceEdge(user, old_, n, x) && p.Renamed(x) == c[0] && p.Renamed(y) == c[|c| - 1]
    ensures GluedEdgesOf(p, user, old_)(n, z) && Reaches(GluedEdgesOf(p, user, old_), z, y)
    decreases |c|
  {
    if |c| == 1 {
      CoincideExactly(p, x, y);
      ReachesSelf(GluedEdgesOf(p, user, old_), y);
      z := y;
    } else {
      assert HasEdge(groups, c[0], c[1]);
      assert p.ImageEdge(user, old_, c[0], c[1]);
      var n1, x1 :| p.SourceEdge(user, old_, n1, x1) && p.Renamed(n1) == c[0] && p.Renamed(x1) == c[1];
      CoincideExactly(p, x, n1);
      var z1 := ChainComesFromGlued(p, user, old_, groups, c[1..], n1, x1, y);
      ReachesStep(GluedEdgesOf(p, user, old_), n1, z1, y);
      z := n1;
    }
  }

  lemma GluedCycleSurvives(p: Plan, user: seq<Group>, old_: seq<Group>, groups: seq<Group>, n: string)
    requires IsRecoveryMap(p.changes) && Grafted(p, user, old_, groups) && OnCycle(GluedEdgesOf(p, user, old_), n)
    ensures OnCycle(EdgesOf(groups), p.Renamed(n))
  {
    hide Grafted, IsPath, HasEdge;
    var glued := GluedEdgesOf(p, user, old_);
    var m :| glued(n, m) && Reaches(glued, m, n);
    var c :| Connects(glued, c, m, n);
    GluedEdgeSurvives(p, user, old_, groups, n, m);
    GluedChainSurvives(p, user, old_, groups, c);
    assert EdgesOf(groups)(p.Renamed(n), p.Renamed(m));
  }

  lemma CycleComesFromGlued(p: Plan, user: seq<Group>, old_: seq<Group>, groups: seq<Group>, n: string)
    requires IsRecoveryMap(p.changes) && Grafted(p, user, old_, groups) && OnCycle(EdgesOf(groups), n)
    ensures exists n0 :: OnCycle(GluedEdgesOf(p, user, old_), n0)
  {
    hide IsPath;
    var new_ := EdgesOf(groups);
    var m :| new_(n, m) && Reaches(new_, m, n);
    assert p.ImageEdge(user, old_, n, m);
    var n0, m0 :| p.SourceEdge(user, old_, n0, m0) && p.Renamed(n0) == n && p.Renamed(m0) == m;
    var c :| Connects(new_, c, m, n);
    var z := ChainComesFromGlued(p, user, old_, groups, c, n0, m0, n0);
    assert OnCycle(GluedEdgesOf(p, user, old_), n0);
  }

  /**
   * The user groups have a cycle afterwards exactly if the surviving edges had one, counting
   * names that coincide after renaming as one.
   */
  lemma CyclesComeFromGlueing(p: Plan, user: seq<Group>, old_: seq<Group>, groups: seq<Group>)
    requires IsRecoveryMap(p.changes) && Grafted(p, user, old_, groups)
    ensures Acyclic(EdgesOf(groups)) <==> Acyclic(GluedEdgesOf(p, user, old_))
  {
    hide Grafted, OnCycle;
    if n :| OnCycle(GluedEdgesOf(p, user, old_), n) {
      GluedCycleSurvives(p, user, old_, groups, n);
    }
    if n :| OnCycle(EdgesOf(groups), n) {
      CycleComesFromGlued(p, user, old_, groups, n);
    }
  }

  lemma {:induction false} FewerEdgesReachLess(r: Rel, s: Rel, c: seq<string>)
    requires (forall n, m :: r(n, m) ==> s(n, m)) && IsPath(r, c)
    ensures IsPath(s, c)
    decreases |c|
  {
    if |c| > 1 {
      FewerEdgesReachLess(r, s, c[1..]);
    }
  }

  lemma CycleStays(r: Rel, s: Rel, n: string)
    requires (forall n, m :: r(n, m) ==> s(n, m)) && OnCycle(r, n)
    ensures OnCycle(s, n)
  {
    var m :| r(n, m) && Reaches(r, m, n);
    var c :| Connects(r, c, m, n);
    FewerEdgesReachLess(r, s, c);
    assert Connects(s, c, m, n);
  }

  /** Unless names clash, a chain of glued edges that ends at a name in use is one of surviving edges. */
  lemma {:induction false} ChainIsUnglued(p: Plan, user: seq<Group>, old_: seq<Group>, c: seq<string>)
    requires IsRecoveryMap(p.changes) && NoClash(p, user, old_) && IsPath(GluedEdgesOf(p, user, old_), c)
    requires Mentions(user, c[|c| - 1]) || Mentions(old_, c[|c| - 1])
    ensures IsPath(SourceEdgesOf(p, user, old_), c) && (Mentions(user, c[0]) || Mentions(old_, c[0]))
    decreases |c|
  {
    if |c| > 1 {
      ChainIsUnglued(p, user, old_, c[1..]);
      EdgeIsUnglued(p, user, old_, c[0], c[1]);
    }
  }

  lemma EdgeIsUnglued(p: Plan, user: seq<Group>, old_: seq<Group>, n: string, m: string)
    requires IsRecoveryMap(p.changes) && NoClash(p, user, old_) && GluedEdgesOf(p, user, old_)(n, m)
    requires Mentions(user, m) || Mentions(old_, m)
    ensures p.SourceEdge(user, old_, n, m) && (Mentions(user, n) || Mentions(old_, n))
  {
    hide NoClash, Mentions, Coincide;
    var x :| p.SourceEdge(user, old_, n, x) && Coincide(p, x, m);
    CoincideExactly(p, x, m);
    SourceIsMentioned(p, user, old_, n, x);
    RenamingIsInjective(p, user, old_, x, m);
  }

  lemma CycleIsUnglued(p: Plan, user: seq<Group>, old_: seq<Group>, n: string)
    requires IsRecoveryMap(p.changes) && NoClash(p, user, old_) && OnCycle(GluedEdgesOf(p, user, old_), n)
    ensures OnCycle(SourceEdgesOf(p, user, old_), n)
  {
    hide NoClash, Mentions, Coincide, IsPath;
    var source, glued := SourceEdgesOf(p, user, old_), GluedEdgesOf(p, user, old_);
    var m :| glued(n, m) && Reaches(glued, m, n);
    var c :| Connects(glued, c, m, n);
    var x :| p.SourceEdge(user, old_, n, x) && Coincide(p, x, m);
    SourceIsMentioned(p, user, old_, n, x);
    ChainIsUnglued(p, user, old_, c);
    EdgeIsUnglued(p, user, old_, n, m);
    assert Connects(source, c, m, n);
    assert source(n, m);
  }

  /** Glueing loses no cycle, and makes none unless names clash. */
  lemma GlueingWithoutClash(p: Plan, user: seq<Group>, old_: seq<Group>)
    requires IsRecoveryMap(p.changes)
    ensures Acyclic(GluedEdgesOf(p, user, old_)) ==> Acyclic(SourceEdgesOf(p, user, old_))
    ensures NoClash(p, user, old_) && Acyclic(SourceEdgesOf(p, user, old_)) ==> Acyclic(GluedEdgesOf(p, user, old_))
  {
    hide NoClash, OnCycle;
    if n :| OnCycle(SourceEdgesOf(p, user, old_), n) {
      CycleStays(SourceEdgesOf(p, user, old_), GluedEdgesOf(p, user, old_), n);
    }
    if NoClash(p, user, old_) && !Acyclic(GluedEdgesOf(p, user, old_)) {
      var n :| OnCycle(GluedEdgesOf(p, user, old_), n);
      CycleIsUnglued(p, user, old_, n);
    }
  }

  /** Unless names clash, the user groups have a cycle afterwards exactly if the surviving edges had one. */
  lemma CyclesSurviveOrComeFromSource(p: Plan, user: seq<Group>, old_: seq<Group>, groups: seq<Group>)
    requires IsRecoveryMap(p.changes) && NoClash(p, user, old_) && Grafted(p, user, old_, groups)
    ensures Acyclic(EdgesOf(groups)) <==> Acyclic(SourceEdgesOf(p, user, old_))
  {
    CyclesComeFromGlueing(p, user, old_, groups);
    GlueingWithoutClash(p, user, old_);
  }

  /** If neither the old masterlist nor the user's groups, taken together, go round in circles, the result does not. */
  lemma RecoveryAddsNoCycle(p: Plan, user: seq<Group>, old_: seq<Group>, groups: seq<Group>)
    requires IsRecoveryMap(p.changes) && NoClash(p, user, old_) && Grafted(p, user, old_, groups)
    requires Acyclic((n, m) => HasEdge(user, n, m) || HasEdge(old_, n, m))
    ensures Acyclic(EdgesOf(groups))
  {
    var all: Rel, source := (n, m) => HasEdge(user, n, m) || HasEdge(old_, n, m), SourceEdgesOf(p, user, old_);
    if n :| OnCycle(source, n) {
      CycleStays(source, all, n);
    }
    CyclesSurviveOrComeFromSource(p, user, old_, groups);
  }

  lemma {:induction false} RankFalls(r: Rel, rank: string -> nat, c: seq<string>)
    requires (forall n, m :: r(n, m) ==> rank(m) < rank(n)) && IsPath(r, c)
    ensures rank(c[|c| - 1]) <= rank(c[0])
    decreases |c|
  {
    if |c| > 1 {
      RankFalls(r, rank, c[1..]);
    }
  }

  lemma RankedIsAcyclic(r: Rel, rank: string -> nat)
    requires forall n, m :: r(n, m) ==> rank(m) < rank(n)
    ensures Acyclic(r)
  {
    if n :| OnCycle(r, n) {
      var m :| r(n, m) && Reaches(r, m, n);
      var c :| Connects(r, c, m, n);
      RankFalls(r, rank, c);
    }
  }

  // An example of a clash: the user's group "A (Recovered)" loads after B, B loads after A, and A
  // is removed from the masterlist.

  function ClashUser(): seq<Group> {
    [Group("B", ["A"], ""), Group("A" + SUFFIX, ["B"], "")]
  }

  function ClashOld(): seq<Group> {
    [Group("A", [], "")]
  }

  function ClashPlan(): Plan {
    Plan(map["A" := "A" + SUFFIX], {})
  }

  lemma ClashPlanIsRight()
    ensures IsRecoveryPlan(ClashPlan(), ClashUser(), [], map[], ClashOld(), {"A"})
  {
  }

  lemma ClashIsAcyclicBefore()
    ensures Acyclic((n, m) => HasEdge(ClashUser(), n, m) || HasEdge(ClashOld(), n, m))
  {
    assert |"A" + SUFFIX| > 1;
    RankedIsAcyclic((n, m) => HasEdge(ClashUser(), n, m) || HasEdge(ClashOld(), n, m),
                    n => if n == "A" + SUFFIX then 2 else if n == "B" then 1 else 0);
  }

  lemma ClashIsCyclicAfter(groups: seq<Group>)
    requires Grafted(ClashPlan(), ClashUser(), ClashOld(), groups)
    ensures !Acyclic(EdgesOf(groups))
  {
    var p, user, a' := ClashPlan(), ClashUser(), "A" + SUFFIX;
    assert |a'| > 1 && user[0] in user && user[1] in user;
    assert p.SourceEdge(user, ClashOld(), "B", "A") && p.SourceEdge(user, ClashOld(), a', "B");
    OrderSurvives(p, user, ClashOld(), groups, "B", "A");
    OrderSurvives(p, user, ClashOld(), groups, a', "B");
    hide Grafted, HasEdge;
    var r := EdgesOf(groups);
    assert r("B", a') && r(a', "B");
    ReachesSelf(r, "B");
    ReachesStep(r, a', "B", "B");
    assert OnCycle(r, "B");
  }

  /** Without the check for clashes, recovery can make a cycle where there was none. */
  lemma ClashMakesCycle(groups: seq<Group>)
    ensures IsRecoveryPlan(ClashPlan(), ClashUser(), [], map[], ClashOld(), {"A"})
    ensures Acyclic((n, m) => HasEdge(ClashUser(), n, m) || HasEdge(ClashOld(), n, m))
    ensures Grafted(ClashPlan(), ClashUser(), ClashOld(), groups) ==> !Acyclic(EdgesOf(groups))
  {
    hide Grafted, IsRecoveryPlan, Acyclic, ClashPlan, ClashUser, ClashOld;
    ClashPlanIsRight();
    ClashIsAcyclicBefore();
    if Grafted(ClashPlan(), ClashUser(), ClashOld(), groups) {
      ClashIsCyclicAfter(groups);
    }
  }

  // A clash that does no harm: the user's group "A (Recovered)" is empty, and so is the removed A.

  function HarmlessUser(): seq<Group> {
    [Group("A" + SUFFIX, [], "")]
  }

  /** A clash need not make a cycle. */
  lemma ClashMayBeHarmless(groups: seq<Group>)
    ensures IsRecoveryPlan(ClashPlan(), HarmlessUser(), ["p"], map["p" := "A"], ClashOld(), {"A"})
    ensures !NoClash(ClashPlan(), HarmlessUser(), ClashOld())
    ensures Grafted(ClashPlan(), HarmlessUser(), ClashOld(), groups) ==> Acyclic(EdgesOf(groups))
  {
    assert |"A" + SUFFIX| > 1;
    assert HarmlessUser()[0] in HarmlessUser() && ["p"][0] in ["p"];
    assert IsPluginGroup(["p"], map["p" := "A"], "A");
  }

  // --- Dangling references --------------------------------------------------------------

  /** The name is a group of the new masterlist or of the user. */
  predicate IsDefined(groups: seq<Group>, newMasterlist: seq<Group>, n: string) {
    n in Names(groups) || n in Names(newMasterlist)
  }

  lemma OldNameStaysDefined(p: Plan, user: seq<Group>, old_: seq<Group>, groups: seq<Group>, newMasterlist: seq<Group>,
                            removed: set<string>, n: string)
    requires Grafted(p, user, old_, groups) && p.Recovered() <= removed
    requires removed == Names(old_) - Names(newMasterlist)
    requires n in Names(user) || (n in Names(old_) && (n in removed ==> n in p.Recovered()))
    ensures IsDefined(groups, newMasterlist, p.Renamed(n))
  {
  }

  /** Every group that a user group loads after is defined, if it was before the update. */
  lemma NoEdgeDangles(p: Plan, user: seq<Group>, plugins: seq<string>, pluginGroups: map<string, string>,
                      old_: seq<Group>, newMasterlist: seq<Group>, groups: seq<Group>, n: string, m: string)
    requires UniqueNames(old_)
    requires var removed := Names(old_) - Names(newMasterlist);
             IsRecoveryPlan(p, user, plugins, pluginGroups, old_, removed)
    requires Grafted(p, user, old_, groups)
    requires forall x, y :: HasEdge(old_, x, y) ==> y in Names(old_)
    requires forall x, y :: HasEdge(user, x, y) ==> y in Names(user) || y in Names(old_)
    requires HasEdge(groups, n, m)
    ensures IsDefined(groups, newMasterlist, m)
  {
    var removed := Names(old_) - Names(newMasterlist);
    var referenced := Referenced(user, plugins, pluginGroups, removed);
    assert p.ImageEdge(user, old_, n, m);
    var n0, m0 :| p.SourceEdge(user, old_, n0, m0) && p.Renamed(n0) == n && p.Renamed(m0) == m;
    if m0 in removed && m0 !in Names(user) {
      if HasEdge(user, n0, m0) {
        assert IsAfterName(user, m0);
        assert m0 in referenced;
        assert m0 in RecoveredNames(old_, removed, referenced);
      } else if n0 in p.Recovered() {
        RecoveryFollowsEdges(old_, removed, referenced, n0, m0);
        assert m0 in RecoveredNames(old_, removed, referenced);
      }
    }
    OldNameStaysDefined(p, user, old_, groups, newMasterlist, removed, m0);
  }

  /** Every loaded plugin's group is defined, if it was before the update. */
  lemma NoPluginDangles(p: Plan, user: seq<Group>, plugins: seq<string>, pluginGroups: map<string, string>,
                        old_: seq<Group>, newMasterlist: seq<Group>, groups: seq<Group>,
                        pluginGroupsNow: map<string, string>, plugin: string)
    requires var removed := Names(old_) - Names(newMasterlist);
             IsRecoveryPlan(p, user, plugins, pluginGroups, old_, removed) &&
             ArePluginsMoved(plugins, removed, p.keep, pluginGroups, pluginGroupsNow)
    requires Grafted(p, user, old_, groups)
    requires plugin in plugins && plugin in pluginGroups
    requires pluginGroups[plugin] in Names(old_) || pluginGroups[plugin] in Names(user)
    ensures pluginGroupsNow[plugin] == p.Renamed(pluginGroups[plugin])
    ensures IsDefined(groups, newMasterlist, pluginGroupsNow[plugin])
  {
  }

  /**
   * Any plugin's group, loaded or not, is defined afterwards exactly if the plugin is loaded or
   * the group it had still has a definition under its old name.
   */
  lemma PluginGroupIsDefinedExactly(p: Plan, user: seq<Group>, plugins: seq<string>, pluginGroups: map<string, string>,
                                    old_: seq<Group>, newMasterlist: seq<Group>, groups: seq<Group>,
                                    pluginGroupsNow: map<string, string>, plugin: string)
    requires var removed := Names(old_) - Names(newMasterlist);
             IsRecoveryPlan(p, user, plugins, pluginGroups, old_, removed) &&
             ArePluginsMoved(plugins, removed, p.keep, pluginGroups, pluginGroupsNow)
    requires Grafted(p, user, old_, groups) && plugin in pluginGroups
    requires pluginGroups[plugin] in Names(old_) || pluginGroups[plugin] in Names(user)
    ensures IsDefined(groups, newMasterlist, pluginGroupsNow[plugin]) <==>
      plugin in plugins || IsDefined(groups, newMasterlist, pluginGroups[plugin])
  {
  }

  /** The user's own groups keep their places, names and descriptions. */
  lemma UserGroupsStay(p: Plan, user: seq<Group>, plugins: seq<string>, pluginGroups: map<string, string>,
                       old_: seq<Group>, removed: set<string>, groups: seq<Group>)
    requires IsRecoveryPlan(p, user, plugins, pluginGroups, old_, removed) && Grafted(p, user, old_, groups)
    ensures |user| <= |groups|
    ensures forall i :: 0 <= i < |user| ==>
      groups[i].name == user[i].name && groups[i].description == user[i].description
  {
  }

  /**
   * A removed group that is not recovered is brought back all the same, under its own name,
   * exactly if it loads after a recovered group or has the name that another group is changed to.
   */
  lemma UnrecoveredMayReturn(p: Plan, user: seq<Group>, plugins: seq<string>, pluginGroups: map<string, string>,
                             old_: seq<Group>, removed: set<string>, groups: seq<Group>, n: string)
    requires IsRecoveryPlan(p, user, plugins, pluginGroups, old_, removed) && Grafted(p, user, old_, groups)
    requires n in removed && n in Names(old_) && n !in p.Recovered()
    ensures n in Names(groups) <==>
      (exists m :: HasEdge(old_, n, m) && m in p.Recovered()) ||
      (exists c :: c in p.changes && c in Names(old_) && n == c + SUFFIX)
  {
  }

  // An example: the user has U load after A, which loads after B. C loads after B too. All three
  // are removed.

  function ReturnOld(): seq<Group> {
    [Group("A", ["B"], ""), Group("B", [], ""), Group("C", ["B"], "")]
  }

  function ReturnPlan(): Plan {
    Plan(map["A" := "A" + SUFFIX, "B" := "B" + SUFFIX], {})
  }

  lemma ReturnsReferences()
    ensures Referenced(CycleUser(), [], map[], {"A", "B", "C"}) == {"A"}
  {
    assert CycleUser()[0].after[0] == "A" && IsAfterName(CycleUser(), "A");
  }

  lemma ReturnsClose()
    ensures IsClosed(ReturnOld(), {"A", "B", "C"}, {"A"}, {"A", "B"})
    ensures forall x :: IsClosed(ReturnOld(), {"A", "B", "C"}, {"A"}, x) ==> {"A", "B"} <= x
  {
    var old_ := ReturnOld();
    assert forall g :: g in old_ ==> g == old_[0] || g == old_[1] || g == old_[2];
    assert forall n, m :: HasEdge(old_, n, m) ==> m == "B";
    assert HasEdge(old_, "A", "B") by {
      assert old_[0].after[0] == "B";
    }
    hide HasEdge;
  }

  lemma ReturnsRecover()
    ensures RecoveredNames(ReturnOld(), {"A", "B", "C"}, {"A"}) == {"A", "B"}
  {
    var old_, removed := ReturnOld(), {"A", "B", "C"};
    RecoveryIsClosed(old_, removed, {"A"});
    hide RecoveredNames, IsClosed;
    ReturnsClose();
    RecoveryIsLeast(old_, removed, {"A"}, {"A", "B"});
  }

  lemma ReturnPlanIsRight()
    ensures IsRecoveryPlan(ReturnPlan(), CycleUser(), [], map[], ReturnOld(), {"A", "B", "C"})
  {
    hide RecoveredNames, Referenced, ReturnOld;
    ReturnsReferences();
    ReturnsRecover();
  }

  /** C is not recovered, but becomes a user group. */
  lemma UnrecoveredReturns(groups: seq<Group>)
    ensures IsRecoveryPlan(ReturnPlan(), CycleUser(), [], map[], ReturnOld(), {"A", "B", "C"})
    ensures "C" !in ReturnPlan().Recovered()
    ensures Grafted(ReturnPlan(), CycleUser(), ReturnOld(), groups) ==> "C" in Names(groups)
  {
    hide IsRecoveryPlan, HasEdge;
    ReturnPlanIsRight();
    var g := ReturnOld()[2];
    assert g in ReturnOld() && g.after[0] == "B" && g.after[0] in g.after && "C"[0] != "A"[0] && "C"[0] != "B"[0];
    assert ReturnPlan().Grafts(g) && ReturnPlan().Renamed("C") == "C";
    assert ReturnPlan().ImageName(CycleUser(), ReturnOld(), "C");
  }

  // Another: the user has U load after A, and both A and "A (Recovered)" are removed.

  function TwinOld(): seq<Group> {
    [Group("A", [], ""), Group("A" + SUFFIX, [], "")]
  }

  lemma TwinsReference()
    ensures Referenced(CycleUser(), [], map[], {"A", "A" + SUFFIX}) == {"A"}
  {
    assert |"A" + SUFFIX| > 1;
    assert CycleUser()[0].after[0] == "A" && IsAfterName(CycleUser(), "A");
  }

  lemma TwinsRecover()
    ensures RecoveredNames(TwinOld(), {"A", "A" + SUFFIX}, {"A"}) == {"A"}
  {
    var old_, removed := TwinOld(), {"A", "A" + SUFFIX};
    assert |"A" + SUFFIX| > 1;
    RecoveryIsClosed(old_, removed, {"A"});
    assert IsClosed(old_, removed, {"A"}, {"A"});
    hide RecoveredNames;
    RecoveryIsLeast(old_, removed, {"A"}, {"A"});
  }

  /** "A (Recovered)" is not recovered and loads after nothing, but its name is among the user groups, for A. */
  lemma UnrecoveredNameReturns(groups: seq<Group>)
    ensures IsRecoveryPlan(ClashPlan(), CycleUser(), [], map[], TwinOld(), {"A", "A" + SUFFIX})
    ensures "A" + SUFFIX !in ClashPlan().Recovered() && forall m :: !HasEdge(TwinOld(), "A" + SUFFIX, m)
    ensures Grafted(ClashPlan(), CycleUser(), TwinOld(), groups) ==> "A" + SUFFIX in Names(groups)
  {
    hide RecoveredNames, Referenced;
    assert |"A" + SUFFIX| > 1;
    TwinsReference();
    TwinsRecover();
    assert TwinOld()[0] in TwinOld() && ClashPlan().Renamed("A") == "A" + SUFFIX;
    assert ClashPlan().Grafts(TwinOld()[0]);
    assert ClashPlan().ImageName(CycleUser(), TwinOld(), "A" + SUFFIX);
  }
}
