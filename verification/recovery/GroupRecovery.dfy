/** The recovery that follows a masterlist update: which groups to bring back, and doing so. */
module GroupRecovery {
  import opened Groups
  import opened Worklist
  import opened Grafting
  import opened RecoverySet
  import opened Sequences

  // --- Collecting references ------------------------------------------------------------

  class Game {
    var userGroups: seq<Group>
    /** The loaded plugins, and the group that user metadata gives to a plugin. */
    var plugins: seq<string>
    var pluginGroups: map<string, string>

    constructor (userGroups: seq<Group>, plugins: seq<string>, pluginGroups: map<string, string>)
      ensures this.userGroups == userGroups && this.plugins == plugins && this.pluginGroups == pluginGroups
    {
      this.userGroups := userGroups;
      this.plugins := plugins;
      this.pluginGroups := pluginGroups;
    }
  }

  /** Removed groups that the user defines too keep their names. */
  method NamesToKeep(userGroups: seq<Group>, removed: set<string>) returns (keep: set<string>)
    ensures keep == Names(userGroups) * removed
  {
    keep := {};
    for i := 0 to |userGroups|
      invariant keep == Names(userGroups[..i]) * removed
    {
      NamesOfNext(userGroups, i);
      if userGroups[i].name in removed {
        keep := keep + {userGroups[i].name};
      }
    }
    assert userGroups[..|userGroups|] == userGroups;
  }

  /** Adds the change of a removed name that is not kept. */
  function Emplace(changes: map<string, string>, n: string): (r: map<string, string>)
    ensures r.Keys == changes.Keys + {n} && (IsRecoveryMap(changes) ==> IsRecoveryMap(r))
  {
    if n in changes then changes else changes[n := n + SUFFIX]
  }

  method ChangesForUserGroups(userGroups: seq<Group>, removed: set<string>, keep: set<string>)
    returns (changes: map<string, string>)
    ensures IsRecoveryMap(changes)
    ensures forall n :: n in changes <==> IsAfterName(userGroups, n) && n in removed && n !in keep
  {
    changes := map[];
    for i := 0 to |userGroups|
      invariant IsRecoveryMap(changes)
      invariant forall n :: n in changes <==> IsAfterName(userGroups[..i], n) && n in removed && n !in keep
    {
      var after := userGroups[i].after;
      for j := 0 to |after|
        invariant IsRecoveryMap(changes)
        invariant forall n :: n in changes <==>
                    (IsAfterName(userGroups[..i], n) || n in after[..j]) && n in removed && n !in keep
      {
        if after[j] in removed && after[j] !in keep {
          changes := Emplace(changes, after[j]);
        }
        assert after[..j + 1] == after[..j] + [after[j]];
      }
      assert after[..|after|] == after && userGroups[..i + 1] == userGroups[..i] + [userGroups[i]];
      AfterNamesOfNext(userGroups[..i], userGroups[i]);
    }
    assert userGroups[..|userGroups|] == userGroups;
  }

  lemma AfterNamesOfNext(groups: seq<Group>, g: Group)
    ensures forall n :: IsAfterName(groups + [g], n) <==> IsAfterName(groups, n) || n in g.after
  {
  }

  /** A plugin's group once the plugin has been looked at. */
  function MovedGroup(group: string, removed: set<string>, keep: set<string>): string {
    if group in removed && group !in keep then group + SUFFIX else group
  }

  /** The plugin groups after the loaded plugins up to some point have been looked at. */
  ghost predicate ArePluginsMoved(seen: seq<string>, removed: set<string>, keep: set<string>,
                                  was: map<string, string>, now: map<string, string>)
  {
    now.Keys == was.Keys &&
    forall p :: p in was ==> now[p] == (if p in seen then MovedGroup(was[p], removed, keep) else was[p])
  }

  /** The changes after the loaded plugins up to some point have been looked at. */
  ghost predicate HasChangesFor(seen: seq<string>, removed: set<string>, keep: set<string>, was: map<string, string>,
                                before: map<string, string>, changes: map<string, string>)
  {
    IsRecoveryMap(changes) &&
    forall n :: n in changes <==> n in before || (n in removed && n !in keep && IsPluginGroup(seen, was, n))
  }

  /** What looking at one more plugin does to the plugin groups. */
  lemma MoveOnePlugin(seen: seq<string>, p: string, removed: set<string>, keep: set<string>, was: map<string, string>,
                      now: map<string, string>)
    requires p !in seen && ArePluginsMoved(seen, removed, keep, was, now)
    ensures p in was <==> p in now
    ensures p in was ==> now[p] == was[p]
    ensures p in was ==> ArePluginsMoved(seen + [p], removed, keep, was, now[p := MovedGroup(was[p], removed, keep)])
    ensures p !in was || MovedGroup(was[p], removed, keep) == was[p] ==>
              ArePluginsMoved(seen + [p], removed, keep, was, now)
  {
  }

  /** What looking at one more plugin does to the changes. */
  lemma ChangeForOnePlugin(seen: seq<string>, p: string, removed: set<string>, keep: set<string>,
                           was: map<string, string>, before: map<string, string>, changes: map<string, string>)
    requires HasChangesFor(seen, removed, keep, was, before, changes)
    ensures if p in was && was[p] in removed && was[p] !in keep
            then HasChangesFor(seen + [p], removed, keep, was, before, Emplace(changes, was[p])) &&
                 Emplace(changes, was[p])[was[p]] == was[p] + SUFFIX
            else HasChangesFor(seen + [p], removed, keep, was, before, changes)
  {
  }

  /** Moves the loaded plugins of removed groups along, and records the changes this takes. */
  method ChangesForPlugins(game: Game, removed: set<string>, keep: set<string>, before: map<string, string>)
    returns (changes: map<string, string>)
    requires IsRecoveryMap(before) && Distinct(game.plugins)
    modifies game`pluginGroups
    ensures HasChangesFor(game.plugins, removed, keep, old(game.pluginGroups), before, changes)
    ensures ArePluginsMoved(game.plugins, removed, keep, old(game.pluginGroups), game.pluginGroups)
  {
    changes := before;
    ghost var was := game.pluginGroups;
    var plugins := game.plugins;
    assert HasChangesFor(plugins[..0], removed, keep, was, before, changes);
    assert ArePluginsMoved(plugins[..0], removed, keep, was, game.pluginGroups);
    hide HasChangesFor, ArePluginsMoved;
    for i := 0 to |plugins|
      invariant HasChangesFor(plugins[..i], removed, keep, was, before, changes)
      invariant ArePluginsMoved(plugins[..i], removed, keep, was, game.pluginGroups)
    {
      var p := plugins[i];
      assert p !in plugins[..i] && plugins[..i + 1] == plugins[..i] + [p];
      MoveOnePlugin(plugins[..i], p, removed, keep, was, game.pluginGroups);
      ChangeForOnePlugin(plugins[..i], p, removed, keep, was, before, changes);
      if p in game.pluginGroups {
        var groupName := game.pluginGroups[p];
        if groupName in removed && groupName !in keep {
          changes := Emplace(changes, groupName);
          game.pluginGroups := game.pluginGroups[p := changes[groupName]];
        }
      }
    }
    assert plugins[..|plugins|] == plugins;
  }

  /** Fills the queue from the old groups that are referenced or load after a referenced one. */
  method QueueReferences(old_: seq<Group>, removed: set<string>, changes: map<string, string>, keep: set<string>)
    returns (queue: seq<string>)
    ensures forall q :: q in queue <==> StartsQueued(old_, removed, changes.Keys + keep, q)
  {
    queue := [];
    ghost var referenced := changes.Keys + keep;
    for i := 0 to |old_|
      invariant forall q :: q in queue <==> StartsQueued(old_[..i], removed, referenced, q)
    {
      var g := old_[i];
      ghost var before := queue;
      if g.name in changes || g.name in keep {
        queue := queue + g.after;
      } else if g.name in removed {
        var j := 0;
        while j < |g.after| && !(g.after[j] in changes || g.after[j] in keep)
          invariant j <= |g.after|
          invariant forall k :: 0 <= k < j ==> g.after[k] !in referenced
        {
          j := j + 1;
        }
        if j < |g.after| {
          queue := queue + [g.name];
        }
      }
      assert forall q :: q in queue <==> q in before || Queues(g, removed, referenced, q);
      assert old_[..i + 1] == old_[..i] + [g];
      StartsQueuedOfNext(old_[..i], g, removed, referenced);
    }
    assert old_[..|old_|] == old_;
  }

  lemma StartsQueuedOfNext(old_: seq<Group>, g: Group, removed: set<string>, referenced: set<string>)
    ensures forall q :: StartsQueued(old_ + [g], removed, referenced, q) <==>
              StartsQueued(old_, removed, referenced, q) || Queues(g, removed, referenced, q)
  {
  }

  /** The worklist loop. */
  method CloseChanges(old_: seq<Group>, removed: set<string>, keep: set<string>, before: map<string, string>,
                      start: seq<string>)
    returns (changes: map<string, string>)
    requires IsRecoveryMap(before)
    requires forall q :: q in start ==> !Loops(RemovedGraph(old_, removed), q)
    ensures IsRecoveryMap(changes)
    ensures forall n :: n in changes <==>
              n in before || (n in removed && n !in keep && QueueReaches(RemovedGraph(old_, removed), start, n))
  {
    ghost var g := RemovedGraph(old_, removed);
    changes := before;
    var queue := start;
    while queue != []
      invariant IsRecoveryMap(changes)
      invariant forall q :: q in queue ==> !Loops(g, q)
      invariant forall n :: n in removed && n !in keep ==>
                  (n in before || QueueReaches(g, start, n) <==> n in changes || QueueReaches(g, queue, n))
      invariant forall n :: n in changes ==> n in before || (n in removed && n !in keep)
      invariant forall n :: n in before ==> n in changes
      decreases QueueWeight(g, queue)
    {
      ghost var was, wasChanges := queue, changes;
      var groupName := queue[|queue| - 1];
      TurnLosesWeight(g, queue);
      TurnReachesNoCycle(g, queue);
      queue := queue[..|queue| - 1];
      if groupName in removed {
        if groupName !in keep {
          changes := Emplace(changes, groupName);
        }
        var i := FindGroup(old_, groupName);
        if i < |old_| {
          queue := queue + old_[i].after;
        }
      }
      assert queue == Turn(g, was);
      forall n ensures QueueReaches(g, was, n) <==> n == groupName || QueueReaches(g, queue, n) {
        TurnSettlesOne(g, was, n);
      }
    }
  }

  /** What the collected names have to be. */
  ghost predicate IsRecoveryPlan(p: Plan, user: seq<Group>, plugins: seq<string>, pluginGroups: map<string, string>,
                                 old_: seq<Group>, removed: set<string>)
  {
    p.keep == Names(user) * removed && IsRecoveryMap(p.changes) && p.changes.Keys !! p.keep &&
    p.Recovered() == RecoveredNames(old_, removed, Referenced(user, plugins, pluginGroups, removed))
  }

  lemma PlanIsComplete(p: Plan, first: map<string, string>, queue: seq<string>, user: seq<Group>, plugins: seq<string>,
                       pluginGroups: map<string, string>, old_: seq<Group>, removed: set<string>)
    requires p.keep == Names(user) * removed && IsRecoveryMap(p.changes)
    requires first.Keys + p.keep == Referenced(user, plugins, pluginGroups, removed) && first.Keys !! p.keep
    requires forall q :: q in queue <==> StartsQueued(old_, removed, first.Keys + p.keep, q)
    requires forall n :: n in p.changes <==>
               n in first || (n in removed && n !in p.keep && QueueReaches(RemovedGraph(old_, removed), queue, n))
    ensures IsRecoveryPlan(p, user, plugins, pluginGroups, old_, removed)
  {
  }

  /** Brings back, as user groups, the removed groups that user metadata depends on. */
  method RecoverRemovedGroups(game: Game, oldMasterlistGroups: seq<Group>, removed: set<string>)
    returns (namesToChange: map<string, string>)
    requires Distinct(game.plugins)
    requires QueueIsSafe(oldMasterlistGroups, removed,
                         Referenced(game.userGroups, game.plugins, game.pluginGroups, removed))
    modifies game`userGroups, game`pluginGroups
    ensures var plan := Plan(namesToChange, old(Names(game.userGroups)) * removed);
            IsRecoveryPlan(plan, old(game.userGroups), game.plugins, old(game.pluginGroups), oldMasterlistGroups,
                           removed) &&
            Grafted(plan, old(game.userGroups), oldMasterlistGroups, game.userGroups) &&
            ArePluginsMoved(game.plugins, removed, plan.keep, old(game.pluginGroups), game.pluginGroups)
    ensures UniqueNames(old(game.userGroups)) ==> UniqueNames(game.userGroups)
  {
    ghost var user, groupsOf := game.userGroups, game.pluginGroups;
    var namesToKeep := NamesToKeep(game.userGroups, removed);
    var inGroups := ChangesForUserGroups(game.userGroups, removed, namesToKeep);
    var first := ChangesForPlugins(game, removed, namesToKeep, inGroups);
    assert first.Keys + namesToKeep == Referenced(user, game.plugins, groupsOf, removed);
    var queue := QueueReferences(oldMasterlistGroups, removed, first, namesToKeep);
    namesToChange := CloseChanges(oldMasterlistGroups, removed, namesToKeep, first, queue);
    var plan := Plan(namesToChange, namesToKeep);
    PlanIsComplete(plan, first, queue, user, game.plugins, groupsOf, oldMasterlistGroups, removed);
    assert forall g :: g in user && g.name in removed ==> g.name in namesToKeep;
    var groups := RecoverInto(game.userGroups, plan, oldMasterlistGroups);
    game.userGroups := groups;
  }
}
