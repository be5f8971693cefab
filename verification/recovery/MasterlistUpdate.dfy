/** A masterlist update from start to finish: compare the old groups with the new, and recover what is needed. */
module MasterlistUpdate {
  import opened Groups
  import opened Sequences
  import opened Grafting
  import opened RecoverySet
  import opened GroupRecovery
  import opened RecoveryLaws

  /** Each group that is loaded after has a definition among the user's groups or those of a masterlist. */
  ghost predicate EdgesAreDefined(user: seq<Group>, masterlist: seq<Group>) {
    forall n, m :: HasEdge(user, n, m) ==> IsDefined(user, masterlist, m)
  }

  /** So has the group of each loaded plugin that user metadata puts in one. */
  ghost predicate PluginsAreDefined(plugins: seq<string>, pluginGroups: map<string, string>, user: seq<Group>,
                                  masterlist: seq<Group>)
  {
    forall p :: p in plugins && p in pluginGroups ==> IsDefined(user, masterlist, pluginGroups[p])
  }

  /** The old masterlist defined the group and the new one does not. */
  predicate WasRemoved(n: string, old_: seq<Group>, new_: seq<Group>) {
    (exists g :: g in old_ && g.name == n) && forall g :: g in new_ ==> g.name != n
  }

  /** The group is given a new name, or was removed and is the user's too. */
  predicate IsRecoveredAs(n: string, namesToChange: map<string, string>, user: seq<Group>, old_: seq<Group>,
                          new_: seq<Group>)
  {
    n in namesToChange || (WasRemoved(n, old_, new_) && exists g :: g in user && g.name == n)
  }

  /** The groups that were there are still first, with their names and descriptions. */
  ghost predicate KeepsGroups(was: seq<Group>, now: seq<Group>) {
    |was| <= |now| &&
    forall i :: 0 <= i < |was| ==> now[i].name == was[i].name && now[i].description == was[i].description
  }

  lemma RemovedNames(old_: seq<Group>, new_: seq<Group>)
    ensures forall n :: WasRemoved(n, old_, new_) <==> n in Names(old_) - Names(new_)
  {
  }

  /** The groups of the new masterlist have been loaded; the user's data still refers to the old ones. */
  method RecoverAfterUpdate(game: Game, oldMasterlistGroups: seq<Group>, newMasterlistGroups: seq<Group>)
    returns (namesToChange: map<string, string>)
    requires Distinct(game.plugins) && UniqueNames(oldMasterlistGroups)
    requires forall n, m :: HasEdge(oldMasterlistGroups, n, m) ==> m in Names(oldMasterlistGroups)
    requires EdgesAreDefined(game.userGroups, oldMasterlistGroups)
    requires PluginsAreDefined(game.plugins, game.pluginGroups, game.userGroups, oldMasterlistGroups)
    requires var removed := Names(oldMasterlistGroups) - Names(newMasterlistGroups);
             QueueIsSafe(oldMasterlistGroups, removed,
                         Referenced(game.userGroups, game.plugins, game.pluginGroups, removed))
    modifies game`userGroups, game`pluginGroups
    ensures EdgesAreDefined(game.userGroups, newMasterlistGroups)
    ensures PluginsAreDefined(game.plugins, game.pluginGroups, game.userGroups, newMasterlistGroups)
    ensures forall n, m :: HasEdge(old(game.userGroups), n, m) ==>
      HasEdge(game.userGroups, FindOrKey(namesToChange, n), FindOrKey(namesToChange, m))
    ensures forall n, m :: HasEdge(oldMasterlistGroups, n, m) ==>
      IsRecoveredAs(n, namesToChange, old(game.userGroups), oldMasterlistGroups, newMasterlistGroups) ||
      IsRecoveredAs(m, namesToChange, old(game.userGroups), oldMasterlistGroups, newMasterlistGroups) ==>
        HasEdge(game.userGroups, FindOrKey(namesToChange, n), FindOrKey(namesToChange, m))
    ensures forall n :: n in namesToChange ==>
      namesToChange[n] == n + " (Recovered)" &&
      WasRemoved(n, oldMasterlistGroups, newMasterlistGroups) && n !in Names(old(game.userGroups))
    ensures game.pluginGroups.Keys == old(game.pluginGroups).Keys
    ensures forall p :: p in old(game.pluginGroups) ==>
      game.pluginGroups[p] ==
      var g := old(game.pluginGroups)[p];
      if p in game.plugins && WasRemoved(g, oldMasterlistGroups, newMasterlistGroups) &&
         g !in Names(old(game.userGroups))
      then g + " (Recovered)"
      else g
    ensures KeepsGroups(old(game.userGroups), game.userGroups)
    ensures var removed := Names(oldMasterlistGroups) - Names(newMasterlistGroups);
            var plan := Plan(namesToChange, old(Names(game.userGroups)) * removed);
            removed != {} ==>
              IsRecoveryPlan(plan, old(game.userGroups), game.plugins, old(game.pluginGroups), oldMasterlistGroups,
                             removed) &&
              Grafted(plan, old(game.userGroups), oldMasterlistGroups, game.userGroups)
    ensures (forall n :: !WasRemoved(n, oldMasterlistGroups, newMasterlistGroups)) ==>
      game.userGroups == old(game.userGroups) && game.pluginGroups == old(game.pluginGroups)
  {
    ghost var user, groupsOf := game.userGroups, game.pluginGroups;
    var removed := GetRemovedGroups(oldMasterlistGroups, newMasterlistGroups);
    namesToChange := map[];
    RemovedNames(oldMasterlistGroups, newMasterlistGroups);
    forall n | removed == {} && n in Names(oldMasterlistGroups) ensures n in Names(newMasterlistGroups) {
      assert n in removed || n in Names(newMasterlistGroups);
    }
    if removed != {} {
      namesToChange := RecoverRemovedGroups(game, oldMasterlistGroups, removed);
      UpdateLeavesNothingDangling(Plan(namesToChange, Names(user) * removed), user, game.plugins, groupsOf,
                                  oldMasterlistGroups, newMasterlistGroups, game.userGroups, game.pluginGroups);
      UserGroupsStay(Plan(namesToChange, Names(user) * removed), user, game.plugins, groupsOf, oldMasterlistGroups,
                     removed, game.userGroups);
    }
  }

  lemma UpdateLeavesNothingDangling(p: Plan, user: seq<Group>, plugins: seq<string>, groupsOf: map<string, string>,
                                    old_: seq<Group>, new_: seq<Group>, groups: seq<Group>,
                                    groupsOfNow: map<string, string>)
    requires UniqueNames(old_) && EdgesAreDefined(user, old_) && PluginsAreDefined(plugins, groupsOf, user, old_)
    requires forall n, m :: HasEdge(old_, n, m) ==> m in Names(old_)
    requires var removed := Names(old_) - Names(new_);
             IsRecoveryPlan(p, user, plugins, groupsOf, old_, removed) && Grafted(p, user, old_, groups) &&
             ArePluginsMoved(plugins, removed, p.keep, groupsOf, groupsOfNow)
    ensures EdgesAreDefined(groups, new_) && PluginsAreDefined(plugins, groupsOfNow, groups, new_)
    ensures forall n, m :: HasEdge(user, n, m) ==> HasEdge(groups, p.Renamed(n), p.Renamed(m))
    ensures forall n, m :: HasEdge(old_, n, m) && (n in p.Recovered() || m in p.Recovered()) ==>
      HasEdge(groups, p.Renamed(n), p.Renamed(m))
  {
    forall n, m | HasEdge(old_, n, m) && (n in p.Recovered() || m in p.Recovered())
      ensures HasEdge(groups, p.Renamed(n), p.Renamed(m))
    {
      OrderSurvives(p, user, old_, groups, n, m);
    }
    forall n, m | HasEdge(groups, n, m) ensures IsDefined(groups, new_, m) {
      NoEdgeDangles(p, user, plugins, groupsOf, old_, new_, groups, n, m);
    }
    forall plugin | plugin in plugins && plugin in groupsOfNow ensures IsDefined(groups, new_, groupsOfNow[plugin]) {
      assert plugin in groupsOf;
      NoPluginDangles(p, user, plugins, groupsOf, old_, new_, groups, groupsOfNow, plugin);
    }
    forall n, m | HasEdge(user, n, m) ensures HasEdge(groups, p.Renamed(n), p.Renamed(m)) {
      OrderSurvives(p, user, old_, groups, n, m);
    }
  }
}
