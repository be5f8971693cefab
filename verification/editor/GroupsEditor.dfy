/** The groups editor dialog: the graph, the selected group, and the plugin moves not yet saved. */
module GroupsEditor {
  import opened Options
  import opened GroupGraph

  datatype PluginItem = PluginItem(name: string, group: Option<string>)

  const DEFAULT_NAME := "default"

  /** A plugin's group, given the moves not yet saved. */
  function PluginGroup(p: PluginItem, moves: map<string, string>): string {
    if p.name in moves then moves[p.name]
    else if p.group.Some? then p.group.value
    else DEFAULT_NAME
  }

  predicate DistinctNames(plugins: seq<PluginItem>) {
    forall i, j :: 0 <= i < j < |plugins| ==> plugins[i].name != plugins[j].name
  }

  /** Two or more plugins are in the group. */
  ghost predicate HasTwoPlugins(plugins: seq<PluginItem>, moves: map<string, string>, name: string) {
    exists i, j ::
      0 <= i < j < |plugins| && PluginGroup(plugins[i], moves) == name && PluginGroup(plugins[j], moves) == name
  }

  ghost predicate HoldsPlugin(plugins: seq<PluginItem>, moves: map<string, string>, name: string) {
    exists p :: p in plugins && PluginGroup(p, moves) == name
  }

  /** Some plugin is in the default group because its metadata says so. */
  ghost predicate SomeNamesDefault(plugins: seq<PluginItem>) {
    exists p :: p in plugins && p.group == Some(DEFAULT_NAME)
  }

  lemma AnotherMakesTwo(plugins: seq<PluginItem>, moves: map<string, string>, p: PluginItem, q: PluginItem)
    requires p in plugins && q in plugins && p != q && PluginGroup(p, moves) == PluginGroup(q, moves)
    ensures HasTwoPlugins(plugins, moves, PluginGroup(p, moves))
  {
  }

  /** The moves after a plugin has been put in a group; going back to the saved group is not a move. */
  function Move(moves: map<string, string>, p: PluginItem, groupName: string): map<string, string> {
    if p.group == Some(groupName) then moves - {p.name} else moves[p.name := groupName]
  }

  lemma MoveMovesOne(plugins: seq<PluginItem>, moves: map<string, string>, p: PluginItem, groupName: string)
    requires DistinctNames(plugins) && p in plugins
    ensures forall q :: q in plugins ==>
      PluginGroup(q, Move(moves, p, groupName)) == (if q == p then groupName else PluginGroup(q, moves))
    ensures p.name in Move(moves, p, groupName) <==> p.group != Some(groupName)
    ensures forall n :: n != p.name ==> (n in Move(moves, p, groupName) <==> n in moves)
  {
  }

  class GroupsEditorDialog {
    const graphView: GraphView
    const plugins: seq<PluginItem>
    var selectedGroupName: Option<string>
    var newPluginGroups: map<string, string>
    /** The names of the masterlist's groups when the dialog was opened. */
    ghost var masterlistNames: set<string>
    /** Since then, plugins have been added to the default group or taken from it. */
    ghost var touchedDefault: bool
    /** Since then, an addition to a group had no plugin to add. */
    ghost var addedNothing: bool

    constructor (graphView: GraphView, plugins: seq<PluginItem>)
      ensures this.graphView == graphView && this.plugins == plugins
      ensures selectedGroupName == None && newPluginGroups == map[]
    {
      this.graphView := graphView;
      this.plugins := plugins;
      selectedGroupName := None;
      newPluginGroups := map[];
      masterlistNames := {};
      touchedDefault, addedNothing := false, false;
    }

    predicate HasGroup(name: string)
      reads graphView`nodes, graphView.nodes`name
    {
      exists n :: n in graphView.nodes && n.name == name
    }

    /** The node's flag says that no plugin is in it. The default group's says so only once it has been touched. */
    predicate PassesForEmpty(n: Node, touched: bool)
      reads n`name, n`containsInstalledPlugins
    {
      !n.containsInstalledPlugins && (n.name != DEFAULT_NAME || touched)
    }

    /** No plugin is in a group that passes for empty, except perhaps in exempt ones. */
    ghost predicate EmptyNodesAreEmpty(moves: map<string, string>, touched: bool, exempt: set<string>)
      reads graphView`nodes, graphView.nodes`name, graphView.nodes`containsInstalledPlugins
    {
      forall n :: n in graphView.nodes && PassesForEmpty(n, touched) && n.name !in exempt ==>
        !HoldsPlugin(plugins, moves, n.name)
    }

    /** Some plugin is in each group whose flag says so, except perhaps in exempt ones. */
    ghost predicate FullNodesAreFull(moves: map<string, string>, exempt: set<string>)
      reads graphView`nodes, graphView.nodes`name, graphView.nodes`containsInstalledPlugins
    {
      forall n :: n in graphView.nodes && n.containsInstalledPlugins && n.name !in exempt ==>
        HoldsPlugin(plugins, moves, n.name)
    }

    /** The default group holds the plugins that it held at first, and its flag tells whether any names it outright. */
    ghost predicate DefaultIsAsOpened(moves: map<string, string>)
      reads graphView`nodes, graphView.nodes`name, graphView.nodes`containsInstalledPlugins
    {
      (forall n :: n in graphView.nodes && n.name == DEFAULT_NAME ==>
        (n.containsInstalledPlugins <==> SomeNamesDefault(plugins))) &&
      forall p :: p in plugins ==> (PluginGroup(p, moves) == DEFAULT_NAME <==> PluginGroup(p, map[]) == DEFAULT_NAME)
    }

    /** No plugin is in a group that the graph does not show. */
    ghost predicate NoPluginIsLost(moves: map<string, string>)
      reads graphView`nodes, graphView.nodes`name
    {
      forall p :: p in plugins ==> HasGroup(PluginGroup(p, moves))
    }

    /** The masterlist's groups are all there, and no other node passes for one. */
    ghost predicate MasterlistStays()
      reads this`masterlistNames, graphView`nodes, graphView.nodes`name
    {
      DEFAULT_NAME in masterlistNames && (forall name :: name in masterlistNames ==> HasGroup(name)) &&
      forall n :: n in graphView.nodes ==> (n.isUserMetadata <==> n.name !in masterlistNames)
    }

    /** Masterlist edges lead only to masterlist groups. */
    ghost predicate MasterlistKeepsItsEdges()
      reads graphView`edges
    {
      forall e :: e in graphView.edges && !e.isUserMetadata ==> !e.dest.isUserMetadata
    }

    /** What holds of the graph whatever plugins there are. */
    ghost predicate GraphIsSound()
      reads this`masterlistNames, graphView`nodes, graphView`edges, graphView.nodes`name, graphView.nodes`edgeList
    {
      graphView.Valid() && graphView.UniqueNames() && MasterlistStays() && MasterlistKeepsItsEdges()
    }

    /** The graph's names and flags fit the plugins with the given moves, but exempt flags may not be up to date. */
    ghost predicate PluginsFit(moves: map<string, string>, touched: bool, nothing: bool, exempt: set<string>)
      reads graphView`nodes, graphView.nodes`name, graphView.nodes`containsInstalledPlugins
    {
      DistinctNames(plugins) && NoPluginIsLost(moves) && EmptyNodesAreEmpty(moves, touched, exempt) &&
      (nothing || FullNodesAreFull(moves, exempt)) && (touched || DefaultIsAsOpened(moves))
    }

    ghost predicate SafeExcept(exempt: set<string>)
      reads this, graphView, graphView.nodes
    {
      GraphIsSound() && PluginsFit(newPluginGroups, touchedDefault, addedNothing, exempt) &&
      (selectedGroupName.Some? ==> HasGroup(selectedGroupName.value))
    }

    /** What every action keeps. */
    ghost predicate Safe()
      reads this, graphView, graphView.nodes
    {
      SafeExcept({})
    }

    /** The default group's flag is unset though plugins are in it. */
    ghost predicate DefaultLooksEmpty()
      reads this`newPluginGroups, graphView`nodes, graphView.nodes`name, graphView.nodes`containsInstalledPlugins
    {
      exists n :: n in graphView.nodes && n.name == DEFAULT_NAME && !n.containsInstalledPlugins &&
                  HoldsPlugin(plugins, newPluginGroups, DEFAULT_NAME)
    }

    /**
     * The one case in which a flag is unset and plugins are there: the default group, as long as
     * nothing has been added to it or taken from it, when no plugin names it outright but some
     * plugin names no group.
     */
    lemma DefaultLooksEmptyExactly()
      requires Safe()
      ensures DefaultLooksEmpty() <==>
        !touchedDefault && !SomeNamesDefault(plugins) && exists p :: p in plugins && p.group == None
    {
    }

    /** Apart from that case flags tell where plugins are: always if unset, and if set unless nothing was added. */
    lemma FlagsTell(n: Node)
      requires Safe() && n in graphView.nodes && (n.name == DEFAULT_NAME ==> !DefaultLooksEmpty())
      ensures HoldsPlugin(plugins, newPluginGroups, n.name) ==> n.containsInstalledPlugins
      ensures !addedNothing ==> (HoldsPlugin(plugins, newPluginGroups, n.name) <==> n.containsInstalledPlugins)
    {
    }

    /** Whether at least two plugins are in the group. */
    method ContainsMoreThanOnePlugin(groupName: string) returns (more: bool)
      ensures more <==> HasTwoPlugins(plugins, newPluginGroups, groupName)
    {
      var pluginsCount := 0;
      ghost var first := 0;
      for i := 0 to |plugins|
        invariant 0 <= pluginsCount <= 1
        invariant pluginsCount == 0 ==> forall j :: 0 <= j < i ==> PluginGroup(plugins[j], newPluginGroups) != groupName
        invariant pluginsCount == 1 ==> 0 <= first < i && PluginGroup(plugins[first], newPluginGroups) == groupName
        invariant pluginsCount == 1 ==>
          forall j :: 0 <= j < i && PluginGroup(plugins[j], newPluginGroups) == groupName ==> j == first
      {
        if PluginGroup(plugins[i], newPluginGroups) == groupName {
          if pluginsCount == 1 {
            return true;
          }
          first := i;
          pluginsCount := pluginsCount + 1;
        }
      }
      return false;
    }

    /** Brings the flag of one group up to date. */
    method SetFlag(name: string, contains: bool, ghost exempt: set<string>)
      requires SafeExcept(exempt + {name}) && (name == DEFAULT_NAME ==> touchedDefault)
      requires name !in exempt ==> contains || !HoldsPlugin(plugins, newPluginGroups, name)
      requires name !in exempt ==> !contains || addedNothing || HoldsPlugin(plugins, newPluginGroups, name)
      modifies graphView.nodes`containsInstalledPlugins
      ensures SafeExcept(exempt)
      ensures forall n :: n in graphView.nodes ==>
                n.containsInstalledPlugins == if n.name == name then contains else old(n.containsInstalledPlugins)
    {
      hide PluginGroup, HoldsPlugin, Lists, EndInScene, DistinctNames, MasterlistStays, MasterlistKeepsItsEdges;
      graphView.SetGroupContainsInstalledPlugins(name, contains);
    }

    lemma MoveFits(moves: map<string, string>, p: PluginItem, groupName: string, touched: bool, nothing: bool)
      requires p in plugins && PluginsFit(moves, touched, nothing, {groupName}) && HasGroup(groupName)
      requires groupName == DEFAULT_NAME ==> touched
      ensures PluginsFit(Move(moves, p, groupName), touched || PluginGroup(p, moves) == DEFAULT_NAME, nothing,
                         {groupName, PluginGroup(p, moves)})
    {
      MoveMovesOne(plugins, moves, p, groupName);
      hide PluginGroup, Move, DistinctNames;
    }

    /** Records the move of one plugin, which may leave two flags out of date. */
    method RecordMove(p: PluginItem, groupName: string)
      requires p in plugins && SafeExcept({groupName}) && selectedGroupName == Some(groupName)
      requires groupName == DEFAULT_NAME ==> touchedDefault
      modifies this`newPluginGroups, this`touchedDefault
      ensures newPluginGroups == Move(old(newPluginGroups), p, groupName)
      ensures touchedDefault <==> old(touchedDefault || PluginGroup(p, newPluginGroups) == DEFAULT_NAME)
      ensures SafeExcept({groupName, PluginGroup(p, old(newPluginGroups))})
    {
      hide GraphIsSound, PluginsFit, PluginGroup;
      MoveFits(newPluginGroups, p, groupName, touchedDefault, addedNothing);
      touchedDefault := touchedDefault || PluginGroup(p, newPluginGroups) == DEFAULT_NAME;
      if p.group == Some(groupName) {
        newPluginGroups := newPluginGroups - {p.name};
      } else {
        newPluginGroups := newPluginGroups[p.name := groupName];
      }
    }

    /** Moves one plugin to the selected group and updates the flag of the group it leaves. */
    method MovePlugin(p: PluginItem, groupName: string)
      requires p in plugins && SafeExcept({groupName}) && selectedGroupName == Some(groupName)
      requires groupName == DEFAULT_NAME ==> touchedDefault
      modifies this`newPluginGroups, this`touchedDefault, graphView.nodes`containsInstalledPlugins
      ensures SafeExcept({groupName})
      ensures newPluginGroups == Move(old(newPluginGroups), p, groupName)
      ensures touchedDefault <==> old(touchedDefault || PluginGroup(p, newPluginGroups) == DEFAULT_NAME)
      ensures forall n :: n in graphView.nodes ==>
                n.containsInstalledPlugins ==
                FlagAfterOne(plugins, old(newPluginGroups), p, n.name, old(n.containsInstalledPlugins))
    {
      hide PluginGroup, Move, HasTwoPlugins, HoldsPlugin, DistinctNames, GraphIsSound, PluginsFit;
      ghost var moves := newPluginGroups;
      NamesAreDistinct({groupName});
      var currentPluginGroup := PluginGroup(p, newPluginGroups);
      var containsOtherPlugins := ContainsMoreThanOnePlugin(currentPluginGroup);
      if currentPluginGroup != groupName {
        MoveLeavesOthers(plugins, moves, p, groupName);
      }
      RecordMove(p, groupName);
      assert {groupName, currentPluginGroup} == {groupName} + {currentPluginGroup};
      SetFlag(currentPluginGroup, containsOtherPlugins, {groupName});
    }

    /** Puts the chosen plugins in the selected group. */
    method AddPluginButtonClicked(pluginsToAdd: seq<PluginItem>)
      requires Safe() && forall p :: p in pluginsToAdd ==> p in plugins
      modifies this`newPluginGroups, this`touchedDefault, this`addedNothing
      modifies graphView.nodes`containsInstalledPlugins
      ensures Safe()
      ensures selectedGroupName == None ==>
                newPluginGroups == old(newPluginGroups) && touchedDefault == old(touchedDefault) &&
                addedNothing == old(addedNothing)
      ensures selectedGroupName.Some? ==>
                newPluginGroups == MoveAll(old(newPluginGroups), pluginsToAdd, selectedGroupName.value) &&
                (addedNothing <==> old(addedNothing) || pluginsToAdd == []) &&
                (touchedDefault <==>
                  old(touchedDefault) || TouchesDefault(old(newPluginGroups), pluginsToAdd, selectedGroupName.value))
      ensures forall n :: n in graphView.nodes ==>
                n.containsInstalledPlugins ==
                if selectedGroupName == None then old(n.containsInstalledPlugins)
                else FlagAfterAll(plugins, old(newPluginGroups), pluginsToAdd, selectedGroupName.value, n.name,
                                  old(n.containsInstalledPlugins))
    {
      hide GraphIsSound, PluginsFit, HoldsPlugin, MoveAll, TouchesDefault, FlagAfterAll;
      if selectedGroupName == None {
        return;
      }
      AddTo(pluginsToAdd, selectedGroupName.value);
    }

    method AddTo(pluginsToAdd: seq<PluginItem>, groupName: string)
      requires Safe() && selectedGroupName == Some(groupName) && forall p :: p in pluginsToAdd ==> p in plugins
      modifies this`newPluginGroups, this`touchedDefault, this`addedNothing
      modifies graphView.nodes`containsInstalledPlugins
      ensures Safe()
      ensures newPluginGroups == MoveAll(old(newPluginGroups), pluginsToAdd, groupName)
      ensures addedNothing <==> old(addedNothing) || pluginsToAdd == []
      ensures touchedDefault <==> old(touchedDefault) || TouchesDefault(old(newPluginGroups), pluginsToAdd, groupName)
      ensures forall n :: n in graphView.nodes ==>
                n.containsInstalledPlugins ==
                FlagAfterAll(plugins, old(newPluginGroups), pluginsToAdd, groupName, n.name,
                             old(n.containsInstalledPlugins))
    {
      hide GraphIsSound, PluginsFit, HoldsPlugin, MoveAll, PluginGroup, FlagAfter;
      StillFits(groupName);
      touchedDefault := touchedDefault || groupName == DEFAULT_NAME;
      addedNothing := addedNothing || pluginsToAdd == [];
      AddAll(pluginsToAdd, groupName);
      assert {groupName} == {} + {groupName};
      SetFlag(groupName, true, {});
    }

    /** It does no harm to exempt a group, and then to forget what was known about it. */
    lemma StillFits(groupName: string)
      requires Safe()
      ensures PluginsFit(newPluginGroups, touchedDefault || groupName == DEFAULT_NAME, addedNothing, {groupName})
      ensures PluginsFit(newPluginGroups, touchedDefault || groupName == DEFAULT_NAME, true, {groupName})
    {
      hide GraphIsSound, PluginGroup, DistinctNames, HoldsPlugin;
    }

    lemma NamesAreDistinct(exempt: set<string>)
      requires SafeExcept(exempt)
      ensures DistinctNames(plugins)
    {
    }

    /** Moves the chosen plugins one by one. The flag of the group that they go to is not yet set. */
    method AddAll(pluginsToAdd: seq<PluginItem>, groupName: string)
      requires SafeExcept({groupName}) && selectedGroupName == Some(groupName)
      requires forall p :: p in pluginsToAdd ==> p in plugins
      requires groupName == DEFAULT_NAME ==> touchedDefault
      modifies this`newPluginGroups, this`touchedDefault, graphView.nodes`containsInstalledPlugins
      ensures SafeExcept({groupName})
      ensures newPluginGroups == MoveAll(old(newPluginGroups), pluginsToAdd, groupName)
      ensures touchedDefault <==> old(touchedDefault) || TouchesDefault(old(newPluginGroups), pluginsToAdd, groupName)
      ensures pluginsToAdd != [] ==> HoldsPlugin(plugins, newPluginGroups, groupName)
      ensures forall n :: n in graphView.nodes ==>
                n.containsInstalledPlugins ==
                FlagAfter(plugins, old(newPluginGroups), pluginsToAdd, groupName, n.name,
                          old(n.containsInstalledPlugins))
    {
      hide MoveAll, Move, TouchesDefault, GraphIsSound, PluginsFit, PluginGroup, FlagAfter, FlagAfterOne;
      ghost var moves := newPluginGroups;
      NamesAreDistinct({groupName});
      AddNone(moves, pluginsToAdd, groupName);
      FlagAfterNone(plugins, moves, pluginsToAdd, groupName);
      for i := 0 to |pluginsToAdd|
        invariant SafeExcept({groupName})
        invariant newPluginGroups == MoveAll(moves, pluginsToAdd[..i], groupName)
        invariant touchedDefault <==> old(touchedDefault) || TouchesDefault(moves, pluginsToAdd[..i], groupName)
        invariant i > 0 ==> HoldsPlugin(plugins, newPluginGroups, groupName)
        invariant forall n :: n in graphView.nodes ==>
                    n.containsInstalledPlugins ==
                    FlagAfter(plugins, moves, pluginsToAdd[..i], groupName, n.name, old(n.containsInstalledPlugins))
      {
        AddOneMore(plugins, moves, pluginsToAdd, i, groupName);
        FlagAfterNext(plugins, moves, pluginsToAdd, i, groupName);
        MovePlugin(pluginsToAdd[i], groupName);
      }
      assert pluginsToAdd[..|pluginsToAdd|] == pluginsToAdd;
    }

    /** A group node was left-clicked. */
    method GroupSelected(name: string)
      requires Safe() && HasGroup(name)
      modifies this`selectedGroupName
      ensures Safe() && selectedGroupName == Some(name)
    {
      hide GraphIsSound, PluginsFit;
      selectedGroupName := Some(name);
    }

    method AddGroupButtonClicked(name: string)
      requires Safe()
      modifies graphView`nodes
      ensures Safe() && fresh(graphView.nodes - old(graphView.nodes)) && old(graphView.nodes) <= graphView.nodes
      ensures name != "" ==> HasGroup(name)
      ensures name == "" || old(HasGroup(name)) ==> graphView.nodes == old(graphView.nodes)
      ensures name != "" && !old(HasGroup(name)) ==>
                exists node :: fresh(node) && graphView.nodes == old(graphView.nodes) + {node} && node.name == name &&
                               node.isUserMetadata && !node.containsInstalledPlugins
    {
      if name == "" {
        return;
      }
      var added := graphView.AddGroup(name);
    }

    /** Takes the plugins of a renamed group along. */
    method MovePluginsAlong(oldName: string, newName: string)
      modifies this`newPluginGroups
      ensures newPluginGroups == RenameMoves(old(newPluginGroups), plugins, oldName, newName)
    {
      for i := 0 to |plugins|
        invariant newPluginGroups == RenameMoves(old(newPluginGroups), plugins[..i], oldName, newName)
      {
        assert plugins[..i + 1][..i] == plugins[..i];
        if PluginGroup(plugins[i], newPluginGroups) == oldName {
          newPluginGroups := newPluginGroups[plugins[i].name := newName];
        }
      }
      assert plugins[..|plugins|] == plugins;
    }

    /** The rename button does something: the selected group is one of the user's. */
    ghost predicate CanRename(newName: string)
      reads this, graphView, graphView.nodes
    {
      newName != "" && SelectsUserGroup()
    }

    /** The name is free, or is the group's own. */
    predicate IsFree(newName: string, oldName: string)
      reads graphView`nodes, graphView.nodes`name
    {
      newName == oldName || !HasGroup(newName)
    }

    twostate predicate NamesAreRenamed(oldName: string, newName: string)
      reads graphView`nodes, graphView.nodes`name
    {
      graphView.nodes == old(graphView.nodes) &&
      forall n :: n in graphView.nodes ==> n.name == Renamed(old(n.name), oldName, newName)
    }

    lemma UnshownHoldsNone(name: string)
      requires Safe() && !HasGroup(name)
      ensures !HoldsPlugin(plugins, newPluginGroups, name)
    {
    }

    /** The selected group is one of the user's, so it is not the default group. */
    ghost predicate SelectsUserGroup()
      reads this`selectedGroupName, graphView`nodes, graphView.nodes`name
    {
      selectedGroupName.Some? &&
      exists n :: n in graphView.nodes && n.name == selectedGroupName.value && n.isUserMetadata
    }

    lemma EditorIsSound()
      requires Safe()
      ensures graphView.Valid() && graphView.UniqueNames() && HasGroup(DEFAULT_NAME)
      ensures SelectsUserGroup() ==> selectedGroupName.value != DEFAULT_NAME
    {
    }

    /** What was shown before is shown under its present name. */
    twostate lemma RenamedGraphHas(newName: string)
      requires selectedGroupName.Some? && NamesAreRenamed(selectedGroupName.value, newName)
      ensures forall name :: old(HasGroup(name)) ==> HasGroup(Renamed(name, selectedGroupName.value, newName))
    {
      forall name | old(HasGroup(name)) ensures HasGroup(Renamed(name, selectedGroupName.value, newName)) {
        var n :| n in graphView.nodes && old(n.name) == name;
        assert n.name == Renamed(name, selectedGroupName.value, newName);
      }
    }

    /** Renaming a user group keeps the graph sound exactly if no other group has the name. */
    twostate lemma RenamedGraphIsSoundExactly(newName: string)
      requires unchanged(this) && unchanged(graphView`edges) && graphView.Valid()
      requires old(GraphIsSound()) && old(SelectsUserGroup())
      requires NamesAreRenamed(selectedGroupName.value, newName)
      ensures HasGroup(newName)
      ensures graphView.UniqueNames() <==> old(IsFree(newName, selectedGroupName.value))
      ensures GraphIsSound() <==> old(IsFree(newName, selectedGroupName.value))
    {
      hide Lists, EndInScene;
      RenamedGraphHas(newName);
      assert old(HasGroup(selectedGroupName.value));
    }

    /** Once its plugins have been taken along, they fit. */
    twostate lemma RenamedGraphFits(newName: string)
      requires selectedGroupName.Some? && selectedGroupName.value != DEFAULT_NAME && unchanged(this)
      requires old(PluginsFit(newPluginGroups, touchedDefault, addedNothing, {}) && HasGroup(DEFAULT_NAME))
      requires NamesAreRenamed(selectedGroupName.value, newName) && old(IsFree(newName, selectedGroupName.value))
      requires newName == selectedGroupName.value || !HoldsPlugin(plugins, newPluginGroups, newName)
      requires forall n :: n in graphView.nodes ==> n.containsInstalledPlugins == old(n.containsInstalledPlugins)
      ensures PluginsFit(RenameMoves(newPluginGroups, plugins, selectedGroupName.value, newName), touchedDefault,
                         addedNothing, {})
    {
      hide PluginGroup, HoldsPlugin, RenameMoves, DistinctNames;
      RenamedGraphHas(newName);
      var oldName := selectedGroupName.value;
      RenameMovesAll(newPluginGroups, plugins, oldName, newName);
      forall n | n in graphView.nodes
        ensures HoldsPlugin(plugins, RenameMoves(newPluginGroups, plugins, oldName, newName), n.name) <==>
                HoldsPlugin(plugins, newPluginGroups, old(n.name))
      {
        RenamingKeepsHolders(plugins, newPluginGroups, oldName, newName, old(n.name));
      }
    }

    /** Renames the selected group in the graph. Its plugins have not moved yet. */
    method RenameInGraph(oldName: string, newName: string)
      requires Safe() && selectedGroupName == Some(oldName) && SelectsUserGroup()
      modifies graphView.nodes`name
      ensures HasGroup(newName) && NamesAreRenamed(oldName, newName)
      ensures GraphIsSound() <==> old(IsFree(newName, oldName))
      ensures graphView.UniqueNames() <==> old(IsFree(newName, oldName))
      ensures old(IsFree(newName, oldName)) ==>
                PluginsFit(RenameMoves(newPluginGroups, plugins, oldName, newName), touchedDefault, addedNothing, {})
    {
      hide GraphIsSound, PluginsFit, HoldsPlugin, PluginGroup, RenameMoves, Lists, EndInScene;
      ghost var free := IsFree(newName, oldName);
      EditorIsSound();
      if !HasGroup(newName) {
        UnshownHoldsNone(newName);
      }
      graphView.RenameGroup(oldName, newName);
      RenamedGraphIsSoundExactly(newName);
      if free {
        RenamedGraphFits(newName);
      }
    }

    /**
     * Renames the selected group, if it is the user's. This is safe exactly if no other group has
     * the new name, which the program does not check.
     */
    method RenameGroupButtonClicked(newName: string)
      requires Safe()
      modifies this`newPluginGroups, this`selectedGroupName, graphView.nodes`name
      ensures Safe() <==> old(CanRename(newName) ==> IsFree(newName, selectedGroupName.value))
      ensures graphView.UniqueNames() <==> Safe()
      ensures !old(CanRename(newName)) ==>
                newPluginGroups == old(newPluginGroups) && selectedGroupName == old(selectedGroupName) &&
                forall n :: n in graphView.nodes ==> n.name == old(n.name)
      ensures old(CanRename(newName)) ==>
                selectedGroupName == Some(newName) &&
                newPluginGroups == RenameMoves(old(newPluginGroups), plugins, old(selectedGroupName).value, newName) &&
                NamesAreRenamed(old(selectedGroupName).value, newName)
    {
      hide GraphIsSound, PluginsFit, RenameMoves;
      EditorIsSound();
      if newName == "" || selectedGroupName == None {
        return;
      }
      var oldName := selectedGroupName.value;
      var isUser := graphView.IsUserGroup(oldName);
      if !isUser {
        return;
      }
      RenameSelected(oldName, newName);
    }

    method RenameSelected(oldName: string, newName: string)
      requires Safe() && selectedGroupName == Some(oldName) && SelectsUserGroup()
      modifies this`newPluginGroups, this`selectedGroupName, graphView.nodes`name
      ensures Safe() <==> old(IsFree(newName, oldName))
      ensures graphView.UniqueNames() <==> old(IsFree(newName, oldName))
      ensures selectedGroupName == Some(newName) && NamesAreRenamed(oldName, newName)
      ensures newPluginGroups == RenameMoves(old(newPluginGroups), plugins, oldName, newName)
    {
      hide GraphIsSound, PluginsFit, RenameMoves, NamesAreRenamed;
      RenameInGraph(oldName, newName);
      MovePluginsAlong(oldName, newName);
      selectedGroupName := Some(newName);
    }

    /** Edges were drawn from a group to others. */
    method NodeReleased(node: Node, itemsUnderMouse: seq<Node>)
      requires Safe() && node in graphView.nodes && forall n :: n in itemsUnderMouse ==> n in graphView.nodes
      modifies graphView`edges, graphView.nodes`edgeList
      ensures Safe() && old(graphView.edges) <= graphView.edges
      ensures FansOut(graphView.edges - old(graphView.edges), node, itemsUnderMouse)
    {
      hide GraphIsSound, PluginsFit;
      EditorIsSound();
      graphView.NodeReleased(node, itemsUnderMouse);
      StaysSound();
    }

    /** An edge was right-clicked. */
    method EdgeRightClicked(edge: Edge)
      requires Safe() && edge in graphView.edges
      modifies graphView`edges, graphView.nodes`edgeList
      ensures Safe() && graphView.edges == old(graphView.edges) - (if edge.isUserMetadata then {edge} else {})
    {
      hide GraphIsSound, PluginsFit;
      EditorIsSound();
      var removed := graphView.EdgeRightClicked(edge);
      StaysSound();
    }

    /** Drawing and removing edges of the user's does no harm. */
    twostate lemma StaysSound()
      requires old(GraphIsSound()) && graphView.Valid() && unchanged(graphView`nodes) && unchanged(this)
      requires forall n :: n in graphView.nodes ==> n.name == old(n.name)
      requires forall e :: e in graphView.edges && !e.isUserMetadata ==> e in old(graphView.edges)
      ensures GraphIsSound()
    {
      hide Lists, EndInScene;
    }

    /** A group node was right-clicked. */
    method NodeRightClicked(node: Node) returns (removed: bool)
      requires Safe() && node in graphView.nodes
      modifies this`selectedGroupName, graphView, graphView.nodes`edgeList
      ensures Safe() && (removed <==> node.isUserMetadata && !node.containsInstalledPlugins)
      ensures graphView.nodes == if removed then old(graphView.nodes) - {node} else old(graphView.nodes)
      ensures graphView.edges ==
              if removed then (set e | e in old(graphView.edges) && Incidence(e, node) == 0) else old(graphView.edges)
      ensures selectedGroupName ==
              if removed && old(selectedGroupName) == Some(node.name) then None else old(selectedGroupName)
      ensures removed ==> !HoldsPlugin(plugins, newPluginGroups, node.name)
      ensures !removed && node.isUserMetadata && !addedNothing ==> HoldsPlugin(plugins, newPluginGroups, node.name)
    {
      hide PluginGroup, HoldsPlugin, GraphIsSound, PluginsFit, Lists, EndInScene;
      EditorIsSound();
      if node.isUserMetadata && !node.containsInstalledPlugins {
        EmptyHoldsNone(node);
      } else if node.isUserMetadata && !addedNothing {
        FlaggedHoldsSome(node);
      }
      removed := graphView.NodeRightClicked(node);
      if removed {
        WithoutNodeIsSound(node);
        WithoutNodeFits(node);
        if selectedGroupName == Some(node.name) {
          selectedGroupName := None;
        }
      }
    }

    /** What goes when a node goes. */
    twostate predicate IsWithout(node: Node)
      reads node`name, graphView`nodes, graphView`edges, graphView.nodes`name
      reads graphView.nodes`containsInstalledPlugins
    {
      graphView.nodes == old(graphView.nodes) - {node} && graphView.edges <= old(graphView.edges) &&
      node.name == old(node.name) &&
      forall n :: n in graphView.nodes ==>
        n.name == old(n.name) && n.containsInstalledPlugins == old(n.containsInstalledPlugins)
    }

    twostate lemma WithoutNodeIsSound(node: Node)
      requires old(GraphIsSound()) && graphView.Valid() && IsWithout(node)
      requires node in old(graphView.nodes) && node.isUserMetadata && masterlistNames == old(masterlistNames)
      ensures GraphIsSound()
      ensures forall name :: name != node.name && old(HasGroup(name)) ==> HasGroup(name)
    {
      hide Lists, EndInScene;
      forall name | old(HasGroup(name)) && name != node.name ensures HasGroup(name) {
        var n :| n in old(graphView.nodes) && old(n.name) == name;
        assert n in graphView.nodes;
      }
    }

    twostate lemma WithoutNodeFits(node: Node)
      requires old(PluginsFit(newPluginGroups, touchedDefault, addedNothing, {})) && IsWithout(node)
      requires newPluginGroups == old(newPluginGroups) && touchedDefault == old(touchedDefault)
      requires addedNothing == old(addedNothing)
      requires forall p :: p in plugins ==> PluginGroup(p, newPluginGroups) != node.name
      requires forall name :: name != node.name && old(HasGroup(name)) ==> HasGroup(name)
      ensures PluginsFit(newPluginGroups, touchedDefault, addedNothing, {})
    {
      hide PluginGroup, HoldsPlugin, DistinctNames;
    }

    lemma FlaggedHoldsSome(node: Node)
      requires Safe() && node in graphView.nodes && node.containsInstalledPlugins && !addedNothing
      ensures HoldsPlugin(plugins, newPluginGroups, node.name)
    {
    }

    lemma EmptyHoldsNone(node: Node)
      requires Safe() && node in graphView.nodes && node.isUserMetadata && !node.containsInstalledPlugins
      ensures !HoldsPlugin(plugins, newPluginGroups, node.name)
      ensures forall p :: p in plugins ==> PluginGroup(p, newPluginGroups) != node.name
    {
    }
  }

  lemma RenamingKeepsHolders(plugins: seq<PluginItem>, moves: map<string, string>, oldName: string, newName: string,
                             name: string)
    requires DistinctNames(plugins)
    requires newName == oldName || (name != newName && !HoldsPlugin(plugins, moves, newName))
    ensures HoldsPlugin(plugins, RenameMoves(moves, plugins, oldName, newName), Renamed(name, oldName, newName)) <==>
            HoldsPlugin(plugins, moves, name)
  {
    RenameMovesAll(moves, plugins, oldName, newName);
    hide PluginGroup, RenameMoves, DistinctNames;
  }

  /** What one move leaves in the group that the plugin comes from. */
  lemma MoveLeavesOthers(plugins: seq<PluginItem>, moves: map<string, string>, p: PluginItem, groupName: string)
    requires DistinctNames(plugins) && p in plugins && PluginGroup(p, moves) != groupName
    ensures HoldsPlugin(plugins, Move(moves, p, groupName), PluginGroup(p, moves)) <==>
            HasTwoPlugins(plugins, moves, PluginGroup(p, moves))
  {
    MoveMovesOne(plugins, moves, p, groupName);
    hide PluginGroup, Move;
    var now := Move(moves, p, groupName);
    if HoldsPlugin(plugins, now, PluginGroup(p, moves)) {
      var q :| q in plugins && PluginGroup(q, now) == PluginGroup(p, moves);
      AnotherMakesTwo(plugins, moves, p, q);
    }
    if HasTwoPlugins(plugins, moves, PluginGroup(p, moves)) {
      var i, j :| 0 <= i < j < |plugins| && PluginGroup(plugins[i], moves) == PluginGroup(p, moves) &&
                  PluginGroup(plugins[j], moves) == PluginGroup(p, moves);
      var q := if plugins[i] == p then plugins[j] else plugins[i];
      assert q in plugins && PluginGroup(q, now) == PluginGroup(p, moves);
    }
  }

  /** Adding the plugins to the group puts any into the default group or takes any from it. */
  ghost predicate TouchesDefault(moves: map<string, string>, ps: seq<PluginItem>, groupName: string) {
    groupName == DEFAULT_NAME || HoldsPlugin(ps, moves, DEFAULT_NAME)
  }

  lemma AddNone(moves: map<string, string>, ps: seq<PluginItem>, groupName: string)
    ensures MoveAll(moves, ps[..0], groupName) == moves
    ensures TouchesDefault(moves, ps[..0], groupName) <==> groupName == DEFAULT_NAME
  {
  }

  lemma AddOneMore(plugins: seq<PluginItem>, moves: map<string, string>, ps: seq<PluginItem>, i: nat,
                   groupName: string)
    requires DistinctNames(plugins) && i < |ps| && forall p :: p in ps ==> p in plugins
    ensures var before := MoveAll(moves, ps[..i], groupName);
            MoveAll(moves, ps[..i + 1], groupName) == Move(before, ps[i], groupName) &&
            HoldsPlugin(plugins, Move(before, ps[i], groupName), groupName) &&
            (TouchesDefault(moves, ps[..i + 1], groupName) <==>
              TouchesDefault(moves, ps[..i], groupName) || PluginGroup(ps[i], before) == DEFAULT_NAME)
  {
    var before := MoveAll(moves, ps[..i], groupName);
    assert ps[..i + 1][..i] == ps[..i] && ps[..i + 1] == ps[..i] + [ps[i]];
    MoveAllMovesAll(plugins, moves, ps[..i], groupName);
    MoveMovesOne(plugins, before, ps[i], groupName);
    hide PluginGroup, Move, DistinctNames;
  }

  /** Adding plugins to a group puts exactly those in it, however often each is named. */
  lemma {:induction false} MoveAllMovesAll(plugins: seq<PluginItem>, moves: map<string, string>, ps: seq<PluginItem>,
                                           groupName: string)
    requires DistinctNames(plugins) && forall p :: p in ps ==> p in plugins
    ensures forall q :: q in plugins ==>
      PluginGroup(q, MoveAll(moves, ps, groupName)) == (if q in ps then groupName else PluginGroup(q, moves))
  {
    if ps != [] {
      var front, p := ps[..|ps| - 1], ps[|ps| - 1];
      assert ps == front + [p];
      MoveAllMovesAll(plugins, moves, front, groupName);
      MoveMovesOne(plugins, MoveAll(moves, front, groupName), p, groupName);
      hide PluginGroup, Move;
    }
  }

  /** The moves after several plugins have been put in a group. */
  function MoveAll(moves: map<string, string>, ps: seq<PluginItem>, groupName: string): map<string, string> {
    if ps == [] then moves else Move(MoveAll(moves, ps[..|ps| - 1], groupName), ps[|ps| - 1], groupName)
  }

  /** The flag of a group after one plugin has been moved: the group that it leaves has one if others stay behind. */
  ghost function FlagAfterOne(plugins: seq<PluginItem>, moves: map<string, string>, p: PluginItem, name: string,
                              flag: bool): bool
  {
    if PluginGroup(p, moves) == name then HasTwoPlugins(plugins, moves, name) else flag
  }

  /** The flag of a group after several plugins have been moved one by one. */
  ghost function FlagAfter(plugins: seq<PluginItem>, moves: map<string, string>, ps: seq<PluginItem>,
                           groupName: string, name: string, flag: bool): bool
  {
    if ps == [] then flag
    else
      var front := ps[..|ps| - 1];
      FlagAfterOne(plugins, MoveAll(moves, front, groupName), ps[|ps| - 1], name,
                   FlagAfter(plugins, moves, front, groupName, name, flag))
  }

  /** In the end the group that plugins were added to has its flag set, even if there were none. */
  ghost function FlagAfterAll(plugins: seq<PluginItem>, moves: map<string, string>, ps: seq<PluginItem>,
                              groupName: string, name: string, flag: bool): bool
  {
    name == groupName || FlagAfter(plugins, moves, ps, groupName, name, flag)
  }

  lemma FlagAfterNone(plugins: seq<PluginItem>, moves: map<string, string>, ps: seq<PluginItem>, groupName: string)
    ensures forall name, flag :: FlagAfter(plugins, moves, ps[..0], groupName, name, flag) == flag
  {
  }

  lemma FlagAfterNext(plugins: seq<PluginItem>, moves: map<string, string>, ps: seq<PluginItem>, i: nat,
                      groupName: string)
    requires i < |ps|
    ensures forall name, flag ::
      FlagAfter(plugins, moves, ps[..i + 1], groupName, name, flag) ==
      FlagAfterOne(plugins, MoveAll(moves, ps[..i], groupName), ps[i], name,
                   FlagAfter(plugins, moves, ps[..i], groupName, name, flag))
  {
    assert ps[..i + 1][..i] == ps[..i];
  }

  /** What becomes of a name. */
  function Renamed(name: string, oldName: string, newName: string): string {
    if name == oldName then newName else name
  }

  /** The moves after a group has been renamed: its plugins move along. */
  function RenameMoves(moves: map<string, string>, ps: seq<PluginItem>, oldName: string, newName: string)
    : map<string, string>
  {
    if ps == [] then moves
    else
      var rest := RenameMoves(moves, ps[..|ps| - 1], oldName, newName);
      var p := ps[|ps| - 1];
      if PluginGroup(p, rest) == oldName then rest[p.name := newName] else rest
  }

  /** Exactly the plugins of a renamed group are added to the moves. */
  lemma {:induction false} RenameMovesNames(moves: map<string, string>, ps: seq<PluginItem>, oldName: string,
                                            newName: string, n: string)
    requires DistinctNames(ps)
    ensures n in RenameMoves(moves, ps, oldName, newName) <==>
      n in moves || exists p :: p in ps && p.name == n && PluginGroup(p, moves) == oldName
  {
    if ps != [] {
      var front, p := ps[..|ps| - 1], ps[|ps| - 1];
      assert ps == front + [p];
      RenameMovesNames(moves, front, oldName, newName, n);
      RenameMovesOf(moves, front, oldName, newName, p);
      hide PluginGroup;
      assert forall q :: q in front ==> q.name != p.name;
    }
  }

  lemma RenameLastMove(moves: map<string, string>, ps: seq<PluginItem>, oldName: string, newName: string, q: PluginItem)
    requires ps != []
    ensures var rest := RenameMoves(moves, ps[..|ps| - 1], oldName, newName);
            PluginGroup(q, RenameMoves(moves, ps, oldName, newName)) ==
            (if q.name == ps[|ps| - 1].name && PluginGroup(ps[|ps| - 1], rest) == oldName then newName
             else PluginGroup(q, rest))
  {
  }

  lemma {:induction false} RenameMovesOf(moves: map<string, string>, ps: seq<PluginItem>, oldName: string,
                                         newName: string, q: PluginItem)
    requires DistinctNames(ps)
    ensures (forall p :: p in ps ==> p.name != q.name) ==>
      PluginGroup(q, RenameMoves(moves, ps, oldName, newName)) == PluginGroup(q, moves)
    ensures q in ps ==>
      PluginGroup(q, RenameMoves(moves, ps, oldName, newName)) ==
      Renamed(PluginGroup(q, moves), oldName, newName)
  {
    if ps != [] {
      var front, p := ps[..|ps| - 1], ps[|ps| - 1];
      assert ps == front + [p];
      RenameMovesOf(moves, front, oldName, newName, q);
      RenameLastMove(moves, ps, oldName, newName, q);
      hide PluginGroup, RenameMoves;
      if q == p {
        assert forall o :: o in front ==> o.name != q.name;
      } else if q in front {
        assert q.name != p.name;
      }
    }
  }

  /** Renaming a group takes its plugins along, and no others. */
  lemma RenameMovesAll(moves: map<string, string>, ps: seq<PluginItem>, oldName: string, newName: string)
    requires DistinctNames(ps)
    ensures forall p :: p in ps ==>
      PluginGroup(p, RenameMoves(moves, ps, oldName, newName)) ==
      Renamed(PluginGroup(p, moves), oldName, newName)
  {
    forall p | p in ps
      ensures PluginGroup(p, RenameMoves(moves, ps, oldName, newName)) ==
              Renamed(PluginGroup(p, moves), oldName, newName)
    {
      RenameMovesOf(moves, ps, oldName, newName, p);
    }
  }
}
