/** Whole sessions with the groups editor: any number of actions in any order. */
module EditorRuns {
  import opened Options
  import opened GroupGraph
  import opened GroupsEditor
  import opened EditorStates
  import opened LoadExtract
  import opened Groups

  /** The action gives the selected group, which is the user's, the name of another group. */
  ghost predicate MakesTwins(dialog: GroupsEditorDialog, action: Action)
    reads dialog, dialog.graphView, dialog.graphView.nodes
  {
    action.RenameGroup? && dialog.CanRename(action.name) && !dialog.IsFree(action.name, dialog.selectedGroupName.value)
  }

  lemma SnapshotIsWhole(dialog: GroupsEditorDialog)
    requires dialog.Safe()
    ensures SnapshotOf(dialog).IsWhole() && dialog.graphView.Valid() && dialog.graphView.UniqueNames()
  {
    assert dialog.graphView.Valid() && dialog.graphView.UniqueNames();
    hide GroupsEditorDialog.Safe, Lists;
    var v := SnapshotOf(dialog);
    assert EndInScene(v.edges, v.nodes);
    forall n, m | n in v.names && m in v.names && v.names[n] == v.names[m] ensures n == m {
      assert n.name == m.name;
    }
  }

  lemma SnapshotHas(dialog: GroupsEditorDialog, name: string)
    ensures SnapshotOf(dialog).Has(name) <==> dialog.HasGroup(name)
  {
    var v := SnapshotOf(dialog);
    assert forall n :: n in dialog.graphView.nodes ==> n in v.names && v.names[n] == n.name;
  }

  lemma SnapshotTells(dialog: GroupsEditorDialog)
    ensures var v := SnapshotOf(dialog);
            v.edges == dialog.graphView.edges && v.selected == dialog.selectedGroupName &&
            v.moves == dialog.newPluginGroups && v.names.Keys == dialog.graphView.nodes == v.flags.Keys &&
            forall n :: n in v.names ==> v.names[n] == n.name && v.flags[n] == n.containsInstalledPlugins
  {
  }

  /** Drawing and removing edges changes nothing else. */
  twostate lemma OnlyEdgesChange(dialog: GroupsEditorDialog)
    requires unchanged(dialog) && unchanged(dialog.graphView`nodes)
    requires forall n :: n in dialog.graphView.nodes ==>
      n.name == old(n.name) && n.containsInstalledPlugins == old(n.containsInstalledPlugins)
    ensures SnapshotOf(dialog) == old(SnapshotOf(dialog)).(edges := dialog.graphView.edges)
  {
  }

  /** Adding plugins changes only moves and flags. */
  twostate lemma OnlyFlagsChange(dialog: GroupsEditorDialog)
    requires unchanged(dialog.graphView) && dialog.selectedGroupName == old(dialog.selectedGroupName)
    requires forall n :: n in dialog.graphView.nodes ==> n.name == old(n.name)
    ensures var v, w := old(SnapshotOf(dialog)), SnapshotOf(dialog); w == v.(flags := w.flags, moves := w.moves)
  {
  }

  method SelectGroup(dialog: GroupsEditorDialog, name: string)
    requires dialog.Safe()
    modifies dialog`selectedGroupName
    ensures dialog.Safe()
    ensures var v := old(SnapshotOf(dialog));
            SnapshotOf(dialog) == v.(selected := if v.Has(name) then Some(name) else v.selected)
  {
    hide GroupsEditorDialog.Safe;
    SnapshotHas(dialog, name);
    var node := dialog.graphView.FindNode(name);
    if node != null {
      dialog.GroupSelected(name);
    }
  }

  /** Adds a group by name: one empty user node, unless the name is taken or missing. */
  method AddGroup(dialog: GroupsEditorDialog, name: string)
    requires dialog.Safe()
    modifies dialog.graphView`nodes
    ensures dialog.Safe() && fresh(dialog.graphView.nodes - old(dialog.graphView.nodes))
    ensures var v := old(SnapshotOf(dialog));
            if name == "" || v.Has(name) then SnapshotOf(dialog) == v
            else exists n :: n !in v.nodes && n.isUserMetadata && SnapshotOf(dialog) == WithNode(v, n, name)
  {
    hide GroupsEditorDialog.Safe, Lists, EndInScene;
    SnapshotHas(dialog, name);
    ghost var v := SnapshotOf(dialog);
    dialog.AddGroupButtonClicked(name);
    if name != "" && !v.Has(name) {
      ghost var n :| n !in v.nodes && dialog.graphView.nodes == v.nodes + {n} && n.name == name &&
                     n.isUserMetadata && !n.containsInstalledPlugins;
      assert SnapshotOf(dialog) == WithNode(v, n, name);
    }
  }

  /**
   * Renames the selected group, if it is the user's, and takes its plugins along. That is safe
   * unless another group has the name.
   */
  method RenameGroup(dialog: GroupsEditorDialog, name: string)
    requires dialog.Safe()
    modifies dialog`selectedGroupName, dialog`newPluginGroups, dialog.graphView.nodes`name
    ensures dialog.Safe() <==> old(!MakesTwins(dialog, Action.RenameGroup(name)))
    ensures var v := old(SnapshotOf(dialog));
            dialog.Safe() ==>
              SnapshotOf(dialog) == if CanTake(v, name) then WithNames(v, dialog.plugins, v.selected.value, name) else v
  {
    hide GroupsEditorDialog.Safe, RenameMoves, Lists, EndInScene;
    SnapshotHas(dialog, name);
    dialog.RenameGroupButtonClicked(name);
  }

  /** Removes a group by name with all its edges: only one of the user's that passes for empty. */
  method RemoveGroup(dialog: GroupsEditorDialog, name: string)
    requires dialog.Safe()
    modifies dialog`selectedGroupName, dialog.graphView, dialog.graphView.nodes`edgeList
    ensures dialog.Safe() && dialog.graphView.nodes <= old(dialog.graphView.nodes)
    ensures var v := old(SnapshotOf(dialog));
            if v.Has(name)
            then exists n :: n in v.names && v.names[n] == name &&
                             SnapshotOf(dialog) == if v.CanGo(n) then WithoutNode(v, n) else v
            else SnapshotOf(dialog) == v
  {
    hide GroupsEditorDialog.Safe;
    SnapshotHas(dialog, name);
    ghost var v := SnapshotOf(dialog);
    var node := dialog.graphView.FindNode(name);
    if node != null {
      var removed := dialog.NodeRightClicked(node);
      assert SnapshotOf(dialog) == if v.CanGo(node) then WithoutNode(v, node) else v;
    }
  }

  /** Draws an edge between two groups, unless they are the same. */
  method ConnectGroups(dialog: GroupsEditorDialog, from: string, to: string)
    requires dialog.Safe()
    modifies dialog.graphView`edges, dialog.graphView.nodes`edgeList
    ensures dialog.Safe()
    ensures var v := old(SnapshotOf(dialog));
            if from != to && v.Has(from) && v.Has(to)
            then exists e :: Joins(v, e, from, to) && e !in v.edges &&
                             SnapshotOf(dialog) == v.(edges := v.edges + {e})
            else SnapshotOf(dialog) == v
  {
    hide GroupsEditorDialog.Safe, FansOut, Lists, EndInScene, SnapshotOf;
    SnapshotHas(dialog, from);
    SnapshotHas(dialog, to);
    SnapshotIsWhole(dialog);
    SnapshotTells(dialog);
    ghost var v := SnapshotOf(dialog);
    var source := dialog.graphView.FindNode(from);
    var dest := dialog.graphView.FindNode(to);
    if source != null && dest != null {
      dialog.NodeReleased(source, [dest]);
      if source != dest {
        FansOutToOne(dialog.graphView.edges - v.edges, source, dest);
        ghost var e :| dialog.graphView.edges - v.edges == {e} && e.isUserMetadata &&
                       e.source == source && e.dest == dest;
        assert dialog.graphView.edges == v.edges + {e} && Joins(v, e, from, to);
        OnlyEdgesChange(dialog);
      } else {
        FansOutToNone(dialog.graphView.edges - v.edges, source);
        assert dialog.graphView.edges == v.edges + (dialog.graphView.edges - v.edges);
        OnlyEdgesChange(dialog);
      }
    }
  }

  /** The edge is the user's, from the one group to the other. */
  predicate Joins(v: Snapshot, e: Edge, from: string, to: string) {
    e.isUserMetadata && e.source in v.names && e.dest in v.names &&
    v.names[e.source] == from && v.names[e.dest] == to
  }

  /** Right-clicks some edge of a kind between two groups: one of the user's goes. */
  method RemoveEdge(dialog: GroupsEditorDialog, from: string, to: string, isUser: bool)
    requires dialog.Safe()
    modifies dialog.graphView`edges, dialog.graphView.nodes`edgeList
    ensures dialog.Safe()
    ensures var v := old(SnapshotOf(dialog));
            if isUser && exists e :: e in v.edges && Joins(v, e, from, to)
            then exists e :: e in v.edges && Joins(v, e, from, to) && SnapshotOf(dialog) == v.(edges := v.edges - {e})
            else SnapshotOf(dialog) == v
  {
    hide GroupsEditorDialog.Safe, Lists, EndInScene;
    SnapshotIsWhole(dialog);
    ghost var v := SnapshotOf(dialog);
    var edge := dialog.graphView.FindEdge(from, to, isUser);
    if edge != null {
      assert isUser ==> Joins(v, edge, from, to);
      dialog.EdgeRightClicked(edge);
      OnlyEdgesChange(dialog);
      assert SnapshotOf(dialog) == if isUser then v.(edges := v.edges - {edge}) else v;
    }
  }

  /** Adds the plugins in some rows to the selected group. */
  method AddPlugins(dialog: GroupsEditorDialog, rows: seq<nat>)
    requires dialog.Safe()
    modifies dialog`newPluginGroups, dialog`touchedDefault, dialog`addedNothing
    modifies dialog.graphView.nodes`containsInstalledPlugins
    ensures dialog.Safe()
    ensures var v, ps := old(SnapshotOf(dialog)), PluginsAt(dialog.plugins, rows);
            SnapshotOf(dialog) ==
              if v.selected == None then v else WithPlugins(v, dialog.plugins, ps, v.selected.value)
    ensures dialog.addedNothing <==> old(dialog.addedNothing || AddsNothing(dialog, Action.AddPlugins(rows)))
    ensures dialog.touchedDefault <==>
              old(dialog.touchedDefault || AddsOrTakesDefault(dialog, Action.AddPlugins(rows)))
    ensures dialog.selectedGroupName.Some? ==>
      forall p :: p in PluginsAt(dialog.plugins, rows) ==>
        PluginGroup(p, dialog.newPluginGroups) == dialog.selectedGroupName.value
  {
    hide GroupsEditorDialog.Safe, FlagAfterAll, MoveAll, TouchesDefault, PluginGroup, SnapshotOf;
    var pluginsToAdd := [];
    for i := 0 to |rows|
      invariant pluginsToAdd == PluginsAt(dialog.plugins, rows[..i])
    {
      assert rows[..i + 1][..i] == rows[..i];
      if rows[i] < |dialog.plugins| {
        pluginsToAdd := pluginsToAdd + [dialog.plugins[rows[i]]];
      }
    }
    assert rows[..|rows|] == rows;
    SnapshotTells(dialog);
    ghost var v := SnapshotOf(dialog);
    dialog.AddPluginButtonClicked(pluginsToAdd);
    SnapshotTells(dialog);
    OnlyFlagsChange(dialog);
    PluginsHaveMoved(dialog, v.moves, pluginsToAdd);
  }

  lemma PluginsHaveMoved(dialog: GroupsEditorDialog, moves: map<string, string>, ps: seq<PluginItem>)
    requires dialog.Safe() && forall p :: p in ps ==> p in dialog.plugins
    requires dialog.selectedGroupName.Some? ==>
      dialog.newPluginGroups == MoveAll(moves, ps, dialog.selectedGroupName.value)
    ensures dialog.selectedGroupName.Some? ==>
      forall p :: p in ps ==> PluginGroup(p, dialog.newPluginGroups) == dialog.selectedGroupName.value
  {
    if dialog.selectedGroupName.Some? {
      MoveAllMovesAll(dialog.plugins, moves, ps, dialog.selectedGroupName.value);
    }
  }

  /** An addition to a selected group that has no plugin to add. The dialog's button is disabled then. */
  predicate AddsNothing(dialog: GroupsEditorDialog, action: Action)
    reads dialog`selectedGroupName
  {
    action.AddPlugins? && dialog.selectedGroupName.Some? && PluginsAt(dialog.plugins, action.rows) == []
  }

  /** An addition to the default group, or of a plugin that is in it. */
  ghost predicate AddsOrTakesDefault(dialog: GroupsEditorDialog, action: Action)
    reads dialog`selectedGroupName, dialog`newPluginGroups
  {
    action.AddPlugins? && dialog.selectedGroupName.Some? &&
    TouchesDefault(dialog.newPluginGroups, PluginsAt(dialog.plugins, action.rows), dialog.selectedGroupName.value)
  }

  /**
   * One action. The only one that is not safe is a rename to the name of another group; what the
   * others leave behind is the next state.
   */
  method Perform(dialog: GroupsEditorDialog, action: Action, ghost s: State)
    requires dialog.Safe() && Mirrors(dialog, s)
    modifies dialog`selectedGroupName, dialog`newPluginGroups, dialog`touchedDefault, dialog`addedNothing
    modifies dialog.graphView, dialog.graphView.nodes
    ensures dialog.Safe() <==> old(!MakesTwins(dialog, action))
    ensures dialog.Safe() ==> Mirrors(dialog, Next(dialog.plugins, s, action))
    ensures fresh(dialog.graphView.nodes - old(dialog.graphView.nodes))
    ensures dialog.addedNothing <==> old(dialog.addedNothing || AddsNothing(dialog, action))
    ensures dialog.touchedDefault <==> old(dialog.touchedDefault || AddsOrTakesDefault(dialog, action))
  {
    hide GroupsEditorDialog.Safe, TouchesDefault, PluginsAt, SnapshotOf, Depicts, Next;
    var plugins := dialog.plugins;
    ghost var v := SnapshotOf(dialog);
    match action
    case SelectGroup(name) =>
      SelectGroup(dialog, name);
      SelectIsNext(plugins, v, s, name);
    case AddPlugins(rows) =>
      AddPlugins(dialog, rows);
      AddingIsNext(plugins, v, s, rows);
    case AddGroup(name) =>
      AddGroup(dialog, name);
      AddingGroupIsNext(plugins, v, s, name, SnapshotOf(dialog));
    case RenameGroup(name) =>
      RenameGroup(dialog, name);
      RenamingGroupIsNext(plugins, v, s, name);
    case ConnectGroups(from, to) =>
      ConnectGroups(dialog, from, to);
      ConnectingIsNext(plugins, v, s, from, to, SnapshotOf(dialog));
    case RemoveEdge(from, to, isUser) =>
      RemoveEdge(dialog, from, to, isUser);
      RemovingEdgeIsNext(plugins, v, s, from, to, isUser, SnapshotOf(dialog));
    case RemoveGroup(name) =>
      RemoveGroup(dialog, name);
      RemovingGroupIsNext(plugins, v, s, name, SnapshotOf(dialog));
  }

  lemma AddingGroupIsNext(plugins: seq<PluginItem>, v: Snapshot, s: State, name: string, now: Snapshot)
    requires Depicts(v, s)
    requires if name == "" || v.Has(name) then now == v
             else exists n :: n !in v.nodes && n.isUserMetadata && now == WithNode(v, n, name)
    ensures Depicts(now, Next(plugins, s, Action.AddGroup(name)))
  {
    hide Depicts, Next;
    if name == "" || v.Has(name) {
      NoGroupIsNext(plugins, v, s, name);
    } else {
      var n :| n !in v.nodes && n.isUserMetadata && now == WithNode(v, n, name);
      GroupIsNext(plugins, v, s, name, n);
    }
  }

  lemma RenamingGroupIsNext(plugins: seq<PluginItem>, v: Snapshot, s: State, name: string)
    requires Depicts(v, s)
    ensures Depicts(if CanTake(v, name) then WithNames(v, plugins, v.selected.value, name) else v,
                    Next(plugins, s, Action.RenameGroup(name)))
  {
    hide Depicts, Next;
    if CanTake(v, name) {
      RenamingIsNext(plugins, v, s, name);
    } else {
      NoRenamingIsNext(plugins, v, s, name);
    }
  }

  lemma ConnectingIsNext(plugins: seq<PluginItem>, v: Snapshot, s: State, from: string, to: string, now: Snapshot)
    requires Depicts(v, s)
    requires if from != to && v.Has(from) && v.Has(to)
             then exists e :: Joins(v, e, from, to) && e !in v.edges && now == v.(edges := v.edges + {e})
             else now == v
    ensures Depicts(now, Next(plugins, s, Action.ConnectGroups(from, to)))
  {
    hide Depicts, Next;
    if from != to && v.Has(from) && v.Has(to) {
      var e :| Joins(v, e, from, to) && e !in v.edges && now == v.(edges := v.edges + {e});
      EdgeIsNext(plugins, v, s, from, to, e);
    } else {
      NoEdgeIsNext(plugins, v, s, from, to);
    }
  }

  lemma RemovingEdgeIsNext(plugins: seq<PluginItem>, v: Snapshot, s: State, from: string, to: string, isUser: bool,
                           now: Snapshot)
    requires Depicts(v, s)
    requires if isUser && exists e :: e in v.edges && Joins(v, e, from, to)
             then exists e :: e in v.edges && Joins(v, e, from, to) && now == v.(edges := v.edges - {e})
             else now == v
    ensures Depicts(now, Next(plugins, s, Action.RemoveEdge(from, to, isUser)))
  {
    hide Depicts, Next;
    if isUser && exists e :: e in v.edges && Joins(v, e, from, to) {
      var e :| e in v.edges && Joins(v, e, from, to) && now == v.(edges := v.edges - {e});
      LessIsNext(plugins, v, s, from, to, e);
    } else {
      assert isUser ==> forall e :: e in v.edges ==> !Joins(v, e, from, to);
      NoLessIsNext(plugins, v, s, from, to, isUser);
    }
  }

  lemma RemovingGroupIsNext(plugins: seq<PluginItem>, v: Snapshot, s: State, name: string, now: Snapshot)
    requires Depicts(v, s)
    requires if v.Has(name)
             then exists n :: n in v.names && v.names[n] == name && now == if v.CanGo(n) then WithoutNode(v, n) else v
             else now == v
    ensures Depicts(now, Next(plugins, s, Action.RemoveGroup(name)))
  {
    hide Depicts, Next;
    if v.Has(name) {
      var n :| n in v.names && v.names[n] == name && now == if v.CanGo(n) then WithoutNode(v, n) else v;
      RemovalIsNext(plugins, v, s, name, n);
    } else {
      NoRemovalIsNext(plugins, v, s, name);
    }
  }

  /** Every addition among the actions has a plugin to add. */
  predicate AllAddSome(plugins: seq<PluginItem>, actions: seq<Action>) {
    forall a :: a in actions && a.AddPlugins? ==> PluginsAt(plugins, a.rows) != []
  }

  /** Whether an action is a rename to a name that another group has. */
  method IsRenameToTaken(dialog: GroupsEditorDialog, action: Action) returns (taken: bool)
    requires dialog.Safe()
    ensures MakesTwins(dialog, action) ==> taken
    ensures taken ==>
      action.RenameGroup? && dialog.HasGroup(action.name) && dialog.selectedGroupName != Some(action.name)
  {
    if !action.RenameGroup? {
      return false;
    }
    var node := dialog.graphView.FindNode(action.name);
    taken := node != null && dialog.selectedGroupName != Some(action.name);
  }

  lemma TakenIsPassedOver(dialog: GroupsEditorDialog, action: Action, s: State)
    requires Mirrors(dialog, s) && action.RenameGroup? && dialog.HasGroup(action.name)
    requires dialog.selectedGroupName != Some(action.name)
    ensures Next(dialog.plugins, s, action) == s
  {
    SnapshotHas(dialog, action.name);
    HasIfShown(SnapshotOf(dialog), s, action.name);
  }

  /**
   * No session without renames to taken names loses a plugin: its group is still in the graph,
   * whose flags tell which groups hold plugins.
   */
  method Run(dialog: GroupsEditorDialog, actions: seq<Action>, ghost s: State)
    requires dialog.Safe() && Mirrors(dialog, s)
    modifies dialog`selectedGroupName, dialog`newPluginGroups, dialog`touchedDefault, dialog`addedNothing
    modifies dialog.graphView, dialog.graphView.nodes
    ensures dialog.Safe() && Mirrors(dialog, Replay(dialog.plugins, s, actions))
    ensures AllAddSome(dialog.plugins, actions) ==> dialog.addedNothing == old(dialog.addedNothing)
    ensures old(dialog.touchedDefault) ==> dialog.touchedDefault
    ensures dialog.DefaultLooksEmpty() ==> old(dialog.DefaultLooksEmpty())
  {
    hide Lists, EndInScene, DistinctNames, TouchesDefault, PluginsAt, Mirrors, Next;
    dialog.DefaultLooksEmptyExactly();
    for i := 0 to |actions|
      invariant dialog.Safe() && fresh(dialog.graphView.nodes - old(dialog.graphView.nodes))
      invariant Mirrors(dialog, Replay(dialog.plugins, s, actions[..i]))
      invariant AllAddSome(dialog.plugins, actions) ==> dialog.addedNothing == old(dialog.addedNothing)
      invariant old(dialog.touchedDefault) ==> dialog.touchedDefault
    {
      assert actions[..i + 1][..i] == actions[..i];
      ghost var t := Replay(dialog.plugins, s, actions[..i]);
      var taken := IsRenameToTaken(dialog, actions[i]);
      if !taken {
        Perform(dialog, actions[i], t);
      } else {
        TakenIsPassedOver(dialog, actions[i], t);
      }
    }
    assert actions[..|actions|] == actions;
    dialog.DefaultLooksEmptyExactly();
  }

  // --- Opening and saving ---------------------------------------------------------------

  /** The groups that plugins name outright; a plugin without one is in the default group. */
  method InstalledPluginGroups(plugins: seq<PluginItem>) returns (groups: set<string>)
    ensures forall n :: n in groups <==> exists p :: p in plugins && p.group == Some(n)
  {
    groups := {};
    for i := 0 to |plugins|
      invariant forall n :: n in groups <==> exists p :: p in plugins[..i] && p.group == Some(n)
    {
      if plugins[i].group.Some? {
        groups := groups + {plugins[i].group.value};
      }
      assert plugins[..i + 1] == plugins[..i] + [plugins[i]];
    }
    assert plugins[..|plugins|] == plugins;
  }

  /** The state in which the editor opens: all names mentioned anywhere, and an edge for each "after" entry. */
  ghost function Opening(plugins: seq<PluginItem>, master: seq<Group>, user: seq<Group>): State {
    State(map n | n in Names(master) + Names(user) + AfterNames(master) + AfterNames(user) ::
            Info(n !in Names(master), exists p :: p in plugins && p.group == Some(n)),
          (f, t, k) => Occurrences(if k then user else master, t, f), map[], None)
  }

  /**
   * Opens the dialog. The masterlist always defines the default group, and a plugin is taken
   * to be in a group that is defined or mentioned somewhere.
   */
  method Open(dialog: GroupsEditorDialog, master: seq<Group>, user: seq<Group>)
    requires DistinctNames(dialog.plugins) && DEFAULT_NAME in Names(master)
    requires forall p :: p in dialog.plugins ==>
      PluginGroup(p, map[]) in Names(master) + Names(user) + AfterNames(master) + AfterNames(user)
    modifies dialog, dialog.graphView
    ensures dialog.Safe() && dialog.masterlistNames == Names(master) && fresh(dialog.graphView.nodes)
    ensures !dialog.touchedDefault && !dialog.addedNothing && dialog.newPluginGroups == map[]
    ensures Mirrors(dialog, Opening(dialog.plugins, master, user))
    ensures forall n :: dialog.HasGroup(n) <==>
      n in Names(master) + Names(user) + AfterNames(master) + AfterNames(user)
  {
    hide Shows, Names, AfterNames;
    var installed := InstalledPluginGroups(dialog.plugins);
    var m := SetGroups(dialog.graphView, master, user, installed);
    dialog.selectedGroupName := None;
    dialog.newPluginGroups := map[];
    dialog.masterlistNames := Names(master);
    dialog.touchedDefault, dialog.addedNothing := false, false;
    OpenedIsSafe(dialog, m, master, user, installed);
    OpenedHasGroups(dialog, m, master, user, installed);
    OpenedShowsGroups(dialog, m, master, user, installed);
    OpenedShowsLines(dialog, m, master, user, installed);
    SnapshotIsWhole(dialog);
    hide Depicts;
    OpenedIsDepicted(dialog, master, user);
  }

  lemma OpenedIsDepicted(dialog: GroupsEditorDialog, master: seq<Group>, user: seq<Group>)
    requires SnapshotOf(dialog).IsWhole() && dialog.newPluginGroups == map[] && dialog.selectedGroupName == None
    requires var v, s := SnapshotOf(dialog), Opening(dialog.plugins, master, user);
             AreGroups(v.names, v.flags, s.groups) && Counts(v.edges, v.names, s.lines)
    ensures Mirrors(dialog, Opening(dialog.plugins, master, user))
  {
  }

  lemma OpenedShowsGroups(dialog: GroupsEditorDialog, m: map<string, Node>, master: seq<Group>, user: seq<Group>,
                          installed: set<string>)
    requires Shows(dialog.graphView, m, Names(master), installed, user, true, master)
    requires m.Keys == Names(master) + Names(user) + AfterNames(master) + AfterNames(user)
    requires forall n :: n in installed <==> exists p :: p in dialog.plugins && p.group == Some(n)
    ensures var v := SnapshotOf(dialog);
            AreGroups(v.names, v.flags, Opening(dialog.plugins, master, user).groups)
  {
    hide Draws, Lists, EndInScene, Names, AfterNames;
  }

  lemma OpenedShowsLines(dialog: GroupsEditorDialog, m: map<string, Node>, master: seq<Group>, user: seq<Group>,
                         installed: set<string>)
    requires Shows(dialog.graphView, m, Names(master), installed, user, true, master)
    ensures var v := SnapshotOf(dialog); Counts(v.edges, v.names, Opening(dialog.plugins, master, user).lines)
  {
    hide Lists, Names, AfterNames, Occurrences;
    var edges, names := dialog.graphView.edges, SnapshotOf(dialog).names;
    forall f, t, k ensures |EdgesNamed(edges, names, f, t, k)| == CountLines(edges, m, f, t, k) {
      assert EdgesNamed(edges, names, f, t, k) ==
             if f in m && t in m then EdgesBetween(edges, m[f], m[t], k) else {};
    }
    assert Draws(edges, m, user, true) && Draws(edges, m, master, false);
  }

  lemma OpenedHasGroups(dialog: GroupsEditorDialog, m: map<string, Node>, master: seq<Group>, user: seq<Group>,
                        installed: set<string>)
    requires Shows(dialog.graphView, m, Names(master), installed, user, true, master)
    ensures forall n :: dialog.HasGroup(n) <==> n in m
  {
  }

  lemma OpenedIsSafe(dialog: GroupsEditorDialog, m: map<string, Node>, master: seq<Group>, user: seq<Group>,
                     installed: set<string>)
    requires DistinctNames(dialog.plugins) && DEFAULT_NAME in Names(master)
    requires forall p :: p in dialog.plugins ==> PluginGroup(p, map[]) in m
    requires Shows(dialog.graphView, m, Names(master), installed, user, true, master)
    requires forall n :: n in installed <==> exists p :: p in dialog.plugins && p.group == Some(n)
    requires dialog.newPluginGroups == map[] && dialog.selectedGroupName == None
    requires dialog.masterlistNames == Names(master) && !dialog.touchedDefault
    ensures dialog.Safe()
  {
    OpenedKeepsEdges(dialog.graphView.edges, dialog.graphView.nodes, m, Names(master), master);
    hide Names, Draws, Lists, EndInScene;
  }

  lemma OpenedKeepsEdges(edges: set<Edge>, nodes: set<Node>, m: map<string, Node>, masterNames: set<string>,
                         master: seq<Group>)
    requires EndInScene(edges, nodes) && (forall n :: n in nodes ==> n.name in m && m[n.name] == n)
    requires Draws(edges, m, master, false) && masterNames == Names(master)
    requires forall k :: k in m ==> (m[k].isUserMetadata <==> k !in masterNames)
    ensures forall e :: e in edges && !e.isUserMetadata ==> !e.dest.isUserMetadata
  {
    DrawnLines(edges, m, master, false);
    hide Draws;
    forall e | e in edges && !e.isUserMetadata ensures !e.dest.isUserMetadata {
      assert HasLine(edges, m, e.source.name, e.dest.name, false);
      assert HasEdge(master, e.dest.name, e.source.name);
    }
  }

  /**
   * A plugin without a group of its own is in the default group, but that group's flag is unset:
   * only groups that plugins name outright are collected when the editor is opened.
   */
  method UngroupedPluginIsOverlooked() returns (dialog: GroupsEditorDialog)
    ensures fresh(dialog) && dialog.plugins == [PluginItem("p", None)]
    ensures dialog.Safe() && dialog.DefaultLooksEmpty()
  {
    hide Mirrors, Opening, AfterNames;
    var graphView := new GraphView();
    dialog := new GroupsEditorDialog(graphView, [PluginItem("p", None)]);
    assert DEFAULT_NAME in Names([Group(DEFAULT_NAME, [], "")]) by {
      assert Group(DEFAULT_NAME, [], "") in [Group(DEFAULT_NAME, [], "")];
    }
    Open(dialog, [Group(DEFAULT_NAME, [], "")], []);
    assert dialog.plugins[0].group == None;
    dialog.DefaultLooksEmptyExactly();
  }

  /** An editor that shows the user's groups A and B. */
  method OpenWithTwo() returns (dialog: GroupsEditorDialog)
    ensures fresh(dialog) && fresh(dialog.graphView) && fresh(dialog.graphView.nodes)
    ensures dialog.Safe() && dialog.HasGroup("A") && dialog.HasGroup("B") && "A" !in dialog.masterlistNames
  {
    hide Mirrors, Opening, AfterNames, GroupsEditorDialog.Safe;
    var graphView := new GraphView();
    dialog := new GroupsEditorDialog(graphView, []);
    var master, user := [Group(DEFAULT_NAME, [], "")], [Group("A", [], ""), Group("B", [], "")];
    assert master[0] in master && user[0] in user && user[1] in user;
    Open(dialog, master, user);
  }

  /** Renaming a group to the name of another leaves two groups of that name. */
  method RenamingMayMakeTwins() returns (dialog: GroupsEditorDialog)
    ensures fresh(dialog) && !dialog.graphView.UniqueNames()
  {
    dialog := OpenWithTwo();
    dialog.GroupSelected("A");
    assert dialog.CanRename("B");
    dialog.RenameGroupButtonClicked("B");
  }

  /**
   * Saving reads the user's groups off the graph; every plugin's group is then defined. The edges
   * saved are exactly the user's, so none of the masterlist's gets in.
   */
  method Accept(dialog: GroupsEditorDialog) returns (userGroups: seq<Group>)
    requires dialog.Safe()
    ensures forall p :: p in dialog.plugins ==>
      PluginGroup(p, dialog.newPluginGroups) in dialog.masterlistNames + Names(userGroups)
    ensures forall n, x :: HasEdge(userGroups, n, x) <==> HasUserEdge(dialog.graphView, n, x)
    ensures forall n :: n in Names(userGroups) <==> IsSaved(dialog, n)
    ensures forall n, x :: HasEdge(userGroups, n, x) ==> x in dialog.masterlistNames + Names(userGroups)
    ensures UniqueNames(userGroups) && forall g :: g in userGroups ==> g.description == ""
  {
    hide Lists, EndInScene, DistinctNames, PluginGroup, IsExtract;
    ghost var m := map n | n in dialog.graphView.nodes :: n.name := n;
    userGroups := GetUserGroups(dialog.graphView, m);
    SavedIsShown(dialog, m, userGroups);
    forall p | p in dialog.plugins
      ensures PluginGroup(p, dialog.newPluginGroups) in dialog.masterlistNames + Names(userGroups)
    {
      assert dialog.HasGroup(PluginGroup(p, dialog.newPluginGroups));
    }
    forall n, x | HasEdge(userGroups, n, x) ensures x in dialog.masterlistNames + Names(userGroups) {
      assert HasUserEdge(dialog.graphView, n, x);
    }
  }

  /** An edge of the user's leads from x to another group n. */
  ghost predicate HasUserEdge(view: GraphView, n: string, x: string)
    reads view`edges, set e | e in view.edges :: e.source`name, set e | e in view.edges :: e.dest`name
  {
    n != x && exists e :: e in view.edges && e.isUserMetadata && e.source.name == x && e.dest.name == n
  }

  /** The group is the user's, or an edge of the user's leads to it. */
  ghost predicate IsSaved(dialog: GroupsEditorDialog, n: string)
    reads dialog, dialog.graphView, dialog.graphView.nodes
    reads set e | e in dialog.graphView.edges :: e.source`name, set e | e in dialog.graphView.edges :: e.dest`name
  {
    (dialog.HasGroup(n) && n !in dialog.masterlistNames) || exists x :: HasUserEdge(dialog.graphView, n, x)
  }

  lemma SavedIsShown(dialog: GroupsEditorDialog, m: map<string, Node>, userGroups: seq<Group>)
    requires dialog.Safe() && Maps(dialog.graphView, m)
    requires IsExtract(userGroups, dialog.graphView.edges, m, m.Keys)
    ensures forall n, x :: HasEdge(userGroups, n, x) <==> HasUserEdge(dialog.graphView, n, x)
    ensures forall n :: n in Names(userGroups) <==> IsSaved(dialog, n)
    ensures forall n, x :: HasUserEdge(dialog.graphView, n, x) ==> dialog.HasGroup(x)
    ensures UniqueNames(userGroups) && forall g :: g in userGroups ==> g.description == ""
  {
    forall n, x ensures CountsAfter(dialog.graphView.edges, m, n, x) <==> HasUserEdge(dialog.graphView, n, x) {
    }
  }

  /** What is to be saved in a state: the user's edges between different groups. */
  ghost predicate SavesEdge(s: State, n: string, x: string) {
    n != x && s.lines(x, n, true) > 0
  }

  /** The groups to be saved: the user's, and others to which such an edge leads. */
  ghost predicate SavesGroup(s: State, n: string) {
    (n in s.groups && s.groups[n].isUser) || exists x :: SavesEdge(s, n, x)
  }

  lemma StateTellsGroups(dialog: GroupsEditorDialog, s: State)
    requires dialog.Safe() && Mirrors(dialog, s)
    ensures forall n :: IsSaved(dialog, n) <==> SavesGroup(s, n)
  {
    hide GroupsEditorDialog.Safe, Mirrors, HasUserEdge, SavesEdge;
    StateTellsEdges(dialog, s);
    StateTellsKinds(dialog, s);
  }

  lemma StateTellsEdges(dialog: GroupsEditorDialog, s: State)
    requires dialog.Safe() && Mirrors(dialog, s)
    ensures forall n, x :: HasUserEdge(dialog.graphView, n, x) <==> SavesEdge(s, n, x)
    ensures (forall n :: n in s.groups <==> dialog.HasGroup(n)) && dialog.newPluginGroups == s.moves
  {
    hide GroupsEditorDialog.Safe, AreGroups, Counts, SnapshotOf, HasUserEdge, SavesEdge;
    SnapshotIsWhole(dialog);
    SnapshotTells(dialog);
    var v := SnapshotOf(dialog);
    forall n ensures n in s.groups <==> dialog.HasGroup(n) {
      HasIfShown(v, s, n);
      SnapshotHas(dialog, n);
    }
    forall n, x ensures HasUserEdge(dialog.graphView, n, x) <==> SavesEdge(s, n, x) {
      StateTellsEdge(dialog, v, s, n, x);
    }
  }

  lemma StateTellsEdge(dialog: GroupsEditorDialog, v: Snapshot, s: State, n: string, x: string)
    requires v.IsWhole() && Counts(v.edges, v.names, s.lines) && v.edges == dialog.graphView.edges
    requires forall m :: m in v.names ==> v.names[m] == m.name
    ensures HasUserEdge(dialog.graphView, n, x) <==> SavesEdge(s, n, x)
  {
    var named := EdgesNamed(v.edges, v.names, x, n, true);
    assert |named| == s.lines(x, n, true);
    if HasUserEdge(dialog.graphView, n, x) {
      var e :| e in dialog.graphView.edges && e.isUserMetadata && e.source.name == x && e.dest.name == n;
      assert e in named;
    }
    if SavesEdge(s, n, x) {
      var e :| e in named;
    }
  }

  lemma StateTellsKinds(dialog: GroupsEditorDialog, s: State)
    requires dialog.Safe() && Mirrors(dialog, s)
    ensures forall n :: n in s.groups ==> (s.groups[n].isUser <==> n !in dialog.masterlistNames)
  {
    forall n | n in s.groups ensures s.groups[n].isUser <==> n !in dialog.masterlistNames {
      var v := SnapshotOf(dialog);
      var node :| node in v.names && v.names[node] == n;
    }
  }

  /**
   * From opening to saving. What is saved is what the actions in their order leave of what was
   * opened; and whatever they are, no plugin ends up in an undefined group.
   */
  method Session(dialog: GroupsEditorDialog, master: seq<Group>, user: seq<Group>, actions: seq<Action>)
    returns (userGroups: seq<Group>)
    requires DistinctNames(dialog.plugins) && DEFAULT_NAME in Names(master)
    requires forall p :: p in dialog.plugins ==>
      PluginGroup(p, map[]) in Names(master) + Names(user) + AfterNames(master) + AfterNames(user)
    modifies dialog, dialog.graphView
    ensures var s := Replay(dialog.plugins, Opening(dialog.plugins, master, user), actions);
            dialog.newPluginGroups == s.moves &&
            (forall n, x :: HasEdge(userGroups, n, x) <==> SavesEdge(s, n, x)) &&
            (forall n :: n in Names(userGroups) <==> SavesGroup(s, n))
    ensures UniqueNames(userGroups) && forall g :: g in userGroups ==> g.description == ""
    ensures forall p :: p in dialog.plugins ==>
      PluginGroup(p, dialog.newPluginGroups) in Names(master) + Names(userGroups)
    ensures forall n, x :: HasEdge(userGroups, n, x) ==> x in Names(master) + Names(userGroups)
  {
    hide Mirrors, Opening, Replay, HasUserEdge, SavesEdge, IsSaved, SavesGroup, GroupsEditorDialog.Safe, AfterNames;
    hide Names;
    Open(dialog, master, user);
    ghost var opening := Opening(dialog.plugins, master, user);
    Run(dialog, actions, opening);
    StateTellsEdges(dialog, Replay(dialog.plugins, opening, actions));
    userGroups := Accept(dialog);
    StateTellsGroups(dialog, Replay(dialog.plugins, opening, actions));
  }
}
