/** What the groups editor shows, as a value, and what each action of a user makes of it. */
module EditorStates {
  import opened Options
  import opened GroupGraph
  import opened GroupsEditor

  /** What a user does in the dialog. Rows of plugins are given by their positions. */
  datatype Action =
    | SelectGroup(name: string)
    | AddPlugins(rows: seq<nat>)
    | AddGroup(name: string)
    | RenameGroup(name: string)
    | ConnectGroups(from: string, to: string)
    | RemoveEdge(from: string, to: string, isUser: bool)
    | RemoveGroup(name: string)

  datatype Info = Info(isUser: bool, full: bool)

  /** How many edges of each kind lead from one group to another. */
  type Lines = (string, string, bool) -> nat

  /** The groups by name, the edges, the moves not yet saved and the selected group. */
  datatype State = State(groups: map<string, Info>, lines: Lines, moves: map<string, string>,
                         selected: Option<string>)
  {
    predicate SelectsUserGroup() {
      selected.Some? && selected.value in groups && groups[selected.value].isUser
    }
  }

  /** The rows that there are. */
  function PluginsAt(plugins: seq<PluginItem>, rows: seq<nat>): (r: seq<PluginItem>)
    ensures forall p :: p in r <==> exists i :: i in rows && i < |plugins| && plugins[i] == p
  {
    if rows == [] then []
    else
      var front := PluginsAt(plugins, rows[..|rows| - 1]);
      var last := rows[|rows| - 1];
      assert rows == rows[..|rows| - 1] + [last];
      if last < |plugins| then front + [plugins[last]] else front
  }

  // --- What actions do ------------------------------------------------------------------

  ghost function Next(plugins: seq<PluginItem>, s: State, action: Action): State {
    match action
    case SelectGroup(name) =>
      if name in s.groups then s.(selected := Some(name)) else s
    case AddPlugins(rows) =>
      if s.selected == None then s else AfterAdding(plugins, s, PluginsAt(plugins, rows), s.selected.value)
    case AddGroup(name) =>
      if name == "" || name in s.groups then s else s.(groups := s.groups[name := Info(true, false)])
    case RenameGroup(name) =>
      if name != "" && s.SelectsUserGroup() && (name == s.selected.value || name !in s.groups)
      then AfterRenaming(plugins, s, s.selected.value, name)
      else s
    case ConnectGroups(from, to) =>
      if from in s.groups && to in s.groups && from != to then s.(lines := WithLine(s.lines, from, to, 1)) else s
    case RemoveEdge(from, to, isUser) =>
      if isUser && s.lines(from, to, true) > 0 then s.(lines := WithLine(s.lines, from, to, -1)) else s
    case RemoveGroup(name) =>
      if name in s.groups && s.groups[name].isUser && !s.groups[name].full then AfterRemoving(s, name) else s
  }

  /** One user edge more or less, but never less than none. */
  function WithLine(lines: Lines, from: string, to: string, change: int): Lines {
    (f, t, k) =>
      if f == from && t == to && k then (if lines(f, t, k) + change >= 0 then lines(f, t, k) + change else 0)
      else lines(f, t, k)
  }

  ghost function AfterAdding(plugins: seq<PluginItem>, s: State, ps: seq<PluginItem>, groupName: string): State {
    s.(moves := MoveAll(s.moves, ps, groupName),
       groups := map n | n in s.groups ::
         Info(s.groups[n].isUser, FlagAfterAll(plugins, s.moves, ps, groupName, n, s.groups[n].full)))
  }

  /** What a name was before a renaming. */
  function Was(n: string, oldName: string, newName: string): string {
    if n == newName then oldName else n
  }

  function GroupsAfterRenaming(groups: map<string, Info>, oldName: string, newName: string): map<string, Info>
    requires oldName in groups
  {
    map n | n in groups.Keys - {oldName} + {newName} :: groups[Was(n, oldName, newName)]
  }

  function LinesOnceRenamed(lines: Lines, oldName: string, newName: string, f: string, t: string, k: bool): nat {
    if oldName != newName && (f == oldName || t == oldName) then 0
    else lines(Was(f, oldName, newName), Was(t, oldName, newName), k)
  }

  function LinesAfterRenaming(lines: Lines, oldName: string, newName: string): Lines {
    (f: string, t: string, k: bool) =>
      LinesOnceRenamed(lines, oldName, newName, f, t, k)
  }

  function AfterRenaming(plugins: seq<PluginItem>, s: State, oldName: string, newName: string): State
    requires oldName in s.groups
  {
    State(GroupsAfterRenaming(s.groups, oldName, newName), LinesAfterRenaming(s.lines, oldName, newName),
          RenameMoves(s.moves, plugins, oldName, newName), Some(newName))
  }

  function AfterRemoving(s: State, name: string): State {
    State(s.groups - {name}, (f, t, k) => if f == name || t == name then 0 else s.lines(f, t, k), s.moves,
          if s.selected == Some(name) then None else s.selected)
  }

  /** All actions one after another. */
  ghost function Replay(plugins: seq<PluginItem>, s: State, actions: seq<Action>): State {
    if actions == [] then s
    else Next(plugins, Replay(plugins, s, actions[..|actions| - 1]), actions[|actions| - 1])
  }

  // --- What actions undo ----------------------------------------------------------------

  /** The states differ in nothing but how the moves are recorded: each plugin is in the same group. */
  ghost predicate LookAlike(plugins: seq<PluginItem>, s: State, t: State) {
    s.groups == t.groups && s.selected == t.selected && (forall f, to, k :: s.lines(f, to, k) == t.lines(f, to, k)) &&
    forall p :: p in plugins ==> PluginGroup(p, s.moves) == PluginGroup(p, t.moves)
  }

  lemma RemovingUndoesConnecting(plugins: seq<PluginItem>, s: State, from: string, to: string)
    requires from in s.groups && to in s.groups && from != to
    ensures Next(plugins, s, ConnectGroups(from, to)).lines(from, to, true) == s.lines(from, to, true) + 1
    ensures LookAlike(plugins, Next(plugins, Next(plugins, s, ConnectGroups(from, to)), RemoveEdge(from, to, true)), s)
  {
  }

  lemma RemovingUndoesAdding(plugins: seq<PluginItem>, s: State, name: string)
    requires name != "" && name !in s.groups && s.selected != Some(name)
    requires forall n, k :: s.lines(n, name, k) == 0 == s.lines(name, n, k)
    ensures LookAlike(plugins, Next(plugins, Next(plugins, s, AddGroup(name)), RemoveGroup(name)), s)
  {
    assert s.groups[name := Info(true, false)] - {name} == s.groups;
  }

  lemma RenamingBackUndoesRenaming(plugins: seq<PluginItem>, s: State, name: string)
    requires DistinctNames(plugins) && s.SelectsUserGroup() && s.selected.value != "" && name != ""
    requires name !in s.groups && forall p :: p in plugins ==> PluginGroup(p, s.moves) != name
    requires forall n, k :: s.lines(n, name, k) == 0 == s.lines(name, n, k)
    ensures LookAlike(plugins,
                      Next(plugins, Next(plugins, s, RenameGroup(name)), RenameGroup(s.selected.value)), s)
  {
    hide PluginGroup, RenameMoves, DistinctNames;
    var oldName := s.selected.value;
    var t := Next(plugins, s, RenameGroup(name));
    var u := Next(plugins, t, RenameGroup(oldName));
    assert t == AfterRenaming(plugins, s, oldName, name) && u == AfterRenaming(plugins, t, name, oldName);
    hide Next;
    GroupsRenamedBack(s.groups, oldName, name);
    LinesRenamedBack(s.lines, oldName, name);
    hide GroupsAfterRenaming, LinesAfterRenaming;
    RenameMovesAll(s.moves, plugins, oldName, name);
    RenameMovesAll(t.moves, plugins, name, oldName);
  }

  lemma GroupsRenamedBack(groups: map<string, Info>, oldName: string, newName: string)
    requires oldName in groups && newName !in groups
    ensures GroupsAfterRenaming(GroupsAfterRenaming(groups, oldName, newName), newName, oldName) == groups
  {
    assert groups.Keys - {oldName} + {newName} - {newName} + {oldName} == groups.Keys;
  }

  lemma LinesRenamedBack(lines: Lines, oldName: string, newName: string)
    requires oldName != newName && forall n, k :: lines(n, newName, k) == 0 == lines(newName, n, k)
    ensures forall f, t, k ::
      LinesAfterRenaming(LinesAfterRenaming(lines, oldName, newName), newName, oldName)(f, t, k) == lines(f, t, k)
  {
    var there := LinesAfterRenaming(lines, oldName, newName);
    forall f, t, k ensures LinesAfterRenaming(there, newName, oldName)(f, t, k) == lines(f, t, k) {
      assert f != newName && t != newName ==>
        there(Was(f, newName, oldName), Was(t, newName, oldName), k) ==
        LinesOnceRenamed(lines, oldName, newName, Was(f, newName, oldName), Was(t, newName, oldName), k);
    }
  }

  // --- The state of a dialog ------------------------------------------------------------

  /** Everything about a dialog that can change, except for the edge lists, which agree with the edges. */
  datatype Snapshot = Snapshot(nodes: set<Node>, names: map<Node, string>, flags: map<Node, bool>, edges: set<Edge>,
                               moves: map<string, string>, selected: Option<string>)
  {
    predicate Has(name: string) {
      exists n :: n in names && names[n] == name
    }

    /** Edges join nodes that are there, and names are unique. */
    ghost predicate IsWhole() {
      names.Keys == nodes == flags.Keys && EndInScene(edges, nodes) &&
      forall n, m :: n in names && m in names && names[n] == names[m] ==> n == m
    }

    /** The node is one of the user's and passes for empty. */
    predicate CanGo(n: Node) {
      n in flags && n.isUserMetadata && !flags[n]
    }
  }

  ghost function SnapshotOf(dialog: GroupsEditorDialog): Snapshot
    reads dialog`newPluginGroups, dialog`selectedGroupName, dialog.graphView`nodes, dialog.graphView`edges
    reads dialog.graphView.nodes`name, dialog.graphView.nodes`containsInstalledPlugins
  {
    Snapshot(dialog.graphView.nodes, map n | n in dialog.graphView.nodes :: n.name,
             map n | n in dialog.graphView.nodes :: n.containsInstalledPlugins, dialog.graphView.edges,
             dialog.newPluginGroups, dialog.selectedGroupName)
  }

  /** The edges of a kind between nodes with the names. */
  ghost function EdgesNamed(edges: set<Edge>, names: map<Node, string>, from: string, to: string, isUser: bool)
    : set<Edge>
  {
    set e | e in edges && e.source in names && e.dest in names && names[e.source] == from && names[e.dest] == to &&
            e.isUserMetadata == isUser
  }

  ghost predicate Counts(edges: set<Edge>, names: map<Node, string>, lines: Lines) {
    forall f, t, k :: |EdgesNamed(edges, names, f, t, k)| == lines(f, t, k)
  }

  /** The nodes are these groups. */
  ghost predicate AreGroups(names: map<Node, string>, flags: map<Node, bool>, groups: map<string, Info>)
    requires names.Keys == flags.Keys
  {
    (forall n :: n in names ==> names[n] in groups && groups[names[n]] == Info(n.isUserMetadata, flags[n])) &&
    (forall name :: name in groups ==> exists n :: n in names && names[n] == name)
  }

  /** The state tells what is in the snapshot. */
  ghost predicate Depicts(v: Snapshot, s: State) {
    v.IsWhole() && AreGroups(v.names, v.flags, s.groups) && Counts(v.edges, v.names, s.lines) &&
    v.moves == s.moves && v.selected == s.selected
  }

  ghost predicate Mirrors(dialog: GroupsEditorDialog, s: State)
    reads dialog, dialog.graphView, dialog.graphView.nodes
  {
    Depicts(SnapshotOf(dialog), s)
  }

  lemma CountsWithEdge(edges: set<Edge>, names: map<Node, string>, lines: Lines, e: Edge)
    requires Counts(edges, names, lines) && e !in edges && e.source in names && e.dest in names && e.isUserMetadata
    ensures Counts(edges + {e}, names, WithLine(lines, names[e.source], names[e.dest], 1))
  {
    forall f, t, k
      ensures |EdgesNamed(edges + {e}, names, f, t, k)| == WithLine(lines, names[e.source], names[e.dest], 1)(f, t, k)
    {
      var was := EdgesNamed(edges, names, f, t, k);
      assert EdgesNamed(edges + {e}, names, f, t, k) ==
             if f == names[e.source] && t == names[e.dest] && k then was + {e} else was;
    }
  }

  lemma CountsWithoutEdge(edges: set<Edge>, names: map<Node, string>, lines: Lines, e: Edge)
    requires Counts(edges, names, lines) && e in edges && e.source in names && e.dest in names && e.isUserMetadata
    ensures lines(names[e.source], names[e.dest], true) > 0
    ensures Counts(edges - {e}, names, WithLine(lines, names[e.source], names[e.dest], -1))
  {
    assert e in EdgesNamed(edges, names, names[e.source], names[e.dest], true);
    forall f, t, k
      ensures |EdgesNamed(edges - {e}, names, f, t, k)| ==
              WithLine(lines, names[e.source], names[e.dest], -1)(f, t, k)
    {
      var was := EdgesNamed(edges, names, f, t, k);
      assert EdgesNamed(edges - {e}, names, f, t, k) ==
             if f == names[e.source] && t == names[e.dest] && k then was - {e} else was;
    }
  }

  lemma CountsWithNode(edges: set<Edge>, names: map<Node, string>, lines: Lines, n: Node, name: string)
    requires Counts(edges, names, lines) && forall e :: e in edges ==> e.source != n && e.dest != n
    ensures Counts(edges, names[n := name], lines)
  {
    forall f, t, k ensures EdgesNamed(edges, names[n := name], f, t, k) == EdgesNamed(edges, names, f, t, k) {
    }
  }

  lemma CountsWithoutNode(edges: set<Edge>, names: map<Node, string>, lines: Lines, n: Node)
    requires Counts(edges, names, lines) && n in names && forall m :: m in names && names[m] == names[n] ==> m == n
    ensures Counts((set e | e in edges && Incidence(e, n) == 0), names - {n},
                   (f, t, k) => if f == names[n] || t == names[n] then 0 else lines(f, t, k))
  {
    var left := set e | e in edges && Incidence(e, n) == 0;
    forall f, t, k
      ensures EdgesNamed(left, names - {n}, f, t, k) ==
              if f == names[n] || t == names[n] then {} else EdgesNamed(edges, names, f, t, k)
    {
    }
  }

  lemma CountsRenamed(edges: set<Edge>, names: map<Node, string>, lines: Lines, now: map<Node, string>, oldName: string,
                      newName: string)
    requires Counts(edges, names, lines) && now.Keys == names.Keys
    requires forall n :: n in names ==> now[n] == Renamed(names[n], oldName, newName)
    requires oldName != newName ==> newName !in names.Values
    ensures Counts(edges, now, LinesAfterRenaming(lines, oldName, newName))
  {
    forall f, t, k
      ensures EdgesNamed(edges, now, f, t, k) ==
              if oldName != newName && (f == oldName || t == oldName) then {}
              else EdgesNamed(edges, names, Was(f, oldName, newName), Was(t, oldName, newName), k)
    {
      forall n, name | n in names
        ensures now[n] == name <==>
                !(oldName != newName && name == oldName) && names[n] == Was(name, oldName, newName)
      {
      }
    }
  }

  // --- Each action in terms of snapshots ------------------------------------------------

  lemma HasIfShown(v: Snapshot, s: State, name: string)
    requires Depicts(v, s)
    ensures v.Has(name) <==> name in s.groups
  {
  }

  lemma SelectIsNext(plugins: seq<PluginItem>, v: Snapshot, s: State, name: string)
    requires Depicts(v, s)
    ensures Depicts(v.(selected := if v.Has(name) then Some(name) else v.selected),
                    Next(plugins, s, SelectGroup(name)))
  {
    HasIfShown(v, s, name);
    hide AreGroups, Counts;
  }

  lemma NoGroupIsNext(plugins: seq<PluginItem>, v: Snapshot, s: State, name: string)
    requires Depicts(v, s) && (name == "" || v.Has(name))
    ensures Depicts(v, Next(plugins, s, AddGroup(name)))
  {
    HasIfShown(v, s, name);
  }

  function WithNode(v: Snapshot, n: Node, name: string): Snapshot {
    v.(nodes := v.nodes + {n}, names := v.names[n := name], flags := v.flags[n := false])
  }

  lemma GroupIsNext(plugins: seq<PluginItem>, v: Snapshot, s: State, name: string, n: Node)
    requires Depicts(v, s) && name != "" && !v.Has(name) && n !in v.nodes && n.isUserMetadata
    ensures Depicts(WithNode(v, n, name), Next(plugins, s, AddGroup(name)))
  {
    hide Counts, EdgesNamed;
    HasIfShown(v, s, name);
    CountsWithNode(v.edges, v.names, s.lines, n, name);
  }

  lemma EdgeIsNext(plugins: seq<PluginItem>, v: Snapshot, s: State, from: string, to: string, e: Edge)
    requires Depicts(v, s) && e !in v.edges && e.isUserMetadata && e.source in v.names && e.dest in v.names
    requires v.names[e.source] == from && v.names[e.dest] == to && from != to
    ensures Depicts(v.(edges := v.edges + {e}), Next(plugins, s, ConnectGroups(from, to)))
  {
    CountsWithEdge(v.edges, v.names, s.lines, e);
    hide Counts;
  }

  lemma NoEdgeIsNext(plugins: seq<PluginItem>, v: Snapshot, s: State, from: string, to: string)
    requires Depicts(v, s) && (from == to || !v.Has(from) || !v.Has(to))
    ensures Depicts(v, Next(plugins, s, ConnectGroups(from, to)))
  {
    HasIfShown(v, s, from);
    HasIfShown(v, s, to);
  }

  lemma LessIsNext(plugins: seq<PluginItem>, v: Snapshot, s: State, from: string, to: string, e: Edge)
    requires Depicts(v, s) && e in v.edges && e.isUserMetadata && e.source in v.names && e.dest in v.names
    requires v.names[e.source] == from && v.names[e.dest] == to
    ensures Depicts(v.(edges := v.edges - {e}), Next(plugins, s, RemoveEdge(from, to, true)))
  {
    CountsWithoutEdge(v.edges, v.names, s.lines, e);
    hide Counts, AreGroups;
  }

  lemma NoLessIsNext(plugins: seq<PluginItem>, v: Snapshot, s: State, from: string, to: string, isUser: bool)
    requires Depicts(v, s)
    requires isUser ==> forall e :: e in v.edges && e.isUserMetadata && e.source in v.names && e.dest in v.names ==>
      v.names[e.source] != from || v.names[e.dest] != to
    ensures Depicts(v, Next(plugins, s, RemoveEdge(from, to, isUser)))
  {
    if isUser {
      assert EdgesNamed(v.edges, v.names, from, to, true) == {};
    }
  }

  function WithoutNode(v: Snapshot, n: Node): Snapshot
    requires n in v.names
  {
    Snapshot(v.nodes - {n}, v.names - {n}, v.flags - {n}, (set e | e in v.edges && Incidence(e, n) == 0), v.moves,
             if v.selected == Some(v.names[n]) then None else v.selected)
  }

  lemma RemovalIsNext(plugins: seq<PluginItem>, v: Snapshot, s: State, name: string, n: Node)
    requires Depicts(v, s) && n in v.names && v.names[n] == name
    ensures Depicts(if v.CanGo(n) then WithoutNode(v, n) else v, Next(plugins, s, RemoveGroup(name)))
  {
    hide Counts, AreGroups, EdgesNamed;
    CountsWithoutNode(v.edges, v.names, s.lines, n);
    GroupsWithoutNode(v.names, v.flags, s.groups, n);
    if v.CanGo(n) {
      WithoutNodeIsWhole(v, n);
    }
  }

  lemma WithoutNodeIsWhole(v: Snapshot, n: Node)
    requires v.IsWhole() && n in v.names
    ensures WithoutNode(v, n).IsWhole()
  {
  }

  lemma GroupsWithoutNode(names: map<Node, string>, flags: map<Node, bool>, groups: map<string, Info>, n: Node)
    requires names.Keys == flags.Keys && AreGroups(names, flags, groups) && n in names
    requires forall m :: m in names && names[m] == names[n] ==> m == n
    ensures names[n] in groups && groups[names[n]] == Info(n.isUserMetadata, flags[n])
    ensures AreGroups(names - {n}, flags - {n}, groups - {names[n]})
  {
    forall name | name in groups - {names[n]} ensures exists m :: m in names - {n} && (names - {n})[m] == name {
      var m :| m in names && names[m] == name;
      assert m in names - {n};
    }
  }

  lemma NoRemovalIsNext(plugins: seq<PluginItem>, v: Snapshot, s: State, name: string)
    requires Depicts(v, s) && !v.Has(name)
    ensures Depicts(v, Next(plugins, s, RemoveGroup(name)))
  {
    HasIfShown(v, s, name);
  }

  function WithNames(v: Snapshot, plugins: seq<PluginItem>, oldName: string, newName: string): Snapshot {
    v.(names := map n | n in v.names :: Renamed(v.names[n], oldName, newName),
       moves := RenameMoves(v.moves, plugins, oldName, newName), selected := Some(newName))
  }

  /** The selected group is one of the user's, and no other group has the name. */
  predicate CanTake(v: Snapshot, name: string) {
    name != "" && v.selected.Some? && (name == v.selected.value || !v.Has(name)) &&
    exists n :: n in v.names && v.names[n] == v.selected.value && n.isUserMetadata
  }

  lemma RenamingIsNext(plugins: seq<PluginItem>, v: Snapshot, s: State, name: string)
    requires Depicts(v, s) && CanTake(v, name)
    ensures Depicts(WithNames(v, plugins, v.selected.value, name), Next(plugins, s, RenameGroup(name)))
  {
    hide Counts, RenameMoves, EdgesNamed, AreGroups;
    HasIfShown(v, s, name);
    var oldName := v.selected.value;
    var now := WithNames(v, plugins, oldName, name);
    CountsRenamed(v.edges, v.names, s.lines, now.names, oldName, name);
    GroupsRenamed(v.names, v.flags, s.groups, now.names, oldName, name);
    RenamedIsWhole(v, plugins, oldName, name);
  }

  lemma RenamedIsWhole(v: Snapshot, plugins: seq<PluginItem>, oldName: string, newName: string)
    requires v.IsWhole() && (newName == oldName || !v.Has(newName))
    ensures WithNames(v, plugins, oldName, newName).IsWhole()
  {
    hide RenameMoves;
  }

  lemma GroupsRenamed(names: map<Node, string>, flags: map<Node, bool>, groups: map<string, Info>,
                      now: map<Node, string>, oldName: string, newName: string)
    requires names.Keys == flags.Keys == now.Keys && AreGroups(names, flags, groups)
    requires forall n :: n in names ==> now[n] == Renamed(names[n], oldName, newName)
    requires newName == oldName || newName !in groups
    requires exists n :: n in names && names[n] == oldName && n.isUserMetadata
    ensures oldName in groups && groups[oldName].isUser
    ensures AreGroups(now, flags, GroupsAfterRenaming(groups, oldName, newName))
  {
    var r := GroupsAfterRenaming(groups, oldName, newName);
    forall n | n in now ensures now[n] in r && Was(now[n], oldName, newName) == names[n] {
      assert names[n] in groups;
    }
    forall name | name in r ensures exists n :: n in now && now[n] == name {
      var was := Was(name, oldName, newName);
      assert was in groups && Renamed(was, oldName, newName) == name;
      var n :| n in names && names[n] == was;
      assert now[n] == name;
    }
  }

  lemma NoRenamingIsNext(plugins: seq<PluginItem>, v: Snapshot, s: State, name: string)
    requires Depicts(v, s) && !CanTake(v, name)
    ensures Depicts(v, Next(plugins, s, RenameGroup(name)))
  {
    HasIfShown(v, s, name);
  }

  ghost function WithPlugins(v: Snapshot, plugins: seq<PluginItem>, ps: seq<PluginItem>, groupName: string): Snapshot
    requires v.names.Keys == v.flags.Keys
  {
    v.(moves := MoveAll(v.moves, ps, groupName),
       flags := map n | n in v.flags :: FlagAfterAll(plugins, v.moves, ps, groupName, v.names[n], v.flags[n]))
  }

  lemma AddingIsNext(plugins: seq<PluginItem>, v: Snapshot, s: State, rows: seq<nat>)
    requires Depicts(v, s)
    ensures Depicts(if v.selected == None then v
                    else WithPlugins(v, plugins, PluginsAt(plugins, rows), v.selected.value),
                    Next(plugins, s, AddPlugins(rows)))
  {
    hide Counts, PluginsAt, MoveAll, FlagAfterAll;
  }
}
