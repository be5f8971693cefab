/** Plugin groups and the ways of looking them up, renaming them and merging them. */
module Groups {
  import opened Options

  datatype Group = Group(name: string, after: seq<string>, description: string)

  const SUFFIX := " (Recovered)"

  function Names(groups: seq<Group>): (names: set<string>) {
    set g | g in groups :: g.name
  }

  predicate UniqueNames(groups: seq<Group>) {
    forall i, j :: 0 <= i < j < |groups| ==> groups[i].name != groups[j].name
  }

  /** Some group called n loads after m. */
  ghost predicate HasEdge(groups: seq<Group>, n: string, m: string) {
    exists g :: g in groups && g.name == n && m in g.after
  }

  /** The position of the first group with the name, or the number of groups. */
  function FindGroup(groups: seq<Group>, name: string): (i: nat)
    ensures i <= |groups|
    ensures i < |groups| ==> groups[i].name == name
    ensures forall j :: 0 <= j < i ==> groups[j].name != name
  {
    if groups == [] || groups[0].name == name then 0 else 1 + FindGroup(groups[1..], name)
  }

  /** The name to use for a group from now on. */
  function FindOrKey(changes: map<string, string>, key: string): string {
    if key in changes then changes[key] else key
  }

  /** Every change appends the same suffix. */
  predicate IsRecoveryMap(changes: map<string, string>) {
    forall n :: n in changes ==> changes[n] == n + SUFFIX
  }

  function RenameAll(changes: map<string, string>, names: seq<string>): (r: seq<string>)
    ensures |r| == |names| && forall i :: 0 <= i < |r| ==> r[i] == FindOrKey(changes, names[i])
  {
    seq(|names|, i requires 0 <= i < |names| => FindOrKey(changes, names[i]))
  }

  function RenameGroup(changes: map<string, string>, g: Group): (r: Group) {
    Group(FindOrKey(changes, g.name), RenameAll(changes, g.after), g.description)
  }

  lemma EdgesOfAppend(groups: seq<Group>, g: Group)
    ensures forall n, m :: HasEdge(groups + [g], n, m) <==> HasEdge(groups, n, m) || (n == g.name && m in g.after)
  {
  }

  /** The names of removed groups: those that only the old list defines. */
  method GetRemovedGroups(oldGroups: seq<Group>, newGroups: seq<Group>) returns (removed: set<string>)
    ensures removed == Names(oldGroups) - Names(newGroups)
  {
    var newGroupNames: set<string> := {};
    for i := 0 to |newGroups|
      invariant newGroupNames == Names(newGroups[..i])
    {
      newGroupNames := newGroupNames + {newGroups[i].name};
      NamesOfNext(newGroups, i);
    }
    removed := {};
    for i := 0 to |oldGroups|
      invariant removed == Names(oldGroups[..i]) - newGroupNames
    {
      if oldGroups[i].name !in newGroupNames {
        removed := removed + {oldGroups[i].name};
      }
      NamesOfNext(oldGroups, i);
    }
    assert newGroups[..|newGroups|] == newGroups && oldGroups[..|oldGroups|] == oldGroups;
  }

  lemma NamesOfNext(groups: seq<Group>, i: nat)
    requires i < |groups|
    ensures Names(groups[..i + 1]) == Names(groups[..i]) + {groups[i].name}
  {
  }

  /** Renames a group and the groups it loads after. */
  method UpdateGroupNames(group: Group, namesToChange: map<string, string>) returns (updated: Group)
    ensures updated == RenameGroup(namesToChange, group)
  {
    var hasChanged := group.name in namesToChange;
    var afterGroups := group.after;
    for i := 0 to |afterGroups|
      invariant |afterGroups| == |group.after|
      invariant forall j :: 0 <= j < i ==> afterGroups[j] == FindOrKey(namesToChange, group.after[j])
      invariant forall j :: i <= j < |afterGroups| ==> afterGroups[j] == group.after[j]
      invariant !hasChanged ==> group.name !in namesToChange && afterGroups == group.after
    {
      if afterGroups[i] in namesToChange {
        afterGroups := afterGroups[i := namesToChange[afterGroups[i]]];
        hasChanged := true;
      }
    }
    assert afterGroups == RenameAll(namesToChange, group.after);
    updated := group;
    if hasChanged {
      updated := Group(FindOrKey(namesToChange, group.name), afterGroups, group.description);
    }
  }

  /** `r` has the edges and names of `groups` and those of the added group, which is new only if its name is. */
  ghost predicate IsAddition(groups: seq<Group>, target: string, afterGroups: seq<string>, description: string,
                             r: seq<Group>)
  {
    (forall n, m :: HasEdge(r, n, m) <==> HasEdge(groups, n, m) || (n == target && m in afterGroups)) &&
    Names(r) == Names(groups) + {target} &&
    |groups| <= |r| <= |groups| + 1 && (|r| == |groups| <==> target in Names(groups)) &&
    (forall i :: 0 <= i < |groups| ==> r[i].name == groups[i].name && r[i].description == groups[i].description) &&
    (|r| > |groups| ==> r[|groups|] == Group(target, afterGroups, description))
  }

  /** Merges "after" names into the first group with the name, or adds a new group. */
  method AddGroup(groups: seq<Group>, target: string, afterGroups: seq<string>, description: Option<string>)
    returns (r: seq<Group>)
    ensures IsAddition(groups, target, afterGroups, if description.Some? then description.value else "", r)
    ensures UniqueNames(groups) ==> UniqueNames(r)
  {
    var i := FindGroup(groups, target);
    if i < |groups| {
      var existing := groups[i];
      r := groups[i := Group(existing.name, afterGroups + existing.after, existing.description)];
      MergeEdges(groups, i, afterGroups);
      SameNames(groups, r);
      assert groups[i] in groups;
    } else {
      r := groups + [Group(target, afterGroups, if description.Some? then description.value else "")];
      EdgesOfAppend(groups, r[|groups|]);
    }
  }

  lemma SameNames(groups: seq<Group>, renewed: seq<Group>)
    requires |groups| == |renewed| && forall i :: 0 <= i < |groups| ==> renewed[i].name == groups[i].name
    ensures Names(groups) == Names(renewed)
  {
  }

  lemma MergeEdges(groups: seq<Group>, i: nat, more: seq<string>)
    requires i < |groups|
    ensures var r := groups[i := Group(groups[i].name, more + groups[i].after, groups[i].description)];
            forall n, m :: HasEdge(r, n, m) <==> HasEdge(groups, n, m) || (n == groups[i].name && m in more)
  {
    var merged := Group(groups[i].name, more + groups[i].after, groups[i].description);
    var r := groups[i := merged];
    assert r[i] == merged;
    forall n, m ensures HasEdge(r, n, m) <==> HasEdge(groups, n, m) || (n == groups[i].name && m in more) {
      if HasEdge(groups, n, m) {
        var j :| 0 <= j < |groups| && groups[j].name == n && m in groups[j].after;
        assert r[j].name == n && m in r[j].after && r[j] in r;
      }
      if n == groups[i].name && m in more {
        assert merged in r;
      }
      if HasEdge(r, n, m) {
        var j :| 0 <= j < |r| && r[j].name == n && m in r[j].after;
        assert j != i ==> groups[j] in groups;
        assert j == i ==> m in more || m in groups[i].after;
      }
    }
  }
}
