/** Puts the old definitions of recovered groups, and the edges to them, into the user groups. */
module Grafting {
  import opened Options
  import opened Groups

  /** Which names to change, and which removed names the user already defines and so keeps. */
  datatype Plan = Plan(changes: map<string, string>, keep: set<string>) {
    function Recovered(): set<string> {
      changes.Keys + keep
    }

    function Renamed(n: string): string {
      FindOrKey(changes, n)
    }

    function ReferencedName(n: string): Option<string> {
      if n in changes then Some(changes[n]) else if n in keep then Some(n) else None
    }

    /** Whether an old group ends up among the user groups: it is recovered, or loads after one that is. */
    ghost predicate Grafts(g: Group) {
      g.name in Recovered() || exists a :: a in g.after && a in Recovered()
    }

    /** The edges that have to survive: all of the user's, and old ones with a recovered end. */
    ghost predicate SourceEdge(user: seq<Group>, old_: seq<Group>, n: string, m: string) {
      HasEdge(user, n, m) || (HasEdge(old_, n, m) && (n in Recovered() || m in Recovered()))
    }

    /** Some surviving edge is n -> m after renaming. */
    ghost predicate ImageEdge(user: seq<Group>, old_: seq<Group>, n: string, m: string) {
      exists n0, m0 :: SourceEdge(user, old_, n0, m0) && Renamed(n0) == n && Renamed(m0) == m
    }

    /** Some user group or grafted group is called n after renaming. */
    ghost predicate ImageName(user: seq<Group>, old_: seq<Group>, n: string) {
      (exists g :: g in user && Renamed(g.name) == n) ||
      (exists g :: g in old_ && Grafts(g) && Renamed(g.name) == n)
    }

    /** The group that an old group adds if no user group has its name yet. */
    ghost predicate IsAddedFrom(r: Group, old_: seq<Group>) {
      exists g :: g in old_ && Grafts(g) && r.name == Renamed(g.name) &&
                  r.description == (if g.name in Recovered() then g.description else "")
    }

    /** The "after" names that one old group contributes. */
    ghost predicate Contributes(g: Group, m: string) {
      exists a :: a in g.after && (g.name in Recovered() || a in Recovered()) && Renamed(a) == m
    }
  }

  lemma ImageOfNextEdges(p: Plan, user: seq<Group>, old_: seq<Group>, g: Group)
    ensures forall n, m :: p.ImageEdge(user, old_ + [g], n, m) <==>
              p.ImageEdge(user, old_, n, m) || (n == p.Renamed(g.name) && p.Contributes(g, m))
  {
  }

  lemma ImageOfNextName(p: Plan, user: seq<Group>, old_: seq<Group>, g: Group)
    ensures forall n :: p.ImageName(user, old_ + [g], n) <==>
              p.ImageName(user, old_, n) || (p.Grafts(g) && n == p.Renamed(g.name))
  {
  }

  /** Renames within the user groups, one group at a time. */
  method UpdateAllNames(userGroups: seq<Group>, p: Plan) returns (groups: seq<Group>)
    ensures AreRenamed(p, userGroups, groups)
  {
    groups := userGroups;
    for i := 0 to |userGroups|
      invariant |groups| == |userGroups|
      invariant forall j :: 0 <= j < i ==> groups[j] == RenameGroup(p.changes, userGroups[j])
      invariant forall j :: i <= j < |groups| ==> groups[j] == userGroups[j]
    {
      var updated := UpdateGroupNames(groups[i], p.changes);
      groups := groups[i := updated];
    }
  }

  /** The groups after renaming, one for one. */
  ghost predicate AreRenamed(p: Plan, user: seq<Group>, groups: seq<Group>) {
    |groups| == |user| && forall i :: 0 <= i < |groups| ==> groups[i] == RenameGroup(p.changes, user[i])
  }

  lemma RenamedEdgeIsImage(p: Plan, user: seq<Group>, groups: seq<Group>, n: string, m: string)
    requires AreRenamed(p, user, groups) && HasEdge(groups, n, m)
    ensures p.ImageEdge(user, [], n, m)
  {
    var i :| 0 <= i < |groups| && groups[i].name == n && m in groups[i].after;
    var j :| 0 <= j < |groups[i].after| && groups[i].after[j] == m;
    assert user[i] in user && user[i].after[j] in user[i].after;
    assert p.SourceEdge(user, [], user[i].name, user[i].after[j]);
  }

  lemma ImageIsRenamedEdge(p: Plan, user: seq<Group>, groups: seq<Group>, n: string, m: string)
    requires AreRenamed(p, user, groups) && p.ImageEdge(user, [], n, m)
    ensures HasEdge(groups, n, m)
  {
  }

  lemma RenamedNamesAreImage(p: Plan, user: seq<Group>, groups: seq<Group>, n: string)
    requires AreRenamed(p, user, groups)
    ensures n in Names(groups) <==> p.ImageName(user, [], n)
  {
  }

  lemma RenamedGroupsAreGrafted(p: Plan, user: seq<Group>, groups: seq<Group>)
    requires AreRenamed(p, user, groups)
    ensures Grafted(p, user, [], groups)
  {
    forall n, m ensures HasEdge(groups, n, m) <==> p.ImageEdge(user, [], n, m) {
      if HasEdge(groups, n, m) {
        RenamedEdgeIsImage(p, user, groups, n, m);
      } else if p.ImageEdge(user, [], n, m) {
        ImageIsRenamedEdge(p, user, groups, n, m);
      }
    }
    forall n ensures n in Names(groups) <==> p.ImageName(user, [], n) {
      RenamedNamesAreImage(p, user, groups, n);
    }
  }

  /** The "after" names that an old group brings along, renamed. */
  method CollectAfter(g: Group, p: Plan) returns (afterGroups: seq<string>)
    ensures forall m :: m in afterGroups <==> p.Contributes(g, m)
  {
    afterGroups := [];
    for i := 0 to |g.after|
      invariant forall m :: m in afterGroups <==>
                  exists j :: 0 <= j < i && (g.name in p.Recovered() || g.after[j] in p.Recovered()) &&
                              p.Renamed(g.after[j]) == m
    {
      if p.ReferencedName(g.name).Some? {
        afterGroups := afterGroups + [p.Renamed(g.after[i])];
      } else {
        var afterGroupName := p.ReferencedName(g.after[i]);
        if afterGroupName.Some? {
          afterGroups := afterGroups + [afterGroupName.value];
        }
      }
    }
  }

  /** Everything that the grafting loop has established after some old groups. */
  ghost predicate Grafted(p: Plan, user: seq<Group>, old_: seq<Group>, groups: seq<Group>) {
    (forall n, m :: HasEdge(groups, n, m) <==> p.ImageEdge(user, old_, n, m)) &&
    (forall n :: n in Names(groups) <==> p.ImageName(user, old_, n)) &&
    |user| <= |groups| &&
    (forall i :: 0 <= i < |user| ==>
      groups[i].name == p.Renamed(user[i].name) && groups[i].description == user[i].description) &&
    (forall i :: |user| <= i < |groups| ==> p.IsAddedFrom(groups[i], old_))
  }

  lemma AdditionGrafts(p: Plan, user: seq<Group>, old_: seq<Group>, groups: seq<Group>, g: Group,
                       after: seq<string>, description: string, r: seq<Group>)
    requires Grafted(p, user, old_, groups) && p.Grafts(g)
    requires forall m :: m in after <==> p.Contributes(g, m)
    requires description == if g.name in p.Recovered() then g.description else ""
    requires IsAddition(groups, p.Renamed(g.name), after, description, r)
    ensures Grafted(p, user, old_ + [g], r)
  {
    ImageOfNextEdges(p, user, old_, g);
    ImageOfNextName(p, user, old_, g);
    forall i | |user| <= i < |r| ensures p.IsAddedFrom(r[i], old_ + [g]) {
      if i < |groups| {
        assert p.IsAddedFrom(groups[i], old_);
        var h :| h in old_ && p.Grafts(h) && groups[i].name == p.Renamed(h.name) &&
                 groups[i].description == (if h.name in p.Recovered() then h.description else "");
        assert h in old_ + [g];
      } else {
        assert g in old_ + [g];
      }
    }
  }

  lemma NothingToGraft(p: Plan, user: seq<Group>, old_: seq<Group>, groups: seq<Group>, g: Group)
    requires Grafted(p, user, old_, groups) && !p.Grafts(g)
    ensures Grafted(p, user, old_ + [g], groups)
  {
    ImageOfNextEdges(p, user, old_, g);
    ImageOfNextName(p, user, old_, g);
    forall i | |user| <= i < |groups| ensures p.IsAddedFrom(groups[i], old_ + [g]) {
      assert p.IsAddedFrom(groups[i], old_);
      var h :| h in old_ && p.Grafts(h) && groups[i].name == p.Renamed(h.name) &&
               groups[i].description == (if h.name in p.Recovered() then h.description else "");
      assert h in old_ + [g];
    }
  }

  /** A group is grafted if it is recovered or brings anything along. */
  lemma GraftsIfContributes(p: Plan, g: Group)
    ensures p.Grafts(g) <==> g.name in p.Recovered() || exists m :: p.Contributes(g, m)
  {
    if p.Grafts(g) && g.name !in p.Recovered() {
      var a :| a in g.after && a in p.Recovered();
      assert p.Contributes(g, p.Renamed(a));
    }
  }

  /** One turn of the grafting loop. */
  method GraftGroup(groups: seq<Group>, g: Group, p: Plan, ghost user: seq<Group>, ghost old_: seq<Group>)
    returns (r: seq<Group>)
    requires Grafted(p, user, old_, groups)
    ensures Grafted(p, user, old_ + [g], r)
    ensures UniqueNames(groups) ==> UniqueNames(r)
  {
    var afterGroups := CollectAfter(g, p);
    GraftsIfContributes(p, g);
    hide Grafted, IsAddition, UniqueNames;
    var groupName := p.ReferencedName(g.name);
    if groupName.Some? {
      r := AddGroup(groups, groupName.value, afterGroups, Some(g.description));
      AdditionGrafts(p, user, old_, groups, g, afterGroups, g.description, r);
    } else if afterGroups != [] {
      assert afterGroups[0] in afterGroups;
      r := AddGroup(groups, g.name, afterGroups, None);
      AdditionGrafts(p, user, old_, groups, g, afterGroups, "", r);
    } else {
      r := groups;
      NothingToGraft(p, user, old_, groups, g);
    }
  }

  /** Updates the user groups so that they define every recovered group. */
  method RecoverInto(userGroups: seq<Group>, p: Plan, oldMasterlistGroups: seq<Group>) returns (groups: seq<Group>)
    ensures Grafted(p, userGroups, oldMasterlistGroups, groups)
    ensures (forall g :: g in userGroups ==> g.name !in p.changes) && UniqueNames(userGroups) ==> UniqueNames(groups)
  {
    groups := UpdateAllNames(userGroups, p);
    RenamedGroupsAreGrafted(p, userGroups, groups);
    hide Grafted;
    for i := 0 to |oldMasterlistGroups|
      invariant Grafted(p, userGroups, oldMasterlistGroups[..i], groups)
      invariant (forall g :: g in userGroups ==> g.name !in p.changes) && UniqueNames(userGroups) ==>
        UniqueNames(groups)
    {
      assert oldMasterlistGroups[..i + 1] == oldMasterlistGroups[..i] + [oldMasterlistGroups[i]];
      groups := GraftGroup(groups, oldMasterlistGroups[i], p, userGroups, oldMasterlistGroups[..i]);
    }
    assert oldMasterlistGroups[..|oldMasterlistGroups|] == oldMasterlistGroups;
  }
}
