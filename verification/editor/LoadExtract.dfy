/** Loading groups into the graph, and reading the user's groups back out of it. */
module LoadExtract {
  import opened Groups
  import opened GroupGraph

  /** The map holds exactly the nodes of the graph, by their names. */
  ghost predicate Maps(view: GraphView, m: map<string, Node>)
    reads view`nodes, view.nodes`name
  {
    (forall n :: n in view.nodes ==> n.name in m && m[n.name] == n) &&
    (forall k :: k in m ==> m[k] in view.nodes && m[k].name == k)
  }

  /** Masterlist groups are the nodes that are not the user's, and the flags say which hold plugins. */
  ghost predicate Flagged(m: map<string, Node>, masterNames: set<string>, installed: set<string>)
    reads m.Values`containsInstalledPlugins
  {
    forall k :: k in m ==>
      (m[k].isUserMetadata <==> k !in masterNames) && (m[k].containsInstalledPlugins <==> k in installed)
  }

  /** There is an edge of the kind from one named node to another. */
  ghost predicate HasLine(edges: set<Edge>, m: map<string, Node>, from: string, to: string, isUser: bool) {
    from in m && to in m &&
    exists e :: e in edges && e.source == m[from] && e.dest == m[to] && e.isUserMetadata == isUser
  }

  /** The edges of the kind between two nodes. */
  ghost function EdgesBetween(edges: set<Edge>, source: Node, dest: Node, isUser: bool): set<Edge> {
    set e | e in edges && e.source == source && e.dest == dest && e.isUserMetadata == isUser
  }

  ghost function CountLines(edges: set<Edge>, m: map<string, Node>, from: string, to: string, isUser: bool): nat {
    if from in m && to in m then |EdgesBetween(edges, m[from], m[to], isUser)| else 0
  }

  /** How often the groups called n list x. */
  function Occurrences(groups: seq<Group>, n: string, x: string): nat {
    if groups == [] then 0
    else
      var last := groups[|groups| - 1];
      Occurrences(groups[..|groups| - 1], n, x) + (if last.name == n then multiset(last.after)[x] else 0)
  }

  lemma {:induction false} OccursIfEdge(groups: seq<Group>, n: string, x: string)
    ensures Occurrences(groups, n, x) > 0 <==> HasEdge(groups, n, x)
    decreases |groups|
  {
    if groups != [] {
      var front, last := groups[..|groups| - 1], groups[|groups| - 1];
      assert groups == front + [last];
      OccursIfEdge(front, n, x);
      EdgesOfAppend(front, last);
    }
  }

  lemma LineIfCounted(edges: set<Edge>, m: map<string, Node>, from: string, to: string, isUser: bool)
    ensures CountLines(edges, m, from, to, isUser) > 0 <==> HasLine(edges, m, from, to, isUser)
  {
    if from in m && to in m {
      var between := EdgesBetween(edges, m[from], m[to], isUser);
      if HasLine(edges, m, from, to, isUser) {
        var e :| e in edges && e.source == m[from] && e.dest == m[to] && e.isUserMetadata == isUser;
        assert e in between;
      }
      if between != {} {
        var e :| e in between;
        assert HasLine(edges, m, from, to, isUser);
      }
    }
  }

  /** The edges of one kind are the "after" lists of the groups, one for each entry. */
  ghost predicate Draws(edges: set<Edge>, m: map<string, Node>, groups: seq<Group>, isUser: bool) {
    forall from, to :: CountLines(edges, m, from, to, isUser) == Occurrences(groups, to, from)
  }

  lemma DrawnLines(edges: set<Edge>, m: map<string, Node>, groups: seq<Group>, isUser: bool)
    requires Draws(edges, m, groups, isUser)
    ensures forall from, to :: HasLine(edges, m, from, to, isUser) <==> HasEdge(groups, to, from)
  {
    forall from, to ensures HasLine(edges, m, from, to, isUser) <==> HasEdge(groups, to, from) {
      LineIfCounted(edges, m, from, to, isUser);
      OccursIfEdge(groups, to, from);
      hide HasLine, HasEdge;
    }
  }

  /** Every name in the "after" lists. */
  function AfterNames(groups: seq<Group>): (names: set<string>) {
    set g, n | g in groups && n in g.after :: n
  }

  lemma NewNodeHasNoEdges(edges: set<Edge>, nodes: set<Node>, node: Node)
    requires EndInScene(edges, nodes) && node !in nodes
    ensures Lists([], node, edges) && EndInScene(edges, nodes + {node})
  {
  }

  /** Finds the node or adds it. */
  method InsertNode(view: GraphView, m: map<string, Node>, name: string, isUser: bool, contains: bool)
    returns (r: map<string, Node>)
    requires view.Valid() && Maps(view, m)
    modifies view`nodes
    ensures view.Valid() && Maps(view, r) && name in r
    ensures name in m ==> r == m && view.nodes == old(view.nodes)
    ensures name !in m ==> r == m[name := r[name]] && fresh(r[name]) && view.nodes == old(view.nodes) + {r[name]}
    ensures name !in m ==> r[name].isUserMetadata == isUser && r[name].containsInstalledPlugins == contains
  {
    hide Lists, EndInScene;
    if name in m {
      return m;
    }
    var node := new Node(name, isUser, contains);
    NewNodeHasNoEdges(view.edges, view.nodes, node);
    view.nodes := view.nodes + {node};
    r := m[name := node];
  }

  /** A new node has no edges yet. */
  lemma LinesOfMoreNodes(edges: set<Edge>, nodes: set<Node>, m: map<string, Node>, r: map<string, Node>, name: string,
                         groups: seq<Group>, isUser: bool)
    requires EndInScene(edges, nodes) && name !in m && name in r && r == m[name := r[name]] && r[name] !in nodes
    requires Draws(edges, m, groups, isUser)
    ensures Draws(edges, r, groups, isUser)
  {
    forall from, to ensures CountLines(edges, r, from, to, isUser) == CountLines(edges, m, from, to, isUser) {
      if from in r && to in r && (from == name || to == name) {
        assert EdgesBetween(edges, r[from], r[to], isUser) == {};
      }
    }
  }

  /** The groups have one more "after" entry than before. */
  ghost predicate AddsEdge(groups: seq<Group>, more: seq<Group>, n: string, x: string) {
    forall n', x' ::
      Occurrences(more, n', x') == Occurrences(groups, n', x') + (if n' == n && x' == x then 1 else 0)
  }

  /** One more edge is one more "after" entry. */
  lemma LinesOfMoreEdges(edges: set<Edge>, view: set<Node>, m: map<string, Node>, e: Edge, from: string, to: string,
                         groups: seq<Group>, more: seq<Group>)
    requires from in m && to in m && e.source == m[from] && e.dest == m[to]
    requires forall k, l :: k in m && l in m && m[k] == m[l] ==> k == l
    requires Draws(edges, m, groups, e.isUserMetadata)
    requires AddsEdge(groups, more, to, from) && e !in edges
    ensures Draws(edges + {e}, m, more, e.isUserMetadata)
  {
    forall f, t
      ensures CountLines(edges + {e}, m, f, t, e.isUserMetadata) ==
              CountLines(edges, m, f, t, e.isUserMetadata) + (if f == from && t == to then 1 else 0)
    {
      if f in m && t in m {
        var between := EdgesBetween(edges, m[f], m[t], e.isUserMetadata);
        assert EdgesBetween(edges + {e}, m[f], m[t], e.isUserMetadata) ==
               if f == from && t == to then between + {e} else between;
      }
    }
  }

  lemma OtherLinesStay(edges: set<Edge>, m: map<string, Node>, e: Edge, groups: seq<Group>, isUser: bool)
    requires Draws(edges, m, groups, isUser) && e.isUserMetadata != isUser
    ensures Draws(edges + {e}, m, groups, isUser)
  {
    forall f, t ensures CountLines(edges + {e}, m, f, t, isUser) == CountLines(edges, m, f, t, isUser) {
      if f in m && t in m {
        assert EdgesBetween(edges + {e}, m[f], m[t], isUser) == EdgesBetween(edges, m[f], m[t], isUser);
      }
    }
  }

  /** The groups and then one more with only the first j of its "after" names. */
  function Partly(groups: seq<Group>, g: Group, j: nat): seq<Group>
    requires j <= |g.after|
  {
    groups + [Group(g.name, g.after[..j], g.description)]
  }

  lemma PartlyIsWhole(groups: seq<Group>, g: Group)
    ensures Partly(groups, g, |g.after|) == groups + [g]
  {
    assert g.after[..|g.after|] == g.after;
  }

  lemma NextAfterName(groups: seq<Group>, g: Group, j: nat)
    requires j < |g.after|
    ensures AddsEdge(Partly(groups, g, j), Partly(groups, g, j + 1), g.name, g.after[j])
  {
    assert g.after[..j + 1] == g.after[..j] + [g.after[j]];
    forall n, x
      ensures Occurrences(Partly(groups, g, j), n, x) ==
              Occurrences(groups, n, x) + (if n == g.name then multiset(g.after[..j])[x] else 0)
      ensures Occurrences(Partly(groups, g, j + 1), n, x) ==
              Occurrences(groups, n, x) + (if n == g.name then multiset(g.after[..j + 1])[x] else 0)
    {
      assert Partly(groups, g, j)[..|groups|] == groups && Partly(groups, g, j + 1)[..|groups|] == groups;
    }
  }

  /** The graph shows the groups of one kind that have been dealt with, and all those of the other kind. */
  ghost predicate Shows(view: GraphView, m: map<string, Node>, masterNames: set<string>, installed: set<string>,
                        groups: seq<Group>, isUser: bool, others: seq<Group>)
    reads view, view.nodes, m.Values
  {
    view.Valid() && Maps(view, m) && Flagged(m, masterNames, installed) && masterNames <= m.Keys &&
    Draws(view.edges, m, groups, isUser) && Draws(view.edges, m, others, !isUser)
  }

  /** Makes sure that a group's node exists. */
  method ShowNode(view: GraphView, m: map<string, Node>, name: string, isUser: bool, installed: set<string>,
                  ghost masterNames: set<string>, ghost groups: seq<Group>, ghost kind: bool, ghost others: seq<Group>)
    returns (r: map<string, Node>)
    requires Shows(view, m, masterNames, installed, groups, kind, others) && (name in m || isUser)
    modifies view`nodes
    ensures Shows(view, r, masterNames, installed, groups, kind, others) && r.Keys == m.Keys + {name}
    ensures fresh(view.nodes - old(view.nodes)) && old(view.nodes) <= view.nodes
  {
    hide Lists, HasLine, EndInScene, Draws;
    ghost var nodes := view.nodes;
    r := InsertNode(view, m, name, isUser, name in installed);
    if name !in m {
      LinesOfMoreNodes(view.edges, nodes, m, r, name, groups, kind);
      LinesOfMoreNodes(view.edges, nodes, m, r, name, others, !kind);
    }
  }

  /** Draws one "after" entry. */
  method ShowEdge(view: GraphView, m: map<string, Node>, from: string, to: string, isUser: bool,
                  ghost masterNames: set<string>, ghost installed: set<string>, ghost groups: seq<Group>,
                  ghost more: seq<Group>, ghost others: seq<Group>)
    requires Shows(view, m, masterNames, installed, groups, isUser, others) && from in m && to in m
    requires AddsEdge(groups, more, to, from)
    modifies view`edges, view.nodes`edgeList
    ensures Shows(view, m, masterNames, installed, more, isUser, others)
  {
    hide Lists, HasLine, EndInScene;
    ghost var edges := view.edges;
    var e := view.Connect(m[from], m[to], isUser);
    LinesOfMoreEdges(edges, view.nodes, m, e, from, to, groups, more);
    OtherLinesStay(edges, m, e, others, !isUser);
  }

  /** Draws the "after" entries of all groups of one kind, adding a user node for each undefined name. */
  method ShowEdges(view: GraphView, m: map<string, Node>, groups: seq<Group>, isUser: bool, installed: set<string>,
                   ghost masterNames: set<string>, ghost others: seq<Group>)
    returns (r: map<string, Node>)
    requires Shows(view, m, masterNames, installed, [], isUser, others) && Names(groups) <= m.Keys
    modifies view, view.nodes`edgeList
    ensures Shows(view, r, masterNames, installed, groups, isUser, others)
    ensures r.Keys == m.Keys + AfterNames(groups)
    ensures fresh(view.nodes - old(view.nodes))
  {
    hide Shows, Names, AfterNames;
    r := m;
    assert groups[..0] == [];
    NoAfterNames();
    for i := 0 to |groups|
      invariant Shows(view, r, masterNames, installed, groups[..i], isUser, others)
      invariant m.Keys <= r.Keys == m.Keys + AfterNames(groups[..i])
      invariant fresh(view.nodes - old(view.nodes))
    {
      NextGroup(groups, i);
      r := ShowEdgesOf(view, r, groups[i], isUser, installed, masterNames, groups[..i], others);
    }
    assert groups[..|groups|] == groups;
  }

  function NamesIn(names: seq<string>): (s: set<string>) {
    set n | n in names
  }

  lemma NextNameIn(names: seq<string>, j: nat)
    requires j < |names|
    ensures NamesIn(names[..j + 1]) == NamesIn(names[..j]) + {names[j]}
  {
  }

  lemma NoAfterNames()
    ensures AfterNames([]) == {} == NamesIn([])
  {
  }

  lemma NextGroup(groups: seq<Group>, i: nat)
    requires i < |groups|
    ensures groups[i].name in Names(groups)
    ensures groups[..i + 1] == groups[..i] + [groups[i]]
    ensures AfterNames(groups[..i + 1]) == AfterNames(groups[..i]) + NamesIn(groups[i].after)
  {
  }

  lemma StartOfGroup(view: GraphView, m: map<string, Node>, g: Group, isUser: bool, installed: set<string>,
                     masterNames: set<string>, groups: seq<Group>, others: seq<Group>)
    requires Shows(view, m, masterNames, installed, groups, isUser, others)
    ensures Shows(view, m, masterNames, installed, Partly(groups, g, 0), isUser, others)
  {
    forall n, x ensures Occurrences(Partly(groups, g, 0), n, x) == Occurrences(groups, n, x) {
      assert Partly(groups, g, 0)[..|groups|] == groups;
    }
  }

  /** Draws one "after" entry, adding a user node if the name is not defined. */
  method ShowAfterName(view: GraphView, m: map<string, Node>, g: Group, j: nat, isUser: bool, installed: set<string>,
                       ghost masterNames: set<string>, ghost groups: seq<Group>, ghost others: seq<Group>)
    returns (r: map<string, Node>)
    requires j < |g.after| && g.name in m
    requires Shows(view, m, masterNames, installed, Partly(groups, g, j), isUser, others)
    modifies view, view.nodes`edgeList
    ensures Shows(view, r, masterNames, installed, Partly(groups, g, j + 1), isUser, others)
    ensures r.Keys == m.Keys + {g.after[j]}
    ensures fresh(view.nodes - old(view.nodes))
  {
    hide Shows, HasEdge, Partly, AddsEdge;
    NextAfterName(groups, g, j);
    r := ShowNode(view, m, g.after[j], true, installed, masterNames, Partly(groups, g, j), isUser, others);
    ShowEdge(view, r, g.after[j], g.name, isUser, masterNames, installed,
             Partly(groups, g, j), Partly(groups, g, j + 1), others);
  }

  /** Draws the "after" entries of one group. */
  method ShowEdgesOf(view: GraphView, m: map<string, Node>, g: Group, isUser: bool, installed: set<string>,
                     ghost masterNames: set<string>, ghost groups: seq<Group>, ghost others: seq<Group>)
    returns (r: map<string, Node>)
    requires Shows(view, m, masterNames, installed, groups, isUser, others) && g.name in m
    modifies view, view.nodes`edgeList
    ensures Shows(view, r, masterNames, installed, groups + [g], isUser, others)
    ensures r.Keys == m.Keys + NamesIn(g.after)
    ensures fresh(view.nodes - old(view.nodes))
  {
    NoAfterNames();
    hide Shows, NamesIn, Partly;
    StartOfGroup(view, m, g, isUser, installed, masterNames, groups, others);
    r := m;
    for j := 0 to |g.after|
      invariant Shows(view, r, masterNames, installed, Partly(groups, g, j), isUser, others)
      invariant m.Keys <= r.Keys == m.Keys + NamesIn(g.after[..j])
      invariant fresh(view.nodes - old(view.nodes))
    {
      NextNameIn(g.after, j);
      r := ShowAfterName(view, r, g, j, isUser, installed, masterNames, groups, others);
    }
    PartlyIsWhole(groups, g);
    assert g.after[..|g.after|] == g.after;
  }

  /** Inserts a node for each group, unless its name is taken. */
  method InsertAll(view: GraphView, m: map<string, Node>, groups: seq<Group>, isUser: bool, installed: set<string>)
    returns (r: map<string, Node>)
    requires view.Valid() && Maps(view, m)
    modifies view`nodes
    ensures view.Valid() && Maps(view, r) && fresh(view.nodes - old(view.nodes))
    ensures r.Keys == m.Keys + Names(groups) && forall k :: k in m ==> r[k] == m[k]
    ensures forall k :: k in r && k !in m ==>
      (r[k].isUserMetadata <==> isUser) && (r[k].containsInstalledPlugins <==> k in installed)
  {
    hide Lists, EndInScene, Names;
    r := m;
    assert groups[..0] == [];
    assert Names([]) == {} by {
      NoNames();
    }
    for i := 0 to |groups|
      invariant view.Valid() && Maps(view, r) && fresh(view.nodes - old(view.nodes))
      invariant r.Keys == m.Keys + Names(groups[..i]) && forall k :: k in m ==> r[k] == m[k]
      invariant forall k :: k in r && k !in m ==>
        (r[k].isUserMetadata <==> isUser) && (r[k].containsInstalledPlugins <==> k in installed)
    {
      NamesOfNext(groups, i);
      r := InsertNode(view, r, groups[i].name, isUser, groups[i].name in installed);
    }
    assert groups[..|groups|] == groups;
  }

  lemma NoNames()
    ensures Names([]) == {}
  {
  }

  /** Clears the scene and shows a node for each group, but no edges yet. */
  method ShowNodes(view: GraphView, masterlistGroups: seq<Group>, userGroups: seq<Group>, installed: set<string>)
    returns (m: map<string, Node>)
    modifies view
    ensures Shows(view, m, Names(masterlistGroups), installed, [], false, [])
    ensures m.Keys == Names(masterlistGroups) + Names(userGroups)
    ensures fresh(view.nodes)
  {
    hide Lists, Names, HasEdge;
    view.nodes, view.edges := {}, {};
    m := InsertAll(view, map[], masterlistGroups, false, installed);
    m := InsertAll(view, m, userGroups, true, installed);
    NoEdges();
  }

  /** Replaces what the graph shows by the given groups. */
  method SetGroups(view: GraphView, masterlistGroups: seq<Group>, userGroups: seq<Group>, installed: set<string>)
    returns (m: map<string, Node>)
    modifies view
    ensures Shows(view, m, Names(masterlistGroups), installed, userGroups, true, masterlistGroups)
    ensures m.Keys ==
            Names(masterlistGroups) + Names(userGroups) + AfterNames(masterlistGroups) + AfterNames(userGroups)
    ensures fresh(view.nodes)
  {
    hide Shows, Names, AfterNames;
    m := ShowNodes(view, masterlistGroups, userGroups, installed);
    m := ShowEdges(view, m, masterlistGroups, false, installed, Names(masterlistGroups), []);
    OtherWayRound(view, m, Names(masterlistGroups), installed, masterlistGroups, []);
    m := ShowEdges(view, m, userGroups, true, installed, Names(masterlistGroups), masterlistGroups);
  }

  lemma NoEdges()
    ensures forall n, x :: !HasEdge([], n, x)
  {
  }

  lemma OtherWayRound(view: GraphView, m: map<string, Node>, masterNames: set<string>, installed: set<string>,
                      master: seq<Group>, user: seq<Group>)
    requires Shows(view, m, masterNames, installed, master, false, user)
    ensures Shows(view, m, masterNames, installed, user, true, master)
  {
  }

  // --- Reading the user's groups back ---------------------------------------------------

  /** The edges that lead to a node from another one. */
  method GetInEdges(node: Node) returns (inEdges: seq<Edge>)
    ensures forall e :: e in inEdges <==> e in node.edgeList && e.source != node
  {
    inEdges := [];
    for i := 0 to |node.edgeList|
      invariant forall e :: e in inEdges <==> e in node.edgeList[..i] && e.source != node
    {
      if node.edgeList[i].source != node {
        inEdges := inEdges + [node.edgeList[i]];
      }
    }
  }

  /** Group n of the user's is to load after x: an edge of the user's leads there, or any if n is the user's own. */
  ghost predicate CountsAfter(edges: set<Edge>, m: map<string, Node>, n: string, x: string) {
    n in m && x != n &&
    (HasLine(edges, m, x, n, true) || (m[n].isUserMetadata && HasLine(edges, m, x, n, false)))
  }

  /** The node makes a user group: it is the user's own, or the user adds to what it loads after. */
  ghost predicate IsExtracted(edges: set<Edge>, m: map<string, Node>, n: string) {
    n in m && (m[n].isUserMetadata || exists x :: CountsAfter(edges, m, n, x))
  }

  /** The user groups read off the nodes with the given names. */
  ghost predicate IsExtract(groups: seq<Group>, edges: set<Edge>, m: map<string, Node>, names: set<string>) {
    (forall n, x :: HasEdge(groups, n, x) <==> n in names && CountsAfter(edges, m, n, x)) &&
    (forall n :: n in Names(groups) <==> n in names && IsExtracted(edges, m, n)) &&
    UniqueNames(groups) && forall g :: g in groups ==> g.description == ""
  }

  /** The names of the nodes from which the user has the node load after. */
  method GetAfterGroups(view: GraphView, node: Node, ghost m: map<string, Node>) returns (afterGroups: seq<string>)
    requires view.Valid() && Maps(view, m) && node in view.nodes
    ensures forall x :: x in afterGroups <==> CountsAfter(view.edges, m, node.name, x)
  {
    hide Lists, EndInScene, CountsAfter;
    var inEdges := GetInEdges(node);
    InEdgesAreListed(view, node, inEdges);
    afterGroups := [];
    for i := 0 to |inEdges|
      invariant forall x :: x in afterGroups <==> exists j ::
        0 <= j < i && inEdges[j].source.name == x && (node.isUserMetadata || inEdges[j].isUserMetadata)
    {
      if node.isUserMetadata || inEdges[i].isUserMetadata {
        afterGroups := afterGroups + [inEdges[i].source.name];
      }
    }
    forall x ensures x in afterGroups <==> CountsAfter(view.edges, m, node.name, x) {
      CountsIfInEdge(view, node, m, inEdges, x);
    }
  }

  lemma InEdgesAreListed(view: GraphView, node: Node, inEdges: seq<Edge>)
    requires view.Valid() && node in view.nodes
    requires forall e :: e in inEdges <==> e in node.edgeList && e.source != node
    ensures forall e :: e in inEdges <==> e in view.edges && e.dest == node && e.source != node
  {
  }

  lemma CountsIfInEdge(view: GraphView, node: Node, m: map<string, Node>, inEdges: seq<Edge>, x: string)
    requires EndInScene(view.edges, view.nodes) && Maps(view, m) && node in view.nodes
    requires forall e :: e in inEdges <==> e in view.edges && e.dest == node && e.source != node
    ensures CountsAfter(view.edges, m, node.name, x) <==> exists j ::
      0 <= j < |inEdges| && inEdges[j].source.name == x && (node.isUserMetadata || inEdges[j].isUserMetadata)
  {
  }

  lemma ExtractOneMore(groups: seq<Group>, edges: set<Edge>, m: map<string, Node>, names: set<string>, n: string,
                       after: seq<string>)
    requires IsExtract(groups, edges, m, names) && n in m && n !in names
    requires forall x :: x in after <==> CountsAfter(edges, m, n, x)
    ensures m[n].isUserMetadata || after != [] ==> IsExtract(groups + [Group(n, after, "")], edges, m, names + {n})
    ensures !(m[n].isUserMetadata || after != []) ==> IsExtract(groups, edges, m, names + {n})
  {
    hide CountsAfter;
    if m[n].isUserMetadata || after != [] {
      if after != [] {
        assert after[0] in after;
      }
      EdgesOfAppend(groups, Group(n, after, ""));
      assert Names(groups + [Group(n, after, "")]) == Names(groups) + {n};
      assert forall i :: 0 <= i < |groups| ==> groups[i].name in Names(groups);
    }
  }

  /** Reads the user's groups off the graph, in whatever order the scene lists its items. */
  method GetUserGroups(view: GraphView, ghost m: map<string, Node>) returns (userGroups: seq<Group>)
    requires view.Valid() && Maps(view, m)
    ensures IsExtract(userGroups, view.edges, m, m.Keys)
  {
    var items := view.nodes;
    userGroups := [];
    ghost var done: set<string> := {};
    NothingExtracted(view.edges, m);
    hide IsExtract;
    while items != {}
      invariant items <= view.nodes && done <= m.Keys
      invariant forall n :: n in view.nodes ==> (n in items <==> n.name !in done)
      invariant IsExtract(userGroups, view.edges, m, done)
    {
      var node :| node in items;
      var afterGroups := GetAfterGroups(view, node, m);
      ExtractOneMore(userGroups, view.edges, m, done, node.name, afterGroups);
      if node.isUserMetadata || afterGroups != [] {
        userGroups := userGroups + [Group(node.name, afterGroups, "")];
      }
      items := items - {node};
      done := done + {node.name};
    }
    assert done == m.Keys;
  }

  lemma NothingExtracted(edges: set<Edge>, m: map<string, Node>)
    ensures IsExtract([], edges, m, {})
  {
  }

  // --- Round trip -----------------------------------------------------------------------

  /**
   * Loading groups and reading them back. Masterlist edges never leak into the user's groups,
   * and what a user group loads after comes back, except itself. A name that was nowhere
   * defined comes back as an empty user group, and a group that the masterlist defines too
   * comes back only if the user has it load after another.
   */
  lemma RoundTrip(view: GraphView, m: map<string, Node>, master: seq<Group>, user: seq<Group>, installed: set<string>,
                  groups: seq<Group>)
    requires Shows(view, m, Names(master), installed, user, true, master)
    requires m.Keys == Names(master) + Names(user) + AfterNames(master) + AfterNames(user)
    requires IsExtract(groups, view.edges, m, m.Keys)
    ensures forall n, x :: HasEdge(groups, n, x) <==> n != x && HasEdge(user, n, x)
    ensures forall n :: n in Names(groups) <==>
      (n in m.Keys && n !in Names(master)) || (exists x :: x != n && HasEdge(user, n, x))
    ensures UniqueNames(groups) && forall g :: g in groups ==> g.description == ""
  {
    DrawnLines(view.edges, m, user, true);
    DrawnLines(view.edges, m, master, false);
    hide Draws, HasLine, Lists, EndInScene;
  }

  /**
   * With nothing undefined and nothing loading after itself, the user's groups come back, bar
   * empty masterlist ones.
   */
  lemma ExactRoundTrip(view: GraphView, m: map<string, Node>, master: seq<Group>, user: seq<Group>,
                       installed: set<string>, groups: seq<Group>)
    requires Shows(view, m, Names(master), installed, user, true, master)
    requires m.Keys == Names(master) + Names(user) + AfterNames(master) + AfterNames(user)
    requires IsExtract(groups, view.edges, m, m.Keys)
    requires AfterNames(master) + AfterNames(user) <= Names(master) + Names(user)
    requires forall n :: !HasEdge(user, n, n)
    ensures forall n, x :: HasEdge(groups, n, x) <==> HasEdge(user, n, x)
    ensures Names(groups) == set g | g in user && !(g.after == [] && g.name in Names(master)) :: g.name
  {
    hide Shows, IsExtract;
    RoundTrip(view, m, master, user, installed, groups);
    var kept := set g | g in user && !(g.after == [] && g.name in Names(master)) :: g.name;
    forall n ensures n in Names(groups) <==> n in kept {
      if n in Names(groups) {
        if x :| x != n && HasEdge(user, n, x) {
          var g :| g in user && g.name == n && x in g.after;
        } else {
          var g :| g in user && g.name == n;
        }
      }
      if n in kept {
        var g :| g in user && !(g.after == [] && g.name in Names(master)) && g.name == n;
        if g.after != [] {
          assert HasEdge(user, n, g.after[0]);
        }
      }
    }
  }
}
