/** The graph that the groups editor shows: nodes and edges that hold each other. */
module GroupGraph {
  class Node {
    var name: string
    const isUserMetadata: bool
    var containsInstalledPlugins: bool
    var edgeList: seq<Edge>

    constructor (name: string, isUserMetadata: bool, containsInstalledPlugins: bool)
      ensures this.name == name && this.isUserMetadata == isUserMetadata
      ensures this.containsInstalledPlugins == containsInstalledPlugins && edgeList == []
    {
      this.name := name;
      this.isUserMetadata := isUserMetadata;
      this.containsInstalledPlugins := containsInstalledPlugins;
      edgeList := [];
    }

    method AddEdge(edge: Edge)
      modifies this`edgeList
      ensures edgeList == old(edgeList) + [edge]
    {
      edgeList := edgeList + [edge];
    }

    /** Takes out the first occurrence, if there is one. */
    method RemoveEdge(edge: Edge)
      modifies this`edgeList
      ensures edgeList == WithoutFirst(old(edgeList), edge)
    {
      edgeList := WithoutFirst(edgeList, edge);
    }
  }

  class Edge {
    const source: Node
    const dest: Node
    const isUserMetadata: bool

    /** A new edge enters itself in the edge lists of both its ends, twice if they are the same node. */
    constructor (source: Node, dest: Node, isUserMetadata: bool)
      modifies source`edgeList, dest`edgeList
      ensures this.source == source && this.dest == dest && this.isUserMetadata == isUserMetadata
      ensures source != dest ==> source.edgeList == old(source.edgeList) + [this]
      ensures source != dest ==> dest.edgeList == old(dest.edgeList) + [this]
      ensures source == dest ==> source.edgeList == old(source.edgeList) + [this] + [this]
    {
      this.source := source;
      this.dest := dest;
      this.isUserMetadata := isUserMetadata;
      new;
      source.AddEdge(this);
      dest.AddEdge(this);
    }
  }

  function WithoutFirst<T(==)>(list: seq<T>, x: T): (r: seq<T>)
    ensures multiset(r) == multiset(list) - multiset{x}
    ensures |r| == if x in list then |list| - 1 else |list|
  {
    if list == [] then []
    else if list[0] == x then assert list == [x] + list[1..]; list[1..]
    else assert list == [list[0]] + list[1..]; [list[0]] + WithoutFirst(list[1..], x)
  }

  /** How many of an edge's ends the node is. */
  function Incidence(e: Edge, n: Node): nat {
    (if e.source == n then 1 else 0) + (if e.dest == n then 1 else 0)
  }

  class GraphView {
    var nodes: set<Node>
    var edges: set<Edge>

    /**
     * Edges and edge lists agree: a live edge is in a node's list as often as the node is one
     * of its ends, and no list holds anything else.
     */
    ghost predicate Valid()
      reads this`nodes, this`edges, nodes`edgeList
    {
      EndInScene(edges, nodes) && forall n :: n in nodes ==> Lists(n.edgeList, n, edges)
    }

    ghost predicate UniqueNames()
      reads this`nodes, nodes`name
    {
      forall n, m :: n in nodes && m in nodes && n.name == m.name ==> n == m
    }

    constructor ()
      ensures nodes == {} && edges == {}
    {
      nodes, edges := {}, {};
    }

    /** The node with the name, if there is one. */
    method FindNode(name: string) returns (found: Node?)
      ensures found != null ==> found in nodes && found.name == name
      ensures found == null ==> forall n :: n in nodes ==> n.name != name
    {
      var items := nodes;
      while items != {}
        invariant items <= nodes
        invariant forall n :: n in nodes && n !in items ==> n.name != name
      {
        var node :| node in items;
        if node.name == name {
          return node;
        }
        items := items - {node};
      }
      return null;
    }

    method AddGroup(name: string) returns (added: bool)
      requires Valid()
      modifies this`nodes
      ensures Valid() && (old(UniqueNames()) ==> UniqueNames())
      ensures added <==> forall n :: n in old(nodes) ==> n.name != name
      ensures !added ==> nodes == old(nodes)
      ensures added ==> exists node :: fresh(node) && nodes == old(nodes) + {node} && node.name == name &&
                                       node.isUserMetadata && !node.containsInstalledPlugins
    {
      var existing := FindNode(name);
      if existing != null {
        return false;
      }
      var node := new Node(name, true, false);
      nodes := nodes + {node};
      assert Lists(node.edgeList, node, edges);
      return true;
    }

    method RenameGroup(oldName: string, newName: string)
      requires Valid() && UniqueNames()
      modifies nodes`name
      ensures Valid()
      ensures forall n :: n in nodes ==> n.name == if old(n.name) == oldName then newName else old(n.name)
    {
      var node := FindNode(oldName);
      if node != null {
        node.name := newName;
      }
    }

    method SetGroupContainsInstalledPlugins(name: string, contains: bool)
      requires Valid() && UniqueNames()
      modifies nodes`containsInstalledPlugins
      ensures Valid()
      ensures forall n :: n in nodes ==>
                n.containsInstalledPlugins == if n.name == name then contains else old(n.containsInstalledPlugins)
    {
      var node := FindNode(name);
      if node != null {
        node.containsInstalledPlugins := contains;
      }
    }

    method IsUserGroup(name: string) returns (isUser: bool)
      requires UniqueNames()
      ensures isUser <==> exists n :: n in nodes && n.name == name && n.isUserMetadata
    {
      var node := FindNode(name);
      return node != null && node.isUserMetadata;
    }

    /** Draws an edge: the later group is the destination. */
    method Connect(source: Node, dest: Node, isUserMetadata: bool) returns (edge: Edge)
      requires Valid() && source in nodes && dest in nodes
      modifies this`edges, source`edgeList, dest`edgeList
      ensures Valid() && fresh(edge) && edges == old(edges) + {edge}
      ensures edge.source == source && edge.dest == dest && edge.isUserMetadata == isUserMetadata
    {
      edge := new Edge(source, dest, isUserMetadata);
      edges := edges + {edge};
      assert forall n :: n in nodes ==> n.edgeList == Entered(old(n.edgeList), n, edge);
      forall n | n in nodes ensures Lists(n.edgeList, n, edges) {
        EnteredIsListed(old(n.edgeList), n, old(edges), edge);
      }
    }

    /** Takes an edge out of its ends' lists and out of the scene, starting at either end. */
    method Detach(first: Node, second: Node, edge: Edge)
      requires Valid() && edge in edges
      requires (first == edge.source && second == edge.dest) || (first == edge.dest && second == edge.source)
      modifies this`edges, first`edgeList, second`edgeList
      ensures Valid() && edges == old(edges) - {edge}
      ensures |first.edgeList| < |old(first.edgeList)|
    {
      hide Lists, WithoutFirst, EndInScene;
      FewerEndInScene(edges, nodes, edge);
      first.RemoveEdge(edge);
      second.RemoveEdge(edge);
      edges := edges - {edge};
      forall n | n in nodes
        ensures Lists(n.edgeList, n, edges)
        ensures n == first ==> |n.edgeList| < |old(n.edgeList)|
      {
        if n != first && n != second {
          assert n.edgeList == old(n.edgeList);
        }
        TakenOutIsGone(old(n.edgeList), n, old(edges), first, second, edge);
      }
    }

    /** The mouse button was released over some items: an edge goes to every other node among them. */
    method NodeReleased(node: Node, itemsUnderMouse: seq<Node>)
      requires Valid() && node in nodes && forall n :: n in itemsUnderMouse ==> n in nodes
      modifies this`edges, nodes`edgeList
      ensures Valid() && old(edges) <= edges && fresh(edges - old(edges))
      ensures FansOut(edges - old(edges), node, itemsUnderMouse)
    {
      hide Lists, EndInScene, FansOut;
      ghost var was := edges;
      FanOutSkips({}, node, []);
      assert edges - was == {} && itemsUnderMouse[..0] == [];
      for i := 0 to |itemsUnderMouse|
        invariant Valid() && was <= edges && fresh(edges - was)
        invariant FansOut(edges - was, node, itemsUnderMouse[..i])
      {
        ghost var drawn := edges - was;
        FanOutSkips(drawn, node, itemsUnderMouse[..i]);
        if itemsUnderMouse[i] != node {
          var edge := Connect(node, itemsUnderMouse[i], true);
          assert edge !in drawn && edges - was == drawn + {edge};
          FanOutFurther(drawn, node, itemsUnderMouse[..i], edge);
        }
        assert itemsUnderMouse[..i + 1] == itemsUnderMouse[..i] + [itemsUnderMouse[i]];
      }
      assert itemsUnderMouse[..|itemsUnderMouse|] == itemsUnderMouse;
    }

    /** Some edge of the kind between two groups, if there is one. */
    method FindEdge(from: string, to: string, isUser: bool) returns (found: Edge?)
      requires Valid()
      ensures found != null ==> found in edges && found.source in nodes && found.dest in nodes
      ensures found != null ==> found.source.name == from && found.dest.name == to && found.isUserMetadata == isUser
      ensures found == null ==>
        forall e :: e in edges && e.isUserMetadata == isUser ==> e.source.name != from || e.dest.name != to
    {
      hide Lists;
      var items := edges;
      while items != {}
        invariant items <= edges
        invariant forall e :: e in edges && e !in items && e.isUserMetadata == isUser ==>
          e.source.name != from || e.dest.name != to
      {
        var edge :| edge in items;
        if edge.source.name == from && edge.dest.name == to && edge.isUserMetadata == isUser {
          return edge;
        }
        items := items - {edge};
      }
      return null;
    }

    /** A right click on an edge. Masterlist edges stay. */
    method EdgeRightClicked(edge: Edge) returns (removed: bool)
      requires Valid() && edge in edges
      modifies this`edges, nodes`edgeList
      ensures Valid() && (removed <==> edge.isUserMetadata)
      ensures edges == if removed then old(edges) - {edge} else old(edges)
    {
      removed := edge.isUserMetadata;
      if removed {
        FewerEndInScene(edges, nodes, edge);
        hide Lists, EndInScene;
        Detach(edge.source, edge.dest, edge);
      }
    }

    /** A right click on a node. Only an empty user group goes, and all its edges with it. */
    method NodeRightClicked(node: Node) returns (removed: bool)
      requires Valid() && node in nodes
      modifies this, nodes`edgeList
      ensures Valid() && (removed <==> node.isUserMetadata && !node.containsInstalledPlugins)
      ensures nodes == if removed then old(nodes) - {node} else old(nodes)
      ensures edges == if removed then (set e | e in old(edges) && Incidence(e, node) == 0) else old(edges)
      ensures !removed ==> forall n :: n in nodes ==> n.edgeList == old(n.edgeList)
    {
      removed := node.isUserMetadata && !node.containsInstalledPlugins;
      if !removed {
        return;
      }
      while node.edgeList != []
        invariant Valid() && nodes == old(nodes) && edges <= old(edges)
        invariant forall e :: e in old(edges) && Incidence(e, node) == 0 ==> e in edges
        decreases |node.edgeList|
      {
        var edge := node.edgeList[0];
        var otherNode := if edge.source == node then edge.dest else edge.source;
        assert edge in edges;
        Detach(node, otherNode, edge);
      }
      nodes := nodes - {node};
    }
  }

  ghost function EdgesTo(drawn: set<Edge>, n: Node): set<Edge> {
    set e | e in drawn && e.dest == n
  }

  /** A user edge from the node to each other one of the items, as often as it is among them, and no more. */
  ghost predicate FansOut(drawn: set<Edge>, node: Node, items: seq<Node>) {
    (forall e :: e in drawn ==> e.isUserMetadata && e.source == node && e.dest != node && e.dest in items) &&
    (forall n :: n in items && n != node ==> |EdgesTo(drawn, n)| == multiset(items)[n])
  }

  lemma FanOutSkips(drawn: set<Edge>, node: Node, items: seq<Node>)
    ensures FansOut(drawn, node, items) <==> FansOut(drawn, node, items + [node])
    ensures FansOut({}, node, [])
  {
    assert forall n :: n in items && n != node ==> n in items + [node];
    assert forall n :: n != node ==> multiset(items + [node])[n] == multiset(items)[n];
  }

  lemma FanOutFurther(drawn: set<Edge>, node: Node, items: seq<Node>, e: Edge)
    requires FansOut(drawn, node, items)
    requires e !in drawn && e.isUserMetadata && e.source == node && e.dest != node
    ensures FansOut(drawn + {e}, node, items + [e.dest])
  {
    assert e.dest !in items ==> EdgesTo(drawn, e.dest) == {};
    forall n | n in items + [e.dest] && n != node
      ensures |EdgesTo(drawn + {e}, n)| == multiset(items + [e.dest])[n]
    {
      assert EdgesTo(drawn + {e}, n) == if n == e.dest then EdgesTo(drawn, n) + {e} else EdgesTo(drawn, n);
    }
  }

  lemma FansOutToNone(drawn: set<Edge>, node: Node)
    requires FansOut(drawn, node, [node])
    ensures drawn == {}
  {
  }

  /** Over one other node, one edge is drawn. */
  lemma FansOutToOne(drawn: set<Edge>, node: Node, item: Node)
    requires FansOut(drawn, node, [item]) && item != node
    ensures exists e :: drawn == {e} && e.isUserMetadata && e.source == node && e.dest == item
  {
    assert EdgesTo(drawn, item) == drawn && multiset([item])[item] == 1;
    var e :| e in drawn;
    assert |drawn - {e}| == 0;
    assert drawn == {e};
  }

  ghost predicate EndInScene(edges: set<Edge>, nodes: set<Node>) {
    forall e :: e in edges ==> e.source in nodes && e.dest in nodes
  }

  lemma FewerEndInScene(edges: set<Edge>, nodes: set<Node>, e: Edge)
    requires EndInScene(edges, nodes)
    ensures EndInScene(edges - {e}, nodes)
    ensures e in edges ==> e.source in nodes && e.dest in nodes
  {
  }

  /** The list holds each live edge as often as the node is one of its ends, and nothing else. */
  ghost predicate Lists(list: seq<Edge>, n: Node, edges: set<Edge>) {
    (forall e :: e in list ==> e in edges) &&
    (forall e :: e in edges ==> multiset(list)[e] == Incidence(e, n))
  }

  /** The list of a node after an edge has entered itself at both its ends. */
  function Entered(list: seq<Edge>, n: Node, e: Edge): seq<Edge> {
    var list' := if e.source == n then list + [e] else list;
    if e.dest == n then list' + [e] else list'
  }

  /** The list of a node after an edge has been taken out at one end and then at the other. */
  function TakenOut(list: seq<Edge>, n: Node, first: Node, second: Node, e: Edge): seq<Edge> {
    var list' := if n == first then WithoutFirst(list, e) else list;
    if n == second then WithoutFirst(list', e) else list'
  }

  lemma EnteredIsListed(list: seq<Edge>, n: Node, edges: set<Edge>, e: Edge)
    requires Lists(list, n, edges) && e !in edges
    ensures Lists(Entered(list, n, e), n, edges + {e})
  {
  }

  /** Like Lists, but edge e occurs `count` times. */
  ghost predicate ListsBut(list: seq<Edge>, n: Node, edges: set<Edge>, e: Edge, count: nat) {
    (forall f :: f in list ==> f in edges) && multiset(list)[e] == count &&
    forall f :: f in edges && f != e ==> multiset(list)[f] == Incidence(f, n)
  }

  lemma OneLess(list: seq<Edge>, n: Node, edges: set<Edge>, e: Edge, count: nat)
    requires ListsBut(list, n, edges, e, count) && count > 0
    ensures ListsBut(WithoutFirst(list, e), n, edges, e, count - 1)
    ensures |WithoutFirst(list, e)| < |list|
  {
    assert e in list;
    forall f: Edge | f in WithoutFirst(list, e) ensures f in list {
      assert multiset(WithoutFirst(list, e))[f] > 0;
    }
  }

  lemma NoneLeft(list: seq<Edge>, n: Node, edges: set<Edge>, e: Edge)
    requires ListsBut(list, n, edges, e, 0)
    ensures Lists(list, n, edges - {e})
  {
  }

  lemma TakenOutIsGone(list: seq<Edge>, n: Node, edges: set<Edge>, first: Node, second: Node, e: Edge)
    requires Lists(list, n, edges) && e in edges
    requires (first == e.source && second == e.dest) || (first == e.dest && second == e.source)
    ensures Lists(TakenOut(list, n, first, second, e), n, edges - {e})
    ensures n == first ==> |TakenOut(list, n, first, second, e)| < |list|
  {
    assert ListsBut(list, n, edges, e, Incidence(e, n));
    hide Lists, ListsBut, WithoutFirst;
    var list' := if n == first then WithoutFirst(list, e) else list;
    if n == first {
      OneLess(list, n, edges, e, Incidence(e, n));
    }
    if n == second {
      OneLess(list', n, edges, e, 1);
    }
    NoneLeft(TakenOut(list, n, first, second, e), n, edges, e);
  }
}
