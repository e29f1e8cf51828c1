/**
 * The label-keyed, undirected graph the builder fills (a networkx `Graph`):
 * nodes are keyed by their label, an edge by the set of its two end labels,
 * and adding an existing node or edge overwrites its attributes.
 */
module MindGraph {
  import opened Options
  import opened Palette

  datatype Kind = Central | Branch

  /**
   * A node's attributes.  `Bare` is a node created only as the end point of
   * an edge, which carries no attributes at all.
   */
  datatype NodeAttrs = Bare | Attrs(kind: Kind, image: Option<string>, color: Color)

  datatype EdgeAttrs = EdgeAttrs(color: Color, width: int)

  datatype Graph = Graph(nodes: map<string, NodeAttrs>, edges: map<set<string>, EdgeAttrs>)

  const EmptyGraph: Graph := Graph(map[], map[])

  /** The key of the undirected edge between `u` and `v`. */
  function EdgeKey(u: string, v: string): (e: set<string>)
    ensures u in e && v in e
    ensures forall x :: x in e ==> x == u || x == v
  {
    {u, v}
  }

  /** `add_node`: creates the node or overwrites its attributes. */
  function AddNodeTo(g: Graph, name: string, a: NodeAttrs): (r: Graph)
    ensures r.nodes.Keys == g.nodes.Keys + {name} && r.nodes[name] == a
    ensures forall l :: l in g.nodes && l != name ==> r.nodes[l] == g.nodes[l]
    ensures r.edges == g.edges
  {
    g.(nodes := g.nodes[name := a])
  }

  /** Adds `name` without attributes unless it is present already. */
  function EnsureNode(nodes: map<string, NodeAttrs>, name: string): (r: map<string, NodeAttrs>)
    ensures r.Keys == nodes.Keys + {name}
    ensures forall l :: l in nodes ==> r[l] == nodes[l]
    ensures name !in nodes ==> r[name] == Bare
  {
    if name in nodes then nodes else nodes[name := Bare]
  }

  /** `add_edge`: creates missing end points bare and creates or overwrites the edge. */
  function AddEdgeTo(g: Graph, u: string, v: string, a: EdgeAttrs): (r: Graph)
    ensures r.nodes.Keys == g.nodes.Keys + {u, v}
    ensures forall l :: l in g.nodes ==> r.nodes[l] == g.nodes[l]
    ensures u !in g.nodes ==> r.nodes[u] == Bare
    ensures v !in g.nodes ==> r.nodes[v] == Bare
    ensures r.edges.Keys == g.edges.Keys + {EdgeKey(u, v)} && r.edges[EdgeKey(u, v)] == a
    ensures forall e :: e in g.edges && e != EdgeKey(u, v) ==> r.edges[e] == g.edges[e]
  {
    Graph(EnsureNode(EnsureNode(g.nodes, u), v), g.edges[EdgeKey(u, v) := a])
  }

  /** The graph is undirected: the order of the end points does not matter. */
  lemma AddEdgeUndirected(g: Graph, u: string, v: string, a: EdgeAttrs)
    ensures AddEdgeTo(g, u, v, a) == AddEdgeTo(g, v, u, a)
  {
    assert EdgeKey(u, v) == EdgeKey(v, u);
    var n1, n2 := AddEdgeTo(g, u, v, a).nodes, AddEdgeTo(g, v, u, a).nodes;
    assert forall l :: l in n1 ==> l in n2 && n1[l] == n2[l];
  }
}
