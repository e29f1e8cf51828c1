/**
 * The graph builder (`crear_grafico_mind_map` up to the rendering step and
 * `agregar_nodos_recursivamente`): a pre-order walk of the idea tree that
 * adds nodes and edges to a label-keyed graph as it goes.
 */
module GraphBuilder {
  import opened Options
  import opened Palette
  import opened IdeaTree
  import opened MindGraph

  /** The parent label that the walk treats as "no parent". */
  const RootSentinel: string := "root"

  /** `max(1, 5 - fan-out)`: the width of the edges leaving `d`. */
  function FanWidth(d: Node): (w: int)
    ensures 1 <= w <= 5
    ensures d.children != [] ==> w <= 4
    ensures w + |d.children| >= 5
    ensures w > 1 ==> w + |d.children| == 5
  {
    if 5 - |d.children| < 1 then 1 else 5 - |d.children|
  }

  /** The image attribute: the node's image, or none when it is empty. */
  function ImageAttr(image: string): (r: Option<string>)
    ensures r.Some? <==> image != ""
    ensures r.Some? ==> r.value == image
  {
    if image == "" then None else Some(image)
  }

  /** `edge_width_dict.get(label, 1)`. */
  function WidthOf(widths: map<string, int>, name: string): int {
    if name in widths then widths[name] else 1
  }

  /** The graph and the edge-width dictionary as the walk leaves them. */
  datatype Walk = Walk(graph: Graph, widths: map<string, int>)

  /** The kind of a node whose parent has label `parent`. */
  function KindUnder(parent: string): Kind {
    if parent == RootSentinel then Central else Branch
  }

  /** The graph calls `Visit` makes before descending: `d`'s node, then the edge from its parent. */
  function VisitHead(parent: string, d: Node, color: Color, widths: map<string, int>, g: Graph): Graph {
    var g0 := AddNodeTo(g, d.name, Attrs(KindUnder(parent), ImageAttr(d.image), color));
    if parent != RootSentinel then AddEdgeTo(g0, parent, d.name, EdgeAttrs(color, WidthOf(widths, parent)))
    else g0
  }

  /**
   * `agregar_nodos_recursivamente(G, parent, d, color, widths)`: adds `d`
   * (central when its parent's label is "root"), the edge from its parent
   * unless that label is "root", records `d`'s edge width under its label,
   * and visits `d`'s children with the next colour.
   */
  function Visit(parent: string, d: Node, color: Color, widths: map<string, int>, g: Graph): Walk
    decreases d, 1
  {
    VisitAll(d.name, d.children, NextColor(color), widths[d.name := FanWidth(d)], VisitHead(parent, d, color, widths, g))
  }

  /** The `for rama in ramas` loop: visits siblings in order, threading the graph and the width dictionary. */
  function VisitAll(parent: string, ds: seq<Node>, color: Color, widths: map<string, int>, g: Graph): Walk
    decreases ds, 0
  {
    if ds == [] then Walk(g, widths)
    else
      var first := Visit(parent, ds[0], color, widths, g);
      VisitAll(parent, ds[1..], color, first.widths, first.graph)
  }

  /** The graph holding only the central root node, in the first palette colour. */
  function RootGraph(t: Node): Graph {
    AddNodeTo(EmptyGraph, t.name, Attrs(Central, ImageAttr(t.image), Colors[0]))
  }

  /**
   * `crear_grafico_mind_map` up to the rendering: no graph when the root has
   * no name; otherwise the central root node, then the walk of its branches,
   * which start with the root's own colour and an empty width dictionary.
   */
  function Generate(t: Node): (r: Option<Graph>)
    ensures r.None? <==> t.name == ""
  {
    if t.name == "" then None
    else Some(VisitAll(t.name, t.children, Colors[0], map[], RootGraph(t)).graph)
  }

  /** A reset tree yields no graph. */
  lemma ResetGeneratesNothing()
    ensures Generate(Reset()).None?
  {
  }

  /** What the calls before the descent do to a graph that already has the parent node. */
  lemma HeadEffect(parent: string, d: Node, color: Color, widths: map<string, int>, g: Graph)
    requires parent in g.nodes
    ensures var h := VisitHead(parent, d, color, widths, g);
      && h.nodes == g.nodes[d.name := Attrs(KindUnder(parent), ImageAttr(d.image), color)]
      && h.edges == if parent != RootSentinel
                    then g.edges[EdgeKey(parent, d.name) := EdgeAttrs(color, WidthOf(widths, parent))]
                    else g.edges
  {
    var a := Attrs(KindUnder(parent), ImageAttr(d.image), color);
    if parent != RootSentinel {
      var g0 := AddNodeTo(g, d.name, a);
      assert EnsureNode(EnsureNode(g0.nodes, parent), d.name) == g0.nodes;
    }
  }

  // ---------------------------------------------------------------------------
  // Facts that hold for every tree, whatever its labels
  // ---------------------------------------------------------------------------

  /** Every node has attributes in a palette colour; every edge has a palette colour and width 1 to 5. */
  predicate WellColored(g: Graph) {
    && (forall l :: l in g.nodes ==> g.nodes[l].Attrs? && g.nodes[l].color in Colors)
    && (forall e :: e in g.edges ==> g.edges[e].color in Colors && 1 <= g.edges[e].width <= 5)
  }

  /** Every recorded width is a `max(1, 5 - n)` value. */
  predicate WidthsInRange(widths: map<string, int>) {
    forall l :: l in widths ==> 1 <= widths[l] <= 5
  }

  lemma HeadWellColored(parent: string, d: Node, color: Color, widths: map<string, int>, g: Graph)
    requires WellColored(g) && parent in g.nodes
    requires color in Colors && WidthsInRange(widths)
    ensures var h := VisitHead(parent, d, color, widths, g);
      WellColored(h) && g.nodes.Keys + {d.name} == h.nodes.Keys
  {
    HeadEffect(parent, d, color, widths, g);
    var h := VisitHead(parent, d, color, widths, g);
    forall e | e in h.edges
      ensures h.edges[e].color in Colors && 1 <= h.edges[e].width <= 5
    {
      if parent != RootSentinel && e == EdgeKey(parent, d.name) {
        assert h.edges[e] == EdgeAttrs(color, WidthOf(widths, parent));
      } else {
        assert h.edges[e] == g.edges[e];
      }
    }
  }

  lemma {:induction false} VisitWellColored(parent: string, d: Node, color: Color, widths: map<string, int>, g: Graph)
    requires WellColored(g) && parent in g.nodes
    requires color in Colors && WidthsInRange(widths)
    ensures var w := Visit(parent, d, color, widths, g);
      WellColored(w.graph) && g.nodes.Keys <= w.graph.nodes.Keys && WidthsInRange(w.widths)
    decreases d, 1
  {
    HeadWellColored(parent, d, color, widths, g);
    VisitAllWellColored(d.name, d.children, NextColor(color), widths[d.name := FanWidth(d)],
                        VisitHead(parent, d, color, widths, g));
  }

  lemma {:induction false} VisitAllWellColored(parent: string, ds: seq<Node>, color: Color, widths: map<string, int>, g: Graph)
    requires WellColored(g) && parent in g.nodes
    requires color in Colors && WidthsInRange(widths)
    ensures var w := VisitAll(parent, ds, color, widths, g);
      WellColored(w.graph) && g.nodes.Keys <= w.graph.nodes.Keys && WidthsInRange(w.widths)
    decreases ds, 0
  {
    if ds != [] {
      var first := Visit(parent, ds[0], color, widths, g);
      VisitWellColored(parent, ds[0], color, widths, g);
      VisitAllWellColored(parent, ds[1..], color, first.widths, first.graph);
    }
  }

  /**
   * For every tree with a named root: every graph node has its attributes and
   * a palette colour (the 'gray' fallback is never used), every edge has a
   * palette colour and a width between 1 and 5, and the root's label is a node.
   */
  lemma GenerateWellColored(t: Node)
    requires t.name != ""
    ensures Generate(t).Some?
    ensures WellColored(Generate(t).value)
    ensures t.name in Generate(t).value.nodes
  {
    VisitAllWellColored(t.name, t.children, Colors[0], map[], RootGraph(t));
  }
}
