/**
 * The presentation pass of `crear_grafico_mind_map`: every graph node and
 * edge is turned into the options handed to the renderer.  A node's shape
 * shows whether it carries an image, its size whether it is central, and its
 * colour is read back with 'gray' as the default; an edge keeps its colour
 * and width, with 'gray' and 1 as defaults.
 */
module Styling {
  import opened Options
  import opened Palette
  import opened IdeaTree
  import opened MindGraph
  import opened GraphBuilder
  import opened BuilderProperties

  datatype Shape = CircularImage | Circle

  /**
   * The options of one rendered node.  `image` is what the renderer is
   * handed: the node's image attribute, `None` when the attribute is unset,
   * and the empty string for a node that has no attributes at all.
   */
  datatype NodeStyle = NodeStyle(name: string, shape: Shape, image: Option<string>, color: Color, size: nat)

  datatype EdgeStyle = EdgeStyle(color: Color, width: int)

  /** The size of the central node and of every other node. */
  const CentralSize: nat := 80
  const BranchSize: nat := 20

  /** The default colour of a node or edge that has none. */
  const DefaultColor: Color := Gray

  /** Whether an image attribute counts as present: set and non-empty. */
  predicate HasImage(image: Option<string>) {
    image.Some? && image.value != ""
  }

  /**
   * The options of the node called `name`.  A node without attributes reads as
   * central (the type defaults to 'central'), gray, and without image.
   */
  function StyleNode(name: string, a: NodeAttrs): (s: NodeStyle)
    ensures s.name == name
  {
    match a
    case Bare => NodeStyle(name, Circle, Some(""), DefaultColor, CentralSize)
    case Attrs(kind, image, color) =>
      NodeStyle(name, if HasImage(image) then CircularImage else Circle, image, color,
                if kind == Central then CentralSize else BranchSize)
  }

  /** The options of an edge: its own colour and width. */
  function StyleEdge(a: EdgeAttrs): EdgeStyle {
    EdgeStyle(a.color, a.width)
  }

  /** The rendered view of a graph: the options of every node and of every edge. */
  datatype View = View(nodes: map<string, NodeStyle>, edges: map<set<string>, EdgeStyle>)

  function Render(g: Graph): (v: View)
    ensures v.nodes.Keys == g.nodes.Keys && v.edges.Keys == g.edges.Keys
  {
    View(map l | l in g.nodes :: StyleNode(l, g.nodes[l]),
         map e | e in g.edges :: StyleEdge(g.edges[e]))
  }

  /**
   * The node rules, stated for every attribute set: the shape is a circular
   * image exactly when the node has a non-empty image; the node is big
   * exactly when it has no attributes or is central; it is gray exactly when
   * it has no attributes or its colour is the fallback; and the rendered
   * colour, size and image are those of the node.
   */
  lemma StyleNodeRules(name: string, a: NodeAttrs)
    ensures var s := StyleNode(name, a);
      && (s.shape == CircularImage <==> a.Attrs? && HasImage(a.image))
      && (s.size == CentralSize <==> a.Bare? || a.kind == Central)
      && (s.size == BranchSize <==> a.Attrs? && a.kind == Branch)
      && (s.color == Gray <==> a.Bare? || a.color == Gray)
      && (a.Attrs? ==> s.color == a.color && s.image == a.image)
      && (a.Bare? ==> s.image == Some(""))
  {
  }

  /** Edge styles keep the edge's colour and width. */
  lemma StyleEdgeRules(a: EdgeAttrs)
    ensures StyleEdge(a).color == a.color && StyleEdge(a).width == a.width
  {
  }

  /**
   * For every tree with a named root, the rendered map has no gray node or
   * edge, and every rendered edge is between 1 and 5 wide.
   */
  lemma RenderNeverGray(t: Node)
    requires t.name != ""
    ensures Generate(t).Some?
    ensures var v := Render(Generate(t).value);
      && (forall l :: l in v.nodes ==> v.nodes[l].color != Gray && v.nodes[l].color in Colors)
      && (forall e :: e in v.edges ==> v.edges[e].color != Gray && 1 <= v.edges[e].width <= 5)
      && t.name in v.nodes
  {
    GenerateWellColored(t);
    PaletteWellFormed();
    var g := Generate(t).value;
    var v := Render(g);
    forall l | l in v.nodes
      ensures v.nodes[l].color != Gray && v.nodes[l].color in Colors
    {
      assert v.nodes[l] == StyleNode(l, g.nodes[l]);
    }
    forall e | e in v.edges
      ensures v.edges[e].color != Gray && 1 <= v.edges[e].width <= 5
    {
      assert v.edges[e] == StyleEdge(g.edges[e]);
    }
  }

  /**
   * With unambiguous labels, the rendered node of the tree node a path
   * addresses is a circular image exactly when that node has an image, is
   * big exactly when it is the root, and is drawn in the colour of its depth.
   */
  lemma RenderNodeAt(t: Node, p: seq<nat>)
    requires t.name != "" && Unambiguous(t) && ValidPath(t, p)
    ensures Generate(t).Some? && At(t, p).name in Render(Generate(t).value).nodes
    ensures var s := Render(Generate(t).value).nodes[At(t, p).name];
      && (s.shape == CircularImage <==> At(t, p).image != "")
      && (s.size == CentralSize <==> p == [])
      && s.color == DepthColor(|p|)
  {
    GenerateNodeAt(t, p);
    var g, n := Generate(t).value, At(t, p);
    var a := Attrs(if p == [] then Central else Branch, ImageAttr(n.image), DepthColor(|p|));
    assert g.nodes[n.name] == a;
    assert Render(g).nodes[n.name] == StyleNode(n.name, a);
  }

  /** With unambiguous labels exactly one rendered node is big: the root. */
  lemma RenderOneCentral(t: Node)
    requires t.name != "" && Unambiguous(t)
    ensures Generate(t).Some?
    ensures var v := Render(Generate(t).value);
      forall l :: l in v.nodes ==> (v.nodes[l].size == CentralSize <==> l == t.name)
  {
    GenerateNodes(t);
    var g := Generate(t).value;
    var v := Render(g);
    forall l | l in v.nodes
      ensures v.nodes[l].size == CentralSize <==> l == t.name
    {
      assert v.nodes[l] == StyleNode(l, g.nodes[l]);
    }
  }
}
