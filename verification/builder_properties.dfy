/**
 * What the built graph is when labels are unambiguous: a reference graph
 * defined straight from the tree, and facts about it stated per tree path.
 * "Unambiguous" means the names are pairwise distinct and none of them is
 * the literal "root" that the walk compares parent labels with.
 */
module BuilderProperties {
  import opened Options
  import opened Palette
  import opened IdeaTree
  import opened MindGraph
  import opened GraphBuilder
  import Maps

  /** Names pairwise distinct, and none equal to "root". */
  predicate Unambiguous(t: Node) {
    Distinct(t) && RootSentinel !in LabelSet(t)
  }

  /** The branch nodes the tree `d`, coloured `c`, should produce: its own and those of its subtrees one colour further. */
  function RefNodes(d: Node, c: Color): map<string, NodeAttrs>
    decreases d, 1
  {
    map[d.name := Attrs(Branch, ImageAttr(d.image), c)] + RefNodesAll(d.children, NextColor(c))
  }

  function RefNodesAll(ds: seq<Node>, c: Color): map<string, NodeAttrs>
    decreases ds, 0
  {
    if ds == [] then map[] else RefNodes(ds[0], c) + RefNodesAll(ds[1..], c)
  }

  /**
   * The edges the tree `d`, coloured `c`, should produce below a parent
   * labelled `pn` whose edges have width `pw`: the edge from the parent in
   * `d`'s colour, and the edges below `d`.
   */
  function RefEdges(pn: string, pw: int, d: Node, c: Color): map<set<string>, EdgeAttrs>
    decreases d, 1
  {
    map[EdgeKey(pn, d.name) := EdgeAttrs(c, pw)] + RefEdgesAll(d.name, FanWidth(d), d.children, NextColor(c))
  }

  function RefEdgesAll(pn: string, pw: int, ds: seq<Node>, c: Color): map<set<string>, EdgeAttrs>
    decreases ds, 0
  {
    if ds == [] then map[] else RefEdges(pn, pw, ds[0], c) + RefEdgesAll(pn, pw, ds[1..], c)
  }

  /** The reference graph: a central root in the first colour; its children share that colour; edges leaving the root have width 1. */
  function RefGraph(t: Node): Graph {
    Graph(map[t.name := Attrs(Central, ImageAttr(t.image), Colors[0])] + RefNodesAll(t.children, Colors[0]),
          RefEdgesAll(t.name, 1, t.children, Colors[0]))
  }

  /** The tree parent of the node a non-empty path addresses. */
  function ParentOf(t: Node, p: seq<nat>): (n: Node)
    requires ValidPath(t, p) && p != []
    ensures p[|p| - 1] < |n.children| && n.children[p[|p| - 1]] == At(t, p)
  {
    InitValid(t, p);
    At(t, Init(p))
  }

  /** The edge that joins the node `p` addresses to its tree parent. */
  function TreeEdge(t: Node, p: seq<nat>): set<string>
    requires ValidPath(t, p) && p != []
  {
    EdgeKey(ParentOf(t, p).name, At(t, p).name)
  }

  // ---------------------------------------------------------------------------
  // The walk computes the reference graph
  // ---------------------------------------------------------------------------

  /** A visit only writes widths under the labels of the visited tree. */
  lemma {:induction false} VisitWidthsFrame(parent: string, d: Node, color: Color, widths: map<string, int>, g: Graph, k: string)
    requires k !in LabelSet(d)
    ensures WidthOf(Visit(parent, d, color, widths, g).widths, k) == WidthOf(widths, k)
    decreases d, 1
  {
    VisitAllWidthsFrame(d.name, d.children, NextColor(color), widths[d.name := FanWidth(d)],
                        VisitHead(parent, d, color, widths, g), k);
  }

  lemma {:induction false} VisitAllWidthsFrame(parent: string, ds: seq<Node>, color: Color, widths: map<string, int>, g: Graph, k: string)
    requires k !in LabelSetAll(ds)
    ensures WidthOf(VisitAll(parent, ds, color, widths, g).widths, k) == WidthOf(widths, k)
    decreases ds, 0
  {
    if ds != [] {
      var first := Visit(parent, ds[0], color, widths, g);
      VisitWidthsFrame(parent, ds[0], color, widths, g, k);
      VisitAllWidthsFrame(parent, ds[1..], color, first.widths, first.graph, k);
    }
  }

  /** The graph after the head of a visit below the root. */
  function HeadRef(parent: string, d: Node, c: Color, widths: map<string, int>, g: Graph): (h: Graph)
    ensures d.name in h.nodes
  {
    Graph(g.nodes[d.name := Attrs(Branch, ImageAttr(d.image), c)],
          g.edges[EdgeKey(parent, d.name) := EdgeAttrs(c, WidthOf(widths, parent))])
  }

  /** `HeadRef` plus the reference graph of the children is the reference graph of the visited tree. */
  lemma {:induction false} HeadRefUnion(parent: string, d: Node, c: Color, widths: map<string, int>, g: Graph)
    ensures var h := HeadRef(parent, d, c, widths, g);
      Graph(h.nodes + RefNodesAll(d.children, NextColor(c)), h.edges + RefEdgesAll(d.name, FanWidth(d), d.children, NextColor(c)))
      == Graph(g.nodes + RefNodes(d, c), g.edges + RefEdges(parent, WidthOf(widths, parent), d, c))
  {
    Maps.UpdateIsUnion(g.nodes, d.name, Attrs(Branch, ImageAttr(d.image), c), RefNodesAll(d.children, NextColor(c)));
    Maps.UpdateIsUnion(g.edges, EdgeKey(parent, d.name), EdgeAttrs(c, WidthOf(widths, parent)),
                       RefEdgesAll(d.name, FanWidth(d), d.children, NextColor(c)));
  }

  /** One visit below the root, given what the visit of its children does. */
  lemma {:induction false} VisitRefStep(parent: string, d: Node, c: Color, widths: map<string, int>, g: Graph)
    requires parent != RootSentinel && parent in g.nodes
    requires var h := HeadRef(parent, d, c, widths, g);
      VisitAll(d.name, d.children, NextColor(c), widths[d.name := FanWidth(d)], h).graph
      == Graph(h.nodes + RefNodesAll(d.children, NextColor(c)),
               h.edges + RefEdgesAll(d.name, WidthOf(widths[d.name := FanWidth(d)], d.name), d.children, NextColor(c)))
    ensures Visit(parent, d, c, widths, g).graph
         == Graph(g.nodes + RefNodes(d, c), g.edges + RefEdges(parent, WidthOf(widths, parent), d, c))
  {
    HeadEffect(parent, d, c, widths, g);
    assert VisitHead(parent, d, c, widths, g) == HeadRef(parent, d, c, widths, g);
    assert WidthOf(widths[d.name := FanWidth(d)], d.name) == FanWidth(d);
    HeadRefUnion(parent, d, c, widths, g);
  }

  /** The conditions of a visit carry over to the visit of its children. */
  lemma ChildrenUnambiguous(d: Node)
    requires RootSentinel !in LabelSet(d) && Distinct(d)
    ensures d.name != RootSentinel && RootSentinel !in LabelSetAll(d.children)
    ensures d.name !in LabelSetAll(d.children) && DistinctAll(d.children)
    ensures SizeAll(d.children) < Size(d)
  {
    DistinctNode(d);
  }

  /**
   * One visit below the root adds the reference nodes and edges of the
   * visited tree: its node and the edge from its parent, then those of its
   * children one colour further.
   */
  lemma {:induction false} VisitRef(parent: string, d: Node, c: Color, widths: map<string, int>, g: Graph)
    requires parent != RootSentinel && parent in g.nodes
    requires RootSentinel !in LabelSet(d) && Distinct(d)
    ensures Visit(parent, d, c, widths, g).graph
         == Graph(g.nodes + RefNodes(d, c), g.edges + RefEdges(parent, WidthOf(widths, parent), d, c))
    decreases Size(d), 0
  {
    ChildrenUnambiguous(d);
    VisitAllRef(d.name, d.children, NextColor(c), widths[d.name := FanWidth(d)], HeadRef(parent, d, c, widths, g));
    VisitRefStep(parent, d, c, widths, g);
  }

  /** The conditions of a visit carry over to the visit of the first sibling and to the other siblings. */
  lemma FirstUnambiguous(parent: string, ds: seq<Node>)
    requires ds != [] && RootSentinel !in LabelSetAll(ds)
    requires parent !in LabelSetAll(ds) && DistinctAll(ds)
    ensures RootSentinel !in LabelSet(ds[0]) && Distinct(ds[0]) && parent !in LabelSet(ds[0])
    ensures RootSentinel !in LabelSetAll(ds[1..]) && parent !in LabelSetAll(ds[1..]) && DistinctAll(ds[1..])
    ensures Size(ds[0]) <= SizeAll(ds) && SizeAll(ds[1..]) < SizeAll(ds)
  {
    DistinctFirst(ds);
  }

  /**
   * Visiting a list of siblings below a parent already in the graph adds the
   * reference nodes and edges of the siblings, provided every name is
   * distinct and none is the "root" sentinel.
   */
  lemma {:induction false} VisitAllRef(parent: string, ds: seq<Node>, c: Color, widths: map<string, int>, g: Graph)
    requires parent != RootSentinel && RootSentinel !in LabelSetAll(ds)
    requires parent !in LabelSetAll(ds) && DistinctAll(ds)
    requires parent in g.nodes
    ensures VisitAll(parent, ds, c, widths, g).graph
         == Graph(g.nodes + RefNodesAll(ds, c), g.edges + RefEdgesAll(parent, WidthOf(widths, parent), ds, c))
    decreases SizeAll(ds), 1
  {
    if ds == [] {
      Maps.UnionEmpty(g.nodes);
      Maps.UnionEmpty(g.edges);
    } else {
      var d := ds[0];
      var first := Visit(parent, d, c, widths, g);
      var pw := WidthOf(widths, parent);
      FirstUnambiguous(parent, ds);
      VisitRef(parent, d, c, widths, g);
      VisitWidthsFrame(parent, d, c, widths, g, parent);
      assert parent in first.graph.nodes;
      VisitAllRef(parent, ds[1..], c, first.widths, first.graph);
      Maps.UnionAssoc(g.nodes, RefNodes(d, c), RefNodesAll(ds[1..], c));
      Maps.UnionAssoc(g.edges, RefEdges(parent, pw, d, c), RefEdgesAll(parent, pw, ds[1..], c));
    }
  }

  /** With unambiguous labels, the generated graph is the reference graph. */
  lemma GenerateIsReference(t: Node)
    requires t.name != "" && Unambiguous(t)
    ensures Generate(t) == Some(RefGraph(t))
  {
    ChildrenUnambiguous(t);
    VisitAllRef(t.name, t.children, Colors[0], map[], RootGraph(t));
    Maps.UnionEmpty(RefEdgesAll(t.name, 1, t.children, Colors[0]));
  }

  // ---------------------------------------------------------------------------
  // Nodes of the reference graph
  // ---------------------------------------------------------------------------

  lemma {:induction false} RefNodesKeys(d: Node, c: Color)
    ensures RefNodes(d, c).Keys == LabelSet(d)
    decreases d, 1
  {
    RefNodesAllKeys(d.children, NextColor(c));
  }

  lemma {:induction false} RefNodesAllKeys(ds: seq<Node>, c: Color)
    ensures RefNodesAll(ds, c).Keys == LabelSetAll(ds)
    decreases ds, 0
  {
    if ds != [] {
      RefNodesKeys(ds[0], c);
      RefNodesAllKeys(ds[1..], c);
    }
  }

  /** Every node of the map carries attributes of a branch node. */
  predicate AllBranch(m: map<string, NodeAttrs>) {
    forall l :: l in m ==> m[l].Attrs? && m[l].kind == Branch
  }

  lemma {:induction false} RefNodesBranch(d: Node, c: Color)
    ensures AllBranch(RefNodes(d, c))
    decreases d, 1
  {
    RefNodesAllBranch(d.children, NextColor(c));
  }

  /** Below the root every reference node is a branch node. */
  lemma {:induction false} RefNodesAllBranch(ds: seq<Node>, c: Color)
    ensures AllBranch(RefNodesAll(ds, c))
    decreases ds, 0
  {
    if ds != [] {
      RefNodesBranch(ds[0], c);
      RefNodesAllBranch(ds[1..], c);
    }
  }

  /** In a forest with distinct names, a name of tree `i` is looked up in tree `i`. */
  lemma {:induction false} RefNodesAllLookup(ds: seq<Node>, c: Color, i: nat, l: string)
    requires DistinctAll(ds) && i < |ds| && l in LabelSet(ds[i])
    ensures l in RefNodesAll(ds, c) && l in RefNodes(ds[i], c)
    ensures RefNodesAll(ds, c)[l] == RefNodes(ds[i], c)[l]
    decreases ds
  {
    DistinctFirst(ds);
    RefNodesKeys(ds[i], c);
    RefNodesAllKeys(ds[1..], c);
    if i > 0 {
      assert ds[1..][i - 1] == ds[i];
      RefNodesAllLookup(ds[1..], c, i - 1, l);
    }
  }

  /** The node a path addresses is a branch with its own image and the colour that many generations down. */
  lemma {:induction false} RefNodeAtPath(d: Node, c: Color, p: seq<nat>)
    requires Distinct(d) && ValidPath(d, p)
    ensures At(d, p).name in RefNodes(d, c)
    ensures RefNodes(d, c)[At(d, p).name] == Attrs(Branch, ImageAttr(At(d, p).image), ColorAfter(c, |p|))
    decreases p
  {
    if p != [] {
      var i, r := p[0], p[1..];
      var ch := d.children[i];
      var sub := RefNodesAll(d.children, NextColor(c));
      assert p == [i] + r;
      ChildPath(d, i, r);
      DistinctNode(d);
      DistinctElement(d.children, i);
      RefNodeAtPath(ch, NextColor(c), r);
      RefNodesKeys(ch, NextColor(c));
      RefNodesAllLookup(d.children, NextColor(c), i, At(ch, r).name);
      assert At(d, p) == At(ch, r);
      assert sub[At(d, p).name] == Attrs(Branch, ImageAttr(At(d, p).image), ColorAfter(NextColor(c), |r|));
      assert RefNodes(d, c)[At(d, p).name] == sub[At(d, p).name];
      assert ColorAfter(c, |p|) == ColorAfter(NextColor(c), |r|);
    } else {
      DistinctNode(d);
      RefNodesAllKeys(d.children, NextColor(c));
    }
  }

  // ---------------------------------------------------------------------------
  // Edges of the reference graph
  // ---------------------------------------------------------------------------

  /** Every edge below a parent `pn` joins `pn` or a name of the tree to a name of the tree. */
  lemma {:induction false} RefEdgesShape(pn: string, pw: int, d: Node, c: Color)
    ensures forall e :: e in RefEdges(pn, pw, d, c) ==> e <= {pn} + LabelSet(d) && e * LabelSet(d) != {}
    decreases d, 1
  {
    RefEdgesAllShape(d.name, FanWidth(d), d.children, NextColor(c));
    assert d.name in EdgeKey(pn, d.name) * LabelSet(d);
  }

  lemma {:induction false} RefEdgesAllShape(pn: string, pw: int, ds: seq<Node>, c: Color)
    ensures forall e :: e in RefEdgesAll(pn, pw, ds, c) ==> e <= {pn} + LabelSetAll(ds) && e * LabelSetAll(ds) != {}
    decreases ds, 0
  {
    if ds != [] {
      RefEdgesShape(pn, pw, ds[0], c);
      RefEdgesAllShape(pn, pw, ds[1..], c);
    }
  }

  /** A tree of `n` distinct names contributes `n` edges: one per node. */
  lemma {:induction false} RefEdgesCount(pn: string, pw: int, d: Node, c: Color)
    requires Distinct(d) && pn !in LabelSet(d)
    ensures |RefEdges(pn, pw, d, c)| == Size(d)
    decreases d, 1
  {
    DistinctNode(d);
    var top := map[EdgeKey(pn, d.name) := EdgeAttrs(c, pw)];
    var sub := RefEdgesAll(d.name, FanWidth(d), d.children, NextColor(c));
    RefEdgesAllCount(d.name, FanWidth(d), d.children, NextColor(c));
    RefEdgesAllShape(d.name, FanWidth(d), d.children, NextColor(c));
    assert pn !in {d.name} + LabelSetAll(d.children);
    assert EdgeKey(pn, d.name) !in sub;
    assert (top + sub).Keys == top.Keys + sub.Keys;
    assert top.Keys !! sub.Keys;
  }

  /** In a forest with distinct names, the edges of the first tree and those of the others are different. */
  lemma FirstEdgesApart(pn: string, pw: int, ds: seq<Node>, c: Color)
    requires DistinctAll(ds) && pn !in LabelSetAll(ds) && ds != []
    ensures RefEdges(pn, pw, ds[0], c).Keys !! RefEdgesAll(pn, pw, ds[1..], c).Keys
  {
    DistinctFirst(ds);
    var m1, m2 := RefEdges(pn, pw, ds[0], c), RefEdgesAll(pn, pw, ds[1..], c);
    RefEdgesShape(pn, pw, ds[0], c);
    RefEdgesAllShape(pn, pw, ds[1..], c);
    forall e | e in m1.Keys
      ensures e !in m2.Keys
    {
      var x :| x in e * LabelSet(ds[0]);
      assert x !in {pn} + LabelSetAll(ds[1..]);
    }
  }

  lemma {:induction false} RefEdgesAllCount(pn: string, pw: int, ds: seq<Node>, c: Color)
    requires DistinctAll(ds) && pn !in LabelSetAll(ds)
    ensures |RefEdgesAll(pn, pw, ds, c)| == SizeAll(ds)
    decreases ds, 0
  {
    if ds != [] {
      DistinctFirst(ds);
      var m1, m2 := RefEdges(pn, pw, ds[0], c), RefEdgesAll(pn, pw, ds[1..], c);
      RefEdgesCount(pn, pw, ds[0], c);
      RefEdgesAllCount(pn, pw, ds[1..], c);
      FirstEdgesApart(pn, pw, ds, c);
      assert (m1 + m2).Keys == m1.Keys + m2.Keys;
    }
  }

  /** In a forest with distinct names, an edge of tree `i` is looked up in tree `i`. */
  lemma {:induction false} RefEdgesAllLookup(pn: string, pw: int, ds: seq<Node>, c: Color, i: nat, e: set<string>)
    requires DistinctAll(ds) && pn !in LabelSetAll(ds)
    requires i < |ds| && e in RefEdges(pn, pw, ds[i], c)
    ensures e in RefEdgesAll(pn, pw, ds, c)
    ensures RefEdgesAll(pn, pw, ds, c)[e] == RefEdges(pn, pw, ds[i], c)[e]
    decreases ds
  {
    DistinctFirst(ds);
    if i == 0 {
      FirstEdgesApart(pn, pw, ds, c);
    } else {
      assert ds[1..][i - 1] == ds[i];
      RefEdgesAllLookup(pn, pw, ds[1..], c, i - 1, e);
    }
  }

  /** Descending into child `i` first does not change the parent of a deeper node, nor its edge. */
  lemma ParentOfChild(d: Node, i: nat, r: seq<nat>)
    requires i < |d.children| && ValidPath(d.children[i], r) && r != []
    ensures ValidPath(d, [i] + r)
    ensures ParentOf(d, [i] + r) == ParentOf(d.children[i], r)
    ensures TreeEdge(d, [i] + r) == TreeEdge(d.children[i], r)
  {
    ChildPath(d, i, r);
    InitValid(d.children[i], r);
    ChildPath(d, i, Init(r));
  }

  /** The parent of a child of `d` is `d`. */
  lemma ParentOfTop(d: Node, i: nat)
    requires i < |d.children|
    ensures ValidPath(d, [i])
    ensures ParentOf(d, [i]) == d
    ensures TreeEdge(d, [i]) == EdgeKey(d.name, d.children[i].name)
  {
    ChildPath(d, i, []);
    assert [i] + [] == [i];
    assert Init([i]) == [];
  }

  /**
   * The edge from the node a non-empty path addresses to its parent has the
   * colour of the node's generation, and the parent's width: `pw` for a
   * child of `d`, `max(1, 5 - fan-out)` deeper down.
   */
  lemma {:induction false} RefEdgeAtPath(d: Node, pw: int, c: Color, p: seq<nat>)
    requires Distinct(d) && ValidPath(d, p) && p != []
    ensures TreeEdge(d, p) in RefEdgesAll(d.name, pw, d.children, c)
    ensures RefEdgesAll(d.name, pw, d.children, c)[TreeEdge(d, p)]
         == EdgeAttrs(ColorAfter(c, |p| - 1), if |p| == 1 then pw else FanWidth(ParentOf(d, p)))
    decreases p
  {
    DistinctNode(d);
    var i, r := p[0], p[1..];
    var ch := d.children[i];
    assert p == [i] + r;
    ChildPath(d, i, r);
    DistinctElement(d.children, i);
    var sub := RefEdgesAll(ch.name, FanWidth(ch), ch.children, NextColor(c));
    if r == [] {
      ParentOfTop(d, i);
      RefEdgesAllShape(ch.name, FanWidth(ch), ch.children, NextColor(c));
      assert d.name !in {ch.name} + LabelSetAll(ch.children);
      assert EdgeKey(d.name, ch.name) !in sub;
    } else {
      ParentOfChild(d, i, r);
      RefEdgeAtPath(ch, FanWidth(ch), NextColor(c), r);
      assert ColorAfter(c, |p| - 1) == ColorAfter(NextColor(c), |r| - 1);
      if |r| == 1 {
        ParentOfTop(ch, r[0]);
        assert r == [r[0]];
      }
    }
    RefEdgesAllLookup(d.name, pw, d.children, c, i, TreeEdge(d, p));
  }

  /** Some tree of the forest holds each edge of the forest. */
  lemma {:induction false} RefEdgesAllMember(pn: string, pw: int, ds: seq<Node>, c: Color, e: set<string>)
    requires e in RefEdgesAll(pn, pw, ds, c)
    ensures exists i :: 0 <= i < |ds| && e in RefEdges(pn, pw, ds[i], c)
    decreases ds
  {
    if e !in RefEdges(pn, pw, ds[0], c) {
      RefEdgesAllMember(pn, pw, ds[1..], c, e);
      var i :| 0 <= i < |ds[1..]| && e in RefEdges(pn, pw, ds[1..][i], c);
      assert ds[1..][i] == ds[i + 1];
    }
  }

  /** Every reference edge joins a node to its parent in the tree. */
  lemma {:induction false} RefEdgesAreTreeEdges(d: Node, pw: int, c: Color, e: set<string>)
    requires e in RefEdgesAll(d.name, pw, d.children, c)
    ensures exists p :: ValidPath(d, p) && p != [] && e == TreeEdge(d, p)
    decreases d
  {
    RefEdgesAllMember(d.name, pw, d.children, c, e);
    var i :| 0 <= i < |d.children| && e in RefEdges(d.name, pw, d.children[i], c);
    var ch := d.children[i];
    if e == EdgeKey(d.name, ch.name) {
      ParentOfTop(d, i);
    } else {
      assert e in RefEdgesAll(ch.name, FanWidth(ch), ch.children, NextColor(c));
      RefEdgesAreTreeEdges(ch, FanWidth(ch), NextColor(c), e);
      var r :| ValidPath(ch, r) && r != [] && e == TreeEdge(ch, r);
      ParentOfChild(d, i, r);
    }
  }

  // ---------------------------------------------------------------------------
  // The generated graph
  // ---------------------------------------------------------------------------

  /** The reference graph has one node per name of the tree, and the root is its only central node. */
  lemma RefGraphNodes(t: Node)
    requires Distinct(t)
    ensures RefGraph(t).nodes.Keys == LabelSet(t)
    ensures RefGraph(t).nodes[t.name] == Attrs(Central, ImageAttr(t.image), Colors[0])
    ensures forall l :: l in RefGraph(t).nodes && l != t.name ==> RefGraph(t).nodes[l].Attrs? && RefGraph(t).nodes[l].kind == Branch
  {
    DistinctNode(t);
    RefNodesAllKeys(t.children, Colors[0]);
    RefNodesAllBranch(t.children, Colors[0]);
  }

  /**
   * With unambiguous labels a tree of `n` nodes yields exactly `n` graph
   * nodes, keyed by the tree's names, and the root is the only central node.
   */
  lemma GenerateNodes(t: Node)
    requires t.name != "" && Unambiguous(t)
    ensures Generate(t).Some?
    ensures Generate(t).value.nodes.Keys == LabelSet(t) && |Generate(t).value.nodes| == Size(t)
    ensures forall l :: l in Generate(t).value.nodes ==>
      Generate(t).value.nodes[l].Attrs? && (Generate(t).value.nodes[l].kind == Central <==> l == t.name)
  {
    GenerateIsReference(t);
    RefGraphNodes(t);
    assert |RefGraph(t).nodes.Keys| == Size(t);
  }

  /**
   * With unambiguous labels the node a path addresses carries its own image
   * and the colour of its depth, so the root and its direct children share
   * the first palette colour; it is central exactly when it is the root.
   */
  lemma GenerateNodeAt(t: Node, p: seq<nat>)
    requires t.name != "" && Unambiguous(t) && ValidPath(t, p)
    ensures Generate(t).Some? && At(t, p).name in Generate(t).value.nodes
    ensures Generate(t).value.nodes[At(t, p).name]
         == Attrs(if p == [] then Central else Branch, ImageAttr(At(t, p).image), DepthColor(|p|))
  {
    GenerateIsReference(t);
    RefGraphNodes(t);
    if p != [] {
      var i, r := p[0], p[1..];
      assert p == [i] + r;
      ChildPath(t, i, r);
      DistinctNode(t);
      DistinctElement(t.children, i);
      RefNodeAtPath(t.children[i], Colors[0], r);
      RefNodesKeys(t.children[i], Colors[0]);
      RefNodesAllLookup(t.children, Colors[0], i, At(t, p).name);
      DepthColorAfter(1, |r|, |p|);
    }
  }

  /** Siblings share one colour. */
  lemma GenerateSiblingColors(t: Node, p: seq<nat>, i: nat, j: nat)
    requires t.name != "" && Unambiguous(t) && ValidPath(t, p + [i]) && ValidPath(t, p + [j])
    ensures Generate(t).Some?
    ensures At(t, p + [i]).name in Generate(t).value.nodes && At(t, p + [j]).name in Generate(t).value.nodes
    ensures Generate(t).value.nodes[At(t, p + [i]).name].Attrs? && Generate(t).value.nodes[At(t, p + [j]).name].Attrs?
    ensures Generate(t).value.nodes[At(t, p + [i]).name].color == Generate(t).value.nodes[At(t, p + [j]).name].color
  {
    GenerateNodeAt(t, p + [i]);
    GenerateNodeAt(t, p + [j]);
  }

  /**
   * With unambiguous labels the edge to the node a non-empty path addresses
   * exists, has that node's colour, and is 1 wide when it leaves the root
   * and `max(1, 5 - fan-out of the parent)` wide otherwise: between 1 and 4.
   */
  lemma GenerateEdgeAt(t: Node, p: seq<nat>)
    requires t.name != "" && Unambiguous(t) && ValidPath(t, p) && p != []
    ensures Generate(t).Some? && TreeEdge(t, p) in Generate(t).value.edges
    ensures Generate(t).value.edges[TreeEdge(t, p)]
         == EdgeAttrs(DepthColor(|p|), if |p| == 1 then 1 else FanWidth(ParentOf(t, p)))
    ensures At(t, p).name in Generate(t).value.nodes && Generate(t).value.nodes[At(t, p).name].Attrs?
    ensures Generate(t).value.edges[TreeEdge(t, p)].color == Generate(t).value.nodes[At(t, p).name].color
    ensures 1 <= Generate(t).value.edges[TreeEdge(t, p)].width <= 4
  {
    GenerateIsReference(t);
    RefEdgeAtPath(t, 1, Colors[0], p);
    DepthColorAfter(1, |p| - 1, |p|);
    GenerateNodeAt(t, p);
  }

  /**
   * With unambiguous labels a tree of `n` nodes yields exactly `n - 1`
   * edges, each joining a node to its tree parent.
   */
  lemma GenerateEdges(t: Node)
    requires t.name != "" && Unambiguous(t)
    ensures Generate(t).Some?
    ensures |Generate(t).value.edges| == Size(t) - 1
    ensures forall e :: e in Generate(t).value.edges ==> exists p :: ValidPath(t, p) && p != [] && e == TreeEdge(t, p)
  {
    GenerateIsReference(t);
    DistinctNode(t);
    RefEdgesAllCount(t.name, 1, t.children, Colors[0]);
    forall e | e in RefGraph(t).edges
      ensures exists p :: ValidPath(t, p) && p != [] && e == TreeEdge(t, p)
    {
      RefEdgesAreTreeEdges(t, 1, Colors[0], e);
    }
  }
}
