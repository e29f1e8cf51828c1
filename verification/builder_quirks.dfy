/**
 * Five trees on which the builder's label-keyed behaviour shows:
 * - a branch called "root" turns its children into unconnected central nodes;
 * - siblings with one name merge into a single node and a single edge;
 * - a branch named like the root gives the root a recorded width;
 * - a label reused deeper down recolours its node but not the edge written first;
 * - a grandchild named like its grandparent rewrites the edge to its parent.
 */
module BuilderQuirks {
  import opened Options
  import opened Palette
  import opened IdeaTree
  import opened MindGraph
  import opened GraphBuilder

  /**
   * Below a branch named "root", a child is typed central and gets no edge
   * from its parent, although it sits two levels down and is coloured as such.
   */
  lemma RootLabelQuirk()
    ensures var t := Node("a", "", [Node("root", "", [Node("b", "", [])])]);
      && Generate(t).Some?
      && "b" in Generate(t).value.nodes
      && Generate(t).value.nodes["b"] == Attrs(Central, None, Green)
      && EdgeKey("root", "b") !in Generate(t).value.edges
  {
    var b := Node("b", "", []);
    var r := Node("root", "", [b]);
    var t := Node("a", "", [r]);
    var g0 := RootGraph(t);
    var w1 := Visit("a", r, Blue, map[], g0);
    assert VisitAll("a", [r], Blue, map[], g0) == VisitAll("a", [], Blue, w1.widths, w1.graph);
    var h := VisitHead("a", r, Blue, map[], g0);
    HeadEffect("a", r, Blue, map[], g0);
    var wb := Visit("root", b, Green, map["root" := 4], h);
    assert w1 == VisitAll("root", [b], Green, map["root" := 4], h);
    assert VisitAll("root", [b], Green, map["root" := 4], h) == VisitAll("root", [], Green, wb.widths, wb.graph);
    var hb := VisitHead("root", b, Green, map["root" := 4], h);
    assert wb == VisitAll("b", [], Purple, map["root" := 4]["b" := 5], hb);
  }

  /** Two siblings with one name yield one node and one edge: three tree nodes, two graph nodes. */
  lemma SameNameMerges()
    ensures var t := Node("a", "", [Node("x", "", []), Node("x", "", [])]);
      && Generate(t).Some?
      && Generate(t).value.nodes.Keys == {"a", "x"}
      && Generate(t).value.edges.Keys == {EdgeKey("a", "x")}
      && Size(t) == 3
  {
    var x := Node("x", "", []);
    var t := Node("a", "", [x, x]);
    var g0 := RootGraph(t);
    var w1 := Visit("a", x, Blue, map[], g0);
    HeadEffect("a", x, Blue, map[], g0);
    assert w1 == VisitAll("x", [], Green, map["x" := 5], VisitHead("a", x, Blue, map[], g0));
    var w2 := Visit("a", x, Blue, w1.widths, w1.graph);
    HeadEffect("a", x, Blue, w1.widths, w1.graph);
    assert w2 == VisitAll("x", [], Green, w1.widths["x" := 5], VisitHead("a", x, Blue, w1.widths, w1.graph));
    assert VisitAll("a", [x, x], Blue, map[], g0) == VisitAll("a", [x], Blue, w1.widths, w1.graph);
    assert VisitAll("a", [x], Blue, w1.widths, w1.graph) == VisitAll("a", [], Blue, w2.widths, w2.graph);
    assert Size(x) == 1;
    assert [x, x][1..] == [x];
  }

  /**
   * A leaf named like the root records width 5 under the root's label, so the
   * edge from the root to a later sibling is 5 wide instead of 1, and the root's
   * node is overwritten as a branch.
   */
  lemma RootEdgeWidened()
    ensures var t := Node("a", "", [Node("a", "", []), Node("b", "", [])]);
      && Generate(t).Some?
      && EdgeKey("a", "b") in Generate(t).value.edges
      && Generate(t).value.edges[EdgeKey("a", "b")] == EdgeAttrs(Blue, 5)
      && Generate(t).value.nodes["a"] == Attrs(Branch, None, Blue)
  {
  }

  /**
   * A label reused one level deeper under another parent: the node takes the
   * deeper colour, while the edge from the first parent keeps the first one.
   */
  lemma RelabelRecolours()
    ensures var t := Node("a", "", [Node("y", "", []), Node("b", "", [Node("y", "", [])])]);
      && Generate(t).Some?
      && Generate(t).value.nodes["y"] == Attrs(Branch, None, Green)
      && EdgeKey("a", "y") in Generate(t).value.edges
      && Generate(t).value.edges[EdgeKey("a", "y")] == EdgeAttrs(Blue, 1)
      && Generate(t).value.edges[EdgeKey("b", "y")] == EdgeAttrs(Green, 4)
  {
  }

  /**
   * A grandchild named like the root: its edge from `b` is the undirected
   * edge a–b again, so that edge takes the grandchild's colour and `b`'s
   * width, while node `b`, whose label is unique, keeps its own colour.
   */
  lemma ReverseRewrite()
    ensures var t := Node("a", "", [Node("b", "", [Node("a", "", [])])]);
      && Generate(t).Some?
      && Generate(t).value.nodes["b"] == Attrs(Branch, None, Blue)
      && Generate(t).value.nodes["a"] == Attrs(Branch, None, Green)
      && EdgeKey("a", "b") in Generate(t).value.edges
      && Generate(t).value.edges[EdgeKey("a", "b")] == EdgeAttrs(Green, 4)
      && Generate(t).value.edges.Keys == {EdgeKey("a", "b")}
  {
    var leaf := Node("a", "", []);
    var b := Node("b", "", [leaf]);
    var t := Node("a", "", [b]);
    var g0 := RootGraph(t);
    var wb := Visit("a", b, Blue, map[], g0);
    var hb := VisitHead("a", b, Blue, map[], g0);
    HeadEffect("a", b, Blue, map[], g0);
    assert FanWidth(b) == 4;
    var wl := Visit("b", leaf, Green, map["b" := 4], hb);
    HeadEffect("b", leaf, Green, map["b" := 4], hb);
    assert wb == VisitAll("b", [leaf], Green, map["b" := 4], hb);
    assert VisitAll("b", [leaf], Green, map["b" := 4], hb) == VisitAll("b", [], Green, wl.widths, wl.graph);
    assert wl == VisitAll("a", [], Purple, map["b" := 4]["a" := 5], VisitHead("b", leaf, Green, map["b" := 4], hb));
    assert VisitAll("a", [b], Blue, map[], g0) == VisitAll("a", [], Blue, wb.widths, wb.graph);
    assert WidthOf(map["b" := 4], "b") == 4;
    assert EdgeKey("b", "a") == EdgeKey("a", "b");
  }
}
