/**
 * The idea tree of a mind map: a node has a name, an image (an encoded
 * data URI, or "" for none) and an ordered list of child branches.
 * Nodes are addressed by paths of sibling indices from the root.
 */
module IdeaTree {

  datatype Node = Node(name: string, image: string, children: seq<Node>)

  /** A fresh node: no name, no image, no branches. */
  function Empty(): Node {
    Node("", "", [])
  }

  /** Number of nodes in a tree. */
  function Size(d: Node): nat
    decreases d, 1
  {
    1 + SizeAll(d.children)
  }

  /** Number of nodes in a list of sibling trees. */
  function SizeAll(ds: seq<Node>): nat
    decreases ds, 0
  {
    if ds == [] then 0 else Size(ds[0]) + SizeAll(ds[1..])
  }

  /** Every name that occurs in a tree. */
  function LabelSet(d: Node): set<string>
    decreases d, 1
  {
    {d.name} + LabelSetAll(d.children)
  }

  function LabelSetAll(ds: seq<Node>): set<string>
    decreases ds, 0
  {
    if ds == [] then {} else LabelSet(ds[0]) + LabelSetAll(ds[1..])
  }

  /** No two nodes of the tree carry the same name: as many names as nodes. */
  predicate Distinct(d: Node) {
    |LabelSet(d)| == Size(d)
  }

  predicate DistinctAll(ds: seq<Node>) {
    |LabelSetAll(ds)| == SizeAll(ds)
  }

  lemma {:induction false} LabelSetBound(d: Node)
    ensures |LabelSet(d)| <= Size(d)
    decreases d, 1
  {
    LabelSetAllBound(d.children);
  }

  lemma {:induction false} LabelSetAllBound(ds: seq<Node>)
    ensures |LabelSetAll(ds)| <= SizeAll(ds)
    decreases ds, 0
  {
    if ds != [] {
      LabelSetBound(ds[0]);
      LabelSetAllBound(ds[1..]);
    }
  }

  /** In a tree with distinct names the root's name is not reused below it. */
  lemma {:induction false} DistinctNode(d: Node)
    requires Distinct(d)
    ensures d.name !in LabelSetAll(d.children)
    ensures DistinctAll(d.children)
  {
    LabelSetAllBound(d.children);
  }

  /** Distinct names in a forest split into its first tree and the rest. */
  lemma {:induction false} DistinctFirst(ds: seq<Node>)
    requires DistinctAll(ds) && ds != []
    ensures Distinct(ds[0]) && DistinctAll(ds[1..])
    ensures LabelSet(ds[0]) !! LabelSetAll(ds[1..])
  {
    var a, b := LabelSet(ds[0]), LabelSetAll(ds[1..]);
    LabelSetBound(ds[0]);
    LabelSetAllBound(ds[1..]);
    assert LabelSetAll(ds) == a + b;
    assert SizeAll(ds) == Size(ds[0]) + SizeAll(ds[1..]);
    assert |a + b| + |a * b| == |a| + |b|;
    assert |a * b| == 0;
    assert a * b == {};
  }

  /** Every tree of a forest with distinct names has distinct names itself. */
  lemma {:induction false} DistinctElement(ds: seq<Node>, i: nat)
    requires DistinctAll(ds) && i < |ds|
    ensures Distinct(ds[i])
    ensures LabelSet(ds[i]) <= LabelSetAll(ds)
  {
    DistinctFirst(ds);
    if i > 0 {
      DistinctElement(ds[1..], i - 1);
      assert ds[1..][i - 1] == ds[i];
    }
  }

  /** `p` addresses a node of `d`: each index picks an existing child. */
  predicate ValidPath(d: Node, p: seq<nat>)
    decreases p
  {
    p == [] || (p[0] < |d.children| && ValidPath(d.children[p[0]], p[1..]))
  }

  /** The node of `d` that `p` addresses. */
  function At(d: Node, p: seq<nat>): Node
    requires ValidPath(d, p)
    decreases p
  {
    if p == [] then d else At(d.children[p[0]], p[1..])
  }

  /** The path of the parent of the node `p` addresses. */
  function Init(p: seq<nat>): seq<nat>
    requires p != []
  {
    p[..|p| - 1]
  }

  /** Following `p` and then `r` is following `p + r`. */
  lemma {:induction false} PathConcat(d: Node, p: seq<nat>, r: seq<nat>)
    requires ValidPath(d, p)
    ensures ValidPath(d, p + r) <==> ValidPath(At(d, p), r)
    ensures ValidPath(d, p + r) ==> At(d, p + r) == At(At(d, p), r)
    decreases p
  {
    if p == [] {
      assert p + r == r;
    } else {
      assert (p + r)[0] == p[0];
      assert (p + r)[1..] == p[1..] + r;
      PathConcat(d.children[p[0]], p[1..], r);
    }
  }

  /** The parent of a valid non-root path is valid, and the path picks one of its children. */
  lemma InitValid(d: Node, p: seq<nat>)
    requires ValidPath(d, p) && p != []
    ensures ValidPath(d, Init(p))
    ensures p[|p| - 1] < |At(d, Init(p)).children|
    ensures At(d, p) == At(d, Init(p)).children[p[|p| - 1]]
  {
    var k := p[|p| - 1];
    assert p == Init(p) + [k];
    InitPrefixValid(d, Init(p), [k]);
    PathConcat(d, Init(p), [k]);
    assert [k][1..] == [];
  }

  /** A prefix of a valid path is valid. */
  lemma {:induction false} InitPrefixValid(d: Node, p: seq<nat>, r: seq<nat>)
    requires ValidPath(d, p + r)
    ensures ValidPath(d, p)
    decreases p
  {
    if p != [] {
      assert (p + r)[0] == p[0];
      assert (p + r)[1..] == p[1..] + r;
      InitPrefixValid(d.children[p[0]], p[1..], r);
    }
  }

  /** Descending into child `i` first. */
  lemma ChildPath(d: Node, i: nat, r: seq<nat>)
    requires i < |d.children|
    ensures ValidPath(d, [i] + r) <==> ValidPath(d.children[i], r)
    ensures ValidPath(d, [i] + r) ==> At(d, [i] + r) == At(d.children[i], r)
    ensures r != [] ==> Init([i] + r) == [i] + Init(r)
  {
    assert ([i] + r)[1..] == r;
    if r != [] {
      assert ([i] + r)[..|[i] + r| - 1] == [i] + r[..|r| - 1];
    }
  }

  /** Replaces the node `p` addresses by `f` of it. */
  function UpdateAt(d: Node, p: seq<nat>, f: Node -> Node): (r: Node)
    requires ValidPath(d, p)
    ensures |r.children| == |d.children| || p == []
    decreases p
  {
    if p == [] then f(d)
    else d.(children := d.children[p[0] := UpdateAt(d.children[p[0]], p[1..], f)])
  }

  /** After `UpdateAt`, the addressed node is `f` of what was there. */
  lemma {:induction false} UpdateAtTarget(d: Node, p: seq<nat>, f: Node -> Node)
    requires ValidPath(d, p)
    ensures ValidPath(UpdateAt(d, p, f), p)
    ensures At(UpdateAt(d, p, f), p) == f(At(d, p))
    decreases p
  {
    if p != [] {
      UpdateAtTarget(d.children[p[0]], p[1..], f);
    }
  }

  /**
   * `UpdateAt` leaves every path that does not reach into the updated subtree
   * valid, and every node off the path to the target unchanged; an ancestor of
   * the target keeps its name, image and number of children.
   */
  lemma {:induction false} UpdateAtElsewhere(d: Node, p: seq<nat>, f: Node -> Node, q: seq<nat>)
    requires ValidPath(d, p)
    requires !(p <= q)
    ensures ValidPath(UpdateAt(d, p, f), q) <==> ValidPath(d, q)
    ensures ValidPath(d, q) ==>
      var u := At(UpdateAt(d, p, f), q);
      var o := At(d, q);
      u.name == o.name && u.image == o.image && |u.children| == |o.children|
      && (!(q <= p) ==> u == o)
    decreases p
  {
    var e := UpdateAt(d, p, f);
    if q != [] {
      assert p != [];
      if q[0] != p[0] {
        if q[0] < |d.children| {
          assert e.children[q[0]] == d.children[q[0]];
        }
      } else {
        assert !(p[1..] <= q[1..]);
        UpdateAtElsewhere(d.children[p[0]], p[1..], f, q[1..]);
        assert q <= p ==> q[1..] <= p[1..];
      }
    }
  }

  /** Inside the updated subtree, paths follow `f` of the old target. */
  lemma {:induction false} UpdateAtBelow(d: Node, p: seq<nat>, f: Node -> Node, r: seq<nat>)
    requires ValidPath(d, p)
    ensures ValidPath(UpdateAt(d, p, f), p + r) <==> ValidPath(f(At(d, p)), r)
    ensures ValidPath(f(At(d, p)), r) ==> At(UpdateAt(d, p, f), p + r) == At(f(At(d, p)), r)
  {
    UpdateAtTarget(d, p, f);
    PathConcat(UpdateAt(d, p, f), p, r);
  }

  /** Replacing a node by itself leaves the tree as it was. */
  lemma {:induction false} UpdateAtSame(d: Node, p: seq<nat>, f: Node -> Node)
    requires ValidPath(d, p)
    requires f(At(d, p)) == At(d, p)
    ensures UpdateAt(d, p, f) == d
    decreases p
  {
    if p != [] {
      UpdateAtSame(d.children[p[0]], p[1..], f);
      assert d.children[p[0] := d.children[p[0]]] == d.children;
    }
  }

  /** The change in size caused by replacing one node. */
  lemma {:induction false} UpdateAtSize(d: Node, p: seq<nat>, f: Node -> Node)
    requires ValidPath(d, p)
    ensures Size(UpdateAt(d, p, f)) + Size(At(d, p)) == Size(d) + Size(f(At(d, p)))
    decreases p
  {
    if p != [] {
      var i := p[0];
      UpdateAtSize(d.children[i], p[1..], f);
      ReplaceSize(d.children, i, UpdateAt(d.children[i], p[1..], f));
    }
  }

  lemma {:induction false} ReplaceSize(ds: seq<Node>, i: nat, x: Node)
    requires i < |ds|
    ensures SizeAll(ds[i := x]) + Size(ds[i]) == SizeAll(ds) + Size(x)
    decreases ds
  {
    if i > 0 {
      ReplaceSize(ds[1..], i - 1, x);
      assert ds[i := x][1..] == ds[1..][i - 1 := x];
    }
  }

  /** Appending one branch to a forest adds that branch's nodes. */
  lemma {:induction false} AppendSize(ds: seq<Node>, x: Node)
    ensures SizeAll(ds + [x]) == SizeAll(ds) + Size(x)
    decreases ds
  {
    if ds == [] {
      assert [x][1..] == [];
    } else {
      assert (ds + [x])[1..] == ds[1..] + [x];
      AppendSize(ds[1..], x);
    }
  }

  /** A node whose child list is `n`'s followed by more children has `n`'s paths below it. */
  lemma {:induction false} ExtendedChildren(n: Node, m: Node, r: seq<nat>)
    requires |n.children| <= |m.children|
    requires m.children[..|n.children|] == n.children
    requires r != [] && ValidPath(n, r)
    ensures ValidPath(m, r) && At(m, r) == At(n, r)
  {
    assert m.children[r[0]] == n.children[r[0]];
  }

  // ---------------------------------------------------------------------------
  // Edits (MindMapp.py agregar_rama, the form rules of renderizar_ramas, reset)
  // ---------------------------------------------------------------------------

  /** The node-level edit of `agregar_rama`. */
  function WithNewBranch(n: Node): Node {
    n.(children := n.children + [Empty()])
  }

  /** The node-level edit that sets a name. */
  function Renaming(name: string): Node -> Node {
    (n: Node) => n.(name := name)
  }

  /** The node-level edit that sets an image. */
  function Imaging(image: string): Node -> Node {
    (n: Node) => n.(image := image)
  }

  /** `agregar_rama`: appends a fresh empty branch to the node `p` addresses. */
  function AddBranch(t: Node, p: seq<nat>): (r: Node)
    requires ValidPath(t, p)
  {
    UpdateAt(t, p, WithNewBranch)
  }

  /** Overwrites the name of the node `p` addresses (the text-input rule). */
  function SetName(t: Node, p: seq<nat>, name: string): (r: Node)
    requires ValidPath(t, p)
  {
    UpdateAt(t, p, Renaming(name))
  }

  /** Overwrites the image of the node `p` addresses. */
  function SetImage(t: Node, p: seq<nat>, image: string): (r: Node)
    requires ValidPath(t, p)
  {
    UpdateAt(t, p, Imaging(image))
  }

  /** The session's starting tree and the tree the reset button installs. */
  function Reset(): (r: Node)
    ensures Size(r) == 1 && LabelSet(r) == {""} && r.image == ""
  {
    Empty()
  }

  /**
   * `agregar_rama` appends exactly one empty node at the end of the target's
   * branches; the target's name, image and existing branches and every other
   * node keep their contents, and the only new path is the new branch's.
   */
  lemma AddBranchSpec(t: Node, p: seq<nat>)
    requires ValidPath(t, p)
    ensures var r := AddBranch(t, p);
      && ValidPath(r, p)
      && At(r, p).name == At(t, p).name
      && At(r, p).image == At(t, p).image
      && At(r, p).children == At(t, p).children + [Empty()]
      && Size(r) == Size(t) + 1
    ensures var r := AddBranch(t, p);
      forall q :: ValidPath(t, q) ==>
        && ValidPath(r, q)
        && At(r, q).name == At(t, q).name
        && At(r, q).image == At(t, q).image
        && (q != p ==> |At(r, q).children| == |At(t, q).children|)
    ensures var r := AddBranch(t, p);
      forall q :: ValidPath(r, q) ==> ValidPath(t, q) || q == p + [|At(t, p).children|]
  {
    var f: Node -> Node := WithNewBranch;
    var r := AddBranch(t, p);
    var n := At(t, p);
    UpdateAtTarget(t, p, f);
    UpdateAtSize(t, p, f);
    AppendSize(n.children, Empty());
    assert f(n).children[..|n.children|] == n.children;
    forall q | ValidPath(t, q)
      ensures ValidPath(r, q)
      ensures At(r, q).name == At(t, q).name && At(r, q).image == At(t, q).image
      ensures q != p ==> |At(r, q).children| == |At(t, q).children|
    {
      if p <= q {
        var s := q[|p|..];
        assert q == p + s;
        PathConcat(t, p, s);
        UpdateAtBelow(t, p, f, s);
        if s != [] {
          ExtendedChildren(n, f(n), s);
        }
      } else {
        UpdateAtElsewhere(t, p, f, q);
      }
    }
    forall q | ValidPath(r, q)
      ensures ValidPath(t, q) || q == p + [|n.children|]
    {
      if p <= q {
        var s := q[|p|..];
        assert q == p + s;
        UpdateAtBelow(t, p, f, s);
        PathConcat(t, p, s);
        if s != [] && s[0] < |n.children| {
          assert f(n).children[s[0]] == n.children[s[0]];
          assert ValidPath(n, s);
        } else if s != [] {
          assert s[0] == |n.children|;
          assert f(n).children[s[0]] == Empty();
          assert s[1..] == [];
          assert s == [|n.children|];
        }
      } else {
        UpdateAtElsewhere(t, p, f, q);
      }
    }
  }

  /**
   * A field edit made by `f` that keeps the branch list: the tree keeps its
   * shape, and every node other than the target keeps its name and image.
   */
  lemma FieldEditFrame(t: Node, p: seq<nat>, f: Node -> Node)
    requires ValidPath(t, p)
    requires f(At(t, p)).children == At(t, p).children
    ensures var r := UpdateAt(t, p, f);
      && Size(r) == Size(t)
      && ValidPath(r, p) && At(r, p) == f(At(t, p))
      && (forall q :: ValidPath(r, q) <==> ValidPath(t, q))
      && (forall q :: ValidPath(t, q) ==>
            |At(r, q).children| == |At(t, q).children|
            && (q != p ==> At(r, q).name == At(t, q).name && At(r, q).image == At(t, q).image))
  {
    var r := UpdateAt(t, p, f);
    var n := At(t, p);
    UpdateAtTarget(t, p, f);
    UpdateAtSize(t, p, f);
    assert Size(f(n)) == Size(n);
    forall q
      ensures ValidPath(r, q) <==> ValidPath(t, q)
      ensures ValidPath(t, q) ==>
            |At(r, q).children| == |At(t, q).children|
            && (q != p ==> At(r, q).name == At(t, q).name && At(r, q).image == At(t, q).image)
    {
      if p <= q {
        var s := q[|p|..];
        assert q == p + s;
        PathConcat(t, p, s);
        UpdateAtBelow(t, p, f, s);
        if s != [] {
          assert ValidPath(f(n), s) <==> ValidPath(n, s);
          if ValidPath(n, s) {
            ExtendedChildren(n, f(n), s);
          }
        }
      } else {
        UpdateAtElsewhere(t, p, f, q);
      }
    }
  }

  /** Renaming changes the target's name and nothing else in the tree. */
  lemma SetNameSpec(t: Node, p: seq<nat>, name: string)
    requires ValidPath(t, p)
    ensures var r := SetName(t, p, name);
      && ValidPath(r, p) && At(r, p) == At(t, p).(name := name)
      && Size(r) == Size(t)
      && (forall q :: ValidPath(r, q) <==> ValidPath(t, q))
      && (forall q :: ValidPath(t, q) && q != p ==>
            At(r, q).name == At(t, q).name && At(r, q).image == At(t, q).image)
  {
    FieldEditFrame(t, p, Renaming(name));
  }

  /** Setting an image changes the target's image and nothing else in the tree. */
  lemma SetImageSpec(t: Node, p: seq<nat>, image: string)
    requires ValidPath(t, p)
    ensures var r := SetImage(t, p, image);
      && ValidPath(r, p) && At(r, p) == At(t, p).(image := image)
      && Size(r) == Size(t)
      && (forall q :: ValidPath(r, q) <==> ValidPath(t, q))
      && (forall q :: ValidPath(t, q) && q != p ==>
            At(r, q).name == At(t, q).name && At(r, q).image == At(t, q).image)
  {
    FieldEditFrame(t, p, Imaging(image));
  }
}
