/**
 * The edits the sidebar forms perform on the session's tree in one run of
 * the page: the root's form and one form per branch.  Widgets, buttons and
 * reruns are outside the model; a form is given as the values it returned.
 */
module TreeEditor {
  import opened Options
  import opened IdeaTree
  import opened ImageEncoder

  /** A form's values in one run: the name box, an uploaded file's bytes, the add-branch button. */
  datatype Form = Form(name: string, upload: Option<seq<byte>>, addBranch: bool)

  /**
   * The tree the session holds after the run, and whether an exception of the
   * image library (decoding or PNG saving) aborted the run; the edits made
   * before it stay in the session.
   */
  datatype Step = Done(tree: Node) | Raised(tree: Node)

  /**
   * The image rule: an upload replaces the node's image by its encoding;
   * without one, an empty image is set to "" again and any other is kept.
   */
  function ApplyUpload<Pic>(t: Node, p: seq<nat>, upload: Option<seq<byte>>, codec: Codec<Pic>): (r: Step)
    requires ValidPath(t, p)
    ensures upload.None? ==> r == Done(t)
    ensures r.Raised? <==> upload.Some? && !GetImageBase64(Raw(upload.value), codec).Encoded?
    ensures r.Raised? ==> r.tree == t
    ensures r.Done? && upload.Some? ==>
      && ValidPath(r.tree, p)
      && PngPrefix <= At(r.tree, p).image
      && At(r.tree, p) == At(t, p).(image := GetImageBase64(Raw(upload.value), codec).uri)
    ensures forall q :: ValidPath(r.tree, q) <==> ValidPath(t, q)
    ensures forall q :: ValidPath(t, q) && q != p ==>
      At(r.tree, q).name == At(t, q).name && At(r.tree, q).image == At(t, q).image
  {
    match upload
    case None =>
      Done(if At(t, p).image == "" then (UpdateAtSame(t, p, Imaging("")); SetImage(t, p, "")) else t)
    case Some(bytes) =>
      match GetImageBase64(Raw(bytes), codec)
      case Encoded(uri) =>
        SetImageSpec(t, p, uri);
        Done(SetImage(t, p, uri))
      case _ => Raised(t)
  }

  /**
   * A branch's form (`renderizar_ramas`): the name is written first, then the
   * upload is encoded, then the add-branch button appends an empty branch.
   */
  function EditBranch<Pic>(t: Node, p: seq<nat>, form: Form, codec: Codec<Pic>): (r: Step)
    requires ValidPath(t, p) && p != []
  {
    SetNameSpec(t, p, form.name);
    var named := SetName(t, p, form.name);
    match ApplyUpload(named, p, form.upload, codec)
    case Raised(s) => Raised(s)
    case Done(s) => Done(if form.addBranch then AddBranch(s, p) else s)
  }

  /**
   * The root's form (`main`): the upload is encoded first, then the name is
   * written, then the add-branch button appends an empty branch.
   */
  function EditRoot<Pic>(t: Node, form: Form, codec: Codec<Pic>): (r: Step)
  {
    match ApplyUpload(t, [], form.upload, codec)
    case Raised(s) => Raised(s)
    case Done(s) =>
      var named := SetName(s, [], form.name);
      Done(if form.addBranch then AddBranch(named, []) else named)
  }

  /**
   * After a branch's form: the branch carries the typed name; its image is a
   * fresh PNG URI when a file was uploaded and is kept otherwise; one empty
   * branch was appended when the button was pressed; every other node keeps
   * its name and image.  An upload the image library fails on aborts the run
   * with the new name already written.
   */
  lemma EditBranchSpec<Pic>(t: Node, p: seq<nat>, form: Form, codec: Codec<Pic>)
    requires ValidPath(t, p) && p != []
    ensures var r := EditBranch(t, p, form, codec);
      && (r.Raised? <==> form.upload.Some? && !GetImageBase64(Raw(form.upload.value), codec).Encoded?)
      && (r.Raised? ==> r.tree == SetName(t, p, form.name))
    ensures var r := EditBranch(t, p, form, codec);
      r.Done? ==>
        && ValidPath(r.tree, p)
        && At(r.tree, p).name == form.name
        && (form.upload.None? ==> At(r.tree, p).image == At(t, p).image)
        && (form.upload.Some? ==> At(r.tree, p).image == GetImageBase64(Raw(form.upload.value), codec).uri)
        && (form.upload.Some? ==> PngPrefix <= At(r.tree, p).image)
        && At(r.tree, p).children == At(t, p).children + (if form.addBranch then [Empty()] else [])
        && Size(r.tree) == Size(t) + (if form.addBranch then 1 else 0)
    ensures var r := EditBranch(t, p, form, codec);
      forall q :: ValidPath(t, q) && q != p ==>
        ValidPath(r.tree, q) && At(r.tree, q).name == At(t, q).name && At(r.tree, q).image == At(t, q).image
  {
    var named := SetName(t, p, form.name);
    SetNameSpec(t, p, form.name);
    var u := ApplyUpload(named, p, form.upload, codec);
    if u.Done? {
      if form.upload.Some? {
        var uri := GetImageBase64(Raw(form.upload.value), codec).uri;
        assert u.tree == SetImage(named, p, uri);
        SetImageSpec(named, p, uri);
      }
      assert Size(u.tree) == Size(t);
      if form.addBranch {
        AddBranchSpec(u.tree, p);
      }
    }
  }

  /**
   * After the root's form: as for a branch, except that an upload the image
   * library fails on aborts the run before the name is written, so the tree is
   * unchanged.
   */
  lemma EditRootSpec<Pic>(t: Node, form: Form, codec: Codec<Pic>)
    ensures var r := EditRoot(t, form, codec);
      && (r.Raised? <==> form.upload.Some? && !GetImageBase64(Raw(form.upload.value), codec).Encoded?)
      && (r.Raised? ==> r.tree == t)
    ensures var r := EditRoot(t, form, codec);
      r.Done? ==>
        && r.tree.name == form.name
        && (form.upload.None? ==> r.tree.image == t.image)
        && (form.upload.Some? ==> r.tree.image == GetImageBase64(Raw(form.upload.value), codec).uri)
        && (form.upload.Some? ==> PngPrefix <= r.tree.image)
        && r.tree.children[..|t.children|] == t.children
        && |r.tree.children| == |t.children| + (if form.addBranch then 1 else 0)
        && (form.addBranch ==> r.tree.children[|t.children|] == Empty())
  {
    var u := ApplyUpload(t, [], form.upload, codec);
    if u.Done? {
      assert u.tree.children == t.children;
      SetNameSpec(u.tree, [], form.name);
      if form.addBranch {
        AddBranchSpec(SetName(u.tree, [], form.name), []);
      }
    }
  }
}
