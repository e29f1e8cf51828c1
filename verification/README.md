# MindMapp core in Dafny

MindMapp is a small Streamlit page for building mind maps. The user edits a
tree of ideas. Each idea has a name, an optional image and a list of
branches. The page turns the tree into a networkx graph and renders it with
pyvis. This project models the logic inside that page:

- **The idea tree and its edits** (`idea_tree.dfy`, `tree_editor.dfy`). The
  tree is an immutable `Node(name, image, children)`. A node is addressed by
  its path of 0-based sibling positions. `agregar_rama` appends an empty
  branch. The branch forms set a name, or set an image from an upload. The
  reset button installs a fresh empty root. One run of a form is a pure
  function from the tree and the values the widgets returned.
- **The form identity** (`form_keys.dfy`). Each branch form has a route
  string such as `"Idea Principal -> Rama 2 -> Rama 1"`. The widget keys are
  built from that route.
- **The image normaliser** (`image_encoder.dfy`). `get_image_base64` is a
  case split over a string, a PIL image, raw bytes or anything else. The image
  library is a parameter (`Codec`): decoding, resizing and PNG/base64
  encoding are its functions, and decoding and PNG saving may fail.
- **The graph builder** (`mind_graph.dfy`, `palette.dfy`,
  `graph_builder.dfy`):
  - `crear_grafico_mind_map` up to the rendering step, and
    `agregar_nodos_recursivamente`.
  - The graph is keyed by label, is undirected, and overwrites attributes.
  - The walk is a pre-order recursion. It passes along the graph and the
    edge-width dictionary, and keeps the source's literal `"root"` test.
  - Colours are an enumeration of the six palette entries plus the `'gray'`
    fallback. `Hex` gives each one's attribute string.
- **Builder properties** (`builder_properties.dfy`, `builder_quirks.dfy`):
  - Assume the names are pairwise distinct and none is `"root"`. Then the
    built graph equals a reference graph defined directly from the tree.
  - From that come node and edge counts, and per-path facts about each
    node's colour and type and each edge's colour and width.
  - Five concrete trees show what happens when those assumptions fail.
- **Styling** (`styling.dfy`). This is the pass that turns graph nodes and
  edges into renderer options: shape, size, colour, image and width.

Helper modules: `options.dfy` (`Option`) and `maps.dfy` (map-union
facts).

### Behaviour of the code worth knowing

- **Depth-1 colour.** The root's direct children are built with the root's
  own colour, `palette[0]` (line 131). Rotation starts at depth 2. So a node
  at depth `d >= 1` is written with colour `palette[(d - 1) mod 6]`. That is
  its final colour when no later node carries the same label
  (`RelabelRecolours` shows a depth-1 node ending in `palette[1]`).
- **Width of edges from the root.** The width dictionary gets no entry for
  the root itself. When no branch carries the root's label, every edge
  leaving the root therefore has width 1, the default of `.get(parent, 1)`,
  whatever the root's fan-out. A branch named like the root records its own
  width under that label, and later root edges take it (`RootEdgeWidened`).
- **Graph identity.** Graph nodes are keyed by label, not by tree position.
  Equal labels merge into one node, and a later write overwrites its
  attributes. An edge whose end point has no node yet creates that node
  without attributes.
- **The `"root"` label.** A branch named `"root"` makes its children central
  nodes and drops the edges to them.
- **Undecodable uploads.** `Image.open` raises on bytes it cannot decode, and
  nothing catches the error, so the page run stops there. The model has a
  `LibraryError` outcome for a failed decode or PNG save, and a form run that
  stops with `Raised`.
- **Edge colour.** An edge is written with the colour the parent hands down
  to the child. A later node with the child's label recolours the node. The
  edge is rewritten only by a later edge between the same two labels, in
  either direction: a later node with the child's label under a parent with
  the parent's label, or a later node with the parent's label under a parent
  with the child's label. So when labels repeat, a node's final colour and
  the colour of the edge into it can differ (`RelabelRecolours`,
  `ReverseRewrite`). When all labels are distinct, every edge has its
  child's colour (`GenerateEdgeAt`).
- **Empty image.** The root starts with the image `''`, not an absent one.
  A node without an image gets the attribute `None`.

## Model

| member | source | states |
|---|---|---|
| IdeaTree.Reset | MindMapp.py:290-294 | The reset tree is a single node with the empty name and the empty image. |
| IdeaTree.AddBranchSpec | MindMapp.py:45-54 | Appending a branch adds exactly one empty node at the end of the target's branches. The target keeps its name, image and existing branches. Every other node keeps its name, image and branch count. The only new path is the new branch's. |
| IdeaTree.SetNameSpec | MindMapp.py:66-68 | Writing a name changes only the target's name. The tree keeps its shape and size, and every other node keeps its name and image. |
| IdeaTree.SetImageSpec | MindMapp.py:72-76 | Writing an image changes only the target's image. The tree keeps its shape and size, and every other node keeps its name and image. |
| ImageEncoder.GetImageBase64 | MindMapp.py:24-42 | A string comes back unchanged exactly when it starts with `data:image`. Any other string, and any unsupported input, gives no result. A PIL image is resized to 150×150 and saved as PNG: the result is `data:image/png;base64,` followed by the saved text when saving succeeds, and a library error otherwise. Bytes give such a URI exactly when they decode and the resized image saves, and a library error otherwise. |
| ImageEncoder.EncodeIdempotent | MindMapp.py:29-41 | Feeding any produced URI back in returns it unchanged. |
| TreeEditor.ApplyUpload | MindMapp.py:72-76 | Without an upload the tree is unchanged. An upload the library fails on raises and leaves the tree unchanged. Otherwise only the target's image changes, to exactly the encoding of the uploaded bytes, a PNG URI. The tree keeps its shape, and every other node keeps its name and image. |
| TreeEditor.EditBranchSpec | MindMapp.py:62-80 | After a branch form runs, the branch has the typed name. After an upload its image is exactly the upload's encoding, a PNG URI; without one it is kept. One empty branch is appended exactly when the button was pressed. Every other node keeps its name and image. An upload the library fails on stops the run with only the new name written. |
| TreeEditor.EditRootSpec | MindMapp.py:257-280 | Same as for a branch, except that the upload is handled before the name. So an upload the library fails on stops the run with the tree unchanged. |
| FormKeys.Dec | MindMapp.py:63 | The printed position is a non-empty run of decimal digits that denotes the number, with no leading zero, and two or more digits exactly from 10 on. |
| FormKeys.DecInjective | MindMapp.py:63 | Different positions print differently. |
| FormKeys.Route | MindMapp.py:63 | Every branch route extends the root's route `Idea Principal` and is strictly longer. |
| FormKeys.RouteInjective | MindMapp.py:62-63 | Two paths have the same route exactly when they are the same path. |
| FormKeys.BranchKeyNotRoot | MindMapp.py:260-266 | No key of a branch form's widgets equals the root form's name key `nombre_principal` or image key `imagen_principal`. |
| FormKeys.BranchKeysDistinct | MindMapp.py:63-79 | Two widget keys of branch forms are equal exactly when they belong to the same widget of the same branch. No branch key equals the root form's name or image key. |
| Palette.HexInjective | MindMapp.py:21 | Two colours have the same attribute string exactly when they are the same colour. |
| Palette.PaletteWellFormed | MindMapp.py:21 | The palette has six pairwise different entries, and the gray fallback is not one of them. |
| Palette.FirstIndex | MindMapp.py:104 | `list.index`: the result points at the colour, and no earlier entry is that colour. |
| Palette.NextColorByIndex | MindMapp.py:103-107 | The colour handed to children is the palette entry after the first occurrence of the parent's colour, modulo six. It is the fallback when the parent's colour is off the palette. |
| Palette.NextColorRotates | MindMapp.py:103-105 | Rotation maps entry `i` to entry `(i + 1) mod 6` and never keeps a colour. |
| Palette.DepthColor | MindMapp.py:103-110 | The colour of every depth is a palette entry. |
| Palette.DepthColorAfter | MindMapp.py:103-110 | From depth 1 down, `n` rotations lead from the colour of one depth to the colour `n` levels deeper. |
| Palette.DepthColorClosedForm | MindMapp.py:103-110 | A node at depth `d >= 1` gets palette entry `(d - 1) mod 6`. |
| Palette.DepthColorPeriodic | MindMapp.py:103-110 | Below the root, depth colours repeat with period six, and depths 0 and 1 share a colour. |
| MindGraph.AddNodeTo | MindMapp.py:92 | Adding a node creates it or overwrites its attributes. No other node and no edge changes. |
| MindGraph.AddEdgeTo | MindMapp.py:95 | Adding an edge creates missing end points without attributes, keeps the attributes of existing nodes, and creates or overwrites that one edge only. |
| MindGraph.AddEdgeUndirected | MindMapp.py:95 | Adding the edge `u`–`v` and adding `v`–`u` give the same graph. |
| GraphBuilder.FanWidth | MindMapp.py:97-100 | The width of edges leaving a node lies between 1 and 5, and is at most 4 when the node has branches. It is the floor 1 exactly when the fan-out reaches 4, and `5 - fan-out` otherwise. |
| GraphBuilder.ImageAttr | MindMapp.py:91-92 | The image attribute is set exactly when the image is non-empty, and it is that image. |
| GraphBuilder.Generate | MindMapp.py:117-131 | No graph is produced exactly when the root's name is empty. |
| GraphBuilder.ResetGeneratesNothing | MindMapp.py:120-122 | A reset tree produces no graph. |
| GraphBuilder.HeadEffect | MindMapp.py:90-95 | One visit's writes before descending set the node's attributes. Unless the parent label is `"root"`, they also add the edge from the parent in the node's colour, with the parent's recorded width or 1. |
| GraphBuilder.HeadWellColored | MindMapp.py:90-95 | Those writes keep every node attributed with a palette colour and every edge at a palette colour and width 1 to 5. |
| GraphBuilder.VisitWellColored | MindMapp.py:86-110 | One visit keeps every node attributed with a palette colour and every edge at a palette colour and width 1 to 5. It keeps the nodes already there and records only widths 1 to 5. |
| GraphBuilder.VisitAllWellColored | MindMapp.py:109-110 | The same holds for visiting a list of siblings. |
| GraphBuilder.GenerateWellColored | MindMapp.py:86-131 | For every tree with a named root, whatever its labels: every node has attributes in a palette colour, so gray is never used. Every edge has a palette colour and a width from 1 to 5. The root's label is a node. |
| BuilderProperties.VisitRef | MindMapp.py:86-110 | With unambiguous names and a parent other than `"root"`, one visit adds to the graph the reference nodes and edges of its subtree: its own node, the edge from the parent with the parent's recorded width, and those of its children one colour further. |
| BuilderProperties.VisitAllRef | MindMapp.py:109-110 | With unambiguous names, visiting a list of siblings adds the reference nodes and edges of all of them. |
| BuilderProperties.GenerateIsReference | MindMapp.py:113-131 | With unambiguous names the built graph is the reference graph: a central root in `palette[0]`, its children in the same colour, each later generation rotated once, root edges 1 wide, and every other edge as wide as its parent's fan-out allows. |
| BuilderProperties.RefNodeAtPath | MindMapp.py:92 | In the reference nodes of a subtree, the node at a path is a branch node with its own image, rotated once per level below the subtree's top. |
| BuilderProperties.RefEdgeAtPath | MindMapp.py:95-100 | In the reference edges of a subtree, the edge into the node at a path has that node's colour. Its width is the top parent's width or, deeper down, the fan-out width of the node's tree parent. |
| BuilderProperties.RefEdgesAllCount | MindMapp.py:94-95 | With distinct names, a forest yields one edge per node. |
| BuilderProperties.RefEdgesAreTreeEdges | MindMapp.py:94-95 | Every reference edge joins a node to its tree parent. |
| BuilderProperties.GenerateNodes | MindMapp.py:92 | With unambiguous names, a tree of `n` nodes yields exactly `n` graph nodes keyed by its names, and the root is the only central one. |
| BuilderProperties.GenerateNodeAt | MindMapp.py:103-110 | With unambiguous names, the graph node of the tree node at a path carries that node's image and the colour of its depth. It is central exactly when it is the root. |
| BuilderProperties.GenerateSiblingColors | MindMapp.py:109-110 | Siblings are drawn in one colour. |
| BuilderProperties.GenerateEdgeAt | MindMapp.py:95-100 | With unambiguous names, the edge into every non-root node exists and has that node's colour. It is 1 wide when it leaves the root and `max(1, 5 - parent's fan-out)` wide otherwise, so always 1 to 4. |
| BuilderProperties.GenerateEdges | MindMapp.py:94-95 | With unambiguous names, a tree of `n` nodes yields exactly `n - 1` edges, each joining a node to its tree parent. |
| BuilderQuirks.RootLabelQuirk | MindMapp.py:92-95 | Below a branch named `"root"`, a child is central and has no edge from its parent. |
| BuilderQuirks.RootEdgeWidened | MindMapp.py:91-100 | A leaf named like the root records width 5 under the root's label, so the root's edge to a later sibling is 5 wide and the root's node becomes a branch. |
| BuilderQuirks.RelabelRecolours | MindMapp.py:91-95 | A label reused one level deeper under another parent recolours its node, while the edge written at the first occurrence keeps the first colour. |
| BuilderQuirks.ReverseRewrite | MindMapp.py:91-99 | A grandchild named like the root writes the undirected edge to its parent again: edge a–b takes the grandchild's colour and `b`'s width 4, while node `b` keeps its own colour. |
| BuilderQuirks.SameNameMerges | MindMapp.py:92-95 | Two siblings with one name become one graph node and one edge: three tree nodes give two graph nodes. |
| Styling.StyleNode | MindMapp.py:143-155 | A rendered node carries its graph label. |
| Styling.StyleNodeRules | MindMapp.py:144-152 | A node is drawn as a circular image exactly when it has a non-empty image. It is large (80) exactly when it has no attributes or is central, and small (20) exactly when it is a branch. It is gray exactly when it has no attributes or a gray colour. An attributed node keeps its colour and image; a node without attributes gets the image `''`. |
| Styling.StyleEdgeRules | MindMapp.py:158-159 | A rendered edge keeps its colour and width. |
| Styling.Render | MindMapp.py:143-159 | Every graph node and every graph edge is rendered, and nothing else is. |
| Styling.RenderNeverGray | MindMapp.py:143-159 | For every tree with a named root, no rendered node or edge is gray, and every rendered edge is 1 to 5 wide. |
| Styling.RenderNodeAt | MindMapp.py:149-152 | With unambiguous names, the rendered node of every tree node is a circular image exactly when the node has an image. It is large exactly when it is the root, and it has the colour of its depth. |
| Styling.RenderOneCentral | MindMapp.py:152 | With unambiguous names, exactly one rendered node is large: the root. |

## Left out

- The Streamlit page is not modelled: tabs, markdown, titles, the header image, buttons as widgets, `st.session_state`, `st.experimental_rerun` and `main`. A form run takes the values its widgets returned as input.
- A whole run of the page is not modelled: the root form followed by the forms of every branch in pre-order, and only when the root has a name. Each form is modelled on its own (`EditRoot`, `EditBranch`).
- The key of the root form's add-branch button is not modelled. Streamlit derives it from the button's label, and it has no explicit key.
- The pyvis `Network` construction, the repulsion physics numbers and the JSON options are layout settings for an external renderer, and most of them are floating point.
- Writing and reading `/tmp/pyvis_graph.html` and embedding it in the page are file and UI I/O.
- PIL decoding, resizing and PNG saving, and `base64.b64encode`, are library calls. They enter as the functions of a `Codec` parameter, with decoding and saving allowed to fail. The fixed `data:image/png;base64,` prefix and the 150×150 size handed to the resize are stated in the contract; what the pixels and the base64 text look like is the library's.
- The order in which networkx lists nodes and edges is not modelled: the graph is a pair of maps. Only the rendered options depend on that order, and only in their order.
- The tree's image is always a string. `get_image_base64` on upload bytes returns a string or raises, so `None` never reaches the tree.
- The `fixed` option of a rendered node is not modelled: it is the same constant for every node. The `label` option is the node's `name`.
