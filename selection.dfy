/** The Selection Tree Builder: the GraphQL selection AST a resolver receives,
    the tree of selected field names built from it (`rs`), and the variant of
    that tree index.js builds, whose leaves carry `null` children. */
module Selection {
  import opened Wrappers

  /** A field of a selection set: its name and, for a field of object type, its
      own selection set. */
  datatype Field = Field(name: string, selectionSet: SelectionSet)

  /** `element.selectionSet`: absent (`undefined`) on a scalar field. */
  datatype SelectionSet = Absent | Present(selections: seq<Field>)

  /** ResolverGraphQl (src/ResolverGraphQl.ts): a selected field, its depth, the
      name of the field it was selected under, and its own selected fields. */
  datatype Sel = Sel(level: nat, name: string, parent: string, children: seq<Sel>)

  /** The node index.js builds: `children` is `null` for a field without a
      selection set. */
  datatype JsSel = JsSel(level: nat, name: string, parent: string, children: JsChildren)

  /** `null`, or the array of selected children. */
  datatype JsChildren = Null | Children(nodes: seq<JsSel>)

  /** The tree `rs(level, selections, parent)` returns in the TypeScript variants. */
  function Tree(level: nat, selections: seq<Field>, parent: string): (r: seq<Sel>)
    decreases selections, 1
  {
    seq(|selections|, i requires 0 <= i < |selections| => Node(level, selections[i], parent))
  }

  function Node(level: nat, f: Field, parent: string): Sel
    decreases f, 0
  {
    Sel(level, f.name, parent, if f.selectionSet.Absent? then [] else Tree(level + 1, f.selectionSet.selections, f.name))
  }

  /** The tree `rs(level, selections, parent)` returns in index.js. */
  function JsTree(level: nat, selections: seq<Field>, parent: string): (r: seq<JsSel>)
    decreases selections, 1
  {
    seq(|selections|, i requires 0 <= i < |selections| => JsNode(level, selections[i], parent))
  }

  function JsNode(level: nat, f: Field, parent: string): JsSel
    decreases f, 0
  {
    JsSel(level, f.name, parent, if f.selectionSet.Absent? then Null else Children(JsTree(level + 1, f.selectionSet.selections, f.name)))
  }

  /** `rs` of src/index.ts and src/ApolloODataResolver.ts: one node per selection,
      appended in source order, with the children built by recursion. */
  method Rs(level: nat, listKind: seq<Field>, parent: string) returns (arr: seq<Sel>)
    ensures arr == Tree(level, listKind, parent)
    decreases listKind
  {
    arr := [];
    var index := 0;
    while index < |listKind|
      invariant 0 <= index <= |listKind|
      invariant arr == Tree(level, listKind[..index], parent)
    {
      var element := listKind[index];
      var child: seq<Sel>;
      if element.selectionSet.Absent? {
        child := [];
      } else {
        child := Rs(level + 1, element.selectionSet.selections, element.name);
      }
      arr := arr + [Sel(level, element.name, parent, child)];
      index := index + 1;
    }
    assert listKind[..index] == listKind;
  }

  /** `rs` of index.js: the same loop, writing `null` children for a field
      without a selection set. */
  method JsRs(level: nat, listKind: seq<Field>, parent: string) returns (arr: seq<JsSel>)
    ensures arr == JsTree(level, listKind, parent)
    decreases listKind
  {
    arr := [];
    var index := 0;
    while index < |listKind|
      invariant 0 <= index <= |listKind|
      invariant arr == JsTree(level, listKind[..index], parent)
    {
      var element := listKind[index];
      var children: JsChildren;
      if element.selectionSet.Absent? {
        children := Null;
      } else {
        var nodes := JsRs(level + 1, element.selectionSet.selections, element.name);
        children := Children(nodes);
      }
      arr := arr + [JsSel(level, element.name, parent, children)];
      index := index + 1;
    }
    assert listKind[..index] == listKind;
  }

  /** The data-model invariant of a selection tree: every node sits one level
      below the node it was selected under and names it as its parent. */
  ghost predicate Linked(nodes: seq<Sel>, level: nat, parent: string)
    decreases nodes
  {
    forall i :: 0 <= i < |nodes| ==>
      nodes[i].level == level && nodes[i].parent == parent && Linked(nodes[i].children, level + 1, nodes[i].name)
  }

  /** The built tree has one node per selection, in source order, each with the
      selection's name, the given level and parent, and no children exactly when
      the selection has no (or an empty) selection set. */
  lemma TreeShape(level: nat, selections: seq<Field>, parent: string)
    ensures |Tree(level, selections, parent)| == |selections|
    ensures forall i :: 0 <= i < |selections| ==>
      var n := Tree(level, selections, parent)[i];
      && n.name == selections[i].name && n.level == level && n.parent == parent
      && (n.children == [] <==> selections[i].selectionSet.Absent? || selections[i].selectionSet.selections == [])
  {
    forall i | 0 <= i < |selections| && selections[i].selectionSet.Present?
      ensures |Tree(level, selections, parent)[i].children| == |selections[i].selectionSet.selections|
    {
      var f := selections[i];
      assert Tree(level, selections, parent)[i].children == Tree(level + 1, f.selectionSet.selections, f.name);
    }
  }

  /** Every tree `rs` builds satisfies the data-model invariant, at every depth. */
  lemma {:induction false} TreeLinked(level: nat, selections: seq<Field>, parent: string)
    ensures Linked(Tree(level, selections, parent), level, parent)
    decreases selections
  {
    var t := Tree(level, selections, parent);
    forall i | 0 <= i < |t|
      ensures Linked(t[i].children, level + 1, t[i].name)
    {
      var f := selections[i];
      if f.selectionSet.Present? {
        TreeLinked(level + 1, f.selectionSet.selections, f.name);
      }
    }
  }

  /** GraphQL's grammar gives every selection set at least one selection. */
  ghost predicate Proper(selections: seq<Field>)
    decreases selections
  {
    forall i :: 0 <= i < |selections| ==>
      selections[i].selectionSet.Present? ==>
        selections[i].selectionSet.selections != [] && Proper(selections[i].selectionSet.selections)
  }

  /** `js` is the index.js rendering of the TypeScript tree `ts`: same names in
      the same order, `null` children exactly where `ts` has none. */
  ghost predicate Mirrors(js: seq<JsSel>, ts: seq<Sel>)
    decreases ts
  {
    |js| == |ts| &&
    forall i :: 0 <= i < |ts| ==>
      js[i].name == ts[i].name &&
      match js[i].children
      case Null => ts[i].children == []
      case Children(c) => ts[i].children != [] && Mirrors(c, ts[i].children)
  }

  /** On a well-formed selection set the two variants of `rs` build the same
      tree, up to index.js writing `null` for "no children". */
  lemma {:induction false} JsTreeMirrors(level: nat, selections: seq<Field>, parent: string)
    requires Proper(selections)
    ensures Mirrors(JsTree(level, selections, parent), Tree(level, selections, parent))
    decreases selections
  {
    var js, ts := JsTree(level, selections, parent), Tree(level, selections, parent);
    forall i | 0 <= i < |ts|
      ensures js[i].children.Children? ==> ts[i].children != [] && Mirrors(js[i].children.nodes, ts[i].children)
    {
      var f := selections[i];
      if f.selectionSet.Present? {
        JsTreeMirrors(level + 1, f.selectionSet.selections, f.name);
      }
    }
  }
}
