/** The Query String Compiler: the `$select`/`$expand` text built from a
    selection tree, honouring the descriptor's excluded names. `Compile` is
    the text src/index.ts builds; `JsCompile` the text index.js builds from its
    own tree, whose leaves carry `null` children. */
module Compiler {
  import opened Text
  import opened Selection

  const Select := "$select="
  const Expand := "$expand="

  /** The separator in front of the first expansion: `&` at the top, `;` inside
      an enclosing expansion. */
  function Separator(level: nat): string
  {
    if level > 0 then ";" else "&"
  }

  /** The names of the childless nodes that are not excluded, in order. */
  function LeafNames(nodes: seq<Sel>, ex: seq<string>): seq<string>
  {
    if nodes == [] then []
    else
      var init, last := nodes[..|nodes| - 1], nodes[|nodes| - 1];
      LeafNames(init, ex) + (if last.children == [] && last.name !in ex then [last.name] else [])
  }

  /** `$select=` lists exactly the names of the childless nodes that are not
      excluded. */
  lemma {:induction false} LeafNamesMembers(nodes: seq<Sel>, ex: seq<string>)
    ensures forall x :: x in LeafNames(nodes, ex) <==>
      exists i :: 0 <= i < |nodes| && nodes[i].children == [] && nodes[i].name == x && x !in ex
  {
    if nodes != [] {
      var init, last := nodes[..|nodes| - 1], nodes[|nodes| - 1];
      LeafNamesMembers(init, ex);
      assert forall i :: 0 <= i < |init| ==> init[i] == nodes[i];
    }
  }

  /** The nodes with children, in order. */
  function Branches(nodes: seq<Sel>): (r: seq<Sel>)
    ensures forall k :: 0 <= k < |r| ==> r[k] in nodes && r[k].children != []
  {
    if nodes == [] then []
    else
      var init, last := nodes[..|nodes| - 1], nodes[|nodes| - 1];
      var r := Branches(init) + (if last.children != [] then [last] else []);
      assert forall x :: x in init ==> x in nodes;
      r
  }

  /** The `$expand=` part: nothing when no branch is expanded, otherwise the
      separator for the level, `$expand=`, and the expansions comma-joined. */
  function ExpandClause(level: nat, items: seq<string>): string
  {
    if items == [] then "" else Separator(level) + Expand + Join(items, ",")
  }

  /** The query text for one level of the tree. */
  function Compile(level: nat, nodes: seq<Sel>, ex: seq<string>): string
    decreases nodes, 1
  {
    Select + Join(LeafNames(nodes, ex), ",") + ExpandClause(level, Expansions(level, nodes, ex))
  }

  /** `name(<query text of its children>)` for every node that has children and
      is not excluded, in order; none exactly when every node is a leaf or
      excluded. */
  function Expansions(level: nat, nodes: seq<Sel>, ex: seq<string>): seq<string>
    decreases nodes, 0
  {
    if nodes == [] then []
    else
      var init, last := nodes[..|nodes| - 1], nodes[|nodes| - 1];
      Expansions(level, init, ex) +
        (if last.children != [] && last.name !in ex then [Wrapped(last.name, Compile(level + 1, last.children, ex))] else [])
  }

  /** There is no `$expand=` part exactly when every node is a leaf or
      excluded; otherwise there is one expansion per such branch. */
  lemma {:induction false} ExpansionsEmpty(level: nat, nodes: seq<Sel>, ex: seq<string>)
    ensures Expansions(level, nodes, ex) == [] <==> forall i :: 0 <= i < |nodes| ==> nodes[i].children == [] || nodes[i].name in ex
  {
    if nodes != [] {
      var init := nodes[..|nodes| - 1];
      ExpansionsEmpty(level, init, ex);
      assert forall i :: 0 <= i < |init| ==> init[i] == nodes[i];
    }
  }

  /** Appending one expansion: the first carries the separator and
      `$expand=`, every later one a comma. */
  lemma ExpandClauseSnoc(level: nat, items: seq<string>, x: string)
    ensures ExpandClause(level, items + [x]) ==
      ExpandClause(level, items) + (if items == [] then Separator(level) + Expand else ",") + x
  {
    JoinSnoc(items, x, ",");
  }

  lemma ExpansionsSnoc(level: nat, nodes: seq<Sel>, x: Sel, ex: seq<string>)
    ensures Expansions(level, nodes + [x], ex) == Expansions(level, nodes, ex) +
      (if x.children != [] && x.name !in ex then [Wrapped(x.name, Compile(level + 1, x.children, ex))] else [])
  {
    var s := nodes + [x];
    assert s[..|s| - 1] == nodes && s[|s| - 1] == x;
  }

  /** `name(inner)`. */
  function Wrapped(name: string, inner: string): string
  {
    name + "(" + inner + ")"
  }

  lemma WrappedAfter(lead: string, name: string, inner: string)
    ensures lead + name + "(" + inner + ")" == lead + Wrapped(name, inner)
  {
  }

  /** The text in front of an expansion: a comma once one was written,
      otherwise the separator and `$expand=`. */
  lemma LeadText(level: nat, hasExpand: bool)
    ensures (if hasExpand then "," else Separator(level)) + (if !hasExpand then Expand else "") ==
      if hasExpand then "," else Separator(level) + Expand
  {
  }

  /** Leaves contribute no expansion. */
  lemma {:induction false} BranchesExpansions(level: nat, nodes: seq<Sel>, ex: seq<string>)
    ensures Expansions(level, Branches(nodes), ex) == Expansions(level, nodes, ex)
  {
    if nodes != [] {
      var init, last := nodes[..|nodes| - 1], nodes[|nodes| - 1];
      BranchesExpansions(level, init, ex);
      var item := if last.children != [] && last.name !in ex then [Wrapped(last.name, Compile(level + 1, last.children, ex))] else [];
      assert Expansions(level, nodes, ex) == Expansions(level, init, ex) + item;
      if last.children != [] {
        var b := Branches(init) + [last];
        assert Branches(nodes) == b;
        assert b[..|b| - 1] == Branches(init) && b[|b| - 1] == last;
        assert Expansions(level, b, ex) == Expansions(level, Branches(init), ex) + item;
      } else {
        assert Branches(nodes) == Branches(init);
      }
    }
  }

  /** resolveQueryString of src/index.ts (and of src/ApolloODataResolver.ts
      when no filter and no list-typed field are involved): the leaves after
      `$select=`, then, in a loop over the nodes with children that tracks
      whether an expansion was already written, each non-excluded branch
      compiled one level deeper. */
  method ResolveQueryString(level: nat, lista: seq<Sel>, exclude: seq<string>) returns (uri: string)
    ensures uri == Compile(level, lista, exclude)
    decreases lista
  {
    var select := Select + Join(LeafNames(lista, exclude), ",");
    uri := select;
    var hasChildrens := Branches(lista);
    var hasExpand := false;
    var i := 0;
    ghost var done: seq<string> := [];
    while i < |hasChildrens|
      invariant 0 <= i <= |hasChildrens|
      invariant done == Expansions(level, hasChildrens[..i], exclude)
      invariant uri == select + ExpandClause(level, done)
      invariant hasExpand <==> done != []
    {
      var element := hasChildrens[i];
      TakeSnoc(hasChildrens, i);
      ExpansionsSnoc(level, hasChildrens[..i], element, exclude);
      if element.name in exclude {
        i := i + 1;
        continue;
      }
      var concat := Separator(level);
      var inner := ResolveQueryString(level + 1, element.children, exclude);
      var child := (if hasExpand then "," else concat) + (if !hasExpand then Expand else "") + element.name + "(" + inner + ")";
      ghost var lead := if hasExpand then "," else Separator(level) + Expand;
      LeadText(level, hasExpand);
      ghost var item := Wrapped(element.name, inner);
      WrappedAfter(lead, element.name, inner);
      ExpandClauseSnoc(level, done, item);
      AppendAssoc(select, ExpandClause(level, done), lead + item);
      AppendAssoc(ExpandClause(level, done), lead, item);
      done := done + [item];
      hasExpand := true;
      uri := uri + child;
      i := i + 1;
    }
    assert hasChildrens[..i] == hasChildrens;
    BranchesExpansions(level, lista, exclude);
  }

  /** The top-level nodes whose names are not excluded. */
  function Kept(nodes: seq<Sel>, ex: seq<string>): seq<Sel>
  {
    if nodes == [] then []
    else
      var init, last := nodes[..|nodes| - 1], nodes[|nodes| - 1];
      Kept(init, ex) + (if last.name !in ex then [last] else [])
  }

  lemma LeafNamesSnoc(nodes: seq<Sel>, x: Sel, ex: seq<string>)
    ensures LeafNames(nodes + [x], ex) == LeafNames(nodes, ex) + (if x.children == [] && x.name !in ex then [x.name] else [])
  {
    var s := nodes + [x];
    assert s[..|s| - 1] == nodes && s[|s| - 1] == x;
  }

  lemma KeptSnoc(nodes: seq<Sel>, x: Sel, ex: seq<string>)
    ensures Kept(nodes + [x], ex) == Kept(nodes, ex) + (if x.name !in ex then [x] else [])
  {
    var s := nodes + [x];
    assert s[..|s| - 1] == nodes && s[|s| - 1] == x;
  }

  lemma {:induction false} KeptLeafNames(nodes: seq<Sel>, ex: seq<string>)
    ensures LeafNames(Kept(nodes, ex), ex) == LeafNames(nodes, ex)
  {
    if nodes != [] {
      var init, last := nodes[..|nodes| - 1], nodes[|nodes| - 1];
      assert nodes == init + [last];
      KeptLeafNames(init, ex);
      LeafNamesSnoc(init, last, ex);
      KeptSnoc(init, last, ex);
      if last.name !in ex {
        LeafNamesSnoc(Kept(init, ex), last, ex);
      } else {
        assert LeafNames(init, ex) + [] == LeafNames(init, ex);
        assert Kept(init, ex) + [] == Kept(init, ex);
        assert LeafNames(nodes, ex) == LeafNames(init, ex);
        assert Kept(nodes, ex) == Kept(init, ex);
      }
    }
  }

  lemma {:induction false} KeptExpansions(level: nat, nodes: seq<Sel>, ex: seq<string>)
    ensures Expansions(level, Kept(nodes, ex), ex) == Expansions(level, nodes, ex)
  {
    if nodes != [] {
      var init, last := nodes[..|nodes| - 1], nodes[|nodes| - 1];
      assert nodes == init + [last];
      KeptExpansions(level, init, ex);
      ExpansionsSnoc(level, init, last, ex);
      KeptSnoc(init, last, ex);
      if last.name !in ex {
        ExpansionsSnoc(level, Kept(init, ex), last, ex);
      } else {
        assert Expansions(level, init, ex) + [] == Expansions(level, init, ex);
        assert Kept(init, ex) + [] == Kept(init, ex);
        assert Expansions(level, nodes, ex) == Expansions(level, init, ex);
        assert Kept(nodes, ex) == Kept(init, ex);
      }
    }
  }

  /** Excluded nodes leave no trace: compiling the tree without the excluded
      nodes of this level, whole subtrees included, gives the same text. */
  lemma CompileIgnoresExcluded(level: nat, nodes: seq<Sel>, ex: seq<string>)
    ensures Compile(level, Kept(nodes, ex), ex) == Compile(level, nodes, ex)
  {
    KeptLeafNames(nodes, ex);
    KeptExpansions(level, nodes, ex);
  }

  /** Names of the index.js leaves (`!x.children`), less the excluded ones. */
  function JsLeafNames(nodes: seq<JsSel>, ex: seq<string>): (r: seq<string>)
    ensures forall k :: 0 <= k < |r| ==> r[k] !in ex
  {
    if nodes == [] then []
    else
      var init, last := nodes[..|nodes| - 1], nodes[|nodes| - 1];
      JsLeafNames(init, ex) + (if last.children.Null? && last.name !in ex then [last.name] else [])
  }

  /** The query text index.js builds for one level of its tree. */
  function JsCompile(level: nat, nodes: seq<JsSel>, ex: seq<string>): string
    decreases nodes, 1
  {
    Select + Join(JsLeafNames(nodes, ex), ",") + ExpandClause(level, JsExpansions(level, nodes, ex))
  }

  /** The index.js expansions: every node whose children are not `null`. */
  function JsExpansions(level: nat, nodes: seq<JsSel>, ex: seq<string>): (r: seq<string>)
    ensures r == [] <==> forall i :: 0 <= i < |nodes| ==> nodes[i].children.Null? || nodes[i].name in ex
    decreases nodes, 0
  {
    if nodes == [] then []
    else
      var init, last := nodes[..|nodes| - 1], nodes[|nodes| - 1];
      var r := JsExpansions(level, init, ex) +
        match last.children
        case Children(c) => if last.name !in ex then [Wrapped(last.name, JsCompile(level + 1, c, ex))] else []
        case Null => [];
      assert forall i :: 0 <= i < |init| ==> init[i] == nodes[i];
      r
  }

  lemma MirrorsPrefix(js: seq<JsSel>, ts: seq<Sel>, n: nat)
    requires Mirrors(js, ts) && n <= |ts|
    ensures Mirrors(js[..n], ts[..n])
  {
    assert forall i :: 0 <= i < n ==> js[..n][i] == js[i] && ts[..n][i] == ts[i];
  }

  lemma {:induction false} JsLeafNamesMirrors(js: seq<JsSel>, ts: seq<Sel>, ex: seq<string>)
    requires Mirrors(js, ts)
    ensures JsLeafNames(js, ex) == LeafNames(ts, ex)
  {
    if ts != [] {
      MirrorsPrefix(js, ts, |ts| - 1);
      JsLeafNamesMirrors(js[..|js| - 1], ts[..|ts| - 1], ex);
    }
  }

  /** The two compilers agree on trees that mirror each other. */
  lemma {:induction false} JsCompileMirrors(level: nat, js: seq<JsSel>, ts: seq<Sel>, ex: seq<string>)
    requires Mirrors(js, ts)
    ensures JsCompile(level, js, ex) == Compile(level, ts, ex)
    decreases ts, 1
  {
    JsLeafNamesMirrors(js, ts, ex);
    JsExpansionsMirrors(level, js, ts, ex);
  }

  lemma {:induction false} JsExpansionsMirrors(level: nat, js: seq<JsSel>, ts: seq<Sel>, ex: seq<string>)
    requires Mirrors(js, ts)
    ensures JsExpansions(level, js, ex) == Expansions(level, ts, ex)
    decreases ts, 0
  {
    if ts != [] {
      var n := |ts| - 1;
      MirrorsPrefix(js, ts, n);
      JsExpansionsMirrors(level, js[..n], ts[..n], ex);
      if js[n].children.Children? {
        JsCompileMirrors(level + 1, js[n].children.nodes, ts[n].children, ex);
      }
    }
  }

  /** End to end, on a well-formed selection set, index.js and src/index.ts
      request the same query text. */
  lemma SameQueryText(selections: seq<Field>, parent: string, ex: seq<string>)
    requires Proper(selections)
    ensures JsCompile(0, JsTree(0, selections, parent), ex) == Compile(0, Tree(0, selections, parent), ex)
  {
    JsTreeMirrors(0, selections, parent);
    JsCompileMirrors(0, JsTree(0, selections, parent), Tree(0, selections, parent), ex);
  }

  /** Two leaves, neither excluded, are selected in order. */
  lemma TwoLeaves(level: nat, b: string, c: string, q: string, ex: seq<string>)
    requires b !in ex && c !in ex
    ensures Compile(level, [Sel(level, b, q, []), Sel(level, c, q, [])], ex) == Select + b + "," + c
  {
    var inner := [Sel(level, b, q, []), Sel(level, c, q, [])];
    assert [inner[0]] + [inner[1]] == inner && [] + [inner[0]] == [inner[0]];
    LeafNamesSnoc([inner[0]], inner[1], ex);
    LeafNamesSnoc([], inner[0], ex);
    ExpansionsSnoc(level, [inner[0]], inner[1], ex);
    ExpansionsSnoc(level, [], inner[0], ex);
    JoinCons(b, [c], ",");
  }

  /** The shape of the query of the TypeScript test suite: a leaf `a` and a
      branch `q` with two leaves `b` and `c` below it, none excluded. */
  lemma OneExpansion(a: string, q: string, b: string, c: string, p: string, ex: seq<string>)
    requires a !in ex && q !in ex && b !in ex && c !in ex
    ensures Compile(0, [Sel(0, a, p, []), Sel(0, q, p, [Sel(1, b, q, []), Sel(1, c, q, [])])], ex)
         == Select + a + "&" + Expand + Wrapped(q, Select + b + "," + c)
  {
    LeafThenBranch(0, a, q, p, [Sel(1, b, q, []), Sel(1, c, q, [])], ex);
    TwoLeaves(1, b, c, q, ex);
  }

  /** A leaf followed by a branch: the leaf is selected and the branch is the
      only expansion. */
  lemma LeafThenBranch(level: nat, a: string, q: string, p: string, inner: seq<Sel>, ex: seq<string>)
    requires a !in ex && q !in ex && inner != []
    ensures Compile(level, [Sel(level, a, p, []), Sel(level, q, p, inner)], ex)
         == Select + a + Separator(level) + Expand + Wrapped(q, Compile(level + 1, inner, ex))
  {
    var top := [Sel(level, a, p, []), Sel(level, q, p, inner)];
    var w := Wrapped(q, Compile(level + 1, inner, ex));
    assert LeafNames(top, ex) == [a] by {
      assert [top[0]] + [top[1]] == top && [] + [top[0]] == [top[0]];
      LeafNamesSnoc([top[0]], top[1], ex);
      LeafNamesSnoc([], top[0], ex);
    }
    assert Expansions(level, top, ex) == [w] by {
      assert [top[0]] + [top[1]] == top && [] + [top[0]] == [top[0]];
      ExpansionsSnoc(level, [top[0]], top[1], ex);
      ExpansionsSnoc(level, [], top[0], ex);
    }
    assert Compile(level, top, ex) == Select + Join([a], ",") + ExpandClause(level, [w]);
    OneLeafOneExpansion(level, a, w);
  }

  lemma OneLeafOneExpansion(level: nat, a: string, w: string)
    ensures Select + Join([a], ",") + ExpandClause(level, [w]) == Select + a + Separator(level) + Expand + w
  {
    assert Join([w], ",") == w;
  }

  /** The query of the TypeScript test suite, `historics { id
      quarentineValidation { id document } }` with `self` excluded, compiles to
      `$select=id&$expand=quarentineValidation($select=id,document)`. */
  lemma WorkedExample()
    ensures Compile(0, Tree(0, [Field("id", Absent), Field("quarentineValidation", Present([Field("id", Absent), Field("document", Absent)]))], "historics"), ["self"])
         == "$select=id" + "&$expand=" + "quarentineValidation(" + "$select=id,document" + ")"
  {
    ExampleTree();
    OneExpansion("id", "quarentineValidation", "id", "document", "historics", ["self"]);
    ExampleText();
  }

  lemma ExampleTree()
    ensures Tree(0, [Field("id", Absent), Field("quarentineValidation", Present([Field("id", Absent), Field("document", Absent)]))], "historics")
         == [Sel(0, "id", "historics", []),
             Sel(0, "quarentineValidation", "historics", [Sel(1, "id", "quarentineValidation", []), Sel(1, "document", "quarentineValidation", [])])]
  {
    assert Tree(1, [Field("id", Absent), Field("document", Absent)], "quarentineValidation")
        == [Sel(1, "id", "quarentineValidation", []), Sel(1, "document", "quarentineValidation", [])];
  }

  lemma ExampleText()
    ensures Select + "id" + "&" + Expand + Wrapped("quarentineValidation", Select + "id" + "," + "document")
         == "$select=id" + "&$expand=" + "quarentineValidation(" + "$select=id,document" + ")"
  {
    var a, b, c := "$select=id", "&$expand=", "$select=id,document";
    assert Select + "id" + "," + "document" == c;
    assert Select + "id" + "&" + Expand == a + b;
    AppendAssoc(a + b, "quarentineValidation(" + c, ")");
    AppendAssoc(a + b, "quarentineValidation(", c);
  }
}
