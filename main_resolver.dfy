/** The resolver class of src/ApolloODataResolver.ts: the `$select`/`$expand`
    compiler that attaches the nested filter groups left in `filtersResolved`,
    the three URL shapes of `findBy` and the dispatch of
    `resolverODataAndCall`. */
module MainResolver {
  import opened Wrappers
  import opened Text
  import opened Payload
  import opened Selection
  import opened Arguments
  import opened Dispatch
  import Compiler
  import opened NestedFilters

  const Filter := "$filter="

  /** The text after `&` that attaches the filter of a branch that is not
      list-typed: nothing without a filter, otherwise `$filter=` and the
      field-qualified filter, of which only the first `AND ` and the first
      `OR ` are rewritten to `AND name/`. */
  function FilterString(name: string, filter: string): string
  {
    var s := if filter != "" then "&" + Filter + name + "/" + filter else "";
    ReplaceFirst(ReplaceFirst(s, "AND ", "AND " + name + "/"), "OR ", "AND " + name + "/")
  }

  /** One expansion: a list-typed branch takes its filter inside the
      parentheses (and always a space before the inner text); any other
      branch takes it after them. */
  function Expansion(name: string, filter: string, listed: bool, inner: string): string
  {
    if listed then name + "(" + (if filter != "" then Filter + filter + ";" else "") + " " + inner + ")"
    else name + "(" + inner + ")" + FilterString(name, filter)
  }

  /** The query text for one level of the tree, given the list-typed field
      names and the filter groups in force. */
  function Compile(level: nat, nodes: seq<Sel>, ex: seq<string>, listTypes: seq<string>, filters: seq<FilterGroup>): string
    decreases nodes, 1
  {
    Compiler.Select + Join(Compiler.LeafNames(nodes, ex), ",") + Compiler.ExpandClause(level, Expansions(level, nodes, ex, listTypes, filters))
  }

  /** The expansions of the branches that are not excluded, in order. */
  function Expansions(level: nat, nodes: seq<Sel>, ex: seq<string>, listTypes: seq<string>, filters: seq<FilterGroup>): seq<string>
    decreases nodes, 0
  {
    if nodes == [] then []
    else
      var init, last := nodes[..|nodes| - 1], nodes[|nodes| - 1];
      Expansions(level, init, ex, listTypes, filters) +
        (if last.children != [] && last.name !in ex
         then [Expansion(last.name, FilterFor(filters, last.name), last.name in listTypes, Compile(level + 1, last.children, ex, listTypes, filters))]
         else [])
  }

  lemma ExpansionsSnoc(level: nat, nodes: seq<Sel>, x: Sel, ex: seq<string>, listTypes: seq<string>, filters: seq<FilterGroup>)
    ensures Expansions(level, nodes + [x], ex, listTypes, filters) == Expansions(level, nodes, ex, listTypes, filters) +
      (if x.children != [] && x.name !in ex
       then [Expansion(x.name, FilterFor(filters, x.name), x.name in listTypes, Compile(level + 1, x.children, ex, listTypes, filters))]
       else [])
  {
    var s := nodes + [x];
    assert s[..|s| - 1] == nodes && s[|s| - 1] == x;
  }

  /** Leaves contribute no expansion. */
  lemma {:induction false} BranchesExpansions(level: nat, nodes: seq<Sel>, ex: seq<string>, listTypes: seq<string>, filters: seq<FilterGroup>)
    ensures Expansions(level, Compiler.Branches(nodes), ex, listTypes, filters) == Expansions(level, nodes, ex, listTypes, filters)
  {
    if nodes != [] {
      var init, last := nodes[..|nodes| - 1], nodes[|nodes| - 1];
      BranchesExpansions(level, init, ex, listTypes, filters);
      if last.children != [] {
        var b := Compiler.Branches(init) + [last];
        assert Compiler.Branches(nodes) == b;
        ExpansionsSnoc(level, Compiler.Branches(init), last, ex, listTypes, filters);
      } else {
        assert Compiler.Branches(nodes) == Compiler.Branches(init);
        assert Expansions(level, init, ex, listTypes, filters) + [] == Expansions(level, init, ex, listTypes, filters);
      }
    }
  }

  /** Without filter groups and without list-typed fields the main variant
      compiles exactly the text src/index.ts compiles. */
  lemma {:induction false} CompileWithoutFilters(level: nat, nodes: seq<Sel>, ex: seq<string>)
    ensures Compile(level, nodes, ex, [], []) == Compiler.Compile(level, nodes, ex)
    decreases nodes, 1
  {
    ExpansionsWithoutFilters(level, nodes, ex);
  }

  lemma {:induction false} ExpansionsWithoutFilters(level: nat, nodes: seq<Sel>, ex: seq<string>)
    ensures Expansions(level, nodes, ex, [], []) == Compiler.Expansions(level, nodes, ex)
    decreases nodes, 0
  {
    if nodes != [] {
      var init, last := nodes[..|nodes| - 1], nodes[|nodes| - 1];
      ExpansionsWithoutFilters(level, init, ex);
      if last.children != [] && last.name !in ex {
        CompileWithoutFilters(level + 1, last.children, ex);
        var inner := Compiler.Compile(level + 1, last.children, ex);
        ReplaceFirstEmpty("AND ", "AND " + last.name + "/");
        ReplaceFirstEmpty("OR ", "AND " + last.name + "/");
        assert FilterString(last.name, "") == "";
        assert Expansion(last.name, "", false, inner) == Compiler.Wrapped(last.name, inner);
      }
    }
  }

  lemma AndRegroup(p: string, a: string, b: string, c: string)
    ensures p + (a + " AND " + b + " AND " + c) == (p + a + " ") + "AND " + (b + " AND " + c)
  {
  }

  lemma RewrittenRegroup(p: string, a: string, n: string, b: string, c: string)
    ensures (p + a + " ") + ("AND " + n + "/") + (b + " AND " + c) == p + a + " AND " + n + "/" + b + " AND " + c
  {
  }

  /** Attaching three clauses to a branch that is not list-typed: the second
      clause gets the field prefix, the third keeps none, because only the
      first `AND ` is rewritten. */
  lemma AttachThreeClauses(name: string, a: string, b: string, c: string, inner: string)
    requires !Contains("&" + Filter + name + "/" + a + " " + "AND", "AND ")
    requires !Contains("&" + Filter + name + "/" + a + " AND " + name + "/" + b + " AND " + c, "OR ")
    ensures Expansion(name, a + " AND " + b + " AND " + c, false, inner) ==
      Compiler.Wrapped(name, inner) + ("&" + Filter + name + "/" + a + " AND " + name + "/" + b + " AND " + c)
  {
    var p := "&" + Filter + name + "/";
    var x, y, rep := p + a + " ", b + " AND " + c, "AND " + name + "/";
    var f := a + " AND " + b + " AND " + c;
    var t := p + a + " AND " + name + "/" + b + " AND " + c;
    AndRegroup(p, a, b, c);
    assert p + f == x + "AND " + y;
    assert "AND "[..3] == "AND";
    ReplaceFirstAt(x, "AND ", rep, y);
    RewrittenRegroup(p, a, name, b, c);
    assert ReplaceFirst(p + f, "AND ", rep) == t;
    assert IndexOf(t, "OR ").None?;
    assert FilterString(name, f) == t;
  }

  /** Attaching `a OR b` to a branch that is not list-typed: the first `OR `
      becomes `AND name/`, so both clauses are field-qualified and joined by
      `AND` rather than `OR`. */
  lemma OrRegroup(p: string, a: string, b: string)
    ensures p + (a + " OR " + b) == p + a + " OR " + b
    ensures p + (a + " OR " + b) == (p + a + " ") + "OR " + b
  {
  }

  lemma OrRewrittenRegroup(p: string, a: string, n: string, b: string)
    ensures (p + a + " ") + ("AND " + n + "/") + b == p + a + " AND " + n + "/" + b
  {
  }

  /** Attaching `a OR b` to a branch that is not list-typed: the first `OR `
      becomes `AND name/`, so both clauses are field-qualified and joined by
      `AND` rather than `OR`. */
  lemma AttachOrClause(name: string, a: string, b: string, inner: string)
    requires !Contains("&" + Filter + name + "/" + a + " OR " + b, "AND ")
    requires !Contains("&" + Filter + name + "/" + a + " " + "OR", "OR ")
    ensures Expansion(name, a + " OR " + b, false, inner) ==
      Compiler.Wrapped(name, inner) + ("&" + Filter + name + "/" + a + " AND " + name + "/" + b)
  {
    var p := "&" + Filter + name + "/";
    var f := a + " OR " + b;
    var x, rep := p + a + " ", "AND " + name + "/";
    OrRegroup(p, a, b);
    assert IndexOf(p + f, "AND ").None?;
    assert ReplaceFirst(p + f, "AND ", rep) == x + "OR " + b;
    assert "OR "[..2] == "OR";
    ReplaceFirstAt(x, "OR ", rep, b);
    OrRewrittenRegroup(p, a, name, b);
    assert FilterString(name, f) == p + a + " AND " + name + "/" + b;
  }

  /** The filter branch of `findBy`: the request URL built from the entity
      set, the compiled query text and the query of the top-level group. */
  function FilterUrl(url: string, resolved: string, query: string): string
  {
    var uri := url + "?" + resolved + (if query != "" then "&" else "") + (if query != "" then Filter else "");
    if !Contains(uri, "&$filter=") then url + "?" + resolved + (if query != "" then "&" else "") + (if query != "" then Filter else "") + query
    else url + "?" + resolved + " " + (if query != "" then "AND " + query else "")
  }

  /** With a top-level query the URL ends in ` AND <query>`, with no
      `$filter=` keyword; without one it is the compiled text, with a trailing
      space when that text already holds `&$filter=`. */
  lemma FilterUrlShape(url: string, resolved: string, query: string)
    ensures query != "" ==> FilterUrl(url, resolved, query) == url + "?" + resolved + " AND " + query
    ensures query == "" ==>
      FilterUrl(url, resolved, query) == url + "?" + resolved + (if Contains(url + "?" + resolved, "&$filter=") then " " else "")
  {
    var base := url + "?" + resolved;
    if query != "" {
      ContainsAt("&$filter=", "&$filter=", 0);
      ContainsSuffix(base, "&$filter=", "&$filter=");
      assert base + "&" + Filter == base + "&$filter=";
      assert base + " " + ("AND " + query) == base + " AND " + query;
    } else {
      assert base + "" + "" == base;
      assert base + "" + "" + "" == base;
      assert base + " " + "" == base + " ";
    }
  }

  /** The compiled query text of a request, or the failure of reading the
      selections off a field without a selection set. */
  function Resolved(info: Info, node: Descriptor, listTypes: seq<string>, filters: seq<FilterGroup>): Result<string, Failure>
  {
    match Selections(info)
    case Failure(e) => Failure(e)
    case Success(sels) => Success(Compile(0, Tree(0, sels, info.fieldNode.name), node.exclude, listTypes, filters))
  }

  /** The filter groups in force after `findBy`: only the filter branch
      replaces them. */
  function FiltersAfter(args: Args, filters: seq<FilterGroup>): seq<FilterGroup>
  {
    if IsFiltered(args) then FilterGroups(QueryItems("", args, 0)) else filters
  }

  /** The URL `findBy` requests, given the filter groups in force when the
      query text is compiled. */
  function RequestUrl(node: Descriptor, args: Args, info: Info, listTypes: seq<string>, filters: seq<FilterGroup>): Result<string, Failure>
  {
    match Resolved(info, node, listTypes, filters)
    case Failure(e) => Failure(e)
    case Success(resolved) =>
      if IsIdLookup(args) then Success(node.url + "(" + Stringify(Get(args, "id").value) + ")?" + resolved)
      else if IsFiltered(args) then Success(FilterUrl(node.url, resolved, FilterFor(filters, "")))
      else Success(node.url + "?" + resolved)
  }

  /** The id-lookup shape, and the plain shape taken when `id` is truthy beside
      other keys or when there are no keys: then the arguments play no part. */
  lemma UrlShapes(node: Descriptor, args: Args, info: Info, listTypes: seq<string>, filters: seq<FilterGroup>)
    requires Resolved(info, node, listTypes, filters).Success?
    ensures |args| == 1 && args[0].0 == "id" && Arguments.Truthy(args[0].1) ==>
      RequestUrl(node, args, info, listTypes, filters) ==
      Success(node.url + "(" + Stringify(args[0].1) + ")?" + Resolved(info, node, listTypes, filters).value)
    ensures (HasId(args) && |args| != 1) || args == [] ==>
      RequestUrl(node, args, info, listTypes, filters) == RequestUrl(node, [], info, listTypes, filters) ==
      Success(node.url + "?" + Resolved(info, node, listTypes, filters).value)
  {
    IdLookupShape(args);
  }

  lemma {:induction false} ClausesNonEmpty(args: Args)
    ensures forall i :: 0 <= i < |Clauses(args)| ==> Clauses(args)[i] != ""
  {
    if args != [] {
      ClausesNonEmpty(args[1..]);
      ClausesCons(args);
    }
  }

  /** Flat arguments without a truthy `id` whose clauses do not all drop out
      are requested as the compiled text, ` AND `, and all clauses joined by
      ` AND `, with no `$filter=` keyword. */
  lemma TopLevelClauses(node: Descriptor, args: Args, info: Info, listTypes: seq<string>, filters: seq<FilterGroup>)
    requires Flat(args) && !HasId(args) && Clauses(args) != []
    requires Resolved(info, node, listTypes, FiltersAfter(args, filters)).Success?
    ensures RequestUrl(node, args, info, listTypes, FiltersAfter(args, filters)) ==
      Success(node.url + "?" + Resolved(info, node, listTypes, FiltersAfter(args, filters)).value + " AND " + Join(Clauses(args), " AND "))
  {
    var query := Join(Clauses(args), " AND ");
    FlatGroups(args);
    assert FiltersAfter(args, filters) == [FilterGroup("", query)];
    ClausesNonEmpty(args);
    var cs := Clauses(args);
    JoinCons(cs[0], cs[1..], " AND ");
    assert cs == [cs[0]] + cs[1..];
    assert query != "";
    FilterUrlShape(node.url, Resolved(info, node, listTypes, FiltersAfter(args, filters)).value, query);
  }

  /** A non-empty filter attached to a branch that is not list-typed always
      leaves text behind. */
  lemma FilterStringLength(name: string, filter: string)
    requires filter != ""
    ensures |FilterString(name, filter)| > 0
  {
    var s := "&" + Filter + name + "/" + filter;
    ReplaceFirstLength(s, "AND ", "AND " + name + "/");
    ReplaceFirstLength(ReplaceFirst(s, "AND ", "AND " + name + "/"), "OR ", "AND " + name + "/");
  }

  lemma SingleLeaf(level: nat, x: Sel, ex: seq<string>, listTypes: seq<string>, filters: seq<FilterGroup>)
    requires x.children == []
    ensures Expansions(level, [x], ex, listTypes, filters) == []
  {
    assert [x][..0] == [];
  }

  lemma SingleBranch(level: nat, x: Sel, ex: seq<string>, listTypes: seq<string>, filters: seq<FilterGroup>)
    requires x.children != [] && x.name !in ex
    ensures Expansions(level, [x], ex, listTypes, filters) ==
      [Expansion(x.name, FilterFor(filters, x.name), x.name in listTypes, Compile(level + 1, x.children, ex, listTypes, filters))]
  {
    assert [x][..0] == [];
  }

  /** The query text of `q { b }` grows when a group for `q` is in force. */
  lemma LeakText(q: string, b: string, parent: string, ex: seq<string>, listTypes: seq<string>, f: string)
    requires q !in ex && q !in listTypes && f != ""
    ensures |Compile(0, [Sel(0, q, parent, [Sel(1, b, q, [])])], ex, listTypes, [FilterGroup(q, f)])| >
            |Compile(0, [Sel(0, q, parent, [Sel(1, b, q, [])])], ex, listTypes, [])|
  {
    var stale := [FilterGroup(q, f)];
    var leaf := Sel(1, b, q, []);
    var x := Sel(0, q, parent, [leaf]);
    SingleLeaf(1, leaf, ex, listTypes, stale);
    SingleLeaf(1, leaf, ex, listTypes, []);
    var inner := Compile(1, [leaf], ex, listTypes, []);
    assert Compile(1, [leaf], ex, listTypes, stale) == inner;
    assert [x][..0] == [];
    assert Compiler.LeafNames([x], ex) == [];
    assert FilterFor(stale, q) == f && FilterFor([], q) == "";
    ReplaceFirstEmpty("AND ", "AND " + q + "/");
    ReplaceFirstEmpty("OR ", "AND " + q + "/");
    FilterStringLength(q, f);
    var e1 := Expansion(q, f, false, inner);
    var e0 := Expansion(q, "", false, inner);
    assert |e1| > |e0|;
    SingleBranch(0, x, ex, listTypes, stale);
    SingleBranch(0, x, ex, listTypes, []);
    assert Compiler.ExpandClause(0, [e1]) == "&" + Compiler.Expand + e1;
    assert Compiler.ExpandClause(0, [e0]) == "&" + Compiler.Expand + e0;
  }

  /** The state leak of `filtersResolved`: for the same id lookup of a field
      `q { b }`, the URL differs according to whether an earlier filtered call
      left a group for `q` behind. */
  lemma StaleFilterLeak(node: Descriptor, id: ArgVal, info: Info, listTypes: seq<string>, q: string, b: string, f: string)
    requires info.fieldNode.selectionSet == Present([Field(q, Present([Field(b, Absent)]))])
    requires q !in node.exclude && q !in listTypes && f != "" && Arguments.Truthy(id)
    ensures RequestUrl(node, [("id", id)], info, listTypes, [FilterGroup(q, f)]).Success?
    ensures RequestUrl(node, [("id", id)], info, listTypes, []).Success?
    ensures RequestUrl(node, [("id", id)], info, listTypes, [FilterGroup(q, f)]) != RequestUrl(node, [("id", id)], info, listTypes, [])
  {
    var ex := node.exclude;
    var stale := [FilterGroup(q, f)];
    var nodes := [Sel(0, q, info.fieldNode.name, [Sel(1, b, q, [])])];
    assert Tree(1, [Field(b, Absent)], q) == [Sel(1, b, q, [])];
    assert Tree(0, [Field(q, Present([Field(b, Absent)]))], info.fieldNode.name) == nodes;
    LeakText(q, b, info.fieldNode.name, ex, listTypes, f);
    var t1, t0 := Compile(0, nodes, ex, listTypes, stale), Compile(0, nodes, ex, listTypes, []);
    assert Resolved(info, node, listTypes, stale) == Success(t1);
    assert Resolved(info, node, listTypes, []) == Success(t0);
    var args := [("id", id)];
    assert IsIdLookup(args);
    var lead := node.url + "(" + Stringify(id) + ")?";
    assert RequestUrl(node, args, info, listTypes, stale) == Success(lead + t1);
    assert RequestUrl(node, args, info, listTypes, []) == Success(lead + t0);
    assert |lead + t1| != |lead + t0|;
  }

  /** resolverODataAndCall and findBy of src/ApolloODataResolver.ts, with the
      descriptors, the names of the list-typed fields, and the filter groups
      the last filtered call left behind. */
  class ApolloODataResolver {
    const list: seq<Descriptor>
    const listTypes: seq<string>
    var filtersResolved: seq<FilterGroup>

    constructor(listNodesAndUrl: seq<Descriptor>, listTypes: seq<string>)
      ensures list == listNodesAndUrl && this.listTypes == listTypes && filtersResolved == []
    {
      list := listNodesAndUrl;
      this.listTypes := listTypes;
      filtersResolved := [];
    }

    /** resolveQueryString: the leaves after `$select=`, then each branch that
        is not excluded, compiled one level deeper, with the filter group of
        its name attached inside or after the parentheses. */
    method ResolveQueryString(level: nat, lista: seq<Sel>, node: Descriptor) returns (uri: string)
      ensures uri == Compile(level, lista, node.exclude, listTypes, filtersResolved)
      decreases lista
    {
      var select := Compiler.Select + Join(Compiler.LeafNames(lista, node.exclude), ",");
      uri := select;
      var hasChildrens := Compiler.Branches(lista);
      var hasExpand := false;
      var i := 0;
      ghost var done: seq<string> := [];
      while i < |hasChildrens|
        invariant 0 <= i <= |hasChildrens|
        invariant done == Expansions(level, hasChildrens[..i], node.exclude, listTypes, filtersResolved)
        invariant uri == select + Compiler.ExpandClause(level, done)
        invariant hasExpand <==> done != []
      {
        var element := hasChildrens[i];
        TakeSnoc(hasChildrens, i);
        ExpansionsSnoc(level, hasChildrens[..i], element, node.exclude, listTypes, filtersResolved);
        if element.name in node.exclude {
          i := i + 1;
          continue;
        }
        var concat := Compiler.Separator(level);
        var filter := FilterFor(filtersResolved, element.name);
        var listDefinition := element.name in listTypes;
        var filterQuery := ResolveQueryString(level + 1, element.children, node);
        var prefix := (if hasExpand then "," else concat) + (if !hasExpand then Compiler.Expand else "");
        var text := BranchText(element.name, filter, listDefinition, filterQuery);
        ghost var item := text;
        Compiler.LeadText(level, hasExpand);
        ghost var lead := if hasExpand then "," else Compiler.Separator(level) + Compiler.Expand;
        Compiler.ExpandClauseSnoc(level, done, item);
        AppendAssoc(select, Compiler.ExpandClause(level, done), lead + item);
        AppendAssoc(Compiler.ExpandClause(level, done), lead, item);
        done := done + [item];
        hasExpand := true;
        uri := uri + (prefix + text);
        i := i + 1;
      }
      assert hasChildrens[..i] == hasChildrens;
      BranchesExpansions(level, lista, node.exclude, listTypes, filtersResolved);
    }

    /** The text of one expansion after its leading separator: the
        statement-level twin of `Expansion`, which the lemmas about attached
        filters are stated on. */
    static method BranchText(name: string, filter: string, listDefinition: bool, filterQuery: string) returns (text: string)
      ensures text == Expansion(name, filter, listDefinition, filterQuery)
    {
      if listDefinition {
        text := name + "(" + (if filter != "" then Filter + filter + ";" else "") + " " + filterQuery + ")";
      } else {
        var filterString := if filter != "" then "&" + Filter + name + "/" + filter else "";
        filterString := ReplaceFirst(filterString, "AND ", "AND " + name + "/");
        filterString := ReplaceFirst(filterString, "OR ", "AND " + name + "/");
        text := name + "(" + filterQuery + ")" + filterString;
      }
    }

    /** resolverOData: the selection tree of the requested field, compiled. */
    method ResolverOData(info: Info, node: Descriptor) returns (r: Result<string, Failure>)
      ensures r == Resolved(info, node, listTypes, filtersResolved)
    {
      var selections := Selections(info);
      if selections.Failure? {
        return Failure(selections.error);
      }
      var resolvido := Rs(0, selections.value, info.fieldNode.name);
      var uri := ResolveQueryString(0, resolvido, node);
      r := Success(uri);
    }

    /** findBy: an id lookup, a filtered request (which first replaces
        `filtersResolved` with the groups of the arguments), or a plain
        request; the fetched payload is unwrapped. */
    method FindBy(node: Descriptor, args: Args, info: Info, fetch: string -> Json) returns (r: Result<Answer, Failure>)
      modifies this`filtersResolved
      ensures filtersResolved == FiltersAfter(args, old(filtersResolved))
      ensures r == Respond(RequestUrl(node, args, info, listTypes, filtersResolved), fetch)
    {
      var url: string;
      if HasId(args) && |args| == 1 {
        var resolved := ResolverOData(info, node);
        if resolved.Failure? {
          return Failure(resolved.error);
        }
        url := node.url + "(" + Stringify(Get(args, "id").value) + ")?" + resolved.value;
      } else if !HasId(args) && |args| > 0 {
        filtersResolved := NestedFilters.ResolverFilters(args, 0);
        var resolved := ResolverOData(info, node);
        if resolved.Failure? {
          return Failure(resolved.error);
        }
        var query := FilterFor(filtersResolved, "");
        var uri := node.url + "?" + resolved.value + (if query != "" then "&" else "") + (if query != "" then Filter else "");
        var hasFilter := Contains(uri, "&$filter=");
        if !hasFilter {
          url := node.url + "?" + resolved.value + (if query != "" then "&" else "") + (if query != "" then Filter else "") + query;
        } else {
          var endUri := if query != "" then "AND " + query else "";
          url := node.url + "?" + resolved.value + " " + endUri;
        }
      } else {
        var resolved := ResolverOData(info, node);
        if resolved.Failure? {
          return Failure(resolved.error);
        }
        url := node.url + "?" + resolved.value;
      }
      var json := fetch(url);
      r := match Unwrap(json) case Failure(e) => Failure(e) case Success(v) => Success(Answer(url, v));
    }

    /** resolverODataAndCall: the descriptor serving the field, then findBy;
        a failed dispatch leaves the filter groups as they were. */
    method ResolverODataAndCall(args: Args, info: Option<Info>, fetch: string -> Json) returns (r: Result<Answer, Failure>)
      modifies this`filtersResolved
      ensures Choose(list, info).Failure? ==> r == Failure(Choose(list, info).error) && filtersResolved == old(filtersResolved)
      ensures Choose(list, info).Success? ==>
        && filtersResolved == FiltersAfter(args, old(filtersResolved))
        && r == Respond(RequestUrl(Choose(list, info).value, args, info.value, listTypes, filtersResolved), fetch)
    {
      var node := Choose(list, info);
      if node.Failure? {
        return Failure(node.error);
      }
      r := FindBy(node.value, args, info.value, fetch);
    }
  }
}
