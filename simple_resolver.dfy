/** The resolver class of src/index.ts: the same dispatch and compiler as the
    main variant, without filter groups or list-typed fields, and with the
    flat filter clauses appended to the URL behind `&`. */
module SimpleResolver {
  import opened Wrappers
  import opened Text
  import opened Payload
  import opened Selection
  import opened Arguments
  import opened Dispatch
  import opened Compiler
  import MainResolver

  /** The compiled query text of a request, or the failure of reading the
      selections off a field without a selection set. */
  function Resolved(info: Info, node: Descriptor): Result<string, Failure>
  {
    match Selections(info)
    case Failure(e) => Failure(e)
    case Success(sels) => Success(Compile(0, Tree(0, sels, info.fieldNode.name), node.exclude))
  }

  /** What `resolverFilters` returns: `$filter=` and the clauses joined by one
      space, or nothing when no clause survives. */
  function FiltersText(args: Args): string
  {
    if Clauses(args) == [] then "" else "$filter=" + Join(Clauses(args), " ")
  }

  /** The URL `findBy` requests. The query text is compiled before the shape
      is chosen, so a field without a selection set fails in every shape. */
  function RequestUrl(node: Descriptor, args: Args, info: Info): Result<string, Failure>
  {
    match Resolved(info, node)
    case Failure(e) => Failure(e)
    case Success(resolved) =>
      if IsIdLookup(args) then Success(node.url + "(" + Stringify(Get(args, "id").value) + ")?" + resolved)
      else if IsFiltered(args) then Success(node.url + "?" + resolved + "&" + FiltersText(args))
      else Success(node.url + "?" + resolved)
  }

  /** The filtered shape: the clauses behind `&$filter=`, or a bare trailing
      `&` when every argument name has five or more parts. */
  lemma FilteredUrl(node: Descriptor, args: Args, info: Info)
    requires Resolved(info, node).Success? && !HasId(args)
    ensures Clauses(args) != [] ==>
      RequestUrl(node, args, info) == Success(node.url + "?" + Resolved(info, node).value + "&" + ("$filter=" + Join(Clauses(args), " ")))
    ensures args != [] && Clauses(args) == [] ==>
      RequestUrl(node, args, info) == Success(node.url + "?" + Resolved(info, node).value + "&")
  {
    if args != [] && Clauses(args) == [] {
      assert node.url + "?" + Resolved(info, node).value + "&" + "" == node.url + "?" + Resolved(info, node).value + "&";
    }
  }

  /** The id-lookup shape, and the plain shape taken when `id` is truthy beside
      other keys or when there are no keys: then the arguments play no part. */
  lemma UrlShapes(node: Descriptor, args: Args, info: Info)
    requires Resolved(info, node).Success?
    ensures |args| == 1 && args[0].0 == "id" && Arguments.Truthy(args[0].1) ==>
      RequestUrl(node, args, info) == Success(node.url + "(" + Stringify(args[0].1) + ")?" + Resolved(info, node).value)
    ensures (HasId(args) && |args| != 1) || args == [] ==>
      RequestUrl(node, args, info) == RequestUrl(node, [], info) == Success(node.url + "?" + Resolved(info, node).value)
  {
    IdLookupShape(args);
  }

  /** The argument `documentStatus_eq: "Regular"` is requested as
      `$filter=documentStatus eq 'Regular'` behind `&`. */
  lemma DocumentStatusUrl(node: Descriptor, info: Info)
    requires Resolved(info, node).Success?
    ensures RequestUrl(node, [("documentStatus_eq", Str("Regular"))], info) ==
      Success(node.url + "?" + Resolved(info, node).value + "&" + ("$filter=" + "documentStatus eq 'Regular'"))
  {
    var args := [("documentStatus_eq", Str("Regular"))];
    EqualityClause();
    ClausesCons(args);
    assert args[1..] == [];
    assert Clauses(args) == ["documentStatus eq 'Regular'"];
    assert !HasId(args);
    FilteredUrl(node, args, info);
  }

  /** For id lookups and plain requests the main variant, with no filter groups
      in force and no list-typed fields, requests the same URL as this one. */
  lemma VariantsAgree(node: Descriptor, args: Args, info: Info)
    requires !IsFiltered(args)
    ensures MainResolver.RequestUrl(node, args, info, [], []) == RequestUrl(node, args, info)
  {
    if info.fieldNode.selectionSet.Present? {
      MainResolver.CompileWithoutFilters(0, Tree(0, info.fieldNode.selectionSet.selections, info.fieldNode.name), node.exclude);
    }
  }

  /** resolverODataAndCall and findBy of src/index.ts over the configured
      descriptors. */
  class ApolloODataResolver {
    const list: seq<Descriptor>

    constructor(listNodesAndUrl: seq<Descriptor>)
      ensures list == listNodesAndUrl
    {
      list := listNodesAndUrl;
    }

    /** resolverOData: the selection tree of the requested field, compiled. */
    method ResolverOData(info: Info, node: Descriptor) returns (r: Result<string, Failure>)
      ensures r == Resolved(info, node)
    {
      var selections := Selections(info);
      if selections.Failure? {
        return Failure(selections.error);
      }
      var resolvido := Rs(0, selections.value, info.fieldNode.name);
      var uri := ResolveQueryString(0, resolvido, node.exclude);
      r := Success(uri);
    }

    /** findBy: the query text first, then an id lookup, a filtered request
        or a plain request; the fetched payload is unwrapped. */
    method FindBy(node: Descriptor, args: Args, info: Info, fetch: string -> Json) returns (r: Result<Answer, Failure>)
      ensures r == Respond(RequestUrl(node, args, info), fetch)
    {
      var resolved := ResolverOData(info, node);
      if resolved.Failure? {
        return Failure(resolved.error);
      }
      var url: string;
      if HasId(args) && |args| == 1 {
        url := node.url + "(" + Stringify(Get(args, "id").value) + ")?" + resolved.value;
      } else if !HasId(args) && |args| > 0 {
        var filters := ResolverFilters(args);
        url := node.url + "?" + resolved.value + "&" + filters;
      } else {
        url := node.url + "?" + resolved.value;
      }
      var json := fetch(url);
      r := match Unwrap(json) case Failure(e) => Failure(e) case Success(v) => Success(Answer(url, v));
    }

    /** resolverODataAndCall: the descriptor serving the field, then findBy. */
    method ResolverODataAndCall(args: Args, info: Option<Info>, fetch: string -> Json) returns (r: Result<Answer, Failure>)
      ensures Choose(list, info).Failure? ==> r == Failure(Choose(list, info).error)
      ensures Choose(list, info).Success? ==> r == Respond(RequestUrl(Choose(list, info).value, args, info.value), fetch)
    {
      var node := Choose(list, info);
      if node.Failure? {
        return Failure(node.error);
      }
      r := FindBy(node.value, args, info.value, fetch);
    }
  }
}
