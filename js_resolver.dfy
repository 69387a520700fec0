/** index.js: the module-level registry of descriptors, `resolveAe`, the
    query compiler that writes a default exclusion list onto the descriptor
    it serves, and the classification of HTTP responses by status class. */
module JsResolver {
  import opened Wrappers
  import opened Text
  import opened Payload
  import opened Selection
  import opened Arguments
  import opened Dispatch
  import opened Compiler
  import SimpleResolver

  /** A descriptor object as index.js sees it: `ExcludeFromOData` may be
      missing, and is then written in place. */
  class JsDescriptor {
    const nodes: seq<string>
    const url: string
    var exclude: Option<seq<string>>

    constructor(nodes: seq<string>, exclude: Option<seq<string>>, url: string)
      ensures this.nodes == nodes && this.exclude == exclude && this.url == url
    {
      this.nodes := nodes;
      this.exclude := exclude;
      this.url := url;
    }
  }

  /** `list.find(x => x.nodes.some(item => item == info.fieldName))`, after
      the check for a missing `info`. */
  function JsChoose(list: seq<JsDescriptor>, info: Option<Info>): (r: Result<JsDescriptor, Failure>)
    ensures info.None? ==> r == Failure(Error("Info is null"))
    ensures info.Some? && (forall j :: 0 <= j < |list| ==> !(info.value.fieldName.Some? && info.value.fieldName.value in list[j].nodes)) ==>
      r == Failure(Error("Node not configuration for " + NameText(info.value.fieldName)))
    ensures r.Success? ==>
      && info.Some? && info.value.fieldName.Some?
      && exists i :: 0 <= i < |list| && list[i] == r.value && info.value.fieldName.value in list[i].nodes &&
                     forall j :: 0 <= j < i ==> info.value.fieldName.value !in list[j].nodes
    ensures info.Some? && info.value.fieldName.Some? && (exists j :: 0 <= j < |list| && info.value.fieldName.value in list[j].nodes) ==>
      r.Success?
  {
    if info.None? then Failure(Error("Info is null"))
    else
      var name := info.value.fieldName;
      match First(list, (d: JsDescriptor) => name.Some? && name.value in d.nodes)
      case None => Failure(Error("Node not configuration for " + NameText(name)))
      case Some(i) => Success(list[i])
  }

  /** Registering more descriptors never changes which earlier descriptor
      serves a field that one of them already serves. */
  lemma EarlierRegistrationWins(earlier: seq<JsDescriptor>, later: seq<JsDescriptor>, info: Option<Info>)
    requires JsChoose(earlier, info).Success?
    ensures JsChoose(earlier + later, info) == JsChoose(earlier, info)
  {
    var name := info.value.fieldName;
    var claims := (d: JsDescriptor) => name.Some? && name.value in d.nodes;
    var i := First(earlier, claims).value;
    assert forall j :: 0 <= j <= i ==> (earlier + later)[j] == earlier[j];
    var k := First(earlier + later, claims);
    assert k.Some?;
    assert k.value == i;
  }

  /** The nodes whose children are not `null`, in order. */
  function JsBranches(nodes: seq<JsSel>): (r: seq<JsSel>)
    ensures forall k :: 0 <= k < |r| ==> r[k] in nodes && r[k].children.Children?
  {
    if nodes == [] then []
    else
      var init, last := nodes[..|nodes| - 1], nodes[|nodes| - 1];
      var r := JsBranches(init) + (if last.children.Children? then [last] else []);
      assert forall x :: x in init ==> x in nodes;
      r
  }

  /** The expansion a node contributes, if any. */
  function JsExpansionOf(level: nat, x: JsSel, ex: seq<string>): seq<string>
    decreases x
  {
    match x.children
    case Children(c) => if x.name !in ex then [Wrapped(x.name, JsCompile(level + 1, c, ex))] else []
    case Null => []
  }

  lemma JsExpansionsSnoc(level: nat, nodes: seq<JsSel>, x: JsSel, ex: seq<string>)
    ensures JsExpansions(level, nodes + [x], ex) == JsExpansions(level, nodes, ex) + JsExpansionOf(level, x, ex)
  {
    var s := nodes + [x];
    assert s[..|s| - 1] == nodes && s[|s| - 1] == x;
  }

  /** Leaves contribute no expansion. */
  lemma {:induction false} JsBranchesExpansions(level: nat, nodes: seq<JsSel>, ex: seq<string>)
    ensures JsExpansions(level, JsBranches(nodes), ex) == JsExpansions(level, nodes, ex)
  {
    if nodes != [] {
      var init, last := nodes[..|nodes| - 1], nodes[|nodes| - 1];
      var item := JsExpansionOf(level, last, ex);
      assert JsExpansions(level, nodes, ex) == JsExpansions(level, init, ex) + item by {
        JsExpansionsSnoc(level, init, last, ex);
        assert nodes == init + [last];
      }
      assert JsExpansions(level, JsBranches(nodes), ex) == JsExpansions(level, JsBranches(init), ex) + item by {
        if last.children.Children? {
          assert JsBranches(nodes) == JsBranches(init) + [last];
          JsExpansionsSnoc(level, JsBranches(init), last, ex);
        } else {
          assert JsBranches(nodes) == JsBranches(init);
          assert item == [];
          assert JsExpansions(level, JsBranches(init), ex) + [] == JsExpansions(level, JsBranches(init), ex);
        }
      }
      JsBranchesExpansions(level, init, ex);
    }
  }

  /** Writing one more expansion extends the `$expand=` clause by it. */
  lemma ClauseStep(select: string, level: nat, done: seq<string>, hasExpand: bool, name: string, inner: string)
    requires hasExpand <==> done != []
    ensures select + ExpandClause(level, done + [Wrapped(name, inner)]) ==
      select + ExpandClause(level, done) + ((if hasExpand then "," else Separator(level)) + (if !hasExpand then Expand else "") + name + "(" + inner + ")")
  {
    var lead := if hasExpand then "," else Separator(level) + Expand;
    LeadText(level, hasExpand);
    WrappedAfter(lead, name, inner);
    ExpandClauseSnoc(level, done, Wrapped(name, inner));
    AppendAssoc(select, ExpandClause(level, done), lead + Wrapped(name, inner));
    AppendAssoc(ExpandClause(level, done), lead, Wrapped(name, inner));
  }

  /** resolveQueryString of index.js: a descriptor without `ExcludeFromOData`
      gets an empty list written onto it; then the leaves after `$select=` and
      each branch that is not excluded, compiled one level deeper. */
  method JsResolveQueryString(level: nat, lista: seq<JsSel>, node: JsDescriptor) returns (uri: string)
    modifies node
    ensures node.exclude == Some(old(node.exclude).GetOr([]))
    ensures uri == JsCompile(level, lista, node.exclude.value)
    decreases lista, 1
  {
    if node.exclude.None? {
      node.exclude := Some([]);
    }
    var ex := node.exclude.value;
    var select := Select + Join(JsLeafNames(lista, ex), ",");
    var hasChildrens := JsBranches(lista);
    uri := JsExpandBranches(level, lista, hasChildrens, node, select);
    JsBranchesExpansions(level, lista, ex);
  }

  /** The loop of resolveQueryString over the branches of `lista`: after the
      select text, each branch that is not excluded, behind the separator and
      `$expand=` for the first and a comma for the others. */
  method JsExpandBranches(level: nat, ghost lista: seq<JsSel>, hasChildrens: seq<JsSel>, node: JsDescriptor, select: string)
    returns (uri: string)
    requires node.exclude.Some?
    requires forall k :: 0 <= k < |hasChildrens| ==> hasChildrens[k] in lista && hasChildrens[k].children.Children?
    modifies node
    ensures node.exclude == old(node.exclude)
    ensures uri == select + ExpandClause(level, JsExpansions(level, hasChildrens, node.exclude.value))
    decreases lista, 0
  {
    var ex := node.exclude.value;
    uri := select;
    var hasExpand := false;
    var i := 0;
    ghost var done: seq<string> := [];
    while i < |hasChildrens|
      invariant 0 <= i <= |hasChildrens|
      invariant node.exclude == Some(ex)
      invariant done == JsExpansions(level, hasChildrens[..i], ex)
      invariant uri == select + ExpandClause(level, done)
      invariant hasExpand <==> done != []
    {
      var element := hasChildrens[i];
      TakeSnoc(hasChildrens, i);
      JsExpansionsSnoc(level, hasChildrens[..i], element, ex);
      if element.name in ex {
        assert done + [] == done;
        i := i + 1;
        continue;
      }
      var concat := Separator(level);
      var inner := JsResolveQueryString(level + 1, element.children.nodes, node);
      var child := (if hasExpand then "," else concat) + (if !hasExpand then Expand else "") + element.name + "(" + inner + ")";
      ghost var item := Wrapped(element.name, inner);
      ClauseStep(select, level, done, hasExpand, element.name, inner);
      done := done + [item];
      hasExpand := true;
      uri := uri + child;
      i := i + 1;
    }
    assert hasChildrens[..i] == hasChildrens;
  }

  /** The compiled query text of a request under a given exclusion list. */
  function JsResolved(info: Info, ex: seq<string>): Result<string, Failure>
  {
    match Selections(info)
    case Failure(e) => Failure(e)
    case Success(sels) => Success(JsCompile(0, JsTree(0, sels, info.fieldNode.name), ex))
  }

  /** The URL `_findBy` requests: the same three shapes as src/index.ts. */
  function JsRequestUrl(url: string, ex: seq<string>, args: Args, info: Info): Result<string, Failure>
  {
    match JsResolved(info, ex)
    case Failure(e) => Failure(e)
    case Success(resolved) =>
      if IsIdLookup(args) then Success(url + "(" + Stringify(Get(args, "id").value) + ")?" + resolved)
      else if IsFiltered(args) then Success(url + "?" + resolved + "&" + SimpleResolver.FiltersText(args))
      else Success(url + "?" + resolved)
  }

  /** On a well-formed selection set index.js requests the URL src/index.ts
      requests, for a descriptor whose `ExcludeFromOData` (read by index.js)
      and `excludeFromOData` (read by the TypeScript variants) hold the same
      list `ex`. */
  lemma SameRequest(url: string, ex: seq<string>, nodes: seq<string>, args: Args, info: Info)
    requires info.fieldNode.selectionSet.Present? ==> Proper(info.fieldNode.selectionSet.selections)
    ensures JsRequestUrl(url, ex, args, info) == SimpleResolver.RequestUrl(Descriptor(nodes, ex, url), args, info)
  {
    if info.fieldNode.selectionSet.Present? {
      SameQueryText(info.fieldNode.selectionSet.selections, info.fieldNode.name, ex);
    }
  }

  /** A response of the `fetch` the model is given. */
  datatype Response = Response(status: int, body: Json, url: string)

  /** The fallback message of a failed response. */
  function UnknownStatus(status: int): string
  {
    "Unknown HTTP Status (" + IntToString(status) + ")"
  }

  /** The status switch of `Promise.prototype.Resolver`: classes 2 and 3 give
      the decoded body; any other class fails with an ApolloError carrying the
      status, the decoded error body (class 4 only, `{}` otherwise) and the
      URL, whose message is the body's `error.message` when that is truthy. */
  function Classify(resp: Response): (r: Result<Json, Failure>)
    ensures r.Success? <==> 200 <= resp.status < 400
    ensures r.Success? ==> r.value == resp.body
    ensures !(200 <= resp.status < 500) ==>
      r == Failure(ApolloError(JStr(UnknownStatus(resp.status)), resp.status, JObj([]), resp.url))
    ensures 400 <= resp.status < 500 && resp.body.JNull? ==>
      r == Failure(TypeError("Cannot read property 'error' of null"))
    ensures 400 <= resp.status < 500 && !resp.body.JNull? ==>
      && r.Failure? && r.error.ApolloError? && r.error.code == resp.status
      && r.error.error == resp.body && r.error.request == resp.url
      && (Payload.Present(Member(resp.body, "error")) && Payload.Present(Member(Member(resp.body, "error").value, "message")) ==>
            r.error.text == Member(Member(resp.body, "error").value, "message").value)
      && (!(Payload.Present(Member(resp.body, "error")) && Payload.Present(Member(Member(resp.body, "error").value, "message"))) ==>
            r.error.text == JStr(UnknownStatus(resp.status)))
  {
    var d := resp.status / 100;
    if d == 2 || d == 3 then Success(resp.body)
    else
      var error := if d == 4 then resp.body else JObj([]);
      if error.JNull? then Failure(TypeError("Cannot read property 'error' of null"))
      else
        var msg := if Payload.Present(Member(error, "error")) then Member(Member(error, "error").value, "message") else None;
        var text := if Payload.Present(msg) then msg.value else JStr(UnknownStatus(resp.status));
        Failure(ApolloError(text, resp.status, error, resp.url))
  }

  /** An OData error document answered with status 400 raises its own
      `error.message`, with the document as the error and the status as the
      code. */
  lemma ODataErrorMessage(message: string, url: string)
    requires message != ""
    ensures var body := JObj([("error", JObj([("code", JStr("")), ("message", JStr(message))]))]);
      Classify(Response(400, body, url)) == Failure(ApolloError(JStr(message), 400, body, url))
  {
    var inner := JObj([("code", JStr("")), ("message", JStr(message))]);
    var body := JObj([("error", inner)]);
    assert Member(body, "error") == Some(inner);
    assert "code" != "message" by { assert "code"[0] != "message"[0]; }
    assert inner.members[1..] == [("message", JStr(message))];
    assert Find(inner.members[1..], "message") == Some(JStr(message));
    assert Find(inner.members, "message") == Some(JStr(message));
    assert Member(inner, "message") == Some(JStr(message));
  }

  /** The answer to a request of index.js: a failure before the request
      passes through; otherwise the response is classified and its body
      unwrapped. */
  function JsRespond(request: Result<string, Failure>, fetch: string -> Response): Result<Answer, Failure>
  {
    match request
    case Failure(e) => Failure(e)
    case Success(url) =>
      match Classify(fetch(url))
      case Failure(e) => Failure(e)
      case Success(body) =>
        match Unwrap(body)
        case Failure(e) => Failure(e)
        case Success(v) => Success(Answer(url, v))
  }

  /** The module-level `list` of index.js with `resolverConfiguration` and
      `resolveAe`. */
  class Registry {
    var list: seq<JsDescriptor>

    constructor()
      ensures list == []
    {
      list := [];
    }

    /** resolverConfiguration: appends the descriptors to the module list. */
    method ResolverConfiguration(listNodesAndUrl: seq<JsDescriptor>)
      modifies this
      ensures list == old(list) + listNodesAndUrl
    {
      list := list + listNodesAndUrl;
    }

    /** resolverOData of index.js: the selection tree of the requested field,
        built with `null` leaves, then compiled. */
    static method JsResolverOData(info: Info, node: JsDescriptor) returns (r: Result<string, Failure>)
      modifies node
      ensures Selections(info).Failure? ==> r == Failure(Selections(info).error) && node.exclude == old(node.exclude)
      ensures Selections(info).Success? ==>
        && node.exclude == Some(old(node.exclude).GetOr([]))
        && r == JsResolved(info, node.exclude.value)
    {
      var selections := Selections(info);
      if selections.Failure? {
        return Failure(selections.error);
      }
      var resolvido := JsRs(0, selections.value, info.fieldNode.name);
      var uri := JsResolveQueryString(0, resolvido, node);
      r := Success(uri);
    }

    /** _findBy: the query text first, then one of the three URL shapes; the
        response is classified and unwrapped. */
    static method JsFindBy(node: JsDescriptor, args: Args, info: Info, fetch: string -> Response) returns (r: Result<Answer, Failure>)
      modifies node
      ensures Selections(info).Failure? ==> r == Failure(Selections(info).error) && node.exclude == old(node.exclude)
      ensures Selections(info).Success? ==>
        && node.exclude == Some(old(node.exclude).GetOr([]))
        && r == JsRespond(JsRequestUrl(node.url, node.exclude.value, args, info), fetch)
    {
      var resolved := JsResolverOData(info, node);
      if resolved.Failure? {
        return Failure(resolved.error);
      }
      var url: string;
      if HasId(args) && |args| == 1 {
        url := node.url + "(" + Stringify(Get(args, "id").value) + ")?" + resolved.value;
      } else if !HasId(args) && |args| > 0 {
        var filters := ResolverFilters(args);
        url := node.url + "?" + resolved.value + "&" + filters;
      } else {
        url := node.url + "?" + resolved.value;
      }
      var resp := fetch(url);
      var json := Classify(resp);
      if json.Failure? {
        return Failure(json.error);
      }
      r := match Unwrap(json.value) case Failure(e) => Failure(e) case Success(v) => Success(Answer(url, v));
    }

    /** resolveAe: the first registered descriptor serving the field, then
        _findBy; only that descriptor's exclusion list may change. */
    method ResolveAe(args: Args, info: Option<Info>, fetch: string -> Response) returns (r: Result<Answer, Failure>)
      modifies set d | d in list
      ensures JsChoose(list, info).Failure? ==> r == Failure(JsChoose(list, info).error)
      ensures JsChoose(list, info).Success? && Selections(info.value).Failure? ==>
        && r == Failure(Selections(info.value).error)
        && JsChoose(list, info).value.exclude == old(JsChoose(list, info).value.exclude)
      ensures JsChoose(list, info).Success? && Selections(info.value).Success? ==>
        var d := JsChoose(list, info).value;
        && d.exclude == Some(old(d.exclude).GetOr([]))
        && r == JsRespond(JsRequestUrl(d.url, d.exclude.value, args, info.value), fetch)
      ensures forall d :: d in list && (JsChoose(list, info).Failure? || d != JsChoose(list, info).value) ==> d.exclude == old(d.exclude)
    {
      var node := JsChoose(list, info);
      if node.Failure? {
        return Failure(node.error);
      }
      r := JsFindBy(node.value, args, info.value, fetch);
    }
  }
}
