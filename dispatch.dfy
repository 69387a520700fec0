/** Descriptor dispatch: the configured descriptors, the part of the GraphQL
    resolve info the resolvers read, and the choice of the descriptor that
    serves a field. */
module Dispatch {
  import opened Wrappers
  import opened Payload
  import opened Selection

  /** ODataResolver (src/data-struct/index.ts): the field names a descriptor
      serves, the names kept out of the query, and the entity-set URL. */
  datatype Descriptor = Descriptor(nodes: seq<string>, exclude: seq<string>, url: string)

  /** The resolve info: `info.fieldName` (`None` when it is missing) and
      `info.fieldNodes[0]`, the requested field with its selection set. */
  datatype Info = Info(fieldName: Option<string>, fieldNode: Field)

  /** `list.findIndex(claims)`: the position of the first element satisfying `claims`. */
  function First<T>(list: seq<T>, claims: T -> bool): (r: Option<nat>)
    ensures r.Some? ==> r.value < |list| && claims(list[r.value])
    ensures r.Some? ==> forall j :: 0 <= j < r.value ==> !claims(list[j])
    ensures r.None? <==> forall j :: 0 <= j < |list| ==> !claims(list[j])
  {
    if list == [] then None
    else if claims(list[0]) then Some(0)
    else
      match First(list[1..], claims)
      case None => None
      case Some(i) =>
        assert forall j :: 1 <= j <= i ==> list[j] == list[1..][j - 1];
        Some(i + 1)
  }

  /** `x.nodes.some(item => item === info.fieldName)`; a missing field name
      matches nothing. */
  predicate Serves(d: Descriptor, fieldName: Option<string>)
  {
    fieldName.Some? && fieldName.value in d.nodes
  }

  /** `${info.fieldName}`: a missing field name prints as `undefined`. */
  function NameText(fieldName: Option<string>): string
  {
    fieldName.GetOr("undefined")
  }

  /** The dispatch of `resolverODataAndCall` (src/ApolloODataResolver.ts and
      src/index.ts alike): a null `info` fails, otherwise the first descriptor
      serving the field is chosen, and none serving it fails with the field's
      name in the message. */
  function Choose(list: seq<Descriptor>, info: Option<Info>): (r: Result<Descriptor, Failure>)
    ensures info.None? ==> r == Failure(Error("Info is null"))
    ensures info.Some? && (forall j :: 0 <= j < |list| ==> !Serves(list[j], info.value.fieldName)) ==>
      r == Failure(Error("Node not configuration for " + NameText(info.value.fieldName)))
    ensures r.Success? ==> info.Some? && exists i :: 0 <= i < |list| && list[i] == r.value && Serves(list[i], info.value.fieldName) &&
                                                   forall j :: 0 <= j < i ==> !Serves(list[j], info.value.fieldName)
    ensures info.Some? && (exists j :: 0 <= j < |list| && Serves(list[j], info.value.fieldName)) ==> r.Success?
  {
    if info.None? then Failure(Error("Info is null"))
    else
      var name := info.value.fieldName;
      match First(list, d => Serves(d, name))
      case None => Failure(Error("Node not configuration for " + NameText(name)))
      case Some(i) => Success(list[i])
  }

  /** Of two descriptors serving the same field, the one configured first wins,
      whatever follows it. */
  lemma EarlierWins(before: seq<Descriptor>, d: Descriptor, after: seq<Descriptor>, info: Info)
    requires Serves(d, info.fieldName)
    requires forall j :: 0 <= j < |before| ==> !Serves(before[j], info.fieldName)
    ensures Choose(before + [d] + after, Some(info)) == Success(d)
  {
    var list := before + [d] + after;
    var i := First(list, x => Serves(x, info.fieldName));
    assert list[|before|] == d;
    assert forall j :: 0 <= j < |before| ==> list[j] == before[j];
  }

  /** `info.fieldNodes[0].selectionSet.selections`: reading it off a field
      without a selection set throws. */
  function Selections(info: Info): (r: Result<seq<Field>, Failure>)
    ensures r.Success? <==> info.fieldNode.selectionSet.Present?
    ensures r.Success? ==> r.value == info.fieldNode.selectionSet.selections
  {
    match info.fieldNode.selectionSet
    case Absent => Failure(TypeError("Cannot read property 'selections' of undefined"))
    case Present(s) => Success(s)
  }
}
