/** The Filter-Input Schema Generator of src/ApolloODataResolver.ts: the
    filter fields an object type's fields contribute to its `<Type>Filter`
    input type. */
module Schema {
  import opened Wrappers
  import opened Text
  import opened Payload

  /** A GraphQL type reference: a named type, possibly wrapped in non-null and
      list markers. */
  datatype TypeNode = Named(name: string) | NonNull(inner: TypeNode) | ListOf(inner: TypeNode)

  /** A field definition of an object type. */
  datatype FieldDef = FieldDef(name: string, typ: TypeNode)

  /** One wrapper around a type reference. */
  datatype Marker = NonNullMarker | ListMarker

  /** The scalar types that get comparison filters. */
  const TypesQl: seq<string> := ["DateTime", "Float", "Boolean", "ID", "Int", "String"]

  /** `CastTypes`: the named type under all wrappers. */
  function CastTypes(t: TypeNode): string
  {
    match t
    case Named(n) => n
    case NonNull(inner) => CastTypes(inner)
    case ListOf(inner) => CastTypes(inner)
  }

  /** `t` wrapped in `markers`, the outermost first. */
  function Wrap(markers: seq<Marker>, t: TypeNode): TypeNode
  {
    if markers == [] then t
    else
      var inner := Wrap(markers[1..], t);
      if markers[0].NonNullMarker? then NonNull(inner) else ListOf(inner)
  }

  /** The wrappers of a type reference, the outermost first. */
  function Markers(t: TypeNode): seq<Marker>
  {
    match t
    case Named(_) => []
    case NonNull(inner) => [NonNullMarker] + Markers(inner)
    case ListOf(inner) => [ListMarker] + Markers(inner)
  }

  /** Every type reference is its named type under its wrappers. */
  lemma {:induction false} CastTypesDecomposes(t: TypeNode)
    ensures t == Wrap(Markers(t), Named(CastTypes(t)))
  {
    match t
    case Named(_) =>
    case NonNull(inner) =>
      CastTypesDecomposes(inner);
      assert ([NonNullMarker] + Markers(inner))[1..] == Markers(inner);
    case ListOf(inner) =>
      CastTypesDecomposes(inner);
      assert ([ListMarker] + Markers(inner))[1..] == Markers(inner);
  }

  /** Whatever the wrappers, `CastTypes` finds the named type they wrap. */
  lemma {:induction false} CastTypesStrips(markers: seq<Marker>, n: string)
    ensures CastTypes(Wrap(markers, Named(n))) == n
  {
    if markers != [] {
      CastTypesStrips(markers[1..], n);
    }
  }

  /** The indentation before the comment line of a template: one space for
      DateTime, Float, Boolean and ID, two for Int and String. */
  function Lead(typ: string): string
  {
    if typ == "Int" || typ == "String" then "  " else " "
  }

  /** The comment line of a template. */
  function Header(typ: string): string
  {
    Lead(typ) + "# " + typ + " filters"
  }

  /** The equality and inequality filter lines of a template. */
  function EqLine(name: string, typ: string): string
  {
    "  " + name + ": " + typ + " # matches all nodes with exact value"
  }

  function NeLine(name: string, typ: string): string
  {
    "  " + name + "_ne: " + typ + " # matches all nodes with different value"
  }

  /** `replace`: the filter lines of a field of a scalar type; any other type
      is an error. */
  function Replace(name: string, typ: string): (r: Result<string, Failure>)
    ensures r.Success? <==> typ in TypesQl
    ensures r.Failure? ==> r.error == Error("erro na criação dos fields")
  {
    if typ in TypesQl then Success(Header(typ) + "\n" + EqLine(name, typ) + "\n" + NeLine(name, typ))
    else Failure(Error("erro na criação dos fields"))
  }

  /** Three newline-free lines joined by newlines split back into those lines. */
  lemma ThreeLines(a: string, b: string, c: string)
    requires '\n' !in a && '\n' !in b && '\n' !in c
    ensures Split(a + "\n" + b + "\n" + c, '\n') == [a, b, c]
  {
    SplitWithout(c, '\n');
    SplitAfter(b, '\n', c);
    assert a + "\n" + b + "\n" + c == a + ['\n'] + (b + ['\n'] + c);
    SplitAfter(a, '\n', b + ['\n'] + c);
  }

  lemma ScalarNoNewline(typ: string)
    requires typ in TypesQl
    ensures '\n' !in typ && '\n' !in Lead(typ)
  {
  }

  lemma HeaderNoNewline(typ: string)
    requires typ in TypesQl
    ensures '\n' !in Header(typ)
  {
    ScalarNoNewline(typ);
  }

  lemma EqLineNoNewline(name: string, typ: string)
    requires typ in TypesQl && '\n' !in name
    ensures '\n' !in EqLine(name, typ)
  {
    ScalarNoNewline(typ);
    NoNewlineIn("  ", name, ": ", typ, " # matches all nodes with exact value");
  }

  lemma NeLineNoNewline(name: string, typ: string)
    requires typ in TypesQl && '\n' !in name
    ensures '\n' !in NeLine(name, typ)
  {
    ScalarNoNewline(typ);
    NoNewlineIn("  ", name, "_ne: ", typ, " # matches all nodes with different value");
  }

  lemma NoNewlineIn(a: string, b: string, c: string, d: string, e: string)
    requires '\n' !in a && '\n' !in b && '\n' !in c && '\n' !in d && '\n' !in e
    ensures '\n' !in a + b + c + d + e
  {
  }

  /** A scalar field's text is three lines: the comment, then the filters on
      `name` and on `name_ne`, both of the field's type. */
  lemma ReplaceLines(name: string, typ: string)
    requires typ in TypesQl && '\n' !in name
    ensures Replace(name, typ).Success?
    ensures Split(Replace(name, typ).value, '\n') == [Header(typ), EqLine(name, typ), NeLine(name, typ)]
  {
    HeaderNoNewline(typ);
    EqLineNoNewline(name, typ);
    NeLineNoNewline(name, typ);
    ThreeLines(Header(typ), EqLine(name, typ), NeLine(name, typ));
  }

  /** The filter entry of one field: enum fields first, then scalar fields,
      and every other field filters by its type's own filter input. */
  function FieldLine(f: FieldDef, enums: seq<string>): string
  {
    var typ := CastTypes(f.typ);
    if typ in enums then f.name + ": " + typ
    else if typ in TypesQl then Replace(f.name, typ).value
    else f.name + ": " + typ + "Filter"
  }

  /** A field of a scalar type that is not also an enum name contributes the
      three lines of its template, whatever wrappers its type carries. */
  lemma FieldLineScalar(f: FieldDef, enums: seq<string>)
    requires CastTypes(f.typ) !in enums && CastTypes(f.typ) in TypesQl && '\n' !in f.name
    ensures Split(FieldLine(f, enums), '\n') == [Header(CastTypes(f.typ)), EqLine(f.name, CastTypes(f.typ)), NeLine(f.name, CastTypes(f.typ))]
  {
    ReplaceLines(f.name, CastTypes(f.typ));
  }

  /** The entries of a list of fields: one per field not excluded, in order. */
  function SchemaLines(fields: seq<FieldDef>, exclude: seq<string>, enums: seq<string>): seq<string>
  {
    if fields == [] then []
    else
      var last := fields[|fields| - 1];
      SchemaLines(fields[..|fields| - 1], exclude, enums) + (if last.name in exclude then [] else [FieldLine(last, enums)])
  }

  lemma SchemaLinesSnoc(fields: seq<FieldDef>, f: FieldDef, exclude: seq<string>, enums: seq<string>)
    ensures SchemaLines(fields + [f], exclude, enums) == SchemaLines(fields, exclude, enums) + (if f.name in exclude then [] else [FieldLine(f, enums)])
  {
    assert (fields + [f])[..|fields|] == fields;
  }

  /** The fields not excluded, in order. */
  function KeptFields(fields: seq<FieldDef>, exclude: seq<string>): seq<FieldDef>
  {
    if fields == [] then []
    else
      var last := fields[|fields| - 1];
      KeptFields(fields[..|fields| - 1], exclude) + (if last.name in exclude then [] else [last])
  }

  /** Exclusion drops whole fields: the entries are those of the kept fields,
      one each, in the same order. */
  lemma {:induction false} SchemaLinesKept(fields: seq<FieldDef>, exclude: seq<string>, enums: seq<string>)
    ensures |SchemaLines(fields, exclude, enums)| == |KeptFields(fields, exclude)|
    ensures forall i :: 0 <= i < |KeptFields(fields, exclude)| ==>
      KeptFields(fields, exclude)[i].name !in exclude &&
      SchemaLines(fields, exclude, enums)[i] == FieldLine(KeptFields(fields, exclude)[i], enums)
  {
    if fields != [] {
      SchemaLinesKept(fields[..|fields| - 1], exclude, enums);
    }
  }

  /** `ResolverNamesSchema`: appends the entry of every field not excluded to
      the caller's list. */
  method ResolverNamesSchema(fields: seq<FieldDef>, exclude: seq<string>, enums: seq<string>, listTypes: seq<string>)
    returns (lines: seq<string>)
    ensures lines == listTypes + SchemaLines(fields, exclude, enums)
  {
    lines := listTypes;
    var i := 0;
    while i < |fields|
      invariant 0 <= i <= |fields|
      invariant lines == listTypes + SchemaLines(fields[..i], exclude, enums)
    {
      var field := fields[i];
      TakeSnoc(fields, i);
      SchemaLinesSnoc(fields[..i], field, exclude, enums);
      var fieldName := field.name;
      var typ := CastTypes(field.typ);
      if fieldName !in exclude {
        var isPrimitive := typ in TypesQl;
        var isEnum := typ in enums;
        if isEnum {
          lines := lines + [fieldName + ": " + typ];
        } else if isPrimitive {
          var text := Replace(fieldName, typ);
          lines := lines + [text.value];
        } else {
          lines := lines + [fieldName + ": " + typ + "Filter"];
        }
      }
      i := i + 1;
    }
    assert fields[..i] == fields;
  }
}
