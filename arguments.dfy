/** The Argument Filter Decomposer as src/index.ts and index.js have it: GraphQL
    arguments whose names carry their operator (`documentStatus_eq`) become
    OData comparison clauses, joined with a single space behind `$filter=`. */
module Arguments {
  import opened Wrappers
  import opened Text

  /** A GraphQL argument value; an object keeps its keys in `Object.keys` order. */
  datatype ArgVal = Str(s: string) | Num(n: int) | Bool(b: bool) | Obj(fields: seq<(string, ArgVal)>)

  /** The `args` object of a resolver call, keys in `Object.keys` order. */
  type Args = seq<(string, ArgVal)>

  /** `args[key]`: the value of the first entry called `key`. */
  function Get(args: Args, key: string): (r: Option<ArgVal>)
    ensures r.None? <==> forall i :: 0 <= i < |args| ==> args[i].0 != key
    ensures r.Some? ==> exists i :: 0 <= i < |args| && args[i] == (key, r.value)
  {
    if args == [] then None
    else if args[0].0 == key then Some(args[0].1)
    else
      var r := Get(args[1..], key);
      assert r.Some? ==> forall i :: 1 <= i < |args| ==> args[i] == args[1..][i - 1];
      r
  }

  /** JavaScript truthiness of an argument value; every object is truthy. */
  predicate Truthy(v: ArgVal)
  {
    match v
    case Str(s) => s != ""
    case Num(n) => n != 0
    case Bool(b) => b
    case Obj(_) => true
  }

  /** `args.id` is truthy. */
  predicate HasId(args: Args)
  {
    Get(args, "id").Some? && Truthy(Get(args, "id").value)
  }

  /** First URL shape: `args.id && Object.keys(args).length === 1`. */
  predicate IsIdLookup(args: Args)
  {
    HasId(args) && |args| == 1
  }

  /** Second URL shape: `!args.id && Object.keys(args).length > 0`. */
  predicate IsFiltered(args: Args)
  {
    !HasId(args) && |args| > 0
  }

  /** The id-lookup shape is taken exactly when `id` is the only argument and
      its value is truthy. */
  lemma IdLookupShape(args: Args)
    ensures IsIdLookup(args) <==> |args| == 1 && args[0].0 == "id" && Truthy(args[0].1)
  {
  }

  /** `${v}`: the text a template literal makes of the value. */
  function Stringify(v: ArgVal): string
  {
    match v
    case Str(s) => s
    case Num(n) => IntToString(n)
    case Bool(b) => if b then "true" else "false"
    case Obj(_) => "[object Object]"
  }

  /** `typeof item === 'string' ? `'${item}'` : item`, as placed in a clause. */
  function Literal(v: ArgVal): string
  {
    if v.Str? then "'" + v.s + "'" else Stringify(v)
  }

  /** The clause one argument contributes: the name is split on every `_`; one
      part means equality, two to four parts are written out space-separated
      before the value, and five or more parts contribute nothing. */
  function Clause(name: string, v: ArgVal): Option<string>
  {
    var arr := Split(name, '_');
    var value := Literal(v);
    if |arr| == 1 then Some(arr[0] + " eq " + value)
    else if |arr| == 2 then Some(arr[0] + " " + arr[1] + " " + value)
    else if |arr| == 3 then Some(arr[0] + " " + arr[1] + " " + arr[2] + " " + value)
    else if |arr| == 4 then Some(arr[0] + " " + arr[1] + " " + arr[2] + " " + arr[3] + " " + value)
    else None
  }

  /** Two to four parts: the parts joined by spaces, then the value. */
  lemma ClauseSpaced(name: string, v: ArgVal)
    requires 2 <= |Split(name, '_')| <= 4
    ensures Clause(name, v) == Some(Join(Split(name, '_'), " ") + " " + Literal(v))
  {
    JoinFew(Split(name, '_'), " ");
  }

  /** What a clause says, stated on the argument name: a name without `_` is
      compared for equality; a name with one to three `_` is written with every
      `_` turned into a space; a name with four or more `_` is dropped. */
  lemma ClauseShape(name: string, v: ArgVal)
    ensures Count(name, '_') == 0 ==> Clause(name, v) == Some(name + " eq " + Literal(v))
    ensures 1 <= Count(name, '_') <= 3 ==> Clause(name, v) == Some(Swap(name, '_', ' ') + " " + Literal(v))
    ensures Clause(name, v).None? <==> Count(name, '_') >= 4
  {
    var arr := Split(name, '_');
    SplitLength(name, '_');
    if |arr| == 1 {
      JoinSplit(name, '_');
    } else if |arr| <= 4 {
      ClauseSpaced(name, v);
      JoinSplitSwap(name, '_', ' ');
    }
  }

  /** The clauses of a flat argument object, in key order; arguments whose name
      has five or more parts leave no trace. */
  function Clauses(args: Args): (r: seq<string>)
    ensures |r| <= |args|
    ensures r == [] <==> forall i :: 0 <= i < |args| ==> Clause(args[i].0, args[i].1).None?
  {
    if args == [] then []
    else
      var rest := Clauses(args[1..]);
      assert forall i :: 1 <= i < |args| ==> args[i] == args[1..][i - 1];
      match Clause(args[0].0, args[0].1)
      case Some(c) => [c] + rest
      case None => rest
  }

  lemma ClausesCons(args: Args)
    requires args != []
    ensures Clauses(args) == (match Clause(args[0].0, args[0].1) case Some(c) => [c] case None => []) + Clauses(args[1..])
  {
  }

  /** One step of the `resolverFilters` loop: pushing argument `i`'s clause,
      if any, moves it from the clauses still to come to those collected. */
  lemma ClausesFrom(args: Args, i: nat, queries: seq<string>, pushed: seq<string>)
    requires i < |args|
    requires pushed == match Clause(args[i].0, args[i].1) case Some(c) => [c] case None => []
    ensures (queries + pushed) + Clauses(args[i + 1..]) == queries + Clauses(args[i..])
  {
    ClausesCons(args[i..]);
    assert args[i..][1..] == args[i + 1..];
  }

  /** The body of the `resolverFilters` loop for one argument: the clause it
      pushes, if any. It is the statement-level twin of `Clause`, which the
      lemmas about clauses are stated on. */
  method ArgumentClause(arg: string, item: ArgVal) returns (pushed: seq<string>)
    ensures pushed == match Clause(arg, item) case Some(c) => [c] case None => []
  {
    var value := Literal(item);
    var arr := Split(arg, '_');
    pushed := [];
    if |arr| == 1 {
      pushed := [arr[0] + " eq " + value];
    } else if |arr| == 2 {
      pushed := [arr[0] + " " + arr[1] + " " + value];
    } else if |arr| == 3 {
      pushed := [arr[0] + " " + arr[1] + " " + arr[2] + " " + value];
    } else if |arr| == 4 {
      pushed := [arr[0] + " " + arr[1] + " " + arr[2] + " " + arr[3] + " " + value];
    }
  }

  /** `resolverFilters` of src/index.ts (identical in index.js as
      `_resolverFilters`): the clauses, joined by one space, behind `$filter=`;
      the empty string when no clause survives. */
  method ResolverFilters(args: Args) returns (r: string)
    ensures Clauses(args) == [] ==> r == ""
    ensures Clauses(args) != [] ==> r == "$filter=" + Join(Clauses(args), " ")
  {
    var queries: seq<string> := [];
    var i := 0;
    while i < |args|
      invariant 0 <= i <= |args|
      invariant queries + Clauses(args[i..]) == Clauses(args)
    {
      var pushed := ArgumentClause(args[i].0, args[i].1);
      ClausesFrom(args, i, queries, pushed);
      queries := queries + pushed;
      i := i + 1;
    }
    assert args[i..] == [];
    assert queries + [] == queries;
    r := if |queries| > 0 then "$filter=" + Join(queries, " ") else "";
  }

  /** A field name and an operator joined by `_` give the clause `field op value`. */
  lemma OperatorClause(field: string, op: string, v: ArgVal)
    requires '_' !in field && '_' !in op
    ensures Clause(field + "_" + op, v) == Some(field + " " + op + " " + Literal(v))
  {
    SplitJoin([field, op], '_');
    JoinCons(field, [op], "_");
  }

  /** Four `_`-free parts keep their order, space-separated, before the value. */
  lemma FourPartClause(a: string, b: string, c: string, d: string, v: ArgVal)
    requires '_' !in a && '_' !in b && '_' !in c && '_' !in d
    ensures Clause(a + "_" + b + "_" + c + "_" + d, v) == Some(a + " " + b + " " + c + " " + d + " " + Literal(v))
  {
    var parts := [a, b, c, d];
    JoinCons(a, [b, c, d], "_");
    JoinCons(b, [c, d], "_");
    JoinCons(c, [d], "_");
    assert [a, b, c, d][1..] == [b, c, d] && [b, c, d][1..] == [c, d];
    assert Join(parts, "_") == a + "_" + b + "_" + c + "_" + d;
    SplitJoin(parts, '_');
  }

  /** A name of five or more `_`-free parts contributes no clause. */
  lemma FivePartsDropped(parts: seq<string>, v: ArgVal)
    requires |parts| >= 5
    requires forall i :: 0 <= i < |parts| ==> '_' !in parts[i]
    ensures Clause(Join(parts, "_"), v).None?
  {
    SplitJoin(parts, '_');
    ClauseOfManyParts(Join(parts, "_"), v);
  }

  lemma ClauseOfManyParts(name: string, v: ArgVal)
    requires |Split(name, '_')| >= 5
    ensures Clause(name, v).None?
  {
  }

  /** The argument `documentStatus_eq: "Regular"` gives the clause
      `documentStatus eq 'Regular'`. */
  lemma EqualityClause()
    ensures Clause("documentStatus_eq", Str("Regular")) == Some("documentStatus eq 'Regular'")
  {
    OperatorClause("documentStatus", "eq", Str("Regular"));
    assert "documentStatus" + "_" + "eq" == "documentStatus_eq";
    assert "documentStatus" + " " + "eq" + " " + Literal(Str("Regular")) == "documentStatus eq 'Regular'";
  }
}
