/** The Nested Filter Grouper of src/ApolloODataResolver.ts: argument objects
    are flattened into filter items that remember the field they belong to,
    the items are grouped by that field in order of first appearance, and
    each group becomes one `AND`-joined filter. */
module NestedFilters {
  import opened Wrappers
  import opened Text
  import opened Arguments

  /** QueryItemFilter: the depth an item was found at, its clause, and the
      field it filters (`""` for the requested entity itself). */
  datatype Item = Item(level: nat, query: string, parent: string)

  /** One entry of `filtersResolved`. */
  datatype FilterGroup = FilterGroup(parent: string, query: string)

  /** The items of an argument object, in key order. */
  function QueryItems(parent: string, args: Args, level: nat): seq<Item>
    decreases args, 1
  {
    if args == [] then []
    else QueryItems(parent, args[..|args| - 1], level) + ArgItems(parent, args[|args| - 1], level)
  }

  /** The items of one argument: an object argument is descended into one
      level deeper, its items filtering `""` when it sits at level 0 and the
      argument's own name further down; any other argument gives the clause
      of its name, if any. */
  function ArgItems(parent: string, arg: (string, ArgVal), level: nat): seq<Item>
    decreases arg, 0
  {
    match arg.1
    case Obj(fields) => QueryItems(if level > 0 then arg.0 else "", fields, level + 1)
    case _ =>
      match Clause(arg.0, arg.1)
      case Some(q) => [Item(level, q, parent)]
      case None => []
  }

  lemma QueryItemsSnoc(parent: string, args: Args, arg: (string, ArgVal), level: nat)
    ensures QueryItems(parent, args + [arg], level) == QueryItems(parent, args, level) + ArgItems(parent, arg, level)
  {
    var s := args + [arg];
    assert s[..|s| - 1] == args && s[|s| - 1] == arg;
  }

  /** resolverQuery: a loop over the keys that appends either the items of a
      nested object, found by recursion, or the clause of the key. */
  method ResolverQuery(parent: string, args: Args, level: nat) returns (queries: seq<Item>)
    ensures queries == QueryItems(parent, args, level)
    decreases Obj(args)
  {
    queries := [];
    var i := 0;
    while i < |args|
      invariant 0 <= i <= |args|
      invariant queries == QueryItems(parent, args[..i], level)
    {
      var arg, item := args[i].0, args[i].1;
      TakeSnoc(args, i);
      QueryItemsSnoc(parent, args[..i], args[i], level);
      var value := Literal(item);
      if item.Obj? {
        var n := level + 1;
        var anotherQueries := ResolverQuery(if level > 0 then arg else "", item.fields, n);
        queries := queries + anotherQueries;
      } else {
        var arr := Split(arg, '_');
        var pushed: seq<Item> := [];
        if |arr| == 1 {
          pushed := [Item(level, arr[0] + " eq " + value, parent)];
        } else if |arr| == 2 {
          pushed := [Item(level, arr[0] + " " + arr[1] + " " + value, parent)];
        } else if |arr| == 3 {
          pushed := [Item(level, arr[0] + " " + arr[1] + " " + arr[2] + " " + value, parent)];
        } else if |arr| == 4 {
          pushed := [Item(level, arr[0] + " " + arr[1] + " " + arr[2] + " " + arr[3] + " " + value, parent)];
        }
        assert pushed == ArgItems(parent, args[i], level);
        queries := queries + pushed;
      }
      i := i + 1;
    }
    assert args[..i] == args;
  }

  /** Every item lies at the call's level or deeper; those at the call's level
      filter the call's parent; and from a top-level call, the items of an
      object argument found at level 1 filter `""`, like the top-level ones. */
  lemma {:induction false} ItemLevels(parent: string, args: Args, level: nat)
    ensures forall it :: it in QueryItems(parent, args, level) ==>
      && it.level >= level
      && (it.level == level ==> it.parent == parent)
      && (level == 0 && it.level == 1 ==> it.parent == "")
    decreases args, 1
  {
    if args != [] {
      ItemLevels(parent, args[..|args| - 1], level);
      ArgLevels(parent, args[|args| - 1], level);
    }
  }

  lemma {:induction false} ArgLevels(parent: string, arg: (string, ArgVal), level: nat)
    ensures forall it :: it in ArgItems(parent, arg, level) ==>
      && it.level >= level
      && (it.level == level ==> it.parent == parent)
      && (level == 0 && it.level == 1 ==> it.parent == "")
      && (arg.1.Obj? && level > 0 && it.level == level + 1 ==> it.parent == arg.0)
    decreases arg, 0
  {
    match arg.1
    case Obj(fields) =>
      ItemLevels(if level > 0 then arg.0 else "", fields, level + 1);
    case _ =>
  }

  /** The field an item filters: the key `groupBy` is called with. */
  function ParentOf(it: Item): string
  {
    it.parent
  }

  /** The distinct keys of `list`, in order of first appearance. */
  function Keys<T>(list: seq<T>, key: T -> string): seq<string>
  {
    if list == [] then []
    else
      var init := Keys(list[..|list| - 1], key);
      var k := key(list[|list| - 1]);
      if k in init then init else init + [k]
  }

  /** The elements of `list` whose key is `k`, in order. */
  function Bucket<T>(list: seq<T>, key: T -> string, k: string): seq<T>
  {
    if list == [] then []
    else Bucket(list[..|list| - 1], key, k) + (if key(list[|list| - 1]) == k then [list[|list| - 1]] else [])
  }

  /** `Array.from(map)` after `groupBy`: one entry per key, in order of first
      appearance, with the elements carrying that key. */
  function Grouped<T>(list: seq<T>, key: T -> string): seq<(string, seq<T>)>
  {
    var keys := Keys(list, key);
    seq(|keys|, j requires 0 <= j < |keys| => (keys[j], Bucket(list, key, keys[j])))
  }

  lemma KeysSnoc<T>(list: seq<T>, x: T, key: T -> string)
    ensures Keys(list + [x], key) == if key(x) in Keys(list, key) then Keys(list, key) else Keys(list, key) + [key(x)]
  {
    assert (list + [x])[..|list|] == list;
  }

  lemma BucketSnoc<T>(list: seq<T>, x: T, key: T -> string, k: string)
    ensures Bucket(list + [x], key, k) == Bucket(list, key, k) + (if key(x) == k then [x] else [])
  {
    assert (list + [x])[..|list|] == list;
  }

  /** A key is listed exactly when some element carries it, and only once. */
  lemma {:induction false} KeysMembers<T>(list: seq<T>, key: T -> string)
    ensures forall k :: k in Keys(list, key) <==> exists i :: 0 <= i < |list| && key(list[i]) == k
    ensures forall i, j :: 0 <= i < j < |Keys(list, key)| ==> Keys(list, key)[i] != Keys(list, key)[j]
  {
    if list != [] {
      var init := list[..|list| - 1];
      KeysMembers(init, key);
      assert forall i :: 0 <= i < |init| ==> init[i] == list[i];
    }
  }

  /** The first element carrying `a` comes before every element carrying `b`. */
  ghost predicate SeenBefore<T>(list: seq<T>, key: T -> string, a: string, b: string)
  {
    exists p :: 0 <= p < |list| && key(list[p]) == a && forall q :: 0 <= q <= p ==> key(list[q]) != b
  }

  lemma SeenBeforeSnoc<T>(list: seq<T>, x: T, key: T -> string, a: string, b: string)
    requires SeenBefore(list, key, a, b)
    ensures SeenBefore(list + [x], key, a, b)
  {
    var p :| 0 <= p < |list| && key(list[p]) == a && forall q :: 0 <= q <= p ==> key(list[q]) != b;
    assert forall q :: 0 <= q <= p ==> (list + [x])[q] == list[q];
  }

  lemma SeenBeforeNew<T>(list: seq<T>, x: T, key: T -> string, p: nat)
    requires p < |list|
    requires forall q :: 0 <= q < |list| ==> key(list[q]) != key(x)
    ensures SeenBefore(list + [x], key, key(list[p]), key(x))
  {
    assert forall q :: 0 <= q <= p ==> (list + [x])[q] == list[q];
  }

  /** The keys are listed in order of first appearance: of two listed keys,
      the earlier one is carried by some element before any element carries
      the later one. */
  lemma {:induction false} KeysOrder<T>(list: seq<T>, key: T -> string)
    ensures forall i, j :: 0 <= i < j < |Keys(list, key)| ==> SeenBefore(list, key, Keys(list, key)[i], Keys(list, key)[j])
  {
    if list != [] {
      var init, x := list[..|list| - 1], list[|list| - 1];
      assert list == init + [x];
      var before, after := Keys(init, key), Keys(list, key);
      KeysOrder(init, key);
      KeysSnoc(init, x, key);
      forall i, j | 0 <= i < j < |after|
        ensures SeenBefore(list, key, after[i], after[j])
      {
        if j < |before| {
          SeenBeforeSnoc(init, x, key, before[i], before[j]);
        } else {
          assert after == before + [key(x)];
          assert after[i] in before && key(x) !in before;
          KeysMembers(init, key);
          var p :| 0 <= p < |init| && key(init[p]) == after[i];
          SeenBeforeNew(init, x, key, p);
        }
      }
    }
  }

  /** A bucket holds elements of the list carrying its key, and it is empty
      exactly when no element carries the key. */
  lemma {:induction false} BucketMembers<T>(list: seq<T>, key: T -> string, k: string)
    ensures forall x :: x in Bucket(list, key, k) ==> x in list && key(x) == k
    ensures Bucket(list, key, k) == [] <==> forall i :: 0 <= i < |list| ==> key(list[i]) != k
  {
    if list != [] {
      var init := list[..|list| - 1];
      BucketMembers(init, key, k);
      assert forall i :: 0 <= i < |init| ==> init[i] == list[i];
    }
  }

  /** The state of `groupBy` after a prefix of the list: `order` lists the
      keys of the map in insertion order, and each key maps to its bucket. */
  ghost predicate Tabled<T>(m: map<string, seq<T>>, order: seq<string>, list: seq<T>, key: T -> string)
  {
    && order == Keys(list, key)
    && (forall k :: k in m <==> k in order)
    && (forall k :: k in m ==> m[k] == Bucket(list, key, k))
  }

  /** One step of `groupBy` keeps the map in step with one more element. */
  lemma TabledSnoc<T>(m: map<string, seq<T>>, order: seq<string>, list: seq<T>, x: T, key: T -> string)
    requires Tabled(m, order, list, key)
    ensures key(x) !in m ==> Tabled(m[key(x) := [x]], order + [key(x)], list + [x], key)
    ensures key(x) in m ==> Tabled(m[key(x) := m[key(x)] + [x]], order, list + [x], key)
  {
    KeysSnoc(list, x, key);
    if key(x) !in m {
      var m' := m[key(x) := [x]];
      forall k | k in m'
        ensures m'[k] == Bucket(list + [x], key, k)
      {
        if k == key(x) {
          BucketNew(list, x, key);
        } else {
          BucketSnoc(list, x, key, k);
        }
      }
    } else {
      var m' := m[key(x) := m[key(x)] + [x]];
      forall k | k in m'
        ensures m'[k] == Bucket(list + [x], key, k)
      {
        BucketSnoc(list, x, key, k);
      }
    }
  }

  /** The first element carrying a key starts that key's bucket. */
  lemma BucketNew<T>(list: seq<T>, x: T, key: T -> string)
    requires key(x) !in Keys(list, key)
    ensures Bucket(list + [x], key, key(x)) == [x]
  {
    KeysMembers(list, key);
    BucketMembers(list, key, key(x));
    BucketSnoc(list, x, key, key(x));
  }

  /** `groupBy`: a map from key to bucket, filled in one pass; a new key gets a
      one-element bucket, a known key has the element appended to its bucket.
      The entries come back in insertion order, as `Array.from(map)` gives them. */
  method GroupBy<T>(list: seq<T>, key: T -> string) returns (grouped: seq<(string, seq<T>)>)
    ensures grouped == Grouped(list, key)
  {
    var m: map<string, seq<T>> := map[];
    var order: seq<string> := [];
    var i := 0;
    while i < |list|
      invariant 0 <= i <= |list|
      invariant Tabled(m, order, list[..i], key)
    {
      var item := list[i];
      TakeSnoc(list, i);
      TabledSnoc(m, order, list[..i], item, key);
      var k := key(item);
      if k !in m {
        m := m[k := [item]];
        order := order + [k];
      } else {
        m := m[k := m[k] + [item]];
      }
      i := i + 1;
    }
    assert list[..i] == list;
    grouped := seq(|order|, j requires 0 <= j < |order| => (order[j], m[order[j]]));
  }

  /** The clause texts of some items. */
  function Queries(items: seq<Item>): (r: seq<string>)
    ensures |r| == |items|
  {
    seq(|items|, i requires 0 <= i < |items| => items[i].query)
  }

  /** `resolverFilters`' map chain: one group per field, in order of first
      appearance, holding that field's clauses joined with ` AND `. */
  function FilterGroups(items: seq<Item>): seq<FilterGroup>
  {
    var keys := Keys(items, ParentOf);
    seq(|keys|, j requires 0 <= j < |keys| => FilterGroup(keys[j], Join(Queries(Bucket(items, ParentOf, keys[j])), " AND ")))
  }

  /** `resolverFilters` of src/ApolloODataResolver.ts: the items of the
      arguments, grouped by the field they filter, each group collapsed into
      one filter named after the parent of its first item. */
  method ResolverFilters(args: Args, level: nat) returns (r: seq<FilterGroup>)
    ensures r == FilterGroups(QueryItems("", args, level))
  {
    var p := ResolverQuery("", args, level);
    var grouped := GroupBy(p, ParentOf);
    KeysMembers(p, ParentOf);
    forall j | 0 <= j < |grouped|
      ensures grouped[j].1 != [] && grouped[j].1[0].parent == grouped[j].0
    {
      var keys := Keys(p, ParentOf);
      assert grouped[j] == (keys[j], Bucket(p, ParentOf, keys[j]));
      assert keys[j] in keys;
      BucketMembers(p, ParentOf, keys[j]);
      assert grouped[j].1[0] in grouped[j].1;
    }
    r := seq(|grouped|, j requires 0 <= j < |grouped| => FilterGroup(grouped[j].1[0].parent, Join(Queries(grouped[j].1), " AND ")));
  }

  /** The groups name distinct fields, and every field some item filters has
      its group. */
  lemma GroupParents(items: seq<Item>)
    ensures forall i, j :: 0 <= i < j < |FilterGroups(items)| ==> FilterGroups(items)[i].parent != FilterGroups(items)[j].parent
    ensures forall it :: it in items ==> exists j :: 0 <= j < |FilterGroups(items)| && FilterGroups(items)[j].parent == it.parent
  {
    KeysMembers(items, ParentOf);
    var keys := Keys(items, ParentOf);
    forall it | it in items
      ensures exists j :: 0 <= j < |FilterGroups(items)| && FilterGroups(items)[j].parent == it.parent
    {
      var i :| 0 <= i < |items| && items[i] == it;
      assert ParentOf(items[i]) == it.parent;
      assert it.parent in keys;
      var j :| 0 <= j < |keys| && keys[j] == it.parent;
      assert FilterGroups(items)[j].parent == it.parent;
    }
  }

  /** `filtersResolved.filter(x => x.parent === p)`: the query of the first
      group for `p`, or `''` when there is none. */
  function FilterFor(groups: seq<FilterGroup>, p: string): string
  {
    if groups == [] then ""
    else if groups[0].parent == p then groups[0].query
    else FilterFor(groups[1..], p)
  }

  lemma {:induction false} FilterForAt(groups: seq<FilterGroup>, j: nat)
    requires j < |groups|
    requires forall i :: 0 <= i < j ==> groups[i].parent != groups[j].parent
    ensures FilterFor(groups, groups[j].parent) == groups[j].query
  {
    if j > 0 {
      FilterForAt(groups[1..], j - 1);
    }
  }

  lemma {:induction false} FilterForNone(groups: seq<FilterGroup>, p: string)
    requires forall i :: 0 <= i < |groups| ==> groups[i].parent != p
    ensures FilterFor(groups, p) == ""
  {
    if groups != [] {
      FilterForNone(groups[1..], p);
    }
  }

  /** Looking a field up among the groups gives all of that field's clauses
      joined with ` AND `, and `''` for a field no item filters. */
  lemma GroupQuery(items: seq<Item>, p: string)
    ensures (exists i :: 0 <= i < |items| && items[i].parent == p) ==>
      FilterFor(FilterGroups(items), p) == Join(Queries(Bucket(items, ParentOf, p)), " AND ")
    ensures (forall i :: 0 <= i < |items| ==> items[i].parent != p) ==> FilterFor(FilterGroups(items), p) == ""
  {
    KeysMembers(items, ParentOf);
    var keys := Keys(items, ParentOf);
    var groups := FilterGroups(items);
    if exists i :: 0 <= i < |items| && items[i].parent == p {
      var i :| 0 <= i < |items| && items[i].parent == p;
      assert ParentOf(items[i]) == p;
      assert p in keys;
      var j :| 0 <= j < |keys| && keys[j] == p;
      FilterForAt(groups, j);
    } else {
      forall j | 0 <= j < |groups|
        ensures groups[j].parent != p
      {
        assert keys[j] in keys;
      }
      FilterForNone(groups, p);
    }
  }

  /** No argument holds an object. */
  predicate Flat(args: Args)
  {
    forall i :: 0 <= i < |args| ==> !args[i].1.Obj?
  }

  lemma {:induction false} ClausesSnoc(args: Args, arg: (string, ArgVal))
    ensures Clauses(args + [arg]) == Clauses(args) + (match Clause(arg.0, arg.1) case Some(c) => [c] case None => [])
  {
    if args == [] {
      assert [arg][1..] == [];
    } else {
      ClausesCons(args + [arg]);
      assert (args + [arg])[1..] == args[1..] + [arg];
      ClausesSnoc(args[1..], arg);
      ClausesCons(args);
    }
  }

  /** On flat arguments the main variant finds the same clauses, in the same
      order, as the flat decomposer of src/index.ts, all at the call's level
      and filtering the call's parent. */
  lemma {:induction false} FlatItems(parent: string, args: Args, level: nat)
    requires Flat(args)
    ensures Queries(QueryItems(parent, args, level)) == Clauses(args)
    ensures forall it :: it in QueryItems(parent, args, level) ==> it.parent == parent && it.level == level
  {
    if args != [] {
      var init, last := args[..|args| - 1], args[|args| - 1];
      assert args == init + [last];
      FlatItems(parent, init, level);
      ClausesSnoc(init, last);
      var items := QueryItems(parent, init, level);
      var more := ArgItems(parent, last, level);
      assert Queries(items + more) == Queries(items) + Queries(more);
    }
  }

  lemma {:induction false} KeysUniform(items: seq<Item>, p: string)
    requires items != []
    requires forall i :: 0 <= i < |items| ==> items[i].parent == p
    ensures Keys(items, ParentOf) == [p]
    ensures Bucket(items, ParentOf, p) == items
  {
    var init := items[..|items| - 1];
    assert items == init + [items[|items| - 1]];
    if init != [] {
      KeysUniform(init, p);
    }
  }

  /** Flat arguments with at least one surviving clause make a single
      top-level group whose query joins all clauses with ` AND `, where
      src/index.ts joins them with one space. */
  lemma FlatGroups(args: Args)
    requires Flat(args) && Clauses(args) != []
    ensures FilterGroups(QueryItems("", args, 0)) == [FilterGroup("", Join(Clauses(args), " AND "))]
  {
    var items := QueryItems("", args, 0);
    FlatItems("", args, 0);
    assert forall i :: 0 <= i < |items| ==> items[i] in items;
    KeysUniform(items, "");
  }
}
