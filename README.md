# apollo-odata-resolver in Dafny

A model of the query compiler of `apollo-odata-resolver`. The library serves
a GraphQL field from an OData v4 endpoint in four steps:

- It picks the descriptor that serves the field.
- It turns the field's selection set into a tree of selected names.
- It compiles that tree into `$select=`/`$expand=` text, honouring the descriptor's exclusion list.
- It turns the GraphQL arguments into filter clauses, assembles one of three URL shapes, and unwraps the OData payload.

The library ships three variants of this pipeline, and each has its own module:

- `MainResolver` models `src/ApolloODataResolver.ts`.
  - It covers nested filter arguments and grouping (`NestedFilters`).
  - It covers filters attached to `$expand` branches, and list-typed fields.
  - The `filtersResolved` instance field is a class field: only the filter branch of `findBy` writes it, but every compilation reads it.
  - Its filter-input schema generator is `Schema`.
- `SimpleResolver` models `src/index.ts`, the plain compiler (`Compiler`) with flat filter clauses joined by a space.
- `JsResolver` models `index.js`:
  - the module-level registry;
  - the compiler that writes a default `ExcludeFromOData` onto the descriptor in place;
  - the classification of HTTP responses by status class.

Shared pieces:

- `Text`: JavaScript's `join`, `split`, `includes`, first-occurrence `replace` and integer rendering.
- `Payload`: JSON values, truthiness, the thrown errors and the payload unwrap.
- `Selection`: the GraphQL selection AST and `rs`.
- `Arguments`: argument values and the flat clause decomposer.
- `Dispatch`: descriptors and `find`.
- `Wrappers`: `Option` and `Result`.

The URLs are those the code builds; the OData URL conventions (sections
5.1.1–5.1.3 and 4.3 of OData Version 4.0 Part 2) are not checked against.

Behaviours of the code worth knowing:

- The filtered URL of `src/ApolloODataResolver.ts` has no `$filter=` keyword: top-level clauses follow the query text after ` AND `.
- `src/index.ts` and `index.js` join clauses with one space.
- A nested `$expand` is introduced by `;$expand=`.
- The variants read differently-cased exclusion keys: `index.js` reads and defaults `ExcludeFromOData` (index.js:93-102), while `src/index.ts` and `src/ApolloODataResolver.ts` read `excludeFromOData` (src/index.ts:91,96; src/ApolloODataResolver.ts:200,205). A descriptor carrying only `excludeFromOData` is compiled by `index.js` with an empty exclusion list; the model gives each variant the list under its own key.
- Items of an object argument found at level 0 get the parent `''`.
- The resolvers change state as they run:
  - `index.js` writes `ExcludeFromOData` onto the descriptor it uses.
  - The main variant keeps `filtersResolved` across calls, so a later id lookup can carry stale filters (`MainResolver.StaleFilterLeak`).

## Model

| member | source | states |
|---|---|---|
| Text.Split | src/ApolloODataResolver.ts:141 | `split(/_/g)` gives at least one segment and no segment holds the separator |
| Text.SplitLength | src/ApolloODataResolver.ts:141 | one segment more than separators: empty segments are kept |
| Text.JoinSplit | src/ApolloODataResolver.ts:141 | joining the segments with the separator gives the name back |
| Text.SplitJoin | src/ApolloODataResolver.ts:141 | separator-free parts come back from splitting their join |
| Text.JoinSplitSwap | src/index.ts:58-70 | joining the segments with a space is the name with every `_` turned into a space |
| Text.ContainsSuffix | src/ApolloODataResolver.ts:94 | a pattern found in the tail is found in the whole |
| Text.IndexOf | src/ApolloODataResolver.ts:224 | the first position where the pattern occurs, none before it, and none exactly when it does not occur |
| Text.ReplaceFirstAt | src/ApolloODataResolver.ts:224 | `replace` rewrites the first occurrence only, leaving the rest untouched |
| Text.ReplaceFirstLength | src/ApolloODataResolver.ts:224 | a replacement no shorter than the pattern never shortens the text |
| Text.ReplaceFirstEmpty | src/ApolloODataResolver.ts:223-224 | an empty filter string stays empty under both rewrites |
| Text.NatToString | index.js:144 | the decimal rendering is nonempty and all digits |
| Text.ParseNatToString | index.js:144 | reading the rendering back gives the number |
| Text.NatToStringInjective | index.js:144 | different numbers render differently |
| Payload.Member | src/ApolloODataResolver.ts:108 | a property read finds the member with that key, or `undefined` when there is none or the value is not an object |
| Payload.Find | src/ApolloODataResolver.ts:108 | a member with the key, or none exactly when no member has it |
| Payload.Unwrap | src/ApolloODataResolver.ts:108 | a `null` payload cannot be read; otherwise the result is the payload itself, or its truthy `value` when it has no truthy `error` |
| Payload.UnwrapError | src/ApolloODataResolver.ts:108 | a payload with a truthy `error` is returned whole |
| Payload.UnwrapEntityOrValue | src/index.ts:43 | otherwise a truthy `value` is returned, else the payload |
| Payload.UnwrapEnvelope | __tests__/resolve-ae.test.ts:428-465 | the `{@odata.context, value}` envelope unwraps to its array |
| Selection.Rs | src/index.ts:108-115 | the loop of `rs` builds the selection tree |
| Selection.TreeShape | src/index.ts:108-115 | one node per selection in source order, with its name, level and parent; no children exactly when there is no (or an empty) selection set |
| Selection.TreeLinked | src/ApolloODataResolver.ts:234-241 | at every depth a child sits one level below its parent and names it |
| Selection.JsRs | index.js:113-120 | the loop of `rs` builds the tree with `null` children on leaves |
| Selection.JsTreeMirrors | index.js:117 | on a well-formed selection set that tree mirrors the TypeScript one, `null` standing for no children |
| Arguments.Get | src/index.ts:55 | `args[key]` is the member with that key, `undefined` exactly when none has it |
| Arguments.IdLookupShape | src/index.ts:36 | the id lookup is taken exactly for one argument, named `id`, with a truthy value |
| Arguments.ClauseShape | src/index.ts:56-74 | no `_`: `name eq v`; one to three `_`: the name with `_` turned into spaces, then the value; four or more `_`: no clause |
| Arguments.ClauseSpaced | src/index.ts:63-71 | two to four parts are space-joined before the value |
| Arguments.OperatorClause | src/index.ts:63-64 | `field_op` gives `field op v` |
| Arguments.FourPartClause | src/index.ts:69-70 | four parts are written out in order before the value |
| Arguments.FivePartsDropped | src/index.ts:72-73 | five or more parts give no clause |
| Arguments.EqualityClause | __tests__/resolve-ae.test.ts:67-70 | `documentStatus_eq: "Regular"` gives `documentStatus eq 'Regular'` |
| Arguments.Clauses | src/index.ts:54-75 | at most one clause per argument; none exactly when every argument is dropped |
| Arguments.ArgumentClause | src/index.ts:55-74 | one pass of the loop pushes that argument's clause, if any |
| Arguments.ResolverFilters | src/index.ts:51-78 | `$filter=` and the clauses joined by one space, or `''` when no clause survives (also index.js:49-76) |
| Dispatch.First | src/ApolloODataResolver.ts:38 | `find` returns the first index whose element qualifies, or none when none does |
| Dispatch.Choose | src/ApolloODataResolver.ts:34-41 | no info fails with `Info is null`; no serving descriptor fails with `Node not configuration for <fieldName>`; when one serves the field the lookup succeeds with the first that does |
| Dispatch.EarlierWins | src/ApolloODataResolver.ts:38 | a descriptor preceded by none serving the field is chosen, whatever follows |
| Dispatch.Selections | src/ApolloODataResolver.ts:190 | reading `selectionSet.selections` fails exactly when the field has no selection set |
| Compiler.LeafNamesMembers | src/index.ts:88-91 | `$select=` lists exactly the childless, non-excluded names |
| Compiler.Branches | src/index.ts:93 | the filtered branches all have children and come from the list |
| Compiler.ExpansionsEmpty | src/index.ts:92-104 | no `$expand=` exactly when every node is a leaf or excluded |
| Compiler.BranchesExpansions | src/index.ts:92-93 | looping over the branches only loses no expansion |
| Compiler.ResolveQueryString | src/index.ts:85-106 | the `uri +=` loop with its `hasExpand` flag builds the query text of the level |
| Compiler.KeptLeafNames | src/index.ts:91 | removing excluded nodes first leaves the select list unchanged |
| Compiler.KeptExpansions | src/index.ts:96-98 | removing excluded nodes first leaves the expansions unchanged |
| Compiler.CompileIgnoresExcluded | src/index.ts:88-103 | excluded nodes play no part in the query text |
| Compiler.LeafThenBranch | src/index.ts:88-103 | a leaf then a branch gives `$select=a`, the level's separator, `$expand=` and `q(<inner>)` |
| Compiler.TwoLeaves | src/index.ts:88-91 | two leaves are comma-joined after `$select=` |
| Compiler.OneExpansion | src/index.ts:88-103 | a leaf and a two-leaf branch give `$select=a&$expand=q($select=b,c)` |
| Compiler.WorkedExample | __tests__/resolve-ae.test.ts:247-309 | the test's query with `self` excluded compiles to `$select=id&$expand=quarentineValidation($select=id,document)` |
| Compiler.JsLeafNames | index.js:96 | no excluded name is selected |
| Compiler.JsExpansions | index.js:97-108 | no `$expand=` exactly when every node has `null` children or is excluded |
| Compiler.JsLeafNamesMirrors | index.js:96 | on mirrored trees the select lists agree |
| Compiler.JsExpansionsMirrors | index.js:97-108 | on mirrored trees the expansions agree |
| Compiler.JsCompileMirrors | index.js:90-111 | on mirrored trees the query texts agree |
| Compiler.SameQueryText | index.js:85-88 | on a well-formed selection set index.js and src/index.ts compile the same text |
| NestedFilters.ResolverQuery | src/ApolloODataResolver.ts:128-161 | the recursive `forEach` collects the items of the arguments, nested objects one level deeper |
| NestedFilters.ItemLevels | src/ApolloODataResolver.ts:135-139 | items sit at the call's level or deeper; at its level they carry its parent; from level 0, items at level 1 carry parent `''` |
| NestedFilters.ArgLevels | src/ApolloODataResolver.ts:135-137 | below level 0 an object argument's own items carry its name as parent |
| NestedFilters.FlatItems | src/ApolloODataResolver.ts:141-157 | without object values the items are the flat clauses, all with the given parent and level |
| NestedFilters.KeysMembers | src/ApolloODataResolver.ts:163-175 | the map's keys are exactly the parents that occur, each once |
| NestedFilters.KeysOrder | src/ApolloODataResolver.ts:163-175 | the keys come in order of first occurrence: an earlier key is carried by some item before any item carries a later one |
| NestedFilters.BucketMembers | src/ApolloODataResolver.ts:163-175 | a bucket holds items of the list with that parent, and is empty exactly when none has it |
| NestedFilters.KeysUniform | src/ApolloODataResolver.ts:163-175 | items with one parent form one bucket holding all of them |
| NestedFilters.GroupBy | src/ApolloODataResolver.ts:163-175 | the `Map` loop yields each parent with its bucket, in insertion order |
| NestedFilters.Queries | src/ApolloODataResolver.ts:183 | one query text per item |
| NestedFilters.ResolverFilters | src/ApolloODataResolver.ts:177-187 | the groups of the collected items, each the bucket's queries joined by ` AND ` |
| NestedFilters.GroupParents | src/ApolloODataResolver.ts:177-187 | group parents are distinct and every item's parent has a group |
| NestedFilters.FilterForAt | src/ApolloODataResolver.ts:209-213 | the lookup by parent finds a group whose parent is not repeated before it |
| NestedFilters.FilterForNone | src/ApolloODataResolver.ts:209-213 | no group with the parent gives `''` |
| NestedFilters.GroupQuery | src/ApolloODataResolver.ts:183-213 | the filter of a parent is its items' queries joined by ` AND `, or `''` when it has no items |
| NestedFilters.FlatGroups | src/ApolloODataResolver.ts:177-187 | flat arguments with clauses give the single group `''` with the clauses joined by ` AND ` |
| Schema.CastTypesDecomposes | src/ApolloODataResolver.ts:272-282 | every type reference is its named type under its wrappers |
| Schema.CastTypesStrips | src/ApolloODataResolver.ts:272-282 | whatever the non-null and list wrappers, `CastTypes` finds the named type |
| Schema.Replace | src/ApolloODataResolver.ts:284-301 | succeeds exactly for the six scalar types; fails with `erro na criação dos fields` otherwise |
| Schema.ReplaceLines | src/ApolloODataResolver.ts:303-366 | a scalar field's text is three lines: the comment, `name: T` and `name_ne: T` |
| Schema.FieldLineScalar | src/ApolloODataResolver.ts:248-256 | a scalar field that is not an enum gives those three lines, whatever wrappers its type has |
| Schema.SchemaLinesKept | src/ApolloODataResolver.ts:250-259 | one entry per field not excluded, in order, none for excluded fields |
| Schema.ResolverNamesSchema | src/ApolloODataResolver.ts:243-265 | the loop appends the entries of the fields to the caller's list |
| MainResolver.BranchesExpansions | src/ApolloODataResolver.ts:195-204 | looping over the branches only loses no expansion |
| MainResolver.CompileWithoutFilters | src/ApolloODataResolver.ts:194-232 | with no filter groups and no list-typed fields the compiler is that of src/index.ts |
| MainResolver.ExpansionsWithoutFilters | src/ApolloODataResolver.ts:222-226 | likewise for the expansions of a level |
| MainResolver.AttachThreeClauses | src/ApolloODataResolver.ts:223-226 | a three-clause filter on a non-list branch gets `name/` before the second clause only: the first `AND ` alone is rewritten |
| MainResolver.AttachOrClause | src/ApolloODataResolver.ts:223-226 | a filter `a OR b` on a non-list branch gives `&$filter=name/a AND name/b`: the first `OR ` becomes `AND name/` |
| MainResolver.FilterUrlShape | src/ApolloODataResolver.ts:92-102 | a query gives `<url>?<text> AND <query>` with no `$filter=`; none gives `<url>?<text>`, with a trailing space iff `<url>?<text>` holds `&$filter=` |
| MainResolver.UrlShapes | src/ApolloODataResolver.ts:78-80 | a lone truthy `id` gives `<url>(<id>)?<text>`; `id` beside other keys, or no keys, gives `<url>?<text>` (also lines 104-107) |
| MainResolver.ClausesNonEmpty | src/ApolloODataResolver.ts:141-157 | no clause is empty |
| MainResolver.TopLevelClauses | src/ApolloODataResolver.ts:84-102 | flat filter arguments give `<url>?<text> AND <clauses joined by AND>` |
| MainResolver.LeakText | src/ApolloODataResolver.ts:209-226 | a group for a branch lengthens the compiled text |
| MainResolver.StaleFilterLeak | src/ApolloODataResolver.ts:78-80 | an id lookup requests a different URL when an earlier call left a group for one of its branches |
| MainResolver.ApolloODataResolver.constructor | src/ApolloODataResolver.ts:20-22 | the descriptors are kept and no filter groups are in force |
| MainResolver.ApolloODataResolver.ResolveQueryString | src/ApolloODataResolver.ts:194-232 | the loop builds the text of the level under the groups in force |
| MainResolver.ApolloODataResolver.BranchText | src/ApolloODataResolver.ts:215-227 | a list-typed branch is `name(` + `$filter=<f>;` if any + ` ` + inner + `)`; any other is `name(inner)` + the rewritten filter string |
| MainResolver.ApolloODataResolver.ResolverOData | src/ApolloODataResolver.ts:189-192 | the compiled text of the field's selections, or the failure of reading them |
| MainResolver.ApolloODataResolver.FindBy | src/ApolloODataResolver.ts:74-109 | only a filtered request replaces the groups in force; the URL is built under the groups in force after that |
| MainResolver.ApolloODataResolver.ResolverODataAndCall | src/ApolloODataResolver.ts:33-44 | a dispatch failure changes nothing; else `findBy` on the chosen descriptor |
| SimpleResolver.FilteredUrl | src/index.ts:38-39 | clauses give `<url>?<text>&$filter=<clauses>`; none give a URL ending in `&` (line 77) |
| SimpleResolver.UrlShapes | src/index.ts:36-42 | a lone truthy `id` gives `<url>(<id>)?<text>`; `id` beside other keys, or no keys, gives `<url>?<text>` |
| SimpleResolver.DocumentStatusUrl | __tests__/resolve-ae.test.ts:67-70 | `documentStatus_eq: "Regular"` requests `<url>?<text>&$filter=documentStatus eq 'Regular'` |
| SimpleResolver.VariantsAgree | src/index.ts:32-44 | for id lookups and plain requests the main variant with no groups in force requests the same URL |
| SimpleResolver.ApolloODataResolver.constructor | src/index.ts:14-17 | the descriptors are kept |
| SimpleResolver.ApolloODataResolver.ResolverOData | src/index.ts:80-83 | the compiled text of the field's selections, or the failure of reading them |
| SimpleResolver.ApolloODataResolver.FindBy | src/index.ts:32-44 | the request goes to the URL of the shape the arguments select and its payload is unwrapped |
| SimpleResolver.ApolloODataResolver.ResolverODataAndCall | src/index.ts:19-30 | dispatch failures pass through; else `findBy` on the chosen descriptor |
| JsResolver.JsChoose | index.js:14-19 | no info fails with `Info is null`; no serving descriptor fails with `Node not configuration for <fieldName>`; when one serves the field the lookup succeeds with the first that does |
| JsResolver.EarlierRegistrationWins | index.js:7-10 | registering more descriptors never changes the descriptor an earlier registration serves a field with |
| JsResolver.JsBranches | index.js:98 | the filtered branches all have non-`null` children and come from the list |
| JsResolver.JsBranchesExpansions | index.js:97-98 | looping over the branches only loses no expansion |
| JsResolver.JsResolveQueryString | index.js:90-111 | a missing `ExcludeFromOData` becomes `[]` on the descriptor, a present one is kept, and the text is compiled under it |
| JsResolver.SameRequest | index.js:36-47 | on a well-formed selection set `_findBy` requests the URL src/index.ts requests, for a descriptor whose `ExcludeFromOData` (index.js) and `excludeFromOData` (TypeScript) hold the same list |
| JsResolver.Classify | index.js:129-146 | success exactly for statuses 200-399, with the body; outside classes 2-4 the fallback message and `{}`; class 4 carries the body and its truthy `error.message`, or the fallback; a `null` class-4 body cannot be read |
| JsResolver.ODataErrorMessage | __tests__/resolve-ae.test.js:189-210 | an OData error document answered with 400 raises its own message |
| JsResolver.Registry.constructor | index.js:5 | the registry starts empty |
| JsResolver.Registry.ResolverConfiguration | index.js:7-10 | the descriptors are appended to the list |
| JsResolver.Registry.JsResolverOData | index.js:85-88 | the text of the field's selections; the descriptor's exclusion list is defaulted only when there are selections to compile |
| JsResolver.Registry.JsFindBy | index.js:36-47 | the URL of the shape the arguments select, under the defaulted exclusion list; the response is classified, then unwrapped |
| JsResolver.Registry.ResolveAe | index.js:12-22 | dispatch failures pass through; a field without a selection set fails with every exclusion list unchanged; otherwise the chosen descriptor's list is defaulted and no other descriptor's list changes |

## Left out

- HTTP transport (`callFetch`, `get`, `Fetch`) and the Promise plumbing: `fetch` is a function parameter from URL to payload (TypeScript variants) or to a response (index.js), and the requested URL is returned beside the unwrapped value. Request headers are not modelled.
- Building `listTypes` in the constructor of src/ApolloODataResolver.ts and `buildTypeDefs` with its `gql` call and `toLowerCase` filter: `listTypes` is given to the constructor as the names of the fields whose outermost type is a list (the `kind === 'ListType'` test). The `input <Type>Filter` block that `buildTypeDefs` wraps around the entries (lines 62-64) is not part of this model.
- The `_parent` global and the `Promise.prototype.Resolver` patch's handling of `parent`: the ApolloError's extension object is modelled without `parent`.
- `resolverConfiguration` returning the `resolveAe` function: the model's registry method only appends.
- Duplicate keys: argument objects and JSON objects are sequences of key-value pairs and reads take the first pair with the key, while a JavaScript object has one value per key (`JSON.parse` keeps the last duplicate). GraphQL rejects repeated argument names and OData payloads do not repeat keys, so keys are taken to be distinct.
- Loose `==` in index.js dispatch and `typeof null`: field names and argument values are typed, with no `null` argument values and no arrays as argument values.
- Number formatting of non-integer argument values and of the status: numbers are integers.
- JSON decoding failures of `resp.json()`, and a message that is not a string: the message is kept as a JSON value.
- The `throw`s no input of the model can reach: `Field desconhecido` for non-field definitions and the `CastTypes` default, since the datatypes admit only fields and the three type kinds.
- Schema.ResolverNamesSchema: pushes into the caller's array in place in the source; the model returns the extended sequence instead.
- Concurrency between resolver calls sharing one instance: calls are sequential, so `filtersResolved` is observed only between calls.
