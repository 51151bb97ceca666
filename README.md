# Synthetic identifiers for a normalized GraphQL cache

Before a normalized Apollo cache writes a GraphQL result, `populateDynamicId`
gives every object that has a `__typename` but no truthy `id` an `_id`
string. The string is composed from the object's path in the result, its
index in any enclosing list and the arguments of the fields on that path.
This project models that generator in Dafny and proves what it promises.

The generator works in two stages, and the model follows them module by module.

1. **Field tree.** `_populateFieldTree` walks the selection sets of the
   parsed GraphQL document. It attaches one node per field under the
   field's alias or name. Each node records `field`, `schemaFieldName`,
   `aliasFieldName` and, when the field has arguments, the key-sorted
   resolved arguments as `variablesMap`. Inline fragments get a node under
   their type name. Fragment spreads pour the fragment's selections into
   the current node.
   - `_prepareFieldVariablesFromArguments` resolves the arguments
     (module `Arguments`).
   - `_sortVariables` puts keys in order (module `Variables`).
   - `_createFieldTree` starts the walk from the first definition.
2. **Annotation.** `_populateDynamicId` walks the response and the field
   tree together and returns a copy with `_id` injected (module
   `DynamicId`). `populateDynamicId` picks the seed identifier: the root
   field of a query or mutation result, or the `dataId` of a fragment write
   (module `Populate`).

Modules:

- `Js`: the JavaScript values the code handles.
  - Objects are sequences of properties in own-key order: array-index keys
    first in numeric order, then the other keys in insertion order.
    `SetProp` is property assignment.
  - The lodash helpers used here are modelled directly: `_.get`,
    `_.isEmpty` and `_.keys`. So are truthiness and `String(v)`.
- `Json`: `JSON.stringify` of a value (RFC 8259), used inside composed ids.
- `Variables`: `_sortVariables` and the default string order of `Array.prototype.sort`.
- `Ast`: the parts of a GraphQL document that are read (GraphQL
  specification, October 2021, sections 2.4 to 2.10), and the operation
  object.
- `Arguments`: `_prepareFieldVariablesFromArguments`, as a function and as
  the loop that fills `fieldVariables`.
- `FieldTree`: `_populateFieldTree` and `_createFieldTree`.
  - The source mutates parent nodes in place. The model is a class
    `FieldTreeBuilder` whose `nodes` field is an arena. Each node is a
    property list, and a child is referenced by its arena index.
  - `Materialize` unfolds the arena into the object the source builds.
  - The recursive calls are bounded by a stack budget, `fuel`. Running out
    is the `RangeError` that a cycle of fragment spreads causes.
- `DynamicId`: `_isPrimitiveValue` and `_populateDynamicId`.
- `Populate`: `_ROOT_ENTITY_TYPES`, `populateDynamicId` and its query and fragment branches.
- `Scenarios`: whole runs on small documents and responses. These show
  natural ids kept, list elements numbered, and arguments in ids.

Thrown errors are a `Result`. An error caught by a `try` in the source is
modelled where it is caught; an error thrown outside any `try` is an `Err`
of the whole call.

## Where the code departs from its evident intent

The model follows the code in each case.

- `_sortVariables` sorts only the top-level keys. A plain object inside a
  `Variable` argument keeps its own order in `variablesMap`, so two
  executions with the same values in different orders can get different ids.
- `_createFieldTree` catches an error while populating and returns the root
  node as far as it was populated, not an empty one. An unknown fragment
  name, or a cycle of spreads, leaves a partial tree.
- A key with no node in the field tree is still annotated. It uses the
  default node `{}`, so its child id ends in `.undefined`. The "fields not
  present" branch fires only when the node itself is falsy.
- In `_populateDynamicIdForQuery`, reading the root field, destructuring its
  `__typename` and building the field tree all happen before the `try`. A
  null root field therefore throws out of `populateDynamicId` (see Findings).
  Annotation itself never throws in the model, so the `catch` that returns
  the original data is never reached.

## Model

| member | source | states |
|---|---|---|
| Variables.SortVariables | src/ApolloClientHelpers.js:28-40 | the result is always an object; an absent argument gives `{}` |
| Variables.SortKeysFacts | src/ApolloClientHelpers.js:29 | `keys.sort()` returns a permutation of the keys, strictly ascending when they are distinct |
| Variables.Assign | src/ApolloClientHelpers.js:31-37 | the reduce's object holds exactly the keys it is given |
| Variables.AssignLookup | src/ApolloClientHelpers.js:31-37 | the reduce builds an object holding exactly the sorted keys, each with the source's value |
| Variables.AssignSorted | src/ApolloClientHelpers.js:31-37 | re-inserting ascending keys yields an object that enumerates its keys in ascending order (array indices first) |
| Variables.SortVariablesEntries | src/ApolloClientHelpers.js:28-40 | the result has exactly the input's keys, each mapped to the input's value, enumerated in ascending order |
| Variables.SortVariablesCanonical | src/ApolloClientHelpers.js:28-40 | two objects with the same entries in any order sort to the same object |
| Variables.SortVariablesIdempotent | src/ApolloClientHelpers.js:28-40 | sorting a sorted object changes nothing |
| Arguments.ResolveVariableArgument | src/ApolloClientHelpers.js:70-90 | a `Variable` argument takes the variable's value; a non-object is kept as is, and a plain object keeps its entries with its keys put in order |
| Variables.SortedObjectEntries | src/ApolloClientHelpers.js:28-40 | the shallow sort of an object value keeps its key set and every lookup, and orders its keys |
| Arguments.ResolveArgument | src/ApolloClientHelpers.js:64-116 | an object literal always resolves to an object; a literal that is neither a variable nor an object resolves to neither an object nor an array |
| Arguments.CollectArguments | src/ApolloClientHelpers.js:53-117 | after the loop, the keys of `fieldVariables` are exactly the arguments' names |
| Arguments.CollectArgumentsFacts | src/ApolloClientHelpers.js:53-117 | after the loop, `fieldVariables` has distinct keys, and each name holds the resolution of the last argument so named, even when that resolves to undefined |
| Arguments.ResolveArgumentsEntries | src/ApolloClientHelpers.js:47-120 | the result is a key-sorted object; a name is a key iff some argument has that name; its value is the last such argument's resolution; no arguments give `{}` |
| Arguments.ResolveArguments | src/ApolloClientHelpers.js:47-120 | the result is always an object, and a field without an argument list gives `{}` |
| Arguments.ArgumentOrderIndependent | src/ApolloClientHelpers.js:47-120 | argument lists that agree on the last argument of each name resolve to the same object |
| Arguments.PrepareFieldVariables | src/ApolloClientHelpers.js:47-120 | the loop over the arguments, with its recursive call for object values, returns the resolution `ResolveArguments` defines |
| FieldTree.FindDefinition | src/ApolloClientHelpers.js:213-216 | the definition found is the first one in the document that carries the name; none is found only when no definition has the name |
| FieldTree.FieldTreeOf | src/ApolloClientHelpers.js:232-258 | building the tree fails iff the document has no definition, and otherwise yields an object |
| FieldTree.UnknownFragmentKeepsPartialTree | src/ApolloClientHelpers.js:211-257 | a spread of an unknown fragment among the first definition's selections ends the walk, and the tree returned is the root as the selections before the spread left it |
| FieldTree.PopulateFieldTree | src/ApolloClientHelpers.js:130-230 | populating only adds nodes to the arena, never removes one |
| FieldTree.PopulateSelections | src/ApolloClientHelpers.js:136-229 | the selections in turn only add nodes to the arena |
| FieldTree.PopulateSelection | src/ApolloClientHelpers.js:139-228 | one selection only adds nodes to the arena |
| FieldTree.PopulateFieldTreeFrame | src/ApolloClientHelpers.js:130-230 | populating into a node changes no other existing node; that node only gains keys, and any metadata it still holds is what it held before |
| FieldTree.PopulateFieldTreeKeepsParent | src/ApolloClientHelpers.js:130-230 | the arena stays acyclic; no other existing node changes; the parent's keys only grow and its metadata keys that survive keep their values |
| FieldTree.FieldNodeFacts | src/ApolloClientHelpers.js:148-164 | a field node holds `kind`, `field` (the alias if any, else the name), `schemaFieldName` and `aliasFieldName`, and nothing else |
| FieldTree.InlineFragmentNodeFacts | src/ApolloClientHelpers.js:192-195 | an inline fragment node holds `kind` and `field` (the type-condition name), and nothing else |
| FieldTree.AttachFieldFacts | src/ApolloClientHelpers.js:156-175 | the field's node is registered under its key in the parent, and `variablesMap` is set iff the resolved arguments are non-empty |
| FieldTree.FieldRegistered | src/ApolloClientHelpers.js:156-187 | after a `Field`, the parent's key refers to the new node; the node keeps its metadata unless a child of the same name replaces it; a field without a selection set gets no children |
| FieldTree.InlineFragmentRegistered | src/ApolloClientHelpers.js:192-206 | after an `InlineFragment`, the parent's type-name key refers to the new node, which carries `kind` and `field` |
| FieldTree.SelectionEffect | src/ApolloClientHelpers.js:152-228 | a field or inline fragment adds exactly its key to the parent; an unknown spread throws; a known spread populates the parent itself; any other kind does nothing |
| FieldTree.LaterFieldWins | src/ApolloClientHelpers.js:138-187 | a field selected after others takes its key in the parent, overwriting an earlier node under the same key |
| FieldTree.FragmentSpreadInlines | src/ApolloClientHelpers.js:211-227 | a spread among other selections populates exactly as if the fragment's selections were written in its place |
| FieldTree.PopulateFieldTreeMoreFuel | src/ApolloClientHelpers.js:178-225 | a population that did not run out of stack gives the same result with a larger stack |
| FieldTree.MaterializeGet | src/ApolloClientHelpers.js:162-174 | in the built tree, a node property read gives its metadata value or the built child node |
| FieldTree.FieldTreeBuilder.constructor | src/ApolloClientHelpers.js:240 | the builder starts with one empty root node |
| FieldTree.FieldTreeBuilder.Populate | src/ApolloClientHelpers.js:130-230 | the nodes after the call, and whether it threw, are those of `PopulateFieldTree` on the nodes before it |
| FieldTree.FieldTreeBuilder.PopulateEach | src/ApolloClientHelpers.js:136-229 | the `forEach` visits the selections in order and stops at the first throw, as `PopulateSelections` defines |
| FieldTree.FieldTreeBuilder.AddSelection | src/ApolloClientHelpers.js:139-228 | one selection changes the nodes as `PopulateSelection` defines |
| FieldTree.CreateFieldTree | src/ApolloClientHelpers.js:232-258 | the imperative construction returns what `FieldTreeOf` defines, including the partial tree after a caught throw |
| DynamicId.IsPrimitive | src/ApolloClientHelpers.js:264-265 | an array is never primitive, and a value that is not primitive is an array or an object |
| DynamicId.Annotate | src/ApolloClientHelpers.js:298-367 | an array stays an array of the same length, an object stays an object, and any other value comes back as it was |
| DynamicId.ChildNode | src/ApolloClientHelpers.js:338-339 | the node handed to a child is never undefined; with no node under the type name or the key it is `{}` |
| DynamicId.ChildId | src/ApolloClientHelpers.js:341-355 | a child's id starts with `${__typename}:${id}.` under an object with a truthy id, and with `${parenId}.` otherwise |
| DynamicId.AnnotateUnchanged | src/ApolloClientHelpers.js:299-312 | a primitive value, or any value with a falsy field-tree node, comes back unchanged |
| DynamicId.AnnotateArray | src/ApolloClientHelpers.js:314-322 | an array keeps its length, and element i is annotated under `${parenId}.${i}` with the same node |
| DynamicId.ElementIdsDistinct | src/ApolloClientHelpers.js:318 | different elements of one array get different ids |
| DynamicId.AnnotateObject | src/ApolloClientHelpers.js:324-366 | a typed object keeps every key and gets `_id` = parenId iff `id` is falsy; each other property is annotated with the node `fieldTree[__typename][key]` or `fieldTree[key]`, and with the composed child id |
| DynamicId.UpdatedFacts | src/ApolloClientHelpers.js:326-333 | the copy keeps its keys distinct and in order, adds `_id` iff `id` is falsy, and holds each annotated property |
| DynamicId.AnnotateIsUpdated | src/ApolloClientHelpers.js:328-365 | the rebuild by `reduce` reproduces the annotated copy in its own key order |
| DynamicId.ReassignOrdered | src/ApolloClientHelpers.js:333-365 | re-assigning the properties of an object one by one, in own-key order, rebuilds the same object |
| DynamicId.AnnotateOnlyAddsIds | src/ApolloClientHelpers.js:298-367 | with every `_id` removed, the result equals the input: annotation adds or overwrites `_id` and changes nothing else |
| DynamicId.NaturalIdIgnoresParent | src/ApolloClientHelpers.js:326-351 | an object with a truthy `id` is annotated the same under any parent id |
| DynamicId.AnnotateIdentified | src/ApolloClientHelpers.js:298-367 | data whose typed objects all have a truthy `id` comes back exactly as it was |
| DynamicId.MissingNodeChildId | src/ApolloClientHelpers.js:338-351 | a key with no node uses `{}`, and its child id ends in `.undefined` |
| Populate.RootKey | src/ApolloClientHelpers.js:387-396 | the root key is never `__typename`; it is one of the data's own keys, or `undefined` when there is none |
| Populate.FirstDataKey | src/ApolloClientHelpers.js:392-395 | the root key is the first key other than `__typename`; there is none only when every key is `__typename` |
| Populate.Seed | src/ApolloClientHelpers.js:400-403 | a seed starts with `ROOT_QUERY_` iff the root field's type is not one of `_ROOT_ENTITY_TYPES` |
| Populate.EntityTypeIsNotQuerySeed | src/ApolloClientHelpers.js:267-292 | no root entity type begins with `ROOT_QUERY_` |
| Populate.SeedIdentifiesRoot | src/ApolloClientHelpers.js:400-403 | equal seeds come from the same root entity type, or from two non-entity roots under the same key |
| Populate.UpdateKey | src/ApolloClientHelpers.js:414-418 | the update keeps the data's kind: an object stays an object, an array an array of the same length |
| Populate.PopulateForQuery | src/ApolloClientHelpers.js:386-427 | a root write returns iff the data and its root field are neither null nor undefined and the document has a definition; what it returns has the data's kind |
| Populate.PopulateForFragment | src/ApolloClientHelpers.js:429-447 | a fragment write returns iff the document has a definition; what it returns has the data's kind |
| Populate.PopulateDynamicId | src/ApolloClientHelpers.js:373-384 | only a root write, or a document without definitions, can throw; what it returns has the data's kind |
| Populate.PopulateDynamicIdThrows | src/ApolloClientHelpers.js:373-447 | the call throws iff the document has no definition, or, for `ROOT_QUERY`/`ROOT_MUTATION`, the data or its root field is null or undefined |
| Populate.FragmentWrite | src/ApolloClientHelpers.js:429-447 | any other `dataId` annotates the whole data with `dataId` as seed |
| Populate.RootKeyOfObject | src/ApolloClientHelpers.js:387-396 | a root key whose value is defined is a key of the data and not `__typename` |
| Populate.UpdateKeyObject | src/ApolloClientHelpers.js:414-418 | `update($set)` on an existing key keeps the key set, sets that key and leaves every other property |
| Populate.RootWriteReplacesOnlyRootField | src/ApolloClientHelpers.js:386-427 | a root write replaces only the root field, with its annotation under the seed and the tree's node for that key |
| Populate.NullRootFieldThrows | src/ApolloClientHelpers.js:396-398 | as written, a root query result `{ book: null }` throws out of `populateDynamicId` |
| Populate.PopulateDynamicIdGuarded | src/ApolloClientHelpers.js:373-427 | with the root field and the first definition read inside the fallback, the call never throws |
| Populate.GuardedNeverThrows | src/ApolloClientHelpers.js:386-427 | the guarded call never throws, agrees with the written one wherever that returns, and returns `{ book: null }` as it is |
| Scenarios.NestedFieldTree | src/ApolloClientHelpers.js:156-187 | a field with one subfield yields a tree whose only key is the field's alias, or its name when it has none, with the name as `schemaFieldName` and its resolved arguments as `variablesMap` |
| Scenarios.NestedFieldChildId | src/ApolloClientHelpers.js:338-355 | the child id read from such a tree at that key is the parent part, `.`, the schema field name (never the alias) and the JSON of its arguments in parentheses when there are any |
| Scenarios.AliasKeepsChildId | src/ApolloClientHelpers.js:156-175 | an aliased field read at its alias gets the same child id as the same field without an alias read at its name |
| Scenarios.NaturalIdsUnchanged | src/ApolloClientHelpers.js:386-427 | a root query whose books all have ids comes back exactly as it was |
| Scenarios.ListElementId | src/ApolloClientHelpers.js:298-367 | a book with an id gets no `_id`, and the first element of its id-less list gets `Book:1.additionalDetailsByBook.0` |
| Scenarios.ArgumentsInId | src/ApolloClientHelpers.js:341-355 | the object under `organization(id: $organizationId)` with `organizationId = "42"` gets `Platform:1.organization({"id":"42"})` |

## Findings

| source | as written | input that shows it | evidently intended | confidence | as-written member | corrected member |
|---|---|---|---|---|---|---|
| src/ApolloClientHelpers.js:396-405 | the root field is read and destructured, and the field tree is built, before the `try` of `_populateDynamicIdForQuery` | a `ROOT_QUERY` write of `{ book: null }`, an ordinary response for a nullable root field | every failure returns the original data, as the `catch` does | not executed | Populate.NullRootFieldThrows | Populate.GuardedNeverThrows |

The corrected dispatcher is `Populate.PopulateDynamicIdGuarded`. It also returns the data as it is for a document without definitions, whose first definition both branches read outside their `try` (lines 404-405 and 430). A parsed GraphQL document always has a definition, so that case cannot arise from a parsed document.

## Left out

- Prototype properties, getters and property keys that are symbols: data is plain JSON, and objects hold only their own properties.
- The path parsing of `_.get` for keys containing `.` or `[`: keys are looked up as single property names, which is what the source means by them.
- Non-integer numbers: numbers are integers; a float in the data or the variables is not modelled.
- Js.IntToString: every digit of an integer is written out, while JavaScript writes a number of magnitude 1e21 or more in exponent form (`1e+21`); ids and `variablesMap` JSON holding such numbers are not modelled.
- Js.ToString: integers above 2^53 are exact here, while JSON parsing and `${id}` round them to the nearest double; ids built from such numbers are not modelled.
- Json.Stringify: numbers are rendered as `Js.IntToString` renders them, so the two gaps above apply to the JSON inside ids too.
- Variables.StrLess: compares characters by code point, while `keys.sort()` compares UTF-16 code units; keys holding characters above U+FFFF, which JavaScript sorts before U+E000 to U+FFFF, are not modelled.
- Variables that are not an object: the operation's variables are always a property list.
- `console.warn` and `console.error`: they do not change what is returned.
- `getQueryMissingDataStatus` and `getFragmentMissingDataStatus`: they wrap the cache's `diff`, which is foreign code.
- `src/client.js`, `src/link.js`, the React components and the mock server are not part of this model.
- FieldTree.PopulateFieldTree: the JavaScript call stack is modelled as a budget of nested calls (`fuel`); its size in a real engine is not modelled.
- DynamicId.Annotate: running out of stack while annotating deeply nested data is not modelled; annotation always returns.
- Object identity of field-tree nodes is modelled by arena indexes: a node shared by two parents cannot arise from the source, and none arises here.
- `update(data, { [key]: { $set } })` on a string root value returns the string as it is: the root branch reaches it only with one character of the string, which annotation leaves unchanged; what the helper library does with a string target is not modelled.
