/**
 * `populateDynamicId` and its two branches: a write of a query or mutation
 * result against a cache root, and a fragment write against one entity.
 */
module Populate {
  import opened Js
  import opened Ast
  import opened FieldTree
  import opened DynamicId

  /** `_ROOT_ENTITY_TYPES`: root types whose name seeds identifiers directly. */
  const ROOT_ENTITY_TYPES: seq<string> := [
    "SchoolQuery",
    "DocumentationQuery",
    "PlanningQuery",
    "PlannerQuery",
    "PlatformQuery",
    "GlobalConstants",
    "OrganizationManagementQuery",
    "CommunityQuery",
    "CmsQuery",
    "TaskManagmentQuery",
    "IntegrationQuery",
    "ContentQuery",
    "AiQuery",
    "DocumentationMutations",
    "SchoolMutations",
    "PlatformMutations",
    "PlannerMutations",
    "OrganizationManagementMutations",
    "TaskManagementMutations",
    "CommunityMutations",
    "IntegrationMutation",
    "CmsMutations",
    "ContentMutations",
    "AiMutations"
  ]

  /** `_.filter(keys, (key) => key !== '__typename')[0]`. */
  function FirstDataKey(keys: seq<string>): (r: Option<string>)
    ensures r.Some? ==> exists i | 0 <= i < |keys| :: keys[i] == r.value && forall j | 0 <= j < i :: keys[j] == "__typename"
    ensures r.Some? ==> r.value != "__typename"
    ensures r.None? <==> forall i | 0 <= i < |keys| :: keys[i] == "__typename"
  {
    if keys == [] then None
    else if keys[0] != "__typename" then Some(keys[0])
    else
      var r := FirstDataKey(keys[1..]);
      if r.Some? then
        var i :| 0 <= i < |keys[1..]| && keys[1..][i] == r.value && forall j | 0 <= j < i :: keys[1..][j] == "__typename";
        assert keys[i + 1] == r.value && forall j | 0 <= j < i + 1 :: keys[j] == "__typename";
        r
      else r
  }

  /** The property `data[parentPropertyOfQueryData]` reads: the first key other
      than `__typename`, or "undefined" when there is none. */
  function RootKey(data: Value): (r: string)
    ensures r != "__typename"
    ensures r == "undefined" || r in JsKeys(data)
  {
    var keys := JsKeys(if data == Undefined || data == Null then Obj([]) else data);
    match FirstDataKey(keys)
    case Some(k) => k
    case None => "undefined"
  }

  /** The seed identifier: the root field's type name when it is a root entity
      type, else `ROOT_QUERY_` followed by the root field's key. The two kinds
      of seed never meet: no root entity type starts with `ROOT_QUERY_`. */
  function Seed(typeName: Value, key: string): (id: string)
    ensures (typeName.Str? && typeName.s in ROOT_ENTITY_TYPES) <==> !("ROOT_QUERY_" <= id)
  {
    if typeName.Str? && typeName.s in ROOT_ENTITY_TYPES then
      EntityTypeIsNotQuerySeed(typeName.s);
      typeName.s
    else
      assert ("ROOT_QUERY_" + key)[..|"ROOT_QUERY_"|] == "ROOT_QUERY_";
      "ROOT_QUERY_" + key
  }

  /** Every root entity type starts with a letter other than `R`. */
  lemma EntityTypeIsNotQuerySeed(t: string)
    requires t in ROOT_ENTITY_TYPES
    ensures !("ROOT_QUERY_" <= t)
  {
    var i :| 0 <= i < |ROOT_ENTITY_TYPES| && ROOT_ENTITY_TYPES[i] == t;
    assert t[0] != 'R';
  }

  /** Seeds identify their root: two equal seeds come from the same root
      entity type, or both from non-entity roots under the same key. */
  lemma SeedIdentifiesRoot(t1: Value, k1: string, t2: Value, k2: string)
    requires Seed(t1, k1) == Seed(t2, k2)
    ensures (t1.Str? && t1.s in ROOT_ENTITY_TYPES) <==> (t2.Str? && t2.s in ROOT_ENTITY_TYPES)
    ensures t1.Str? && t1.s in ROOT_ENTITY_TYPES ==> t1 == t2
    ensures !(t1.Str? && t1.s in ROOT_ENTITY_TYPES) ==> k1 == k2
  {
    var p := "ROOT_QUERY_";
    if !(t1.Str? && t1.s in ROOT_ENTITY_TYPES) {
      assert (p + k1)[|p|..] == k1 && (p + k2)[|p|..] == k2;
    }
  }

  /** `update(data, { [key]: { $set: value } })`: a shallow copy of an object or
      array with one property set. Any other root value has no properties to
      set; the branch below only reaches it with a value equal to the one
      already there, which the helper leaves in place. */
  function UpdateKey(data: Value, key: string, value: Value): (r: Value)
    ensures r.Obj? <==> data.Obj?
    ensures r.Arr? <==> data.Arr?
    ensures r.Arr? ==> |r.items| == |data.items|
  {
    match data
    case Obj(fields) => Obj(SetProp(fields, key, value))
    case Arr(items) =>
      if IsArrayIndex(key) && IndexValue(key) < |items| then Arr(items[IndexValue(key) := value]) else data
    case _ => data
  }

  /** `_populateDynamicIdForQuery({ data, operation })`. Reading the root
      field of null or undefined data, destructuring a null or undefined root
      field and building the tree all happen before the `try`, so their throws
      escape; annotation itself never throws. */
  function PopulateForQuery(data: Value, operation: Operation, fuel: nat): (r: Result<Value>)
    ensures r.Ok? <==>
      && data != Undefined && data != Null
      && Get(data, RootKey(data)) != Undefined && Get(data, RootKey(data)) != Null
      && operation.definitions != []
    ensures r.Ok? ==> (r.value.Obj? <==> data.Obj?) && (r.value.Arr? <==> data.Arr?)
  {
    var key := RootKey(data);
    if data == Undefined || data == Null then
      Err(TypeError("Cannot read properties of " + ToString(data) + " (reading '" + key + "')"))
    else
      var queryData := Get(data, key);
      if queryData == Undefined || queryData == Null then
        Err(TypeError("Cannot destructure property '__typename' of 'queryData' as it is " + ToString(queryData) + "."))
      else
        var initialId := Seed(Get(queryData, "__typename"), key);
        match FieldTreeOf(operation.definitions, operation.variables, fuel)
        case Err(e) => Err(e)
        case Ok(fieldTree) =>
          Ok(UpdateKey(data, key, Annotate(queryData, initialId, Get(fieldTree, key))))
  }

  /** `_populateDynamicIdForFragment({ data, operation })`. */
  function PopulateForFragment(data: Value, operation: Operation, fuel: nat): (r: Result<Value>)
    ensures r.Ok? <==> operation.definitions != []
    ensures r.Ok? ==> (r.value.Obj? <==> data.Obj?) && (r.value.Arr? <==> data.Arr?)
  {
    match FieldTreeOf(operation.definitions, operation.variables, fuel)
    case Err(e) => Err(e)
    case Ok(fieldTree) => Ok(Annotate(data, operation.dataId, fieldTree))
  }

  predicate IsRootId(dataId: string) {
    dataId == "ROOT_QUERY" || dataId == "ROOT_MUTATION"
  }

  /** `populateDynamicId({ data, operation })`, as written. */
  function PopulateDynamicId(data: Value, operation: Operation, fuel: nat): (r: Result<Value>)
    ensures r.Err? ==> operation.definitions == [] || IsRootId(operation.dataId)
    ensures r.Ok? ==> (r.value.Obj? <==> data.Obj?) && (r.value.Arr? <==> data.Arr?)
  {
    if IsRootId(operation.dataId) then PopulateForQuery(data, operation, fuel)
    else PopulateForFragment(data, operation, fuel)
  }

  // ---------------------------------------------------------------------
  // Properties
  // ---------------------------------------------------------------------

  /** When the call throws: for a fragment write only on a document without
      definitions; for a root write also when the data or its root field is
      null or undefined. */
  lemma PopulateDynamicIdThrows(data: Value, operation: Operation, fuel: nat)
    ensures PopulateDynamicId(data, operation, fuel).Err? <==>
      || operation.definitions == []
      || (IsRootId(operation.dataId) &&
          (data == Undefined || data == Null || Get(data, RootKey(data)) == Undefined || Get(data, RootKey(data)) == Null))
  {
  }

  /** A fragment write annotates the whole data, seeded with the entity's id,
      against the whole field tree. */
  lemma FragmentWrite(data: Value, operation: Operation, fuel: nat)
    requires !IsRootId(operation.dataId) && operation.definitions != []
    ensures PopulateDynamicId(data, operation, fuel) ==
      Ok(Annotate(data, operation.dataId, FieldTreeOf(operation.definitions, operation.variables, fuel).value))
  {
  }

  /** Setting a key an object already has keeps its key set and leaves every
      other property as it was. */
  lemma UpdateKeyObject(fields: seq<(string, Value)>, key: string, value: Value)
    requires key in KeySet(fields)
    ensures var r := UpdateKey(Obj(fields), key, value);
      && r.Obj? && KeySet(r.fields) == KeySet(fields)
      && Get(r, key) == value
      && forall k | k != key :: Get(r, k) == Get(Obj(fields), k)
  {
    SetPropFacts(fields, key, value, key);
    forall k | k != key ensures Get(UpdateKey(Obj(fields), key, value), k) == Get(Obj(fields), k) {
      SetPropFacts(fields, key, value, k);
    }
  }

  /** The root key of an object whose root field is defined is one of its own
      keys, other than `__typename`. */
  lemma RootKeyOfObject(data: Value)
    requires data.Obj? && Get(data, RootKey(data)) != Undefined
    ensures RootKey(data) in KeySet(data.fields) && RootKey(data) != "__typename"
  {
    var key := RootKey(data);
    FindIffKey(data.fields, key);
    if FirstDataKey(Keys(data.fields)).Some? {
      var keys := Keys(data.fields);
      var i :| 0 <= i < |keys| && keys[i] == key;
      assert data.fields[i].0 == key;
    }
  }

  /** A root write on an object replaces only the root field: every key is
      kept, every other property is left as it is, and the root field is
      annotated from the seed identifier with the tree's node for that key. */
  lemma RootWriteReplacesOnlyRootField(data: Value, operation: Operation, fuel: nat)
    requires IsRootId(operation.dataId) && data.Obj?
    requires PopulateDynamicId(data, operation, fuel).Ok?
    ensures var r := PopulateDynamicId(data, operation, fuel).value;
      var key := RootKey(data);
      var queryData := Get(data, key);
      var fieldTree := FieldTreeOf(operation.definitions, operation.variables, fuel).value;
      && key in KeySet(data.fields) && key != "__typename"
      && r.Obj? && KeySet(r.fields) == KeySet(data.fields)
      && Get(r, key) == Annotate(queryData, Seed(Get(queryData, "__typename"), key), Get(fieldTree, key))
      && forall k | k != key :: Get(r, k) == Get(data, k)
  {
    var key := RootKey(data);
    var queryData := Get(data, key);
    var fieldTree := FieldTreeOf(operation.definitions, operation.variables, fuel).value;
    RootKeyOfObject(data);
    UpdateKeyObject(data.fields, key, Annotate(queryData, Seed(Get(queryData, "__typename"), key), Get(fieldTree, key)));
  }

  // ---------------------------------------------------------------------
  // A root field that is null
  // ---------------------------------------------------------------------

  /** The result of a root query whose root field is null, e.g.
      `{ book: null }`, is a throw out of `populateDynamicId`, though a
      nullable root field is an ordinary GraphQL response. */
  lemma NullRootFieldThrows(operation: Operation, fuel: nat)
    requires operation.dataId == "ROOT_QUERY"
    ensures PopulateDynamicId(Obj([("book", Null)]), operation, fuel).Err?
  {
    assert RootKey(Obj([("book", Null)])) == "book";
  }

  /** `populateDynamicId` with the reading of the root field, and the reading
      of the first definition, inside the fallback: data whose root field
      cannot be read, or is null or undefined, and data written with a
      document without definitions, are returned as they are, as every other
      failure of annotation is. */
  function PopulateDynamicIdGuarded(data: Value, operation: Operation, fuel: nat): (r: Result<Value>)
    ensures r.Ok?
  {
    if || operation.definitions == []
       || (IsRootId(operation.dataId) && (data == Undefined || data == Null ||
                                          Get(data, RootKey(data)) == Undefined || Get(data, RootKey(data)) == Null))
    then Ok(data)
    else PopulateDynamicId(data, operation, fuel)
  }

  /** The guarded dispatcher never throws, and agrees with the written one
      wherever that one returns. */
  lemma GuardedNeverThrows(data: Value, operation: Operation, fuel: nat)
    ensures PopulateDynamicIdGuarded(data, operation, fuel).Ok?
    ensures PopulateDynamicId(data, operation, fuel).Ok? ==>
      PopulateDynamicIdGuarded(data, operation, fuel) == PopulateDynamicId(data, operation, fuel)
    ensures PopulateDynamicIdGuarded(Obj([("book", Null)]), operation, fuel) == Ok(Obj([("book", Null)]))
  {
    PopulateDynamicIdThrows(data, operation, fuel);
    assert RootKey(Obj([("book", Null)])) == "book";
  }
}
