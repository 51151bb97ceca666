/**
 * `_isPrimitiveValue` and `_populateDynamicId`: walk response data and its
 * field tree together, give every typed object without a truthy `id` an `_id`
 * string, and hand each child an identifier composed from its parent's.
 */
module DynamicId {
  import opened Js
  import opened Json

  /** `_isPrimitiveValue(data)`: neither a truthy `__typename` nor an array. */
  predicate IsPrimitive(data: Value)
    ensures data.Arr? ==> !IsPrimitive(data)
    ensures !IsPrimitive(data) ==> data.Arr? || data.Obj?
  {
    !(Truthy(Get(data, "__typename")) || data.Arr?)
  }

  /** `_.get(fieldTree, [fieldTypeName, key]) || _.get(fieldTree, key, {})`:
      the node under the type name first (fields of an inline fragment), then
      the node under the key, else an empty node. */
  function ChildNode(fieldTree: Value, typeName: Value, key: string): (r: Value)
    ensures r != Undefined
    ensures Get(fieldTree, key) == Undefined && !Truthy(Get(Get(fieldTree, ToString(typeName)), key)) ==> r == Obj([])
  {
    var nested := Get(Get(fieldTree, ToString(typeName)), key);
    if Truthy(nested) then nested else GetOr(fieldTree, key, Obj([]))
  }

  /** The identifier handed to a child whose field-tree node is `node`:
      `${__typename}:${id}.${schemaFieldName}` under an object with an id,
      `${parenId}.${schemaFieldName}` otherwise, followed by the JSON of the
      node's `variablesMap` in parentheses when that map is non-empty. */
  function ChildId(parenId: string, hasId: bool, typeName: Value, id: Value, node: Value): (r: string)
    ensures hasId ==> ToString(typeName) + ":" + ToString(id) + "." <= r
    ensures !hasId ==> parenId + "." <= r
  {
    var fieldName := Get(node, "schemaFieldName");
    var variablesMap := GetOr(node, "variablesMap", Obj([]));
    var base := if hasId then ToString(typeName) + ":" + ToString(id) + "." + ToString(fieldName)
                else parenId + "." + ToString(fieldName);
    if !IsEmpty(variablesMap) then base + "(" + Stringify(variablesMap) + ")" else base
  }

  /** `${parenId}.${index}`: the identifier handed to an array element. */
  function ElementId(parenId: string, index: nat): string {
    parenId + "." + NatToString(index)
  }

  /** `keys.reduce((result, key) => ({ ...result, [key]: value }), {})`:
      the object rebuilt by assigning its entries one after another. */
  function Reassign(ps: seq<(string, Value)>): seq<(string, Value)> {
    if ps == [] then []
    else SetProp(Reassign(ps[..|ps| - 1]), ps[|ps| - 1].0, ps[|ps| - 1].1)
  }

  /** `_populateDynamicId({ data, parenId, fieldTree })`. */
  function Annotate(data: Value, parenId: string, fieldTree: Value): (r: Value)
    ensures r.Arr? <==> data.Arr?
    ensures r.Arr? ==> |r.items| == |data.items|
    ensures r.Obj? <==> data.Obj?
    ensures !data.Arr? && !data.Obj? ==> r == data
    decreases data, 2
  {
    if IsPrimitive(data) then data
    else if Truthy(data) && !Truthy(fieldTree) then data
    else match data
      case Arr(_) => Arr(AnnotateItems(data, parenId, fieldTree))
      case Obj(_) => Obj(Reassign(Updated(data, parenId, fieldTree)))
      // Not reached: only arrays and objects have a truthy `__typename`;
      // the source falls off the end of the function here.
      case _ => Undefined
  }

  /** Every element of an array, annotated with its element id against the
      array's own node. */
  function AnnotateItems(data: Value, parenId: string, fieldTree: Value): (r: seq<Value>)
    requires data.Arr?
    ensures |r| == |data.items|
    decreases data, 1
  {
    var items := data.items;
    seq(|items|, i requires 0 <= i < |items| => Annotate(items[i], ElementId(parenId, i), fieldTree))
  }

  /** `updatedData` with every property annotated: `_id` is the parent id
      when `id` is falsy (an `_id` string is primitive, so annotating it
      leaves it as it is). */
  function Updated(data: Value, parenId: string, fieldTree: Value): seq<(string, Value)>
    requires data.Obj?
    decreases data, 1
  {
    var entries := AnnotateEntries(data, parenId, fieldTree);
    if Truthy(Get(data, "id")) then entries else SetProp(entries, "_id", Str(parenId))
  }

  /** Every property of a typed object, annotated with its child id and node. */
  function AnnotateEntries(data: Value, parenId: string, fieldTree: Value): (r: seq<(string, Value)>)
    requires data.Obj?
    ensures Keys(r) == Keys(data.fields)
    decreases data, 0
  {
    var fields := data.fields;
    var hasId := Truthy(Get(data, "id"));
    var typeName := Get(data, "__typename");
    var id := Get(data, "id");
    seq(|fields|, i requires 0 <= i < |fields| =>
      var node := ChildNode(fieldTree, typeName, fields[i].0);
      (fields[i].0, Annotate(fields[i].1, ChildId(parenId, hasId, typeName, id, node), node)))
  }

  // ---------------------------------------------------------------------
  // Data as a JSON response is parsed
  // ---------------------------------------------------------------------

  /** Own keys enumerate array-index keys first, in ascending order. */
  predicate JsOrdered(ps: seq<(string, Value)>) {
    forall i, j | 0 <= i < j < |ps| && IsArrayIndex(ps[j].0) ::
      IsArrayIndex(ps[i].0) && IndexValue(ps[i].0) < IndexValue(ps[j].0)
  }

  /** Every object, at every depth, has distinct keys in enumeration order. */
  predicate WellFormed(v: Value)
    decreases v
  {
    match v
    case Arr(items) => forall i | 0 <= i < |items| :: WellFormed(items[i])
    case Obj(fields) =>
      && UniqueKeys(fields) && JsOrdered(fields)
      && forall i | 0 <= i < |fields| :: WellFormed(fields[i].1)
    case _ => true
  }

  lemma {:induction false} InsertIndexKeyLast(ps: seq<(string, Value)>, k: string, v: Value)
    requires IsArrayIndex(k)
    requires forall i | 0 <= i < |ps| :: IsArrayIndex(ps[i].0) && IndexValue(ps[i].0) < IndexValue(k)
    ensures InsertIndexKey(ps, k, v) == ps + [(k, v)]
  {
    if ps != [] {
      InsertIndexKeyLast(ps[1..], k, v);
      assert [ps[0]] + (ps[1..] + [(k, v)]) == ps + [(k, v)];
    }
  }

  /** Rebuilding an object whose keys are distinct and in enumeration order
      reproduces it. */
  lemma {:induction false} ReassignOrdered(ps: seq<(string, Value)>)
    requires UniqueKeys(ps) && JsOrdered(ps)
    ensures Reassign(ps) == ps
    decreases |ps|
  {
    if ps != [] {
      var pre := ps[..|ps| - 1];
      var (k, v) := ps[|ps| - 1];
      ReassignOrdered(pre);
      assert !HasKey(pre, k) by {
        FindIffKey(pre, k);
      }
      assert ps == pre + [(k, v)];
      if IsArrayIndex(k) {
        forall i | 0 <= i < |pre| ensures IsArrayIndex(pre[i].0) && IndexValue(pre[i].0) < IndexValue(k) {
          assert ps[i] == pre[i];
        }
        InsertIndexKeyLast(pre, k, v);
      }
    }
  }

  // ---------------------------------------------------------------------
  // Annotation changes nothing but `_id`
  // ---------------------------------------------------------------------

  /** The data with every `_id` property removed, at every depth. */
  function StripIds(v: Value): Value
    decreases v, 1
  {
    match v
    case Arr(items) => Arr(seq(|items|, i requires 0 <= i < |items| => StripIds(items[i])))
    case Obj(_) => Obj(StripFields(v, 0))
    case _ => v
  }

  function StripFields(o: Value, i: nat): seq<(string, Value)>
    requires o.Obj? && i <= |o.fields|
    decreases o, 0, |o.fields| - i
  {
    if i == |o.fields| then []
    else
      (if o.fields[i].0 == "_id" then [] else [(o.fields[i].0, StripIds(o.fields[i].1))])
      + StripFields(o, i + 1)
  }

  /** Objects that agree on every key and on every value but `_id` strip alike. */
  lemma {:induction false} StripFieldsAgree(a: seq<(string, Value)>, b: seq<(string, Value)>, i: nat)
    requires |a| == |b| && i <= |a|
    requires forall j | i <= j < |a| :: a[j].0 == b[j].0 && (a[j].0 != "_id" ==> StripIds(a[j].1) == StripIds(b[j].1))
    ensures StripFields(Obj(a), i) == StripFields(Obj(b), i)
    decreases |a| - i
  {
    if i < |a| {
      StripFieldsAgree(a, b, i + 1);
    }
  }

  /** An `_id` appended at the end strips away. */
  lemma {:induction false} StripFieldsAppendId(ps: seq<(string, Value)>, x: Value, i: nat)
    requires i <= |ps|
    ensures StripFields(Obj(ps + [("_id", x)]), i) == StripFields(Obj(ps), i)
    decreases |ps| - i
  {
    var qs := ps + [("_id", x)];
    if i < |ps| {
      assert qs[i] == ps[i];
      StripFieldsAppendId(ps, x, i + 1);
    } else {
      assert qs[i].0 == "_id";
    }
  }

  lemma {:induction false} ReplaceKeepsKeys(ps: seq<(string, Value)>, k: string, x: Value)
    ensures |Replace(ps, k, x)| == |ps|
    ensures forall j | 0 <= j < |ps| :: Replace(ps, k, x)[j].0 == ps[j].0 && (ps[j].0 != k ==> Replace(ps, k, x)[j] == ps[j])
  {
    if ps != [] {
      ReplaceKeepsKeys(ps[1..], k, x);
    }
  }

  /** Setting `_id` on an object changes nothing once ids are stripped. */
  lemma StripFieldsSetId(ps: seq<(string, Value)>, x: Value)
    ensures StripFields(Obj(SetProp(ps, "_id", x)), 0) == StripFields(Obj(ps), 0)
  {
    assert !IsArrayIndex("_id") by { assert !IsDigit("_id"[0]); }
    if HasKey(ps, "_id") {
      ReplaceKeepsKeys(ps, "_id", x);
      StripFieldsAgree(Replace(ps, "_id", x), ps, 0);
    } else {
      StripFieldsAppendId(ps, x, 0);
    }
  }

  lemma JsOrderedSetId(ps: seq<(string, Value)>, x: Value)
    requires JsOrdered(ps) && UniqueKeys(ps)
    ensures JsOrdered(SetProp(ps, "_id", x)) && UniqueKeys(SetProp(ps, "_id", x))
  {
    assert !IsArrayIndex("_id") by { assert !IsDigit("_id"[0]); }
    SetPropFacts(ps, "_id", x, "_id");
    if HasKey(ps, "_id") {
      ReplaceKeepsKeys(ps, "_id", x);
    }
  }

  /** Two property lists with the same keys, position by position, agree on
      whether their keys are distinct and in order, and on the key set. */
  lemma SameKeys(ps: seq<(string, Value)>, qs: seq<(string, Value)>)
    requires |ps| == |qs| && forall j | 0 <= j < |ps| :: ps[j].0 == qs[j].0
    ensures UniqueKeys(ps) ==> UniqueKeys(qs)
    ensures JsOrdered(ps) ==> JsOrdered(qs)
    ensures KeySet(ps) == KeySet(qs)
  {
    assert KeySet(ps) == KeySet(qs) by {
      forall x ensures x in KeySet(ps) <==> x in KeySet(qs) {
        if x in KeySet(ps) {
          var j :| 0 <= j < |ps| && ps[j].0 == x;
          assert qs[j].0 == x;
        }
        if x in KeySet(qs) {
          var j :| 0 <= j < |qs| && qs[j].0 == x;
          assert ps[j].0 == x;
        }
      }
    }
  }

  /** The annotated properties keep the keys of the object they come from,
      position by position, so they stay distinct and in order. */
  lemma EntriesFacts(data: Value, parenId: string, fieldTree: Value)
    requires data.Obj? && WellFormed(data)
    ensures var entries := AnnotateEntries(data, parenId, fieldTree);
      && UniqueKeys(entries) && JsOrdered(entries)
      && KeySet(entries) == KeySet(data.fields)
  {
    var fields := data.fields;
    var entries := AnnotateEntries(data, parenId, fieldTree);
    forall j | 0 <= j < |fields| ensures fields[j].0 == entries[j].0 {
      assert Keys(entries)[j] == Keys(fields)[j];
    }
    SameKeys(fields, entries);
  }

  /** Property j of a typed object, annotated. */
  lemma EntryAt(data: Value, parenId: string, fieldTree: Value, j: nat)
    requires data.Obj? && j < |data.fields|
    ensures var typeName := Get(data, "__typename");
      var key := data.fields[j].0;
      var node := ChildNode(fieldTree, typeName, key);
      AnnotateEntries(data, parenId, fieldTree)[j] ==
        (key, Annotate(data.fields[j].1, ChildId(parenId, Truthy(Get(data, "id")), typeName, Get(data, "id"), node), node))
  {
  }

  /** Setting `_id` on annotated properties that lack a truthy `id`. */
  lemma SetIdFacts(entries: seq<(string, Value)>, parenId: string)
    requires UniqueKeys(entries) && JsOrdered(entries)
    ensures var u := SetProp(entries, "_id", Str(parenId));
      && UniqueKeys(u) && JsOrdered(u)
      && KeySet(u) == KeySet(entries) + {"_id"}
      && (forall k :: Find(u, k) == if k == "_id" then Some(Str(parenId)) else Find(entries, k))
  {
    JsOrderedSetId(entries, Str(parenId));
    SetPropFacts(entries, "_id", Str(parenId), "_id");
    forall k ensures Find(SetProp(entries, "_id", Str(parenId)), k) == if k == "_id" then Some(Str(parenId)) else Find(entries, k) {
      SetPropFacts(entries, "_id", Str(parenId), k);
    }
  }

  /** The annotated properties keep the keys, distinct and in order, of the
      object they come from; setting `_id` keeps that so. */
  lemma UpdatedFacts(data: Value, parenId: string, fieldTree: Value)
    requires data.Obj? && WellFormed(data)
    ensures var u := Updated(data, parenId, fieldTree);
      var entries := AnnotateEntries(data, parenId, fieldTree);
      var hasId := Truthy(Get(data, "id"));
      && UniqueKeys(u) && JsOrdered(u)
      && KeySet(u) == KeySet(data.fields) + (if hasId then {} else {"_id"})
      && (forall k :: Find(u, k) == if !hasId && k == "_id" then Some(Str(parenId)) else Find(entries, k))
  {
    EntriesFacts(data, parenId, fieldTree);
    if !Truthy(Get(data, "id")) {
      SetIdFacts(AnnotateEntries(data, parenId, fieldTree), parenId);
    }
  }

  /** On a typed, well-formed object with a field tree, the rebuild by
      `reduce` reproduces the annotated properties in their order. */
  lemma AnnotateIsUpdated(data: Value, parenId: string, fieldTree: Value)
    requires data.Obj? && WellFormed(data) && !IsPrimitive(data) && Truthy(fieldTree)
    ensures Annotate(data, parenId, fieldTree) == Obj(Updated(data, parenId, fieldTree))
  {
    UpdatedFacts(data, parenId, fieldTree);
    ReassignOrdered(Updated(data, parenId, fieldTree));
  }

  /** On data as a JSON response is parsed, annotation only adds or
      overwrites `_id` properties: with every `_id` removed, the result and
      the input are the same data. */
  lemma {:induction false} AnnotateOnlyAddsIds(data: Value, parenId: string, fieldTree: Value)
    requires WellFormed(data)
    ensures StripIds(Annotate(data, parenId, fieldTree)) == StripIds(data)
    decreases data, 2
  {
    if IsPrimitive(data) || (Truthy(data) && !Truthy(fieldTree)) {
    } else if data.Arr? {
      var r := Annotate(data, parenId, fieldTree);
      forall i | 0 <= i < |data.items| ensures StripIds(r.items[i]) == StripIds(data.items[i]) {
        AnnotateOnlyAddsIds(data.items[i], ElementId(parenId, i), fieldTree);
      }
    } else if data.Obj? {
      ObjectOnlyAddsIds(data, parenId, fieldTree);
    }
  }

  lemma {:induction false} ObjectOnlyAddsIds(data: Value, parenId: string, fieldTree: Value)
    requires data.Obj? && WellFormed(data) && !IsPrimitive(data) && Truthy(fieldTree)
    ensures StripIds(Annotate(data, parenId, fieldTree)) == StripIds(data)
    decreases data, 0
  {
    var fields := data.fields;
    var hasId := Truthy(Get(data, "id"));
    var typeName := Get(data, "__typename");
    var entries := AnnotateEntries(data, parenId, fieldTree);
    AnnotateIsUpdated(data, parenId, fieldTree);
    forall j | 0 <= j < |fields|
      ensures entries[j].0 == fields[j].0 && StripIds(entries[j].1) == StripIds(fields[j].1)
    {
      var node := ChildNode(fieldTree, typeName, fields[j].0);
      AnnotateOnlyAddsIds(fields[j].1, ChildId(parenId, hasId, typeName, Get(data, "id"), node), node);
    }
    StripFieldsAgree(entries, fields, 0);
    if !hasId {
      StripFieldsSetId(entries, Str(parenId));
    }
  }

  // ---------------------------------------------------------------------
  // What annotation does to one level
  // ---------------------------------------------------------------------

  /** On a typed object (with a field tree), annotation sets `_id` to the
      parent id exactly when `id` is falsy, keeps every key, and replaces
      every other property by its annotation under the child id and node. */
  lemma AnnotateObject(data: Value, parenId: string, fieldTree: Value)
    requires data.Obj? && WellFormed(data) && !IsPrimitive(data) && Truthy(fieldTree)
    ensures var r := Annotate(data, parenId, fieldTree);
      var hasId := Truthy(Get(data, "id"));
      var typeName := Get(data, "__typename");
      && r.Obj?
      && UniqueKeys(r.fields)
      && KeySet(r.fields) == KeySet(data.fields) + (if hasId then {} else {"_id"})
      && (!hasId ==> Get(r, "_id") == Str(parenId))
      && (forall k | k in KeySet(data.fields) && (hasId || k != "_id") ::
            Get(r, k) == Annotate(Get(data, k),
                                  ChildId(parenId, hasId, typeName, Get(data, "id"), ChildNode(fieldTree, typeName, k)),
                                  ChildNode(fieldTree, typeName, k)))
  {
    var fields := data.fields;
    var hasId := Truthy(Get(data, "id"));
    var typeName := Get(data, "__typename");
    var entries := AnnotateEntries(data, parenId, fieldTree);
    UpdatedFacts(data, parenId, fieldTree);
    EntriesFacts(data, parenId, fieldTree);
    AnnotateIsUpdated(data, parenId, fieldTree);
    forall k | k in KeySet(fields) && (hasId || k != "_id")
      ensures Find(entries, k) == Some(Annotate(Get(data, k),
                ChildId(parenId, hasId, typeName, Get(data, "id"), ChildNode(fieldTree, typeName, k)),
                ChildNode(fieldTree, typeName, k)))
    {
      var j :| 0 <= j < |fields| && fields[j].0 == k;
      FindAt(fields, j);
      EntryAt(data, parenId, fieldTree, j);
      FindAt(entries, j);
    }
  }

  /** On an array (with a field tree), annotation keeps the length and
      annotates element i under `${parenId}.${i}` with the same tree. */
  lemma AnnotateArray(data: Value, parenId: string, fieldTree: Value)
    requires data.Arr? && Truthy(fieldTree)
    ensures var r := Annotate(data, parenId, fieldTree);
      && r.Arr? && |r.items| == |data.items|
      && forall i | 0 <= i < |data.items| :: r.items[i] == Annotate(data.items[i], ElementId(parenId, i), fieldTree)
  {
  }

  /** Different elements of an array get different identifiers. */
  lemma ElementIdsDistinct(parenId: string, i: nat, j: nat)
    requires i != j
    ensures ElementId(parenId, i) != ElementId(parenId, j)
  {
    var p := parenId + ".";
    assert ElementId(parenId, i) == p + NatToString(i);
    assert ElementId(parenId, j) == p + NatToString(j);
    NatToStringInjective(i, j);
    assert (p + NatToString(i))[|p|..] == NatToString(i);
    assert (p + NatToString(j))[|p|..] == NatToString(j);
  }

  /** The input comes back unchanged when it is primitive, or when it is not
      but there is no field tree for it. */
  lemma AnnotateUnchanged(data: Value, parenId: string, fieldTree: Value)
    requires IsPrimitive(data) || !Truthy(fieldTree)
    ensures Annotate(data, parenId, fieldTree) == data
  {
    if !IsPrimitive(data) {
      assert data.Arr? || Truthy(Get(data, "__typename"));
      assert Truthy(data) by {
        if !data.Arr? {
          assert data.Obj? || data.Str?;
        }
      }
    }
  }

  /** An object with a truthy `id` is annotated the same whatever its parent
      id: every child id starts from `${__typename}:${id}`. */
  lemma NaturalIdIgnoresParent(data: Value, p1: string, p2: string, fieldTree: Value)
    requires data.Obj? && Truthy(Get(data, "id"))
    ensures Annotate(data, p1, fieldTree) == Annotate(data, p2, fieldTree)
  {
    if !IsPrimitive(data) && Truthy(fieldTree) {
      assert AnnotateEntries(data, p1, fieldTree) == AnnotateEntries(data, p2, fieldTree);
    }
  }

  /** Data in which every typed object already has a truthy `id`. */
  predicate NaturallyIdentified(v: Value)
    decreases v
  {
    match v
    case Arr(items) => forall i | 0 <= i < |items| :: NaturallyIdentified(items[i])
    case Obj(fields) =>
      IsPrimitive(v) || (Truthy(Get(v, "id")) && forall i | 0 <= i < |fields| :: NaturallyIdentified(fields[i].1))
    case _ => true
  }

  /** Such data comes back exactly as it was: no `_id` is injected anywhere
      and nothing is reordered. */
  lemma {:induction false} AnnotateIdentified(data: Value, parenId: string, fieldTree: Value)
    requires WellFormed(data) && NaturallyIdentified(data)
    ensures Annotate(data, parenId, fieldTree) == data
    decreases data
  {
    if IsPrimitive(data) || (Truthy(data) && !Truthy(fieldTree)) {
    } else if data.Arr? {
      var r := Annotate(data, parenId, fieldTree);
      assert r.items == AnnotateItems(data, parenId, fieldTree);
      forall i | 0 <= i < |data.items| ensures r.items[i] == data.items[i] {
        AnnotateIdentified(data.items[i], ElementId(parenId, i), fieldTree);
      }
    } else {
      assert data.Obj?;
      var fields := data.fields;
      var typeName := Get(data, "__typename");
      var entries := AnnotateEntries(data, parenId, fieldTree);
      AnnotateIsUpdated(data, parenId, fieldTree);
      forall j | 0 <= j < |fields| ensures entries[j] == fields[j] {
        var node := ChildNode(fieldTree, typeName, fields[j].0);
        EntryAt(data, parenId, fieldTree, j);
        AnnotateIdentified(fields[j].1, ChildId(parenId, true, typeName, Get(data, "id"), node), node);
      }
      assert entries == fields;
    }
  }

  /** A key with no node in the field tree is still annotated, under the
      empty node: its child id ends in `.undefined` and carries no arguments. */
  lemma MissingNodeChildId(fieldTree: Value, typeName: Value, key: string, parenId: string, id: Value)
    requires Get(fieldTree, key) == Undefined && !Truthy(Get(Get(fieldTree, ToString(typeName)), key))
    ensures ChildNode(fieldTree, typeName, key) == Obj([])
    ensures ChildId(parenId, false, typeName, id, Obj([])) == parenId + ".undefined"
    ensures ChildId(parenId, true, typeName, id, Obj([])) == ToString(typeName) + ":" + ToString(id) + ".undefined"
  {
  }
}
