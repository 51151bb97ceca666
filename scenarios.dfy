/**
 * Whole writes on small documents: the identifiers a list element, a field
 * with arguments and an entity with a natural id receive, end to end.
 */
module Scenarios {
  import opened Js
  import opened Json
  import opened Variables
  import opened Ast
  import opened Arguments
  import opened FieldTree
  import opened DynamicId
  import opened Populate

  /** A key that does not start with a digit is not an array index. */
  lemma PlainKey(k: string)
    requires k != [] && !IsDigit(k[0])
    ensures !IsArrayIndex(k)
  {
  }

  /** The node of `outer`, selected under `alias`, once its arguments are added. */
  function OuterNode(alias: Option<string>, outer: string, vm: Value): Node {
    if !IsEmpty(vm) then FieldNode(alias, outer) + [("variablesMap", Meta(vm))] else FieldNode(alias, outer)
  }

  /** The arena `{ alias: outer(args) { inner } }` builds: the root, the node
      of `outer` and the node of `inner`. */
  function NestedArena(alias: Option<string>, outer: string, inner: string, vm: Value): Arena {
    [[(FieldKey(alias, outer), Ref(1))], OuterNode(alias, outer, vm) + [(inner, Ref(2))], FieldNode(None, inner)]
  }

  lemma InnerFieldStep(defs: seq<Definition>, alias: Option<string>, outer: string, inner: string, vm: Value,
                       vars: seq<(string, Value)>, d: nat)
    requires d >= 1 && inner != "" && !IsDigit(inner[0])
    requires inner !in {"kind", "field", "schemaFieldName", "aliasFieldName", "variablesMap"}
    ensures PopulateFieldTree([[(FieldKey(alias, outer), Ref(1))], OuterNode(alias, outer, vm)], defs,
                              SelectionSet([Field(None, inner, None, None)]), 1, vars, d)
            == Step(NestedArena(alias, outer, inner, vm), Done)
  {
    PlainKey(inner);
    var n1 := FieldNode(alias, outer);
    var m1 := OuterNode(alias, outer, vm);
    FieldNodeFacts(alias, outer);
    assert !HasKey(m1, inner) by {
      FindIffKey(m1, inner);
      FindIffKey(n1, inner);
      if !IsEmpty(vm) { KeySetAppend(n1, ("variablesMap", Meta(vm))); }
    }
    var a2: Arena := [[(FieldKey(alias, outer), Ref(1))], m1];
    assert Attach(a2, 1, inner, FieldNode(None, inner)) == NestedArena(alias, outer, inner, vm);
    ResolveArgumentsEntries(None, vars);
    var leaf := Field(None, inner, None, None);
    var s := PopulateSelection(a2, defs, leaf, 1, vars, d - 1);
    assert s == Step(NestedArena(alias, outer, inner, vm), Done);
    assert [leaf][0] == leaf && [leaf][1..] == [];
    assert PopulateSelections(a2, defs, [leaf], 1, vars, d - 1) == PopulateSelections(s.arena, defs, [], 1, vars, d - 1);
  }

  /** The field `outer` attached to the empty root under its key, with its arguments. */
  lemma OuterAttach(alias: Option<string>, outer: string, vm: Value)
    ensures var a1 := Attach([[]], 0, FieldKey(alias, outer), FieldNode(alias, outer));
      (if !IsEmpty(vm) then a1[1 := SetProp(a1[1], "variablesMap", Meta(vm))] else a1)
      == [[(FieldKey(alias, outer), Ref(1))], OuterNode(alias, outer, vm)]
  {
    var key := FieldKey(alias, outer);
    var n1 := FieldNode(alias, outer);
    assert SetProp([], key, Ref(1)) == [(key, Ref(1))] by {
      if IsArrayIndex(key) { assert InsertIndexKey([], key, Ref(1)) == [(key, Ref(1))]; }
    }
    assert !IsEmpty(vm) ==> SetProp(n1, "variablesMap", Meta(vm)) == OuterNode(alias, outer, vm) by {
      PlainKey("variablesMap");
      FieldNodeFacts(alias, outer);
      FindIffKey(n1, "variablesMap");
    }
  }

  lemma NestedFieldArena(defs: seq<Definition>, alias: Option<string>, outer: string, args: Option<seq<Argument>>, inner: string,
                         vars: seq<(string, Value)>, fuel: nat)
    requires fuel >= 2 && defs != []
    requires defs[0].selectionSet == SelectionSet([Field(alias, outer, args, Some(SelectionSet([Field(None, inner, None, None)])))])
    requires inner != "" && !IsDigit(inner[0])
    requires inner !in {"kind", "field", "schemaFieldName", "aliasFieldName", "variablesMap"}
    ensures PopulateFieldTree([[]], defs, defs[0].selectionSet, 0, vars, fuel)
            == Step(NestedArena(alias, outer, inner, ResolveArguments(args, vars)), Done)
  {
    var vm := ResolveArguments(args, vars);
    OuterAttach(alias, outer, vm);
    InnerFieldStep(defs, alias, outer, inner, vm, vars, fuel - 1);
    var top := Field(alias, outer, args, Some(SelectionSet([Field(None, inner, None, None)])));
    var s := PopulateSelection([[]], defs, top, 0, vars, fuel - 1);
    assert s == Step(NestedArena(alias, outer, inner, vm), Done);
    assert [top][0] == top && [top][1..] == [];
    assert PopulateSelections([[]], defs, [top], 0, vars, fuel - 1) == PopulateSelections(s.arena, defs, [], 0, vars, fuel - 1);
  }

  /** Reading the built arena: the root holds only the field's key, whose
      node carries the schema name and the arguments. */
  lemma NestedArenaRead(alias: Option<string>, outer: string, inner: string, vm: Value)
    requires ValidArena(NestedArena(alias, outer, inner, vm)) && vm.Obj?
    requires inner != "variablesMap"
    ensures var tree := Materialize(NestedArena(alias, outer, inner, vm), 0);
      var node := Get(tree, FieldKey(alias, outer));
      && (forall k | k != FieldKey(alias, outer) :: Get(tree, k) == Undefined)
      && node.Obj?
      && Get(node, "schemaFieldName") == Str(outer)
      && GetOr(node, "variablesMap", Obj([])) == vm
  {
    NestedArenaRoot(alias, outer, inner, vm);
    NestedArenaNode(alias, outer, inner, vm);
  }

  lemma NestedArenaRoot(alias: Option<string>, outer: string, inner: string, vm: Value)
    requires ValidArena(NestedArena(alias, outer, inner, vm))
    ensures var a3 := NestedArena(alias, outer, inner, vm);
      var tree := Materialize(a3, 0);
      && (forall k | k != FieldKey(alias, outer) :: Get(tree, k) == Undefined)
      && Get(tree, FieldKey(alias, outer)) == Materialize(a3, 1)
  {
    var key := FieldKey(alias, outer);
    var a3 := NestedArena(alias, outer, inner, vm);
    var tree := Materialize(a3, 0);
    MaterializeGet(a3, 0, 0);
    assert Keys(tree.fields) == [key];
    forall k | k != key ensures Get(tree, k) == Undefined {
      assert |tree.fields| == 1 && tree.fields[0].0 == Keys(tree.fields)[0];
      assert tree.fields[1..] == [];
      assert Find(tree.fields, k) == Find(tree.fields[1..], k) == None;
    }
  }

  lemma NestedArenaNode(alias: Option<string>, outer: string, inner: string, vm: Value)
    requires ValidArena(NestedArena(alias, outer, inner, vm)) && vm.Obj?
    requires inner != "variablesMap"
    ensures var node := Materialize(NestedArena(alias, outer, inner, vm), 1);
      && node.Obj?
      && Get(node, "schemaFieldName") == Str(outer)
      && GetOr(node, "variablesMap", Obj([])) == vm
  {
    var a3 := NestedArena(alias, outer, inner, vm);
    var node := Materialize(a3, 1);
    MaterializeGet(a3, 1, 2);
    if !IsEmpty(vm) {
      MaterializeGet(a3, 1, 4);
    } else {
      assert Keys(node.fields) == Keys(a3[1]);
      FindIffKey(node.fields, "variablesMap");
      forall i | 0 <= i < |node.fields| ensures node.fields[i].0 != "variablesMap" {
        assert Keys(node.fields)[i] == a3[1][i].0;
      }
    }
  }

  /** `{ alias: outer(args) { inner } }`: the tree holds one node, under the
      alias when there is one and under `outer` otherwise, carrying the schema
      name and the resolved arguments. */
  lemma NestedFieldTree(defs: seq<Definition>, alias: Option<string>, outer: string, args: Option<seq<Argument>>, inner: string,
                        vars: seq<(string, Value)>, fuel: nat)
    requires fuel >= 2 && defs != []
    requires defs[0].selectionSet == SelectionSet([Field(alias, outer, args, Some(SelectionSet([Field(None, inner, None, None)])))])
    requires inner != "" && !IsDigit(inner[0])
    requires inner !in {"kind", "field", "schemaFieldName", "aliasFieldName", "variablesMap"}
    ensures var tree := FieldTreeOf(defs, vars, fuel).value;
      var node := Get(tree, FieldKey(alias, outer));
      && (forall k | k != FieldKey(alias, outer) :: Get(tree, k) == Undefined)
      && node.Obj?
      && Get(node, "schemaFieldName") == Str(outer)
      && GetOr(node, "variablesMap", Obj([])) == ResolveArguments(args, vars)
  {
    var vm := ResolveArguments(args, vars);
    ResolveArgumentsEntries(args, vars);
    NestedFieldArena(defs, alias, outer, args, inner, vars, fuel);
    PopulateFieldTreeFrame([[]], defs, defs[0].selectionSet, 0, vars, fuel);
    NestedArenaRead(alias, outer, inner, vm);
  }

  /** Under a parent of type `typeName` (other than the field's key), the
      field read at its key is annotated with its own node and handed
      `expected`: the parent's id, the schema name (never the alias) and, when
      there are any, the arguments as the JSON `json`. */
  lemma NestedFieldChildId(defs: seq<Definition>, alias: Option<string>, outer: string, args: Option<seq<Argument>>, inner: string,
                           vars: seq<(string, Value)>, fuel: nat, typeName: string, parenId: string, hasId: bool, id: Value,
                           vm: Value, json: string, expected: string)
    requires fuel >= 2 && defs != []
    requires defs[0].selectionSet == SelectionSet([Field(alias, outer, args, Some(SelectionSet([Field(None, inner, None, None)])))])
    requires inner != "" && !IsDigit(inner[0])
    requires inner !in {"kind", "field", "schemaFieldName", "aliasFieldName", "variablesMap"}
    requires typeName != FieldKey(alias, outer)
    requires ResolveArguments(args, vars) == vm && (!IsEmpty(vm) ==> Stringify(vm) == json)
    requires expected == (if hasId then typeName + ":" + ToString(id) else parenId) + "." + outer +
                         (if IsEmpty(vm) then "" else "(" + json + ")")
    ensures var tree := FieldTreeOf(defs, vars, fuel).value;
      var node := Get(tree, FieldKey(alias, outer));
      && tree.Obj? && node.Obj?
      && ChildNode(tree, Str(typeName), FieldKey(alias, outer)) == node
      && ChildId(parenId, hasId, Str(typeName), id, node) == expected
  {
    NestedFieldTree(defs, alias, outer, args, inner, vars, fuel);
  }

  /** An alias changes where a field is read, not the identifier its data
      receives: the aliased field read at its alias gets the id the same field
      without an alias gets read at its name. */
  lemma AliasKeepsChildId(d1: seq<Definition>, d2: seq<Definition>, al: string, outer: string, args: Option<seq<Argument>>,
                          inner: string, vars: seq<(string, Value)>, fuel: nat, typeName: string, parenId: string,
                          hasId: bool, id: Value)
    requires fuel >= 2 && d1 != [] && d2 != []
    requires d1[0].selectionSet == SelectionSet([Field(Some(al), outer, args, Some(SelectionSet([Field(None, inner, None, None)])))])
    requires d2[0].selectionSet == SelectionSet([Field(None, outer, args, Some(SelectionSet([Field(None, inner, None, None)])))])
    requires inner != "" && !IsDigit(inner[0])
    requires inner !in {"kind", "field", "schemaFieldName", "aliasFieldName", "variablesMap"}
    requires typeName != FieldKey(Some(al), outer) && typeName != outer
    ensures var t1 := FieldTreeOf(d1, vars, fuel).value;
      var t2 := FieldTreeOf(d2, vars, fuel).value;
      var key := FieldKey(Some(al), outer);
      ChildId(parenId, hasId, Str(typeName), id, ChildNode(t1, Str(typeName), key))
      == ChildId(parenId, hasId, Str(typeName), id, ChildNode(t2, Str(typeName), outer))
  {
    var vm := ResolveArguments(args, vars);
    var json := Stringify(vm);
    var expected := (if hasId then typeName + ":" + ToString(id) else parenId) + "." + outer +
                    (if IsEmpty(vm) then "" else "(" + json + ")");
    NestedFieldChildId(d1, Some(al), outer, args, inner, vars, fuel, typeName, parenId, hasId, id, vm, json, expected);
    NestedFieldChildId(d2, None, outer, args, inner, vars, fuel, typeName, parenId, hasId, id, vm, json, expected);
  }

  // ---------------------------------------------------------------------
  // Entities with a natural id
  // ---------------------------------------------------------------------

  const BookA: Value := Obj([("id", Str("1")), ("name", Str("X")), ("__typename", Str("Book"))])
  const ResponseA: Value := Obj([("books", Arr([BookA]))])

  /** `{ books { id name } }` */
  const OperationA: Operation :=
    Operation([Definition(None, SelectionSet([
      Field(None, "books", None, Some(SelectionSet([Field(None, "id", None, None), Field(None, "name", None, None)])))]))],
      [], "ROOT_QUERY")

  lemma BooksWellFormed()
    ensures WellFormed(Arr([BookA])) && NaturallyIdentified(Arr([BookA]))
  {
    PlainKey("id");
    PlainKey("name");
    PlainKey("__typename");
    assert Get(BookA, "id") == Str("1");
    assert WellFormed(BookA) && NaturallyIdentified(BookA);
  }

  lemma ResponseARoot()
    ensures RootKey(ResponseA) == "books" && Get(ResponseA, "books") == Arr([BookA])
    ensures UpdateKey(ResponseA, "books", Arr([BookA])) == ResponseA
  {
    assert JsKeys(ResponseA) == ["books"];
    assert Replace(ResponseA.fields, "books", Arr([BookA])) == ResponseA.fields;
  }

  /** A list of books that all carry an `id` is written back as it came. */
  lemma NaturalIdsUnchanged(fuel: nat)
    ensures PopulateDynamicId(ResponseA, OperationA, fuel) == Ok(ResponseA)
  {
    var books := Arr([BookA]);
    ResponseARoot();
    BooksWellFormed();
    var tree := FieldTreeOf(OperationA.definitions, OperationA.variables, fuel).value;
    var seed := Seed(Get(books, "__typename"), "books");
    AnnotateIdentified(books, seed, Get(tree, "books"));
  }

  // ---------------------------------------------------------------------
  // A list of objects without an id
  // ---------------------------------------------------------------------

  const DetailsB: Value := Obj([("pages", Num(10)), ("__typename", Str("BookDetails"))])
  const BookB: Value := Obj([("__typename", Str("Book")), ("id", Str("1")), ("additionalDetailsByBook", Arr([DetailsB]))])

  /** `fragment BookDetailsFragment on Book { additionalDetailsByBook { pages } }`, written to `Book:1`. */
  const OperationB: Operation :=
    Operation([Definition(Some("BookDetailsFragment"), SelectionSet([
      Field(None, "additionalDetailsByBook", None, Some(SelectionSet([Field(None, "pages", None, None)])))]))],
      [], "Book:1")

  lemma DetailsBFacts()
    ensures WellFormed(DetailsB) && !IsPrimitive(DetailsB) && Get(DetailsB, "id") == Undefined
  {
    PlainKey("pages");
    PlainKey("__typename");
    FindAt(DetailsB.fields, 1);
    FindIffKey(DetailsB.fields, "id");
  }

  lemma BookBWellFormed()
    ensures WellFormed(BookB)
  {
    DetailsBFacts();
    PlainKey("__typename");
    PlainKey("id");
    PlainKey("additionalDetailsByBook");
  }

  lemma BookBFacts()
    ensures WellFormed(BookB) && !IsPrimitive(BookB)
    ensures Get(BookB, "__typename") == Str("Book") && Get(BookB, "id") == Str("1")
    ensures "additionalDetailsByBook" in KeySet(BookB.fields) && Get(BookB, "additionalDetailsByBook") == Arr([DetailsB])
  {
    BookBWellFormed();
    FindAt(BookB.fields, 0);
    FindAt(BookB.fields, 1);
    FindAt(BookB.fields, 2);
  }

  lemma BookIdText()
    ensures "Book" + ":" + ToString(Str("1")) + "." + "additionalDetailsByBook" + "" == "Book:1.additionalDetailsByBook"
  {
  }

  /** The book keeps its natural id and gets no `_id`; its list is handed
      the id composed from the book's and annotated with the list's node. */
  lemma BookBAnnotated(tree: Value, node: Value, cid: string)
    requires tree.Obj?
    requires ChildNode(tree, Str("Book"), "additionalDetailsByBook") == node
    requires ChildId("Book:1", true, Str("Book"), Str("1"), node) == cid
    ensures var r := Annotate(BookB, "Book:1", tree);
      && Get(r, "_id") == Undefined
      && Get(r, "additionalDetailsByBook") == Annotate(Arr([DetailsB]), cid, node)
  {
    BookBFacts();
    AnnotateObject(BookB, "Book:1", tree);
    var r := Annotate(BookB, "Book:1", tree);
    FindIffKey(r.fields, "_id");
  }

  /** The list's node in the tree of `OperationB`, and the id it is handed. */
  lemma TreeB(fuel: nat)
    requires fuel >= 2
    ensures var tree := FieldTreeOf(OperationB.definitions, [], fuel).value;
      var node := Get(tree, "additionalDetailsByBook");
      && tree.Obj? && node.Obj?
      && ChildNode(tree, Str("Book"), "additionalDetailsByBook") == node
      && ChildId("Book:1", true, Str("Book"), Str("1"), node) == "Book:1.additionalDetailsByBook"
  {
    ResolveArgumentsEntries(None, []);
    assert ResolveArguments(None, []) == Obj([]);
    BookIdText();
    NestedFieldChildId(OperationB.definitions, None, "additionalDetailsByBook", None, "pages", [], fuel,
                       "Book", "Book:1", true, Str("1"), Obj([]), "", "Book:1.additionalDetailsByBook");
  }

  lemma IndexZero()
    ensures IsArrayIndex("0") && IndexValue("0") == 0
  {
  }

  lemma FirstElementId(p: string)
    ensures ElementId(p, 0) == p + ".0"
  {
  }

  /** The first element of a list handed `p` gets `_id = p + ".0"`. */
  lemma DetailsBAnnotated(p: string, node: Value)
    requires node.Obj?
    ensures Get(Get(Annotate(Arr([DetailsB]), p, node), "0"), "_id") == Str(p + ".0")
  {
    DetailsBFacts();
    var r := Annotate(Arr([DetailsB]), p, node);
    AnnotateArray(Arr([DetailsB]), p, node);
    IndexZero();
    FirstElementId(p);
    var e := r.items[0];
    assert Get(r, "0") == e;
    AnnotateObject(DetailsB, p + ".0", node);
  }

  /** The book keeps its natural id and gets no `_id`; the first element of
      its list gets `Book:1.additionalDetailsByBook.0`. */
  lemma ListElementId(fuel: nat)
    requires fuel >= 2
    ensures var r := PopulateDynamicId(BookB, OperationB, fuel);
      && r.Ok?
      && Get(r.value, "_id") == Undefined
      && Get(Get(Get(r.value, "additionalDetailsByBook"), "0"), "_id") == Str("Book:1.additionalDetailsByBook.0")
  {
    var tree := FieldTreeOf(OperationB.definitions, [], fuel).value;
    var node := Get(tree, "additionalDetailsByBook");
    var cid := "Book:1.additionalDetailsByBook";
    FragmentWrite(BookB, OperationB, fuel);
    TreeB(fuel);
    BookBAnnotated(tree, node, cid);
    DetailsBAnnotated(cid, node);
  }

  // ---------------------------------------------------------------------
  // A field with arguments
  // ---------------------------------------------------------------------

  const OrganizationC: Value := Obj([("__typename", Str("Organization")), ("name", Str("N"))])
  const PlatformC: Value := Obj([("__typename", Str("Platform")), ("organization", OrganizationC)])
  const OrgArgs: seq<Argument> := [Argument("id", VariableRef("organizationId"))]

  /** `fragment PlatformFragment on Platform { organization(id: $organizationId) { name } }`
      with `organizationId = "42"`, written to `Platform:1`. */
  const OperationC: Operation :=
    Operation([Definition(Some("PlatformFragment"), SelectionSet([
      Field(None, "organization", Some(OrgArgs), Some(SelectionSet([Field(None, "name", None, None)])))]))],
      [("organizationId", Str("42"))], "Platform:1")

  lemma OrgVariablesMap(vars: seq<(string, Value)>)
    requires vars == OperationC.variables
    ensures ResolveArguments(Some(OrgArgs), vars) == Obj([("id", Str("42"))])
  {
    PlainKey("id");
    assert Get(Obj(vars), "organizationId") == Str("42");
    assert CollectArguments(OrgArgs, vars) == SetProp([], "id", Str("42"));
    assert SetProp([], "id", Str("42")) == [("id", Str("42"))];
    var v := Obj([("id", Str("42"))]);
    assert JsKeys(v) == ["id"];
    assert SortKeys(["id"]) == ["id"];
    assert Assign(["id"], v) == SetProp(Assign([], v), "id", Get(v, "id"));
  }

  /** Text made of lower-case letters and digits, which JSON quotes as it is. */
  predicate Plain(s: string) {
    forall i | 0 <= i < |s| :: 'a' <= s[i] <= 'z' || '0' <= s[i] <= '9'
  }

  lemma {:induction false} EscapePlain(s: string)
    requires Plain(s)
    ensures Escape(s) == s
  {
    if s != [] {
      EscapePlain(s[1..]);
      assert EscapeChar(s[0]) == [s[0]];
      assert s == [s[0]] + s[1..];
    }
  }

  /** An object with one plain string property is written as one member. */
  lemma StringifyPlainPair(k: string, s: string)
    requires Plain(k) && Plain(s)
    ensures Stringify(Obj([(k, Str(s))])) == "{" + ("\"" + k + "\"") + ":" + ("\"" + s + "\"") + "}"
  {
    var v := Obj([(k, Str(s))]);
    EscapePlain(k);
    EscapePlain(s);
    assert ObjectMembers(v, 1) == [];
    assert ObjectMembers(v, 0) == [Quote(k) + ":" + Quote(s)];
  }

  lemma OrgJsonText(k: string, s: string, json: string)
    requires k == "id" && s == "42" && json == "{\"id\":\"42\"}"
    ensures Plain(k) && Plain(s)
    ensures json == "{" + ("\"" + k + "\"") + ":" + ("\"" + s + "\"") + "}"
  {
  }

  /** `JSON.stringify({ id: "42" })`. */
  lemma OrgVariablesJson(k: string, s: string, vm: Value, json: string)
    requires k == "id" && s == "42"
    requires vm == Obj([(k, Str(s))]) && json == "{\"id\":\"42\"}"
    ensures !IsEmpty(vm) && Stringify(vm) == json
  {
    OrgJsonText(k, s, json);
    StringifyPlainPair(k, s);
  }

  lemma OrganizationCFacts()
    ensures WellFormed(OrganizationC) && !IsPrimitive(OrganizationC) && Get(OrganizationC, "id") == Undefined
  {
    PlainKey("name");
    PlainKey("__typename");
    FindAt(OrganizationC.fields, 0);
    FindIffKey(OrganizationC.fields, "id");
  }

  lemma PlatformCFacts()
    ensures WellFormed(PlatformC) && !IsPrimitive(PlatformC)
    ensures Get(PlatformC, "__typename") == Str("Platform") && Get(PlatformC, "id") == Undefined
    ensures "organization" in KeySet(PlatformC.fields) && Get(PlatformC, "organization") == OrganizationC
  {
    OrganizationCFacts();
    PlainKey("__typename");
    PlainKey("organization");
    FindAt(PlatformC.fields, 0);
    FindAt(PlatformC.fields, 1);
    FindIffKey(PlatformC.fields, "id");
  }

  /** The id composed for the organization from its parent's id, its name
      and its arguments' JSON. */
  lemma OrgIdText(parenId: string, outer: string, json: string, expected: string)
    requires parenId == "Platform:1" && outer == "organization" && json == "{\"id\":\"42\"}"
    requires expected == "Platform:1.organization({\"id\":\"42\"})"
    ensures expected == parenId + "." + outer + ("(" + json + ")")
  {
  }

  /** The document of `OperationC` and its one field's child. */
  lemma OperationCShape()
    ensures OperationC.definitions != []
    ensures OperationC.definitions[0].selectionSet ==
      SelectionSet([Field(None, "organization", Some(OrgArgs), Some(SelectionSet([Field(None, "name", None, None)])))])
    ensures "name" != "" && !IsDigit("name"[0])
    ensures "name" !in {"kind", "field", "schemaFieldName", "aliasFieldName", "variablesMap"}
  {
  }

  /** The organization's node in the tree of `OperationC`, and the id it is
      handed. */
  lemma TreeC(defs: seq<Definition>, vars: seq<(string, Value)>, fuel: nat, typeName: string, parenId: string, expected: string)
    requires defs == OperationC.definitions && vars == OperationC.variables && fuel >= 2
    requires typeName == "Platform" && parenId == "Platform:1" && expected == "Platform:1.organization({\"id\":\"42\"})"
    ensures var tree := FieldTreeOf(defs, vars, fuel).value;
      var node := Get(tree, "organization");
      && tree.Obj? && node.Obj?
      && ChildNode(tree, Str(typeName), "organization") == node
      && ChildId(parenId, false, Str(typeName), Undefined, node) == expected
  {
    var vm := Obj([("id", Str("42"))]);
    var json := "{\"id\":\"42\"}";
    OrgVariablesMap(vars);
    OrgVariablesJson("id", "42", vm, json);
    OrgIdText(parenId, "organization", json, expected);
    OperationCShape();
    NestedFieldChildId(defs, None, "organization", Some(OrgArgs), "name", vars, fuel,
                       typeName, parenId, false, Undefined, vm, json, expected);
  }

  /** The platform, without an id, gets `_id = "Platform:1"`; the
      organization below it gets its parent's id, the schema name and the
      JSON of its arguments. */
  lemma ArgumentsInId(fuel: nat)
    requires fuel >= 2
    ensures var r := PopulateDynamicId(PlatformC, OperationC, fuel);
      && r.Ok?
      && Get(r.value, "_id") == Str("Platform:1")
      && Get(Get(r.value, "organization"), "_id") == Str("Platform:1.organization({\"id\":\"42\"})")
  {
    var cid := "Platform:1.organization({\"id\":\"42\"})";
    FragmentWrite(PlatformC, OperationC, fuel);
    PlatformCFacts();
    OrganizationCFacts();
    TreeC(OperationC.definitions, OperationC.variables, fuel, "Platform", "Platform:1", cid);
    var tree := FieldTreeOf(OperationC.definitions, OperationC.variables, fuel).value;
    AnnotateObject(PlatformC, "Platform:1", tree);
    AnnotateObject(OrganizationC, cid, Get(tree, "organization"));
  }
}
