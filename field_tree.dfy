/**
 * `_populateFieldTree` and `_createFieldTree`: walk a parsed document and
 * record, for every field the response can contain, a node with its key,
 * schema name, alias and resolved arguments.
 *
 * The source builds the tree out of mutable objects: a node is attached to
 * its parent first and filled in afterwards, and a fragment spread writes
 * into the node that contains it. The model keeps every node in an arena,
 * one property list per node, where a property is either plain metadata or
 * a reference to a child node. A child is always created after its parent,
 * so references point forward and the arena unfolds into a finite tree.
 */
module FieldTree {
  import opened Js
  import opened Ast
  import opened Arguments

  /** A property of a node: a plain value, or the child node at an arena index. */
  datatype Prop = Meta(v: Value) | Ref(index: nat)

  type Node = seq<(string, Prop)>
  type Arena = seq<Node>

  /** How a call of `_populateFieldTree` ended: normally, or by a throw. */
  datatype Outcome = Done | Thrown(error: JsError)

  /** The nodes after a call, and how the call ended. */
  datatype Step = Step(arena: Arena, outcome: Outcome)

  /** What the engine throws when the call stack runs out (a cycle of
      fragment spreads never ends otherwise). */
  const StackOverflow: JsError := RangeError("Maximum call stack size exceeded")

  /** What destructuring the result of an unsuccessful fragment lookup throws. */
  const UnknownFragment: JsError := TypeError("Cannot destructure property 'selectionSet' of 'newDefinition' as it is undefined.")

  /** References point from a node to a later node, and no node repeats a key. */
  predicate ValidArena(a: Arena) {
    && (forall i, k | 0 <= i < |a| && 0 <= k < |a[i]| :: a[i][k].1.Ref? ==> i < a[i][k].1.index < |a|)
    && (forall i | 0 <= i < |a| :: UniqueKeys(a[i]))
  }

  /** The key a field is registered under: the alias when it is truthy, else the name. */
  function FieldKey(alias: Option<string>, name: string): string {
    if alias.Some? && alias.value != "" then alias.value else name
  }

  /** `node.aliasFieldName`: the alias, or undefined when there is none. */
  function AliasValue(alias: Option<string>): Value {
    if alias.Some? then Str(alias.value) else Undefined
  }

  /** The node of a field before its arguments and children are added. */
  function FieldNode(alias: Option<string>, name: string): Node {
    [("kind", Meta(Str("Field"))),
     ("field", Meta(Str(FieldKey(alias, name)))),
     ("schemaFieldName", Meta(Str(name))),
     ("aliasFieldName", Meta(AliasValue(alias)))]
  }

  /** `_.get(typeCondition, 'name.value')`. */
  function TypeName(typeCondition: Option<string>): Value {
    if typeCondition.Some? then Str(typeCondition.value) else Undefined
  }

  /** The node of an inline fragment before its children are added. */
  function InlineFragmentNode(typeCondition: Option<string>): Node {
    [("kind", Meta(Str("InlineFragment"))), ("field", Meta(TypeName(typeCondition)))]
  }

  /** `_.find(definitions, ({ name }) => name?.value == fragmentName)`. */
  function FindDefinition(defs: seq<Definition>, fragmentName: string): (r: Option<Definition>)
    ensures r.Some? ==> r.value in defs && r.value.name == Some(fragmentName)
    ensures r.None? ==> forall d | d in defs :: d.name != Some(fragmentName)
    ensures r.Some? ==> exists i | 0 <= i < |defs| :: defs[i] == r.value && forall j | 0 <= j < i :: defs[j].name != Some(fragmentName)
  {
    if defs == [] then None
    else if defs[0].name == Some(fragmentName) then Some(defs[0])
    else FindDefinition(defs[1..], fragmentName)
  }

  /** A node appended to the arena and registered under `key` in `parent`. */
  function Attach(a: Arena, parent: nat, key: string, node: Node): (b: Arena)
    requires parent < |a|
    ensures |b| == |a| + 1
  {
    a[parent := SetProp(a[parent], key, Ref(|a|))] + [node]
  }

  /** The arena once a field's node is attached to `parent` and, when its
      resolved arguments are non-empty, they are recorded on it. */
  function AttachField(a: Arena, parent: nat, alias: Option<string>, name: string, vm: Value): (b: Arena)
    requires parent < |a|
    ensures |b| == |a| + 1
  {
    var a1 := Attach(a, parent, FieldKey(alias, name), FieldNode(alias, name));
    if !IsEmpty(vm) then a1[|a| := SetProp(a1[|a|], "variablesMap", Meta(vm))] else a1
  }

  /** `_populateFieldTree({ definitions, selectionSet, parentNode, queryVariables })`
      with `fuel` nested calls left before the stack runs out. */
  function PopulateFieldTree(a: Arena, defs: seq<Definition>, ss: SelectionSet, parent: nat,
                             vars: seq<(string, Value)>, fuel: nat): (r: Step)
    requires parent < |a|
    ensures |a| <= |r.arena|
    decreases fuel, 0, 0
  {
    if fuel == 0 then Step(a, Thrown(StackOverflow))
    else PopulateSelections(a, defs, ss.selections, parent, vars, fuel - 1)
  }

  /** The `_.forEach` over the selections: stops at the first throw. */
  function PopulateSelections(a: Arena, defs: seq<Definition>, sels: seq<Selection>, parent: nat,
                              vars: seq<(string, Value)>, d: nat): (r: Step)
    requires parent < |a|
    ensures |a| <= |r.arena|
    decreases d, 2, |sels|
  {
    if sels == [] then Step(a, Done)
    else
      var s := PopulateSelection(a, defs, sels[0], parent, vars, d);
      if s.outcome.Thrown? then s
      else PopulateSelections(s.arena, defs, sels[1..], parent, vars, d)
  }

  /** The body of the loop, for one selection. */
  function PopulateSelection(a: Arena, defs: seq<Definition>, sel: Selection, parent: nat,
                             vars: seq<(string, Value)>, d: nat): (r: Step)
    requires parent < |a|
    ensures |a| <= |r.arena|
    decreases d, 1, 0
  {
    match sel
    case Field(alias, name, args, ss) =>
      var a2 := AttachField(a, parent, alias, name, ResolveArguments(args, vars));
      if ss.Some? then PopulateFieldTree(a2, defs, ss.value, |a|, vars, d) else Step(a2, Done)
    case InlineFragment(tc, ss) =>
      var j := |a|;
      var a1 := Attach(a, parent, ToString(TypeName(tc)), InlineFragmentNode(tc));
      if ss.Some? then PopulateFieldTree(a1, defs, ss.value, j, vars, d) else Step(a1, Done)
    case FragmentSpread(fragmentName) =>
      (match FindDefinition(defs, fragmentName)
       case None => Step(a, Thrown(UnknownFragment))
       case Some(def) => PopulateFieldTree(a, defs, def.selectionSet, parent, vars, d))
    case OtherSelection(_) => Step(a, Done)
  }

  /** The arena unfolded, from node i, into the object the source builds. */
  function Materialize(a: Arena, i: nat): (v: Value)
    requires ValidArena(a) && i < |a|
    ensures v.Obj? && Keys(v.fields) == Keys(a[i])
    decreases |a| - i, 1
  {
    Obj(seq(|a[i]|, k requires 0 <= k < |a[i]| => Entry(a, i, k)))
  }

  /** Property k of node i, built: its metadata value, or the built child. */
  function Entry(a: Arena, i: nat, k: nat): (e: (string, Value))
    requires ValidArena(a) && i < |a| && k < |a[i]|
    ensures e.0 == a[i][k].0
    decreases |a| - i, 0
  {
    (a[i][k].0, match a[i][k].1 case Meta(v) => v case Ref(j) => Materialize(a, j))
  }

  /** `_createFieldTree(operation)`: the first definition's selection set is
      populated into an empty root. A throw while populating is caught and the
      root is returned as far as it got; an empty document throws before the
      `try`, when the missing first definition is destructured. */
  function FieldTreeOf(defs: seq<Definition>, vars: seq<(string, Value)>, fuel: nat): (r: Result<Value>)
    ensures r.Ok? <==> defs != []
    ensures r.Ok? ==> r.value.Obj?
  {
    if defs == [] then Err(TypeError("Cannot destructure property 'selectionSet' of 'queryDefinition' as it is undefined."))
    else
      var s := PopulateFieldTree([[]], defs, defs[0].selectionSet, 0, vars, fuel);
      PopulateFieldTreeFrame([[]], defs, defs[0].selectionSet, 0, vars, fuel);
      Ok(Materialize(s.arena, 0))
  }

  // ---------------------------------------------------------------------
  // What a call may change
  // ---------------------------------------------------------------------

  /** From a to b only node `parent` and new nodes changed; the parent kept
      every key and every metadata value; the arena stayed valid. */
  ghost predicate Frame(a: Arena, b: Arena, parent: nat)
    requires parent < |a|
  {
    && |a| <= |b|
    && (forall i | 0 <= i < |a| && i != parent :: b[i] == a[i])
    && (ValidArena(a) ==> ValidArena(b))
    && KeySet(a[parent]) <= KeySet(b[parent])
    && (forall k | Find(b[parent], k).Some? && Find(b[parent], k).value.Meta? :: Find(a[parent], k) == Find(b[parent], k))
  }

  lemma ValidAttach(a: Arena, parent: nat, key: string, node: Node)
    requires ValidArena(a) && parent < |a|
    requires UniqueKeys(node) && forall k | 0 <= k < |node| :: node[k].1.Meta?
    ensures ValidArena(Attach(a, parent, key, node))
  {
    var b: Arena := Attach(a, parent, key, node);
    SetPropFacts(a[parent], key, Ref(|a|), key);
    forall i: int, k: int | 0 <= i < |b| && 0 <= k < |b[i]| && b[i][k].1.Ref?
      ensures i < b[i][k].1.index < |b|
    {
      if i == parent {
        assert b[i][k] in SetProp(a[parent], key, Ref(|a|));
        if b[i][k] != (key, Ref(|a|)) {
          var m :| 0 <= m < |a[parent]| && a[parent][m] == b[i][k];
        }
      }
    }
  }

  lemma ValidSetMeta(a: Arena, i: nat, key: string, v: Value)
    requires ValidArena(a) && i < |a|
    ensures ValidArena(a[i := SetProp(a[i], key, Meta(v))])
  {
    var b: Arena := a[i := SetProp(a[i], key, Meta(v))];
    SetPropFacts(a[i], key, Meta(v), key);
    forall n: int, k: int | 0 <= n < |b| && 0 <= k < |b[n]| && b[n][k].1.Ref?
      ensures n < b[n][k].1.index < |b|
    {
      if n == i {
        assert b[n][k] in SetProp(a[i], key, Meta(v));
        var m :| 0 <= m < |a[i]| && a[i][m] == b[n][k];
      }
    }
  }

  /** Registering a reference under a key in the parent. */
  lemma FrameAttach(a: Arena, parent: nat, key: string, node: Node)
    requires parent < |a|
    requires UniqueKeys(node) && forall k | 0 <= k < |node| :: node[k].1.Meta?
    ensures Frame(a, Attach(a, parent, key, node), parent)
  {
    var b: Arena := Attach(a, parent, key, node);
    SetPropFacts(a[parent], key, Ref(|a|), key);
    forall k ensures Find(b[parent], k) == if k == key then Some(Ref(|a|)) else Find(a[parent], k) {
      SetPropFacts(a[parent], key, Ref(|a|), k);
    }
    if ValidArena(a) { ValidAttach(a, parent, key, node); }
  }

  /** A call into a child node, made after that child was created. */
  lemma FrameChild(a: Arena, b: Arena, c: Arena, parent: nat, child: nat)
    requires parent < |a| && |a| <= child < |b|
    requires Frame(a, b, parent) && Frame(b, c, child)
    ensures Frame(a, c, parent)
  {
  }

  lemma {:induction false} PopulateFieldTreeFrame(a: Arena, defs: seq<Definition>, ss: SelectionSet, parent: nat,
                                                  vars: seq<(string, Value)>, fuel: nat)
    requires parent < |a|
    ensures Frame(a, PopulateFieldTree(a, defs, ss, parent, vars, fuel).arena, parent)
    decreases fuel, 0, 0
  {
    if fuel > 0 {
      PopulateSelectionsFrame(a, defs, ss.selections, parent, vars, fuel - 1);
    }
  }

  lemma {:induction false} PopulateSelectionsFrame(a: Arena, defs: seq<Definition>, sels: seq<Selection>, parent: nat,
                                                   vars: seq<(string, Value)>, d: nat)
    requires parent < |a|
    ensures Frame(a, PopulateSelections(a, defs, sels, parent, vars, d).arena, parent)
    decreases d, 2, |sels|
  {
    if sels != [] {
      var s := PopulateSelection(a, defs, sels[0], parent, vars, d);
      PopulateSelectionFrame(a, defs, sels[0], parent, vars, d);
      if !s.outcome.Thrown? {
        PopulateSelectionsFrame(s.arena, defs, sels[1..], parent, vars, d);
      }
    }
  }

  lemma {:induction false} PopulateSelectionFrame(a: Arena, defs: seq<Definition>, sel: Selection, parent: nat,
                                                  vars: seq<(string, Value)>, d: nat)
    requires parent < |a|
    ensures Frame(a, PopulateSelection(a, defs, sel, parent, vars, d).arena, parent)
    decreases d, 1, 0
  {
    match sel
    case Field(alias, name, args, ss) =>
      var j := |a|;
      var a1 := Attach(a, parent, FieldKey(alias, name), FieldNode(alias, name));
      FrameAttach(a, parent, FieldKey(alias, name), FieldNode(alias, name));
      var vm := ResolveArguments(args, vars);
      var a2 := AttachField(a, parent, alias, name, vm);
      if !IsEmpty(vm) && ValidArena(a1) { ValidSetMeta(a1, j, "variablesMap", vm); }
      assert Frame(a, a2, parent);
      if ss.Some? {
        PopulateFieldTreeFrame(a2, defs, ss.value, j, vars, d);
        FrameChild(a, a2, PopulateFieldTree(a2, defs, ss.value, j, vars, d).arena, parent, j);
      }
    case InlineFragment(tc, ss) =>
      var j := |a|;
      var a1 := Attach(a, parent, ToString(TypeName(tc)), InlineFragmentNode(tc));
      FrameAttach(a, parent, ToString(TypeName(tc)), InlineFragmentNode(tc));
      if ss.Some? {
        PopulateFieldTreeFrame(a1, defs, ss.value, j, vars, d);
        FrameChild(a, a1, PopulateFieldTree(a1, defs, ss.value, j, vars, d).arena, parent, j);
      }
    case FragmentSpread(fragmentName) =>
      var def := FindDefinition(defs, fragmentName);
      if def.Some? {
        PopulateFieldTreeFrame(a, defs, def.value.selectionSet, parent, vars, d);
      }
    case OtherSelection(_) =>
  }

  /** A call never overwrites metadata of its parent, never removes a key, and
      changes no node other than its parent and the nodes it creates; the
      arena stays valid. */
  lemma PopulateFieldTreeKeepsParent(a: Arena, defs: seq<Definition>, ss: SelectionSet, parent: nat,
                                     vars: seq<(string, Value)>, fuel: nat)
    requires parent < |a| && ValidArena(a)
    ensures var b := PopulateFieldTree(a, defs, ss, parent, vars, fuel).arena;
      && ValidArena(b)
      && (forall i | 0 <= i < |a| && i != parent :: b[i] == a[i])
      && KeySet(a[parent]) <= KeySet(b[parent])
      && (forall k | Find(b[parent], k).Some? && Find(b[parent], k).value.Meta? :: Find(a[parent], k) == Find(b[parent], k))
  {
    PopulateFieldTreeFrame(a, defs, ss, parent, vars, fuel);
  }

  // ---------------------------------------------------------------------
  // What each selection registers
  // ---------------------------------------------------------------------

  /** `node` holds metadata v under k, unless a child registered under the same
      key has since replaced it. */
  predicate MetaOrChild(node: Node, k: string, v: Value) {
    Find(node, k) == Some(Meta(v)) || (Find(node, k).Some? && Find(node, k).value.Ref?)
  }

  /** Lookup in a node of four properties. */
  lemma FourProps(n: Node, q: string)
    requires |n| == 4
    ensures Find(n, q) ==
      if q == n[0].0 then Some(n[0].1) else if q == n[1].0 then Some(n[1].1)
      else if q == n[2].0 then Some(n[2].1) else if q == n[3].0 then Some(n[3].1) else None
    ensures KeySet(n) == {n[0].0, n[1].0, n[2].0, n[3].0}
  {
    assert [n[0]] + n[1..] == n && [n[1]] + n[2..] == n[1..];
    assert [n[2]] + n[3..] == n[2..] && [n[3]] + n[4..] == n[3..] && n[4..] == [];
    KeySetCons(n[0], n[1..]);
    KeySetCons(n[1], n[2..]);
    KeySetCons(n[2], n[3..]);
    KeySetCons(n[3], n[4..]);
    FindCons(n[0], n[1..], q);
    FindCons(n[1], n[2..], q);
    FindCons(n[2], n[3..], q);
    FindCons(n[3], n[4..], q);
  }

  lemma FieldNodeFacts(alias: Option<string>, name: string)
    ensures var n := FieldNode(alias, name);
      && Find(n, "kind") == Some(Meta(Str("Field")))
      && Find(n, "field") == Some(Meta(Str(FieldKey(alias, name))))
      && Find(n, "schemaFieldName") == Some(Meta(Str(name)))
      && Find(n, "aliasFieldName") == Some(Meta(AliasValue(alias)))
      && Find(n, "variablesMap") == None
      && KeySet(n) == {"kind", "field", "schemaFieldName", "aliasFieldName"}
  {
    var n := FieldNode(alias, name);
    FourProps(n, "kind");
    FourProps(n, "field");
    FourProps(n, "schemaFieldName");
    FourProps(n, "aliasFieldName");
    FourProps(n, "variablesMap");
  }

  lemma InlineFragmentNodeFacts(tc: Option<string>)
    ensures var n := InlineFragmentNode(tc);
      && Find(n, "kind") == Some(Meta(Str("InlineFragment")))
      && Find(n, "field") == Some(Meta(TypeName(tc)))
      && KeySet(n) == {"kind", "field"}
  {
    var n := InlineFragmentNode(tc);
    KeySetCons(n[0], n[1..]);
    KeySetCons(n[1], n[2..]);
    assert [n[0]] + n[1..] == n && [n[1]] + n[2..] == n[1..] && n[2..] == [];
  }

  /** Recording non-empty arguments adds `variablesMap` and nothing else. */
  lemma RecordArguments(node: Node, vm: Value)
    ensures var n2 := if !IsEmpty(vm) then SetProp(node, "variablesMap", Meta(vm)) else node;
      && (forall k :: Find(n2, k) == if k == "variablesMap" && !IsEmpty(vm) then Some(Meta(vm)) else Find(node, k))
      && KeySet(n2) == KeySet(node) + (if IsEmpty(vm) then {} else {"variablesMap"})
  {
    if !IsEmpty(vm) {
      forall k ensures Find(SetProp(node, "variablesMap", Meta(vm)), k) == if k == "variablesMap" then Some(Meta(vm)) else Find(node, k) {
        SetPropFacts(node, "variablesMap", Meta(vm), k);
      }
      SetPropFacts(node, "variablesMap", Meta(vm), "variablesMap");
    }
  }

  /** A field's node once its arguments are recorded: the four metadata
      entries, and `variablesMap` exactly when the arguments are non-empty. */
  lemma FieldNodeRecorded(alias: Option<string>, name: string, vm: Value)
    ensures var node := FieldNode(alias, name);
      var n2 := if !IsEmpty(vm) then SetProp(node, "variablesMap", Meta(vm)) else node;
      && Find(n2, "kind") == Some(Meta(Str("Field")))
      && Find(n2, "field") == Some(Meta(Str(FieldKey(alias, name))))
      && Find(n2, "schemaFieldName") == Some(Meta(Str(name)))
      && Find(n2, "aliasFieldName") == Some(Meta(AliasValue(alias)))
      && Find(n2, "variablesMap") == (if IsEmpty(vm) then None else Some(Meta(vm)))
      && KeySet(n2) == {"kind", "field", "schemaFieldName", "aliasFieldName"} + (if IsEmpty(vm) then {} else {"variablesMap"})
  {
    FieldNodeFacts(alias, name);
    RecordArguments(FieldNode(alias, name), vm);
  }

  /** The attached field is registered in its parent under its key, and its
      node holds the four metadata entries and, exactly when the arguments
      are non-empty, `variablesMap`. */
  lemma AttachFieldFacts(a: Arena, parent: nat, alias: Option<string>, name: string, vm: Value)
    requires parent < |a|
    ensures var b := AttachField(a, parent, alias, name, vm);
      var n := b[|a|];
      && b[parent] == SetProp(a[parent], FieldKey(alias, name), Ref(|a|))
      && Find(b[parent], FieldKey(alias, name)) == Some(Ref(|a|))
      && Find(n, "kind") == Some(Meta(Str("Field")))
      && Find(n, "field") == Some(Meta(Str(FieldKey(alias, name))))
      && Find(n, "schemaFieldName") == Some(Meta(Str(name)))
      && Find(n, "aliasFieldName") == Some(Meta(AliasValue(alias)))
      && Find(n, "variablesMap") == (if IsEmpty(vm) then None else Some(Meta(vm)))
      && KeySet(n) == {"kind", "field", "schemaFieldName", "aliasFieldName"} + (if IsEmpty(vm) then {} else {"variablesMap"})
  {
    var key := FieldKey(alias, name);
    var a1 := Attach(a, parent, key, FieldNode(alias, name));
    SetPropFacts(a[parent], key, Ref(|a|), key);
    assert a1[|a|] == FieldNode(alias, name);
    FieldNodeRecorded(alias, name, vm);
  }

  /** A field is registered in its parent under its alias if it has one, else
      under its name. Its node records the key, the schema name and the alias,
      and `variablesMap` exactly when the resolved arguments are non-empty.
      Without a selection set the node gets no children; with one, a child
      may only replace a metadata entry by a child of the same name. */
  lemma FieldRegistered(a: Arena, defs: seq<Definition>, alias: Option<string>, name: string,
                        args: Option<seq<Argument>>, ss: Option<SelectionSet>, parent: nat,
                        vars: seq<(string, Value)>, d: nat)
    requires parent < |a|
    ensures var r := PopulateSelection(a, defs, Field(alias, name, args, ss), parent, vars, d);
      var j := |a|;
      var vm := ResolveArguments(args, vars);
      && j < |r.arena|
      && Find(r.arena[parent], FieldKey(alias, name)) == Some(Ref(j))
      && MetaOrChild(r.arena[j], "kind", Str("Field"))
      && MetaOrChild(r.arena[j], "field", Str(FieldKey(alias, name)))
      && MetaOrChild(r.arena[j], "schemaFieldName", Str(name))
      && MetaOrChild(r.arena[j], "aliasFieldName", AliasValue(alias))
      && (!IsEmpty(vm) ==> MetaOrChild(r.arena[j], "variablesMap", vm))
      && (IsEmpty(vm) ==> Find(r.arena[j], "variablesMap").None? || Find(r.arena[j], "variablesMap").value.Ref?)
      && (ss.None? ==>
            && r.outcome == Done
            && KeySet(r.arena[j]) == {"kind", "field", "schemaFieldName", "aliasFieldName"} +
                                     (if IsEmpty(vm) then {} else {"variablesMap"}))
  {
    var j := |a|;
    var vm := ResolveArguments(args, vars);
    var a2 := AttachField(a, parent, alias, name, vm);
    var r := PopulateSelection(a, defs, Field(alias, name, args, ss), parent, vars, d);
    FieldStep(a, defs, alias, name, args, ss, parent, vars, d);
    AttachFieldFacts(a, parent, alias, name, vm);
    if ss.Some? {
      PopulateFieldTreeFrame(a2, defs, ss.value, j, vars, d);
    }
    FieldNodeKept(a, r.arena, parent, alias, name, vm);
  }

  /** The loop body for a field: attach its node, then populate its
      selection set, if any, under that node. */
  lemma FieldStep(a: Arena, defs: seq<Definition>, alias: Option<string>, name: string,
                  args: Option<seq<Argument>>, ss: Option<SelectionSet>, parent: nat,
                  vars: seq<(string, Value)>, d: nat)
    requires parent < |a|
    ensures var a2 := AttachField(a, parent, alias, name, ResolveArguments(args, vars));
      PopulateSelection(a, defs, Field(alias, name, args, ss), parent, vars, d) ==
      (if ss.Some? then PopulateFieldTree(a2, defs, ss.value, |a|, vars, d) else Step(a2, Done))
  {
  }

  /** The field's registration and metadata survive, as metadata or replaced
      by a child, in any arena that changed only the field's own node. */
  lemma FieldNodeKept(a: Arena, b: Arena, parent: nat, alias: Option<string>, name: string, vm: Value)
    requires parent < |a|
    requires var a2 := AttachField(a, parent, alias, name, vm); b == a2 || Frame(a2, b, |a|)
    ensures var j := |a|;
      && j < |b|
      && Find(b[parent], FieldKey(alias, name)) == Some(Ref(j))
      && MetaOrChild(b[j], "kind", Str("Field"))
      && MetaOrChild(b[j], "field", Str(FieldKey(alias, name)))
      && MetaOrChild(b[j], "schemaFieldName", Str(name))
      && MetaOrChild(b[j], "aliasFieldName", AliasValue(alias))
      && (!IsEmpty(vm) ==> MetaOrChild(b[j], "variablesMap", vm))
      && (IsEmpty(vm) ==> Find(b[j], "variablesMap").None? || Find(b[j], "variablesMap").value.Ref?)
  {
    var j := |a|;
    var a2 := AttachField(a, parent, alias, name, vm);
    AttachFieldFacts(a, parent, alias, name, vm);
    if b != a2 {
      MetaKept(a2, b, j, "kind", Str("Field"));
      MetaKept(a2, b, j, "field", Str(FieldKey(alias, name)));
      MetaKept(a2, b, j, "schemaFieldName", Str(name));
      MetaKept(a2, b, j, "aliasFieldName", AliasValue(alias));
      if !IsEmpty(vm) { MetaKept(a2, b, j, "variablesMap", vm); }
    }
  }

  /** Metadata of a node is still there, or replaced by a child, after a call
      that may change only that node. */
  lemma MetaKept(a: Arena, b: Arena, j: nat, k: string, v: Value)
    requires j < |a| && Frame(a, b, j) && Find(a[j], k) == Some(Meta(v))
    ensures MetaOrChild(b[j], k, v)
  {
    FindIffKey(a[j], k);
    FindIffKey(b[j], k);
  }

  /** An inline fragment is registered under its type-condition name ("undefined"
      without one) with a node recording its kind and that name. */
  lemma InlineFragmentRegistered(a: Arena, defs: seq<Definition>, tc: Option<string>, ss: Option<SelectionSet>,
                                 parent: nat, vars: seq<(string, Value)>, d: nat)
    requires parent < |a|
    ensures var r := PopulateSelection(a, defs, InlineFragment(tc, ss), parent, vars, d);
      var j := |a|;
      && j < |r.arena|
      && Find(r.arena[parent], ToString(TypeName(tc))) == Some(Ref(j))
      && MetaOrChild(r.arena[j], "kind", Str("InlineFragment"))
      && MetaOrChild(r.arena[j], "field", TypeName(tc))
      && (ss.None? ==> r.outcome == Done && KeySet(r.arena[j]) == {"kind", "field"})
  {
    var j := |a|;
    var key := ToString(TypeName(tc));
    var a1 := Attach(a, parent, key, InlineFragmentNode(tc));
    InlineFragmentNodeFacts(tc);
    SetPropFacts(a[parent], key, Ref(j), key);
    if ss.Some? {
      var b := PopulateFieldTree(a1, defs, ss.value, j, vars, d).arena;
      PopulateFieldTreeFrame(a1, defs, ss.value, j, vars, d);
      forall k | k in KeySet(a1[j]) ensures Find(b[j], k).Some? {
        FindIffKey(b[j], k);
      }
    }
  }

  /** The keys one selection adds to its parent: a field its key, an inline
      fragment its type name, a fragment spread whatever the fragment's own
      selections add (it creates no node of its own), and any other kind
      nothing. A spread of an unknown fragment throws and changes nothing. */
  lemma SelectionEffect(a: Arena, defs: seq<Definition>, sel: Selection, parent: nat,
                        vars: seq<(string, Value)>, d: nat)
    requires parent < |a|
    ensures var r := PopulateSelection(a, defs, sel, parent, vars, d);
      && (sel.Field? ==> KeySet(r.arena[parent]) == KeySet(a[parent]) + {FieldKey(sel.alias, sel.name)})
      && (sel.InlineFragment? ==> KeySet(r.arena[parent]) == KeySet(a[parent]) + {ToString(TypeName(sel.typeCondition))})
      && (sel.FragmentSpread? && FindDefinition(defs, sel.name).None? ==> r == Step(a, Thrown(UnknownFragment)))
      && (sel.FragmentSpread? && FindDefinition(defs, sel.name).Some? ==>
            r == if d == 0 then Step(a, Thrown(StackOverflow))
                 else PopulateSelections(a, defs, FindDefinition(defs, sel.name).value.selectionSet.selections, parent, vars, d - 1))
      && (sel.OtherSelection? ==> r == Step(a, Done))
  {
    match sel
    case Field(alias, name, args, ss) =>
      var key := FieldKey(alias, name);
      SetPropFacts(a[parent], key, Ref(|a|), key);
      var vm := ResolveArguments(args, vars);
      var a2 := AttachField(a, parent, alias, name, vm);
      AttachFieldFacts(a, parent, alias, name, vm);
      if ss.Some? { PopulateFieldTreeFrame(a2, defs, ss.value, |a|, vars, d); }
    case InlineFragment(tc, ss) =>
      var key := ToString(TypeName(tc));
      SetPropFacts(a[parent], key, Ref(|a|), key);
      var a1 := Attach(a, parent, key, InlineFragmentNode(tc));
      if ss.Some? { PopulateFieldTreeFrame(a1, defs, ss.value, |a|, vars, d); }
    case FragmentSpread(_) =>
    case OtherSelection(_) =>
  }

  /** The selections run in order, and none runs after a throw. */
  lemma {:induction false} PopulateSelectionsAppend(a: Arena, defs: seq<Definition>, s1: seq<Selection>, s2: seq<Selection>,
                                                    parent: nat, vars: seq<(string, Value)>, d: nat)
    requires parent < |a|
    ensures PopulateSelections(a, defs, s1 + s2, parent, vars, d) ==
      var r1 := PopulateSelections(a, defs, s1, parent, vars, d);
      if r1.outcome.Thrown? then r1 else PopulateSelections(r1.arena, defs, s2, parent, vars, d)
    decreases |s1|
  {
    if s1 == [] {
      assert s1 + s2 == s2;
    } else {
      var s := PopulateSelection(a, defs, s1[0], parent, vars, d);
      assert (s1 + s2)[0] == s1[0] && (s1 + s2)[1..] == s1[1..] + s2;
      if !s.outcome.Thrown? {
        PopulateSelectionsAppend(s.arena, defs, s1[1..], s2, parent, vars, d);
      }
    }
  }

  /** A later selection with the same key overwrites the earlier node: after
      a field at the end of the selections, its key refers to its own node. */
  lemma LaterFieldWins(a: Arena, defs: seq<Definition>, pre: seq<Selection>, alias: Option<string>, name: string,
                       args: Option<seq<Argument>>, ss: Option<SelectionSet>, parent: nat,
                       vars: seq<(string, Value)>, d: nat)
    requires parent < |a|
    requires PopulateSelections(a, defs, pre, parent, vars, d).outcome == Done
    ensures var r1 := PopulateSelections(a, defs, pre, parent, vars, d);
      var r := PopulateSelections(a, defs, pre + [Field(alias, name, args, ss)], parent, vars, d);
      Find(r.arena[parent], FieldKey(alias, name)) == Some(Ref(|r1.arena|))
  {
    var r1 := PopulateSelections(a, defs, pre, parent, vars, d);
    var last := [Field(alias, name, args, ss)];
    PopulateSelectionsAppend(a, defs, pre, last, parent, vars, d);
    var s := PopulateSelection(r1.arena, defs, last[0], parent, vars, d);
    assert last[1..] == [];
    assert PopulateSelections(r1.arena, defs, last, parent, vars, d).arena == s.arena;
    FieldRegistered(r1.arena, defs, alias, name, args, ss, parent, vars, d);
  }

  // ---------------------------------------------------------------------
  // The stack budget
  // ---------------------------------------------------------------------

  /** A call that did not run out of stack gives the same result with any
      larger budget: the budget only decides whether a run is cut short. */
  lemma {:induction false} PopulateFieldTreeMoreFuel(a: Arena, defs: seq<Definition>, ss: SelectionSet, parent: nat,
                                                     vars: seq<(string, Value)>, f1: nat, f2: nat)
    requires parent < |a| && f1 <= f2
    requires PopulateFieldTree(a, defs, ss, parent, vars, f1).outcome != Thrown(StackOverflow)
    ensures PopulateFieldTree(a, defs, ss, parent, vars, f2) == PopulateFieldTree(a, defs, ss, parent, vars, f1)
    decreases f1, 0, 0
  {
    PopulateSelectionsMoreFuel(a, defs, ss.selections, parent, vars, f1 - 1, f2 - 1);
  }

  lemma {:induction false} PopulateSelectionsMoreFuel(a: Arena, defs: seq<Definition>, sels: seq<Selection>, parent: nat,
                                                      vars: seq<(string, Value)>, d1: nat, d2: nat)
    requires parent < |a| && d1 <= d2
    requires PopulateSelections(a, defs, sels, parent, vars, d1).outcome != Thrown(StackOverflow)
    ensures PopulateSelections(a, defs, sels, parent, vars, d2) == PopulateSelections(a, defs, sels, parent, vars, d1)
    decreases d1, 2, |sels|
  {
    if sels != [] {
      var s := PopulateSelection(a, defs, sels[0], parent, vars, d1);
      PopulateSelectionMoreFuel(a, defs, sels[0], parent, vars, d1, d2);
      if !s.outcome.Thrown? {
        PopulateSelectionsMoreFuel(s.arena, defs, sels[1..], parent, vars, d1, d2);
      }
    }
  }

  lemma {:induction false} PopulateSelectionMoreFuel(a: Arena, defs: seq<Definition>, sel: Selection, parent: nat,
                                                     vars: seq<(string, Value)>, d1: nat, d2: nat)
    requires parent < |a| && d1 <= d2
    requires PopulateSelection(a, defs, sel, parent, vars, d1).outcome != Thrown(StackOverflow)
    ensures PopulateSelection(a, defs, sel, parent, vars, d2) == PopulateSelection(a, defs, sel, parent, vars, d1)
    decreases d1, 1, 0
  {
    match sel
    case Field(alias, name, args, ss) =>
      var j := |a|;
      var a1 := Attach(a, parent, FieldKey(alias, name), FieldNode(alias, name));
      var vm := ResolveArguments(args, vars);
      var a2 := AttachField(a, parent, alias, name, vm);
      if ss.Some? {
        PopulateFieldTreeMoreFuel(a2, defs, ss.value, j, vars, d1, d2);
      }
    case InlineFragment(tc, ss) =>
      var a1 := Attach(a, parent, ToString(TypeName(tc)), InlineFragmentNode(tc));
      if ss.Some? {
        PopulateFieldTreeMoreFuel(a1, defs, ss.value, |a|, vars, d1, d2);
      }
    case FragmentSpread(fragmentName) =>
      var def := FindDefinition(defs, fragmentName);
      if def.Some? {
        PopulateFieldTreeMoreFuel(a, defs, def.value.selectionSet, parent, vars, d1, d2);
      }
    case OtherSelection(_) =>
  }

  /** A fragment spread builds what its fragment's selections would build
      written out in its place: one level of stack deeper, and the same tree
      whenever the written-out version does not run out of stack. */
  lemma FragmentSpreadInlines(a: Arena, defs: seq<Definition>, pre: seq<Selection>, name: string, post: seq<Selection>,
                              parent: nat, vars: seq<(string, Value)>, d: nat)
    requires parent < |a| && FindDefinition(defs, name).Some?
    requires PopulateSelections(a, defs, pre + FindDefinition(defs, name).value.selectionSet.selections + post,
                                parent, vars, d).outcome != Thrown(StackOverflow)
    ensures PopulateSelections(a, defs, pre + [FragmentSpread(name)] + post, parent, vars, d + 1) ==
            PopulateSelections(a, defs, pre + FindDefinition(defs, name).value.selectionSet.selections + post, parent, vars, d)
  {
    var inner := FindDefinition(defs, name).value.selectionSet.selections;
    assert pre + [FragmentSpread(name)] + post == pre + ([FragmentSpread(name)] + post);
    assert pre + inner + post == pre + (inner + post);
    PopulateSelectionsAppend(a, defs, pre, [FragmentSpread(name)] + post, parent, vars, d + 1);
    PopulateSelectionsAppend(a, defs, pre, inner + post, parent, vars, d);
    var r1 := PopulateSelections(a, defs, pre, parent, vars, d);
    PopulateSelectionsMoreFuel(a, defs, pre, parent, vars, d, d + 1);
    if !r1.outcome.Thrown? {
      SpreadInlinesHere(r1.arena, defs, name, post, parent, vars, d);
    }
  }

  /** An unknown fragment spread among the first definition's selections
      throws, the throw is caught, and the tree is the root as the selections
      before the spread left it: nothing after the spread is added. */
  lemma UnknownFragmentKeepsPartialTree(defs: seq<Definition>, pre: seq<Selection>, name: string, post: seq<Selection>,
                                        vars: seq<(string, Value)>, fuel: nat)
    requires defs != [] && defs[0].selectionSet.selections == pre + [FragmentSpread(name)] + post
    requires FindDefinition(defs, name).None?
    requires fuel >= 1 && PopulateSelections([[]], defs, pre, 0, vars, fuel - 1).outcome == Done
    ensures var r1 := PopulateSelections([[]], defs, pre, 0, vars, fuel - 1);
      ValidArena(r1.arena) && FieldTreeOf(defs, vars, fuel) == Ok(Materialize(r1.arena, 0))
  {
    var r1 := PopulateSelections([[]], defs, pre, 0, vars, fuel - 1);
    PopulateSelectionsFrame([[]], defs, pre, 0, vars, fuel - 1);
    assert pre + [FragmentSpread(name)] + post == pre + ([FragmentSpread(name)] + post);
    PopulateSelectionsAppend([[]], defs, pre, [FragmentSpread(name)] + post, 0, vars, fuel - 1);
    assert ([FragmentSpread(name)] + post)[0] == FragmentSpread(name);
    assert PopulateSelections(r1.arena, defs, [FragmentSpread(name)] + post, 0, vars, fuel - 1)
        == Step(r1.arena, Thrown(UnknownFragment));
  }

  /** A fragment spread at the head of the remaining selections. */
  lemma SpreadInlinesHere(b: Arena, defs: seq<Definition>, name: string, post: seq<Selection>,
                          parent: nat, vars: seq<(string, Value)>, d: nat)
    requires parent < |b| && FindDefinition(defs, name).Some?
    requires PopulateSelections(b, defs, FindDefinition(defs, name).value.selectionSet.selections + post,
                                parent, vars, d).outcome != Thrown(StackOverflow)
    ensures PopulateSelections(b, defs, [FragmentSpread(name)] + post, parent, vars, d + 1) ==
            PopulateSelections(b, defs, FindDefinition(defs, name).value.selectionSet.selections + post, parent, vars, d)
  {
    var inner := FindDefinition(defs, name).value.selectionSet.selections;
    assert PopulateSelection(b, defs, FragmentSpread(name), parent, vars, d + 1)
        == PopulateSelections(b, defs, inner, parent, vars, d);
    assert ([FragmentSpread(name)] + post)[0] == FragmentSpread(name);
    assert ([FragmentSpread(name)] + post)[1..] == post;
    PopulateSelectionsAppend(b, defs, inner, post, parent, vars, d);
    var s := PopulateSelections(b, defs, inner, parent, vars, d);
    if !s.outcome.Thrown? {
      PopulateSelectionsMoreFuel(s.arena, defs, post, parent, vars, d, d + 1);
    }
  }

  // ---------------------------------------------------------------------
  // Reading the built tree
  // ---------------------------------------------------------------------

  /** A property of the built object is the node's metadata value, or the
      built child node. */
  lemma MaterializeGet(a: Arena, i: nat, m: nat)
    requires ValidArena(a) && i < |a| && m < |a[i]|
    ensures Get(Materialize(a, i), a[i][m].0) ==
      match a[i][m].1 case Meta(v) => v case Ref(j) => Materialize(a, j)
  {
    var v := Materialize(a, i);
    MaterializeEntries(a, i);
    assert v.fields[m] == Entry(a, i, m);
    FindAt(v.fields, m);
  }

  /** The built object has the node's keys, in order and distinct. */
  lemma MaterializeEntries(a: Arena, i: nat)
    requires ValidArena(a) && i < |a|
    ensures var v := Materialize(a, i);
      && UniqueKeys(v.fields)
      && forall m | 0 <= m < |a[i]| :: v.fields[m] == Entry(a, i, m)
  {
    var v := Materialize(a, i);
    assert |v.fields| == |a[i]|;
    forall p | 0 <= p < |v.fields| ensures v.fields[p].0 == a[i][p].0 {
    }
  }

  /** The loop runs selection i, then the rest unless it threw. */
  lemma PopulateSelectionsAt(a: Arena, defs: seq<Definition>, sels: seq<Selection>, i: nat, parent: nat,
                             vars: seq<(string, Value)>, d: nat)
    requires parent < |a| && i < |sels|
    ensures var s := PopulateSelection(a, defs, sels[i], parent, vars, d);
      PopulateSelections(a, defs, sels[i..], parent, vars, d) ==
      if s.outcome.Thrown? then s else PopulateSelections(s.arena, defs, sels[i + 1..], parent, vars, d)
  {
    assert sels[i..][0] == sels[i] && sels[i..][1..] == sels[i + 1..];
  }

  /** One pass of the loop in `_populateFieldTree`: the step for `sels[i]` either ends the walk or leaves the rest to do. */
  lemma SelectionsAdvance(a: Arena, b: Arena, o: Outcome, defs: seq<Definition>, sels: seq<Selection>, i: nat,
                          parent: nat, vars: seq<(string, Value)>, d: nat)
    requires parent < |a| && i < |sels|
    requires Step(b, o) == PopulateSelection(a, defs, sels[i], parent, vars, d)
    ensures parent < |b|
    ensures o.Thrown? ==> Step(b, o) == PopulateSelections(a, defs, sels[i..], parent, vars, d)
    ensures !o.Thrown? ==>
      PopulateSelections(b, defs, sels[i + 1..], parent, vars, d) == PopulateSelections(a, defs, sels[i..], parent, vars, d)
  {
    PopulateSelectionsAt(a, defs, sels, i, parent, vars, d);
  }

  // ---------------------------------------------------------------------
  // The imperative builder
  // ---------------------------------------------------------------------

  /** The mutable nodes `_populateFieldTree` writes into; node 0 is the root. */
  class FieldTreeBuilder {
    var nodes: Arena

    /** `const treeRootNode = {}`. */
    constructor ()
      ensures nodes == [[]]
    {
      nodes := [[]];
    }

    /** `_populateFieldTree` into node `parent`. */
    method Populate(defs: seq<Definition>, ss: SelectionSet, parent: nat, vars: seq<(string, Value)>, fuel: nat)
      returns (outcome: Outcome)
      requires parent < |nodes|
      modifies this
      ensures Step(nodes, outcome) == PopulateFieldTree(old(nodes), defs, ss, parent, vars, fuel)
      decreases fuel, 0
    {
      if fuel == 0 {
        return Thrown(StackOverflow);
      }
      outcome := PopulateEach(defs, ss.selections, parent, vars, fuel - 1);
    }

    /** The `_.forEach` over the selections of `_populateFieldTree`: stops at the first throw. */
    method PopulateEach(defs: seq<Definition>, selections: seq<Selection>, parent: nat, vars: seq<(string, Value)>, d: nat)
      returns (outcome: Outcome)
      requires parent < |nodes|
      modifies this
      ensures Step(nodes, outcome) == PopulateSelections(old(nodes), defs, selections, parent, vars, d)
      decreases d, 2
    {
      var i := 0;
      while i < |selections|
        invariant 0 <= i <= |selections| && parent < |nodes|
        invariant PopulateSelections(nodes, defs, selections[i..], parent, vars, d)
               == PopulateSelections(old(nodes), defs, selections, parent, vars, d)
      {
        ghost var before := nodes;
        var o := AddSelection(defs, selections[i], parent, vars, d);
        SelectionsAdvance(before, nodes, o, defs, selections, i, parent, vars, d);
        if o.Thrown? {
          return o;
        }
        i := i + 1;
      }
      assert selections[i..] == [];
      return Done;
    }

    /** One pass of the loop body of `_populateFieldTree`. */
    method AddSelection(defs: seq<Definition>, selection: Selection, parentNode: nat, vars: seq<(string, Value)>, d: nat)
      returns (outcome: Outcome)
      requires parentNode < |nodes|
      modifies this
      ensures Step(nodes, outcome) == PopulateSelection(old(nodes), defs, selection, parentNode, vars, d)
      decreases d, 1
    {
      match selection {
        case Field(alias, name, fieldArguments, selectionSet) =>
          var node := FieldNode(alias, name);
          var j := |nodes|;
          nodes := nodes[parentNode := SetProp(nodes[parentNode], FieldKey(alias, name), Ref(j))] + [node];
          var fieldVariables := PrepareFieldVariables(fieldArguments, vars);
          if !IsEmpty(fieldVariables) {
            nodes := nodes[j := SetProp(nodes[j], "variablesMap", Meta(fieldVariables))];
          }
          if selectionSet.Some? {
            outcome := Populate(defs, selectionSet.value, j, vars, d);
          } else {
            outcome := Done;
          }
        case InlineFragment(typeCondition, selectionSet) =>
          var node := InlineFragmentNode(typeCondition);
          var j := |nodes|;
          nodes := nodes[parentNode := SetProp(nodes[parentNode], ToString(TypeName(typeCondition)), Ref(j))] + [node];
          if selectionSet.Some? {
            outcome := Populate(defs, selectionSet.value, j, vars, d);
          } else {
            outcome := Done;
          }
        case FragmentSpread(fragmentName) =>
          var newDefinition := FindDefinition(defs, fragmentName);
          if newDefinition.None? {
            return Thrown(UnknownFragment);
          }
          outcome := Populate(defs, newDefinition.value.selectionSet, parentNode, vars, d);
        case OtherSelection(_) =>
          outcome := Done;
      }
    }
  }

  /** `_createFieldTree(operation)`, building the tree in a fresh builder. */
  method CreateFieldTree(operation: Operation, fuel: nat) returns (r: Result<Value>)
    ensures r == FieldTreeOf(operation.definitions, operation.variables, fuel)
  {
    var definitions := operation.definitions;
    if |definitions| == 0 {
      return Err(TypeError("Cannot destructure property 'selectionSet' of 'queryDefinition' as it is undefined."));
    }
    var treeRootNode := new FieldTreeBuilder();
    var _ := treeRootNode.Populate(definitions, definitions[0].selectionSet, 0, operation.variables, fuel);
    PopulateFieldTreeFrame([[]], definitions, definitions[0].selectionSet, 0, operation.variables, fuel);
    r := Ok(Materialize(treeRootNode.nodes, 0));
  }
}
