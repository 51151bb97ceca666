/**
 * `_prepareFieldVariablesFromArguments`: resolve a field's arguments against
 * the operation's variables into a key-sorted object, the `variablesMap` that
 * later becomes part of composed identifiers.
 */
module Arguments {
  import opened Js
  import opened Ast
  import opened Variables

  /** `_.get(argument, 'value.value')` for a literal: scalars and enums carry
      their source text, booleans their value; null and list literals have no
      `value` property. */
  function LiteralValue(v: ValueNode): Value {
    match v
    case IntValue(t) => Str(t)
    case FloatValue(t) => Str(t)
    case StringValue(t) => Str(t)
    case EnumValue(t) => Str(t)
    case BooleanValue(b) => Bool(b)
    case _ => Undefined
  }

  /** How one argument value resolves. A variable takes the operation's value,
      sorted one level deep when it is a plain object; an object literal is
      resolved field by field; anything else stores its literal value. */
  function ResolveArgument(v: ValueNode, vars: seq<(string, Value)>): (r: Value)
    ensures v.ObjectValue? ==> r.Obj?
    ensures !v.VariableRef? && !v.ObjectValue? ==> !r.Obj? && !r.Arr?
    decreases v, 0
  {
    match v
    case VariableRef(name) =>
      var x := Get(Obj(vars), name);
      if x.Obj? then SortVariables(x) else x
    case ObjectValue(fields) => ResolveArgumentList(fields, vars)
    case _ => LiteralValue(v)
  }

  /** A variable argument: a non-object value is stored as it is; a plain
      object is stored with the same entries, its keys put in order. */
  lemma ResolveVariableArgument(name: string, vars: seq<(string, Value)>)
    ensures var x := Get(Obj(vars), name);
      var r := ResolveArgument(VariableRef(name), vars);
      && (!x.Obj? ==> r == x)
      && (x.Obj? && UniqueKeys(x.fields) ==>
            r.Obj? && SortedByKey(r.fields) && KeySet(r.fields) == KeySet(x.fields) &&
            forall k :: Find(r.fields, k) == Find(x.fields, k))
  {
    var x := Get(Obj(vars), name);
    if x.Obj? && UniqueKeys(x.fields) {
      SortedObjectEntries(x);
    }
  }

  /** The `fieldVariables` object after the loop: `fieldVariables[name] = ...`
      for each argument in order. */
  function CollectArguments(args: seq<Argument>, vars: seq<(string, Value)>): (r: seq<(string, Value)>)
    ensures KeySet(r) == set a | a in args :: a.name
    decreases args, 0
  {
    if args == [] then []
    else
      var last := args[|args| - 1];
      var prev := CollectArguments(args[..|args| - 1], vars);
      SetPropFacts(prev, last.name, ResolveArgument(last.value, vars), last.name);
      assert args == args[..|args| - 1] + [last];
      SetProp(prev, last.name, ResolveArgument(last.value, vars))
  }

  /** The resolved, key-sorted arguments of a list. */
  function ResolveArgumentList(args: seq<Argument>, vars: seq<(string, Value)>): Value
    decreases args, 1
  {
    SortVariables(Obj(CollectArguments(args, vars)))
  }

  /** `_prepareFieldVariablesFromArguments({ fieldArguments, queryVariables })`;
      a missing argument list counts as empty. */
  function ResolveArguments(fieldArguments: Option<seq<Argument>>, vars: seq<(string, Value)>): (r: Value)
    ensures r.Obj?
    ensures fieldArguments.None? ==> r == Obj([])
  {
    ResolveArgumentList(if fieldArguments.Some? then fieldArguments.value else [], vars)
  }

  /** The value node of the last argument called k: the one whose assignment wins. */
  function LastNamed(args: seq<Argument>, k: string): Option<ValueNode> {
    if args == [] then None
    else if args[|args| - 1].name == k then Some(args[|args| - 1].value)
    else LastNamed(args[..|args| - 1], k)
  }

  lemma {:induction false} CollectArgumentsFacts(args: seq<Argument>, vars: seq<(string, Value)>)
    ensures UniqueKeys(CollectArguments(args, vars))
    ensures forall k ::
              Find(CollectArguments(args, vars), k) ==
              (match LastNamed(args, k) case None => None case Some(v) => Some(ResolveArgument(v, vars)))
    decreases |args|
  {
    if args != [] {
      var pre := args[..|args| - 1];
      var last := args[|args| - 1];
      CollectArgumentsFacts(pre, vars);
      var c := CollectArguments(pre, vars);
      forall k ensures Find(CollectArguments(args, vars), k) ==
        (match LastNamed(args, k) case None => None case Some(v) => Some(ResolveArgument(v, vars)))
      {
        SetPropFacts(c, last.name, ResolveArgument(last.value, vars), k);
      }
      SetPropFacts(c, last.name, ResolveArgument(last.value, vars), last.name);
    }
  }

  /** Every argument name becomes a key, even when its value resolves to
      undefined, and each key holds the resolution of the last argument of
      that name. A missing or empty argument list gives `{}`. */
  lemma ResolveArgumentsEntries(fieldArguments: Option<seq<Argument>>, vars: seq<(string, Value)>)
    ensures var r := ResolveArguments(fieldArguments, vars);
      var args := if fieldArguments.Some? then fieldArguments.value else [];
      && r.Obj?
      && SortedByKey(r.fields)
      && (forall k :: k in KeySet(r.fields) <==> LastNamed(args, k).Some?)
      && (forall k | LastNamed(args, k).Some? :: Find(r.fields, k) == Some(ResolveArgument(LastNamed(args, k).value, vars)))
      && (args == [] ==> r == Obj([]))
  {
    var args := if fieldArguments.Some? then fieldArguments.value else [];
    var c := CollectArguments(args, vars);
    CollectArgumentsFacts(args, vars);
    SortedObjectEntries(Obj(c));
    forall k ensures k in KeySet(c) <==> LastNamed(args, k).Some? {
      FindIffKey(c, k);
    }
  }

  /** Argument-order independence: two argument lists that give every name
      the same value (in whatever order or repetition) resolve identically. */
  lemma ArgumentOrderIndependent(a1: seq<Argument>, a2: seq<Argument>, vars: seq<(string, Value)>)
    requires forall k :: LastNamed(a1, k) == LastNamed(a2, k)
    ensures ResolveArgumentList(a1, vars) == ResolveArgumentList(a2, vars)
  {
    var c1, c2 := CollectArguments(a1, vars), CollectArguments(a2, vars);
    CollectArgumentsFacts(a1, vars);
    CollectArgumentsFacts(a2, vars);
    forall k ensures k in KeySet(c1) <==> k in KeySet(c2) {
      FindIffKey(c1, k);
      FindIffKey(c2, k);
    }
    SortVariablesCanonical(Obj(c1), Obj(c2));
  }

  /** The loop of `_prepareFieldVariablesFromArguments`, filling the
      `fieldVariables` dictionary one argument at a time. */
  method PrepareFieldVariables(fieldArguments: Option<seq<Argument>>, queryVariables: seq<(string, Value)>)
    returns (r: Value)
    ensures r == ResolveArguments(fieldArguments, queryVariables)
    decreases if fieldArguments.Some? then fieldArguments.value else []
  {
    var args := if fieldArguments.Some? then fieldArguments.value else [];
    var fieldVariables: seq<(string, Value)> := [];
    var i := 0;
    while i < |args|
      invariant 0 <= i <= |args|
      invariant fieldVariables == CollectArguments(args[..i], queryVariables)
    {
      var argument := args[i];
      var resolved: Value;
      match argument.value {
        case VariableRef(variableName) =>
          var variableValue := Get(Obj(queryVariables), variableName);
          resolved := variableValue;
          if variableValue.Obj? {
            resolved := SortVariables(variableValue);
          }
        case ObjectValue(objectValueFields) =>
          resolved := PrepareFieldVariables(Some(objectValueFields), queryVariables);
        case _ =>
          resolved := LiteralValue(argument.value);
      }
      assert args[..i + 1][..i] == args[..i];
      fieldVariables := SetProp(fieldVariables, argument.name, resolved);
      i := i + 1;
    }
    assert args[..i] == args;
    r := SortVariables(Obj(fieldVariables));
  }
}
