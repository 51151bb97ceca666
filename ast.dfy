/**
 * The parts of a parsed GraphQL document the helpers read (GraphQL
 * specification, October 2021: selection sets 2.4, fields 2.5, arguments 2.6,
 * aliases 2.7, fragments 2.8, input values 2.9, variables 2.10), and the
 * operation object the cache hands to `populateDynamicId`.
 */
module Ast {
  import opened Js

  /** An input value in argument position (section 2.9). */
  datatype ValueNode =
    | VariableRef(name: string)
    | IntValue(text: string)
    | FloatValue(text: string)
    | StringValue(text: string)
    | BooleanValue(b: bool)
    | NullValue
    | EnumValue(text: string)
    | ListValue(values: seq<ValueNode>)
    | ObjectValue(fields: seq<Argument>)

  /** An argument `name: value`; the fields of an object value have the same shape. */
  datatype Argument = Argument(name: string, value: ValueNode)

  datatype Selection =
    | Field(alias: Option<string>, name: string, arguments: Option<seq<Argument>>, selectionSet: Option<SelectionSet>)
    | InlineFragment(typeCondition: Option<string>, selectionSet: Option<SelectionSet>)
    | FragmentSpread(name: string)
      /** A selection of a kind the helpers do not recognise. */
    | OtherSelection(kind: string)

  datatype SelectionSet = SelectionSet(selections: seq<Selection>)

  /** An operation or fragment definition: only its name and selection set are read. */
  datatype Definition = Definition(name: Option<string>, selectionSet: SelectionSet)

  /** What the cache passes: the document's definitions, the variables of this
      execution and the id of the cache entry being written. */
  datatype Operation = Operation(definitions: seq<Definition>, variables: seq<(string, Value)>, dataId: string)
}
