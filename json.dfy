/**
 * `JSON.stringify` (the RFC 8259 text the language produces, no indentation)
 * for the values the helpers encode: the variables map appended to a
 * composed identifier.
 */
module Json {
  import opened Js

  /** `JSON.stringify(v)`. For undefined the call returns undefined, which a
      template literal renders as "undefined"; the helpers only encode
      non-empty values, so that case never reaches an identifier. */
  function Stringify(v: Value): string
    decreases v, 1, 0
  {
    match v
    case Undefined => "undefined"
    case Null => "null"
    case Bool(b) => if b then "true" else "false"
    case Num(n) => IntToString(n)
    case Str(s) => Quote(s)
    case Arr(items) => "[" + Join(ArrayElements(items)) + "]"
    case Obj(_) => "{" + Join(ObjectMembers(v, 0)) + "}"
  }

  /** Array elements; an undefined element is written `null`. */
  function ArrayElements(items: seq<Value>): (parts: seq<string>)
    ensures |parts| == |items|
    decreases items, 0, 0
  {
    if items == [] then []
    else [if items[0] == Undefined then "null" else Stringify(items[0])] + ArrayElements(items[1..])
  }

  /** `"key":value` members of the object `o` from its i-th property on; a
      property whose value is undefined is omitted. */
  function ObjectMembers(o: Value, i: nat): seq<string>
    requires o.Obj? && i <= |o.fields|
    decreases o, 0, |o.fields| - i
  {
    if i == |o.fields| then []
    else
      var (k, v) := o.fields[i];
      if v == Undefined then ObjectMembers(o, i + 1)
      else [Quote(k) + ":" + Stringify(v)] + ObjectMembers(o, i + 1)
  }

  function Join(parts: seq<string>): string {
    if parts == [] then ""
    else if |parts| == 1 then parts[0]
    else parts[0] + "," + Join(parts[1..])
  }

  /** A JSON string literal: quote, backslash and control characters escaped
      the way `JSON.stringify` escapes them. */
  function Quote(s: string): string {
    "\"" + Escape(s) + "\""
  }

  function Escape(s: string): string {
    if s == [] then "" else EscapeChar(s[0]) + Escape(s[1..])
  }

  function EscapeChar(c: char): string {
    if c == '"' then "\\\""
    else if c == '\\' then "\\\\"
    else if c as int == 8 then "\\b"
    else if c == '\t' then "\\t"
    else if c == '\n' then "\\n"
    else if c as int == 12 then "\\f"
    else if c == '\r' then "\\r"
    else if (c as int) < 0x20 then "\\u00" + [HexDigit((c as int) / 16), HexDigit((c as int) % 16)]
    else [c]
  }

  function HexDigit(d: nat): char
    requires d < 16
  {
    "0123456789abcdef"[d]
  }
}
