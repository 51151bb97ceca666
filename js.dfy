/**
 * JavaScript values as the helpers see them: JSON-like data, plain objects
 * whose own keys enumerate in the language's order, and the handful of
 * primitive operations the helpers rely on (truthiness, `obj[key]`, lodash's
 * `_.keys`, `_.get` and `_.isEmpty`, property assignment and `String(v)`).
 */
module Js {

  datatype Option<+T> = None | Some(value: T)

  /** A JavaScript value. Numbers are integers; an object is the list of its
      own properties in enumeration order. */
  datatype Value =
    | Undefined
    | Null
    | Bool(b: bool)
    | Num(n: int)
    | Str(s: string)
    | Arr(items: seq<Value>)
    | Obj(fields: seq<(string, Value)>)

  /** What a `throw` inside the helpers carries. */
  datatype JsError = TypeError(message: string) | RangeError(message: string)

  /** A computation that either returns or throws. */
  datatype Result<+T> = Ok(value: T) | Err(error: JsError)

  /** JavaScript truthiness: `if (v)`, `!!v`, `v || w`. */
  predicate Truthy(v: Value) {
    match v
    case Undefined => false
    case Null => false
    case Bool(b) => b
    case Num(n) => n != 0
    case Str(s) => s != ""
    case Arr(_) => true
    case Obj(_) => true
  }

  /** lodash `_.isEmpty`: null, undefined, numbers and booleans are empty;
      strings and arrays by length; objects when they have no own key. */
  predicate IsEmpty(v: Value) {
    match v
    case Str(s) => s == ""
    case Arr(items) => items == []
    case Obj(fs) => fs == []
    case _ => true
  }

  // ---------------------------------------------------------------------
  // Digits and array-index keys
  // ---------------------------------------------------------------------

  predicate IsDigit(c: char) { '0' <= c <= '9' }

  function DigitChar(d: nat): (c: char)
    requires d < 10
    ensures IsDigit(c)
  {
    "0123456789"[d]
  }

  function DigitValue(c: char): nat
    requires IsDigit(c)
  {
    (c as int - '0' as int) as nat
  }

  /** Decimal rendering of a natural number, as `${n}` renders it. */
  function NatToString(n: nat): (s: string)
    ensures |s| > 0
    decreases n
  {
    if n < 10 then [DigitChar(n)] else NatToString(n / 10) + [DigitChar(n % 10)]
  }

  predicate AllDigits(s: string) {
    forall i | 0 <= i < |s| :: IsDigit(s[i])
  }

  /** The value of a string of decimal digits. */
  function DigitsValue(s: string): nat
    requires AllDigits(s)
  {
    if s == [] then 0 else 10 * DigitsValue(s[..|s| - 1]) + DigitValue(s[|s| - 1])
  }

  /** A canonical numeric string: digits only, no leading zero except "0" itself. */
  predicate IsCanonicalNumeral(s: string) {
    |s| > 0 && AllDigits(s) && (s[0] == '0' ==> |s| == 1)
  }

  /** ECMAScript array index: a canonical numeric string below 2^32 - 1.
      Such keys enumerate first, in ascending numeric order. */
  predicate IsArrayIndex(k: string) {
    IsCanonicalNumeral(k) && DigitsValue(k) < 0x1_0000_0000 - 1
  }

  function IndexValue(k: string): nat
    requires IsArrayIndex(k)
  {
    DigitsValue(k)
  }

  lemma DigitRoundTrip(d: nat)
    requires d < 10
    ensures DigitValue(DigitChar(d)) == d
  {
  }

  lemma {:induction false} NatToStringDigits(n: nat)
    ensures AllDigits(NatToString(n))
    ensures NatToString(n)[0] == '0' ==> n == 0
    ensures DigitsValue(NatToString(n)) == n
    decreases n
  {
    if n < 10 {
      DigitRoundTrip(n);
    } else {
      var p := NatToString(n / 10);
      NatToStringDigits(n / 10);
      var s := p + [DigitChar(n % 10)];
      assert s[..|s| - 1] == p;
      assert forall i | 0 <= i < |s| :: IsDigit(s[i]) by {
        forall i | 0 <= i < |s| ensures IsDigit(s[i]) {
          if i < |p| { assert s[i] == p[i]; }
        }
      }
      DigitRoundTrip(n % 10);
      assert s[0] == p[0];
    }
  }

  /** `${n}` of a natural number is its canonical numeral. */
  lemma NatToStringCanonical(n: nat)
    ensures IsCanonicalNumeral(NatToString(n))
    ensures DigitsValue(NatToString(n)) == n
  {
    NatToStringDigits(n);
    if NatToString(n)[0] == '0' && n == 0 {
      assert NatToString(n) == "0";
    }
  }

  lemma {:induction false} DigitsValuePositive(s: string)
    requires AllDigits(s) && |s| > 0 && s[0] != '0'
    ensures DigitsValue(s) > 0
    decreases |s|
  {
    if |s| > 1 {
      var p := s[..|s| - 1];
      assert p[0] == s[0];
      assert AllDigits(p) by {
        forall i | 0 <= i < |p| ensures IsDigit(p[i]) { assert p[i] == s[i]; }
      }
      DigitsValuePositive(p);
    } else {
      assert s[..0] == [];
    }
  }

  /** Reading a canonical numeral and writing it back gives the numeral. */
  lemma {:induction false} CanonicalNumeralRoundTrip(s: string)
    requires IsCanonicalNumeral(s)
    ensures NatToString(DigitsValue(s)) == s
    decreases |s|
  {
    var p := s[..|s| - 1];
    var d := s[|s| - 1];
    assert AllDigits(p) by {
      forall i | 0 <= i < |p| ensures IsDigit(p[i]) { assert p[i] == s[i]; }
    }
    if |s| == 1 {
      assert p == [];
      assert DigitsValue(s) == DigitValue(d);
      assert "0123456789"[DigitValue(d)] == d;
    } else {
      assert p[0] == s[0] && s[0] != '0';
      DigitsValuePositive(p);
      CanonicalNumeralRoundTrip(p);
      var m := DigitsValue(p);
      var n := 10 * m + DigitValue(d);
      assert n / 10 == m && n % 10 == DigitValue(d);
      assert "0123456789"[DigitValue(d)] == d;
      assert NatToString(n) == NatToString(m) + [d];
      assert s == p + [d];
    }
  }

  /** Distinct naturals render differently: the index segments ".0", ".1", ...
      that identifiers get never collide. */
  lemma NatToStringInjective(m: nat, n: nat)
    requires m != n
    ensures NatToString(m) != NatToString(n)
  {
    NatToStringCanonical(m);
    NatToStringCanonical(n);
  }

  /** Distinct array-index keys denote distinct numbers. */
  lemma IndexValueInjective(a: string, b: string)
    requires IsArrayIndex(a) && IsArrayIndex(b) && a != b
    ensures IndexValue(a) != IndexValue(b)
  {
    CanonicalNumeralRoundTrip(a);
    CanonicalNumeralRoundTrip(b);
  }

  /** `${n}` of an integer. */
  function IntToString(n: int): string {
    if n < 0 then "-" + NatToString(-n) else NatToString(n)
  }

  // ---------------------------------------------------------------------
  // Properties of an object
  // ---------------------------------------------------------------------

  /** The key of the own property, first match (keys are unique in real objects). */
  function Find<T>(ps: seq<(string, T)>, k: string): Option<T> {
    if ps == [] then None
    else if ps[0].0 == k then Some(ps[0].1)
    else Find(ps[1..], k)
  }

  predicate HasKey<T>(ps: seq<(string, T)>, k: string) {
    Find(ps, k).Some?
  }

  function Keys<T>(ps: seq<(string, T)>): (ks: seq<string>)
    ensures |ks| == |ps|
    ensures forall i | 0 <= i < |ps| :: ks[i] == ps[i].0
  {
    if ps == [] then [] else [ps[0].0] + Keys(ps[1..])
  }

  function KeySet<T>(ps: seq<(string, T)>): set<string> {
    set i | 0 <= i < |ps| :: ps[i].0
  }

  predicate UniqueKeys<T>(ps: seq<(string, T)>) {
    forall i, j | 0 <= i < j < |ps| :: ps[i].0 != ps[j].0
  }

  lemma {:induction false} FindIffKey<T>(ps: seq<(string, T)>, k: string)
    ensures HasKey(ps, k) <==> k in KeySet(ps)
    decreases |ps|
  {
    if ps != [] {
      FindIffKey(ps[1..], k);
      assert KeySet(ps) == {ps[0].0} + KeySet(ps[1..]) by {
        forall x ensures x in KeySet(ps) <==> x in {ps[0].0} + KeySet(ps[1..]) {
          if x in KeySet(ps) {
            var i :| 0 <= i < |ps| && ps[i].0 == x;
            if i > 0 { assert ps[1..][i - 1].0 == x; }
          }
          if x in KeySet(ps[1..]) {
            var i :| 0 <= i < |ps[1..]| && ps[1..][i].0 == x;
            assert ps[i + 1].0 == x;
          }
        }
      }
    }
  }

  /** With unique keys, the property at position i is what a lookup of its key finds. */
  lemma {:induction false} FindAt<T>(ps: seq<(string, T)>, i: nat)
    requires UniqueKeys(ps) && i < |ps|
    ensures Find(ps, ps[i].0) == Some(ps[i].1)
    decreases i
  {
    if i > 0 {
      assert ps[1..][i - 1] == ps[i];
      FindAt(ps[1..], i - 1);
    }
  }

  // ---------------------------------------------------------------------
  // Property assignment `o[k] = v` and the enumeration order it produces
  // ---------------------------------------------------------------------

  /** `o[k] = v`: an existing key keeps its place; a new array-index key goes
      among the index keys in numeric order; any other new key goes last. */
  function SetProp<T>(ps: seq<(string, T)>, k: string, v: T): seq<(string, T)> {
    if HasKey(ps, k) then Replace(ps, k, v) else AddProp(ps, k, v)
  }

  function Replace<T>(ps: seq<(string, T)>, k: string, v: T): seq<(string, T)> {
    if ps == [] then []
    else if ps[0].0 == k then [(k, v)] + ps[1..]
    else [ps[0]] + Replace(ps[1..], k, v)
  }

  function AddProp<T>(ps: seq<(string, T)>, k: string, v: T): seq<(string, T)> {
    if IsArrayIndex(k) then InsertIndexKey(ps, k, v) else ps + [(k, v)]
  }

  function InsertIndexKey<T>(ps: seq<(string, T)>, k: string, v: T): seq<(string, T)>
    requires IsArrayIndex(k)
  {
    if ps == [] || !IsArrayIndex(ps[0].0) || IndexValue(k) < IndexValue(ps[0].0) then [(k, v)] + ps
    else [ps[0]] + InsertIndexKey(ps[1..], k, v)
  }

  lemma {:induction false} ReplaceFind<T>(ps: seq<(string, T)>, k: string, v: T, q: string)
    requires HasKey(ps, k)
    ensures Find(Replace(ps, k, v), q) == if q == k then Some(v) else Find(ps, q)
    ensures KeySet(Replace(ps, k, v)) == KeySet(ps)
    ensures UniqueKeys(ps) ==> UniqueKeys(Replace(ps, k, v))
    ensures forall e | e in Replace(ps, k, v) :: e in ps || e == (k, v)
    decreases |ps|
  {
    var r := Replace(ps, k, v);
    if ps[0].0 != k {
      ReplaceFind(ps[1..], k, v, q);
      assert r == [ps[0]] + Replace(ps[1..], k, v);
      KeySetCons(ps[0], ps[1..]);
      KeySetCons(ps[0], Replace(ps[1..], k, v));
      assert ps == [ps[0]] + ps[1..];
      if UniqueKeys(ps) { UniqueCons(ps[0], Replace(ps[1..], k, v)); }
    } else {
      KeySetCons(ps[0], ps[1..]);
      KeySetCons((k, v), ps[1..]);
      assert ps == [ps[0]] + ps[1..];
      if UniqueKeys(ps) { UniqueCons((k, v), ps[1..]); }
    }
  }

  lemma KeySetCons<T>(p: (string, T), ps: seq<(string, T)>)
    ensures KeySet([p] + ps) == {p.0} + KeySet(ps)
  {
    var s := [p] + ps;
    forall x ensures x in KeySet(s) <==> x in {p.0} + KeySet(ps) {
      if x in KeySet(s) {
        var i :| 0 <= i < |s| && s[i].0 == x;
        if i > 0 { assert ps[i - 1].0 == x; }
      }
      if x in KeySet(ps) {
        var i :| 0 <= i < |ps| && ps[i].0 == x;
        assert s[i + 1].0 == x;
      }
      if x == p.0 { assert s[0].0 == x; }
    }
  }

  lemma KeySetAppend<T>(ps: seq<(string, T)>, p: (string, T))
    ensures KeySet(ps + [p]) == KeySet(ps) + {p.0}
  {
    var s := ps + [p];
    forall x ensures x in KeySet(s) <==> x in KeySet(ps) + {p.0} {
      if x in KeySet(s) {
        var i :| 0 <= i < |s| && s[i].0 == x;
        if i < |ps| { assert ps[i].0 == x; }
      }
      if x in KeySet(ps) {
        var i :| 0 <= i < |ps| && ps[i].0 == x;
        assert s[i].0 == x;
      }
      if x == p.0 { assert s[|ps|].0 == x; }
    }
  }

  lemma UniqueCons<T>(p: (string, T), ps: seq<(string, T)>)
    requires UniqueKeys(ps) && p.0 !in KeySet(ps)
    ensures UniqueKeys([p] + ps)
  {
    var s := [p] + ps;
    forall i, j | 0 <= i < j < |s| ensures s[i].0 != s[j].0 {
      if i == 0 { assert s[j] == ps[j - 1]; } else { assert s[i] == ps[i - 1] && s[j] == ps[j - 1]; }
    }
  }

  lemma {:induction false} FindCons<T>(p: (string, T), ps: seq<(string, T)>, q: string)
    ensures Find([p] + ps, q) == if q == p.0 then Some(p.1) else Find(ps, q)
  {
    assert ([p] + ps)[1..] == ps;
  }

  lemma {:induction false} FindAppend<T>(ps: seq<(string, T)>, p: (string, T), q: string)
    ensures Find(ps + [p], q) == if HasKey(ps, q) then Find(ps, q) else if q == p.0 then Some(p.1) else None
    decreases |ps|
  {
    if ps != [] {
      assert (ps + [p])[1..] == ps[1..] + [p];
      FindAppend(ps[1..], p, q);
    } else {
      assert ([] + [p])[1..] == [];
    }
  }

  lemma {:induction false} InsertIndexKeyFacts<T>(ps: seq<(string, T)>, k: string, v: T, q: string)
    requires IsArrayIndex(k) && !HasKey(ps, k)
    ensures Find(InsertIndexKey(ps, k, v), q) == if q == k then Some(v) else Find(ps, q)
    ensures KeySet(InsertIndexKey(ps, k, v)) == KeySet(ps) + {k}
    ensures UniqueKeys(ps) ==> UniqueKeys(InsertIndexKey(ps, k, v))
    ensures forall e | e in InsertIndexKey(ps, k, v) :: e in ps || e == (k, v)
    decreases |ps|
  {
    var r := InsertIndexKey(ps, k, v);
    FindIffKey(ps, k);
    if ps == [] || !IsArrayIndex(ps[0].0) || IndexValue(k) < IndexValue(ps[0].0) {
      FindCons((k, v), ps, q);
      KeySetCons((k, v), ps);
      if UniqueKeys(ps) { UniqueCons((k, v), ps); }
    } else {
      assert ps == [ps[0]] + ps[1..];
      FindCons(ps[0], ps[1..], k);
      InsertIndexKeyFacts(ps[1..], k, v, q);
      var t := InsertIndexKey(ps[1..], k, v);
      assert r == [ps[0]] + t;
      FindCons(ps[0], t, q);
      FindCons(ps[0], ps[1..], q);
      KeySetCons(ps[0], t);
      KeySetCons(ps[0], ps[1..]);
      if UniqueKeys(ps) { UniqueCons(ps[0], t); }
    }
  }

  /** What assignment does to lookups, to the key set and to uniqueness. */
  lemma SetPropFacts<T>(ps: seq<(string, T)>, k: string, v: T, q: string)
    ensures Find(SetProp(ps, k, v), q) == if q == k then Some(v) else Find(ps, q)
    ensures KeySet(SetProp(ps, k, v)) == KeySet(ps) + {k}
    ensures UniqueKeys(ps) ==> UniqueKeys(SetProp(ps, k, v))
    ensures forall e | e in SetProp(ps, k, v) :: e in ps || e == (k, v)
  {
    FindIffKey(ps, k);
    if HasKey(ps, k) {
      ReplaceFind(ps, k, v, q);
    } else if IsArrayIndex(k) {
      InsertIndexKeyFacts(ps, k, v, q);
    } else {
      FindAppend(ps, (k, v), q);
      KeySetAppend(ps, (k, v));
      if UniqueKeys(ps) {
        var s := ps + [(k, v)];
        forall i, j | 0 <= i < j < |s| ensures s[i].0 != s[j].0 {
          if j == |ps| { assert s[i].0 in KeySet(ps); }
        }
      }
    }
  }

  // ---------------------------------------------------------------------
  // Reading values: obj[k], _.get, _.keys, String(v)
  // ---------------------------------------------------------------------

  /** `v[k]` (and lodash `_.get(v, k)` for a plain key): own properties of
      objects, indices and `length` of arrays and strings, else undefined. */
  function Get(v: Value, k: string): Value {
    match v
    case Obj(fs) => (match Find(fs, k) case Some(x) => x case None => Undefined)
    case Arr(items) =>
      if k == "length" then Num(|items|)
      else if IsArrayIndex(k) && IndexValue(k) < |items| then items[IndexValue(k)]
      else Undefined
    case Str(s) =>
      if k == "length" then Num(|s|)
      else if IsArrayIndex(k) && IndexValue(k) < |s| then Str([s[IndexValue(k)]])
      else Undefined
    case _ => Undefined
  }

  /** lodash `_.get(v, k, d)`: the default replaces only an undefined result. */
  function GetOr(v: Value, k: string, d: Value): Value {
    var x := Get(v, k);
    if x == Undefined then d else x
  }

  /** The keys "0", "1", ..., "n-1". */
  function IndexKeys(n: nat): (ks: seq<string>)
    ensures |ks| == n
    ensures forall i | 0 <= i < n :: ks[i] == NatToString(i)
  {
    if n == 0 then [] else IndexKeys(n - 1) + [NatToString(n - 1)]
  }

  /** lodash `_.keys`: own keys of an object, indices of an array or string. */
  function JsKeys(v: Value): seq<string> {
    match v
    case Obj(fs) => Keys(fs)
    case Arr(items) => IndexKeys(|items|)
    case Str(s) => IndexKeys(|s|)
    case _ => []
  }

  /** `String(v)`, which is also what `${v}` inserts into a template literal. */
  function ToString(v: Value): string {
    match v
    case Undefined => "undefined"
    case Null => "null"
    case Bool(b) => if b then "true" else "false"
    case Num(n) => IntToString(n)
    case Str(s) => s
    case Arr(items) => JoinItems(items)
    case Obj(_) => "[object Object]"
  }

  /** `items.join(",")`, where null and undefined elements render as "". */
  function JoinItems(items: seq<Value>): string
    decreases items
  {
    if items == [] then ""
    else
      var head := if items[0] == Undefined || items[0] == Null then "" else ToString(items[0]);
      if |items| == 1 then head else head + "," + JoinItems(items[1..])
  }
}
