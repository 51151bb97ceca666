/**
 * `_sortVariables`: rebuild an object with its keys put through
 * `keys.sort()` and re-inserted one by one. The result enumerates array-index
 * keys first (numerically) and every other key in string order; nested
 * objects are copied as they are, not re-sorted.
 */
module Variables {
  import opened Js

  // ---------------------------------------------------------------------
  // The default order of Array.prototype.sort on strings
  // ---------------------------------------------------------------------

  /** `a < b` for strings, comparing character by character. */
  predicate StrLess(a: string, b: string)
    decreases |a|
  {
    if a == [] then b != []
    else if b == [] then false
    else if a[0] != b[0] then a[0] < b[0]
    else StrLess(a[1..], b[1..])
  }

  lemma {:induction false} StrLessIrreflexive(a: string)
    ensures !StrLess(a, a)
    decreases |a|
  {
    if a != [] { StrLessIrreflexive(a[1..]); }
  }

  lemma {:induction false} StrLessTransitive(a: string, b: string, c: string)
    requires StrLess(a, b) && StrLess(b, c)
    ensures StrLess(a, c)
    decreases |a|
  {
    if a != [] && b != [] && c != [] && a[0] == b[0] && b[0] == c[0] {
      StrLessTransitive(a[1..], b[1..], c[1..]);
    }
  }

  lemma {:induction false} StrLessTotal(a: string, b: string)
    requires a != b
    ensures StrLess(a, b) || StrLess(b, a)
    decreases |a|
  {
    if a != [] && b != [] && a[0] == b[0] {
      assert a == [a[0]] + a[1..] && b == [b[0]] + b[1..];
      StrLessTotal(a[1..], b[1..]);
    }
  }

  lemma StrLessAsymmetric(a: string, b: string)
    requires StrLess(a, b)
    ensures !StrLess(b, a)
  {
    if StrLess(b, a) {
      StrLessTransitive(a, b, a);
      StrLessIrreflexive(a);
    }
  }

  predicate Distinct(ks: seq<string>) {
    forall i, j | 0 <= i < j < |ks| :: ks[i] != ks[j]
  }

  predicate StrictlySorted(ks: seq<string>) {
    forall i, j | 0 <= i < j < |ks| :: StrLess(ks[i], ks[j])
  }

  function InsertKey(k: string, ks: seq<string>): seq<string> {
    if ks == [] || !StrLess(ks[0], k) then [k] + ks else [ks[0]] + InsertKey(k, ks[1..])
  }

  /** `keys.sort()`. */
  function SortKeys(ks: seq<string>): seq<string> {
    if ks == [] then [] else InsertKey(ks[0], SortKeys(ks[1..]))
  }

  lemma {:induction false} InsertKeyFacts(k: string, ks: seq<string>)
    requires StrictlySorted(ks) && k !in ks
    ensures StrictlySorted(InsertKey(k, ks))
    ensures multiset(InsertKey(k, ks)) == multiset(ks) + multiset{k}
    decreases |ks|
  {
    var r := InsertKey(k, ks);
    if ks == [] || !StrLess(ks[0], k) {
      if ks != [] {
        StrLessTotal(ks[0], k);
        forall j | 1 <= j < |r| ensures StrLess(r[0], r[j]) {
          if j > 1 { StrLessTransitive(k, ks[0], ks[j - 1]); }
        }
      }
    } else {
      assert ks == [ks[0]] + ks[1..];
      InsertKeyFacts(k, ks[1..]);
      var t := InsertKey(k, ks[1..]);
      assert r == [ks[0]] + t;
      forall j | 1 <= j < |r| ensures StrLess(r[0], r[j]) {
        assert r[j] in multiset(t);
        assert r[j] in ks[1..] || r[j] == k;
      }
    }
  }

  lemma {:induction false} SortKeysFacts(ks: seq<string>)
    ensures multiset(SortKeys(ks)) == multiset(ks)
    ensures Distinct(ks) ==> StrictlySorted(SortKeys(ks))
    decreases |ks|
  {
    if ks != [] {
      assert ks == [ks[0]] + ks[1..];
      SortKeysFacts(ks[1..]);
      InsertKeyMultiset(ks[0], SortKeys(ks[1..]));
      if Distinct(ks) {
        assert Distinct(ks[1..]);
        assert ks[0] !in multiset(ks[1..]);
        assert ks[0] !in SortKeys(ks[1..]);
        InsertKeyFacts(ks[0], SortKeys(ks[1..]));
      }
    }
  }

  lemma {:induction false} InsertKeyMultiset(k: string, ks: seq<string>)
    ensures multiset(InsertKey(k, ks)) == multiset(ks) + multiset{k}
    decreases |ks|
  {
    if ks != [] && StrLess(ks[0], k) {
      InsertKeyMultiset(k, ks[1..]);
      assert ks == [ks[0]] + ks[1..];
    }
  }

  // ---------------------------------------------------------------------
  // The enumeration order of the rebuilt object
  // ---------------------------------------------------------------------

  /** Where key a enumerates relative to key b in an object whose keys were
      inserted in string order: array indices first, by value, then the
      rest by string order. */
  predicate KeyBefore(a: string, b: string) {
    if IsArrayIndex(a) && IsArrayIndex(b) then IndexValue(a) < IndexValue(b)
    else if IsArrayIndex(a) then true
    else if IsArrayIndex(b) then false
    else StrLess(a, b)
  }

  predicate SortedByKey<T>(ps: seq<(string, T)>) {
    forall i, j | 0 <= i < j < |ps| :: KeyBefore(ps[i].0, ps[j].0)
  }

  lemma KeyBeforeIrreflexive(a: string)
    ensures !KeyBefore(a, a)
  {
    StrLessIrreflexive(a);
  }

  lemma KeyBeforeTransitive(a: string, b: string, c: string)
    requires KeyBefore(a, b) && KeyBefore(b, c)
    ensures KeyBefore(a, c)
  {
    if !IsArrayIndex(a) && !IsArrayIndex(b) && !IsArrayIndex(c) {
      StrLessTransitive(a, b, c);
    }
  }

  lemma KeyBeforeTotal(a: string, b: string)
    requires a != b
    ensures KeyBefore(a, b) || KeyBefore(b, a)
  {
    if IsArrayIndex(a) && IsArrayIndex(b) {
      IndexValueInjective(a, b);
    } else {
      StrLessTotal(a, b);
    }
  }

  lemma KeyBeforeAsymmetric(a: string, b: string)
    requires KeyBefore(a, b)
    ensures !KeyBefore(b, a)
  {
    if KeyBefore(b, a) {
      KeyBeforeTransitive(a, b, a);
      KeyBeforeIrreflexive(a);
    }
  }

  lemma SortedByKeyUnique<T>(ps: seq<(string, T)>)
    requires SortedByKey(ps)
    ensures UniqueKeys(ps)
  {
    forall i, j | 0 <= i < j < |ps| ensures ps[i].0 != ps[j].0 {
      KeyBeforeIrreflexive(ps[i].0);
    }
  }

  /** Inserting a new array-index key keeps an ordered object ordered. */
  lemma {:induction false} InsertIndexKeySorted<T>(ps: seq<(string, T)>, k: string, v: T)
    requires SortedByKey(ps) && IsArrayIndex(k) && k !in KeySet(ps)
    ensures SortedByKey(InsertIndexKey(ps, k, v))
    decreases |ps|
  {
    var r := InsertIndexKey(ps, k, v);
    if ps == [] || !IsArrayIndex(ps[0].0) || IndexValue(k) < IndexValue(ps[0].0) {
      forall j | 1 <= j < |r| ensures KeyBefore(r[0].0, r[j].0) {
        assert r[j] == ps[j - 1];
        if j > 1 { KeyBeforeTransitive(k, ps[0].0, ps[j - 1].0); }
      }
    } else {
      assert ps[0].0 in KeySet(ps);
      IndexValueInjective(ps[0].0, k);
      assert KeySet(ps[1..]) <= KeySet(ps) by {
        forall x | x in KeySet(ps[1..]) ensures x in KeySet(ps) {
          var i :| 0 <= i < |ps[1..]| && ps[1..][i].0 == x;
          assert ps[i + 1].0 == x;
        }
      }
      InsertIndexKeySorted(ps[1..], k, v);
      var t := InsertIndexKey(ps[1..], k, v);
      assert r == [ps[0]] + t;
      SetPropFactsInsert(ps[1..], k, v);
      forall j | 1 <= j < |r| ensures KeyBefore(r[0].0, r[j].0) {
        assert r[j] == t[j - 1];
        assert t[j - 1] in t;
        if t[j - 1] != (k, v) {
          var m :| 0 <= m < |ps[1..]| && ps[1..][m] == t[j - 1];
          assert ps[m + 1] == r[j];
        }
      }
      forall i, j | 1 <= i < j < |r| ensures KeyBefore(r[i].0, r[j].0) {
        assert r[i] == t[i - 1] && r[j] == t[j - 1];
      }
    }
  }

  lemma SetPropFactsInsert<T>(ps: seq<(string, T)>, k: string, v: T)
    requires IsArrayIndex(k) && k !in KeySet(ps)
    ensures forall e | e in InsertIndexKey(ps, k, v) :: e in ps || e == (k, v)
  {
    FindIffKey(ps, k);
    InsertIndexKeyFacts(ps, k, v, k);
  }

  // ---------------------------------------------------------------------
  // _sortVariables
  // ---------------------------------------------------------------------

  /** The reduce: starting from `{}`, assign `key: src[key]` for each key in turn. */
  function Assign(keys: seq<string>, src: Value): (r: seq<(string, Value)>)
    ensures KeySet(r) == set k | k in keys
  {
    if keys == [] then []
    else
      var last := keys[|keys| - 1];
      SetPropFacts(Assign(keys[..|keys| - 1], src), last, Get(src, last), last);
      assert keys == keys[..|keys| - 1] + [last];
      SetProp(Assign(keys[..|keys| - 1], src), last, Get(src, last))
  }

  /** `_sortVariables(variables = {})`. */
  function SortVariables(variables: Value): (r: Value)
    ensures r.Obj?
    ensures variables == Undefined ==> r == Obj([])
  {
    var v := if variables == Undefined then Obj([]) else variables;
    Obj(Assign(SortKeys(JsKeys(v)), v))
  }

  /** After the reduce, the object holds exactly the assigned keys, each with
      the source's value. */
  lemma {:induction false} AssignLookup(keys: seq<string>, src: Value)
    ensures KeySet(Assign(keys, src)) == set k | k in keys
    ensures forall q :: Find(Assign(keys, src), q) == if q in keys then Some(Get(src, q)) else None
    decreases |keys|
  {
    if keys != [] {
      var pre := keys[..|keys| - 1];
      var last := keys[|keys| - 1];
      var a := Assign(pre, src);
      AssignLookup(pre, src);
      assert keys == pre + [last];
      forall q ensures Find(Assign(keys, src), q) == if q in keys then Some(Get(src, q)) else None {
        SetPropFacts(a, last, Get(src, last), q);
      }
      SetPropFacts(a, last, Get(src, last), last);
      assert (set k | k in keys) == (set k | k in pre) + {last};
    }
  }

  /** Assigning keys in string order yields an object in key order. */
  lemma {:induction false} AssignSorted(keys: seq<string>, src: Value)
    requires StrictlySorted(keys)
    ensures SortedByKey(Assign(keys, src))
    decreases |keys|
  {
    if keys != [] {
      var pre := keys[..|keys| - 1];
      var last := keys[|keys| - 1];
      var a := Assign(pre, src);
      AssignSorted(pre, src);
      AssignLookup(pre, src);
      assert last !in pre by {
        forall i | 0 <= i < |pre| ensures pre[i] != last {
          assert StrLess(keys[i], keys[|keys| - 1]);
          StrLessIrreflexive(last);
        }
      }
      FindIffKey(a, last);
      if IsArrayIndex(last) {
        InsertIndexKeySorted(a, last, Get(src, last));
      } else {
        assert keys == pre + [last];
        AppendSorted(keys, pre, a, last, Get(src, last));
      }
    }
  }

  /** The non-index step of AssignSorted: the new key goes last. */
  lemma AppendSorted(keys: seq<string>, pre: seq<string>, a: seq<(string, Value)>, last: string, x: Value)
    requires keys == pre + [last] && StrictlySorted(keys)
    requires !IsArrayIndex(last) && !HasKey(a, last) && SortedByKey(a)
    requires KeySet(a) == set k | k in pre
    ensures SortedByKey(SetProp(a, last, x))
  {
    assert SetProp(a, last, x) == a + [(last, x)];
    forall i | 0 <= i < |a| ensures KeyBefore(a[i].0, last) {
      assert a[i].0 in KeySet(a);
      var m :| 0 <= m < |pre| && pre[m] == a[i].0;
      assert StrLess(keys[m], keys[|keys| - 1]);
    }
  }

  lemma KeysDistinct(fs: seq<(string, Value)>)
    ensures Distinct(Keys(fs)) <==> UniqueKeys(fs)
  {
  }

  /** The rebuilt object has exactly the input's keys, each with the input's
      value; nested values are carried over untouched. */
  lemma SortVariablesEntries(variables: Value)
    requires Distinct(JsKeys(variables))
    ensures KeySet(SortVariables(variables).fields) == set k | k in JsKeys(variables)
    ensures forall k | k in JsKeys(variables) :: Find(SortVariables(variables).fields, k) == Some(Get(variables, k))
    ensures SortedByKey(SortVariables(variables).fields)
  {
    var v := if variables == Undefined then Obj([]) else variables;
    var ks := JsKeys(v);
    SortKeysFacts(ks);
    AssignLookup(SortKeys(ks), v);
    AssignSorted(SortKeys(ks), v);
    forall q ensures q in SortKeys(ks) <==> q in ks {
      assert q in SortKeys(ks) <==> q in multiset(SortKeys(ks));
    }
  }

  /** Two ordered property lists with the same keys and lookups are equal. */
  lemma {:induction false} SortedUniqueness(ps: seq<(string, Value)>, qs: seq<(string, Value)>)
    requires SortedByKey(ps) && SortedByKey(qs)
    requires KeySet(ps) == KeySet(qs)
    requires forall k :: Find(ps, k) == Find(qs, k)
    ensures ps == qs
    decreases |ps|
  {
    SortedByKeyUnique(ps);
    SortedByKeyUnique(qs);
    if ps == [] {
      assert qs == [] || Find(ps, qs[0].0) != Find(qs, qs[0].0);
    } else {
      assert ps[0].0 in KeySet(ps);
      assert qs != [];
      assert qs[0].0 in KeySet(qs);
      var a, b := ps[0].0, qs[0].0;
      if a != b {
        var i :| 0 <= i < |qs| && qs[i].0 == a;
        var j :| 0 <= j < |ps| && ps[j].0 == b;
        assert KeyBefore(b, a);
        assert KeyBefore(a, b);
        KeyBeforeAsymmetric(a, b);
      }
      assert ps[0] == qs[0] by { assert Find(ps, a) == Find(qs, a); }
      var ps', qs' := ps[1..], qs[1..];
      assert ps == [ps[0]] + ps' && qs == [qs[0]] + qs';
      KeySetCons(ps[0], ps');
      KeySetCons(qs[0], qs');
      assert a !in KeySet(ps') by {
        forall i | 0 <= i < |ps'| ensures ps'[i].0 != a { assert ps'[i] == ps[i + 1]; }
      }
      assert a !in KeySet(qs') by {
        forall i | 0 <= i < |qs'| ensures qs'[i].0 != a { assert qs'[i] == qs[i + 1]; }
      }
      forall k ensures Find(ps', k) == Find(qs', k) {
        FindCons(ps[0], ps', k);
        FindCons(qs[0], qs', k);
        if k == a {
          FindIffKey(ps', a);
          FindIffKey(qs', a);
        }
      }
      SortedUniqueness(ps', qs');
    }
  }

  /** A key is listed by `Keys` exactly when it is in the key set. */
  lemma KeysListKeySet<T>(ps: seq<(string, T)>)
    ensures forall k :: k in Keys(ps) <==> k in KeySet(ps)
  {
    forall k ensures k in Keys(ps) <==> k in KeySet(ps) {
      if k in Keys(ps) {
        var i :| 0 <= i < |ps| && Keys(ps)[i] == k;
      }
      if k in KeySet(ps) {
        var i :| 0 <= i < |ps| && ps[i].0 == k;
        assert Keys(ps)[i] == k;
      }
    }
  }

  /** Facts about sorting an object with unique keys, phrased by lookup. */
  lemma SortedObjectEntries(x: Value)
    requires x.Obj? && UniqueKeys(x.fields)
    ensures SortedByKey(SortVariables(x).fields)
    ensures KeySet(SortVariables(x).fields) == KeySet(x.fields)
    ensures forall k :: Find(SortVariables(x).fields, k) == Find(x.fields, k)
  {
    var r := SortVariables(x).fields;
    KeysDistinct(x.fields);
    SortVariablesEntries(x);
    assert (set k | k in JsKeys(x)) == KeySet(x.fields) by {
      forall k ensures k in JsKeys(x) <==> k in KeySet(x.fields) {
        if k in KeySet(x.fields) {
          var i :| 0 <= i < |x.fields| && x.fields[i].0 == k;
          assert Keys(x.fields)[i] == k;
        }
      }
    }
    forall k ensures Find(r, k) == Find(x.fields, k) {
      FindIffKey(r, k);
      FindIffKey(x.fields, k);
      if k in KeySet(x.fields) {
        var i :| 0 <= i < |x.fields| && x.fields[i].0 == k;
        assert Keys(x.fields)[i] == k;
        FindAt(x.fields, i);
      }
    }
  }

  /** Argument-order independence: objects holding the same entries, in any
      order, are rebuilt into the same object. */
  lemma SortVariablesCanonical(v1: Value, v2: Value)
    requires v1.Obj? && v2.Obj? && UniqueKeys(v1.fields) && UniqueKeys(v2.fields)
    requires KeySet(v1.fields) == KeySet(v2.fields)
    requires forall k :: Find(v1.fields, k) == Find(v2.fields, k)
    ensures SortVariables(v1) == SortVariables(v2)
  {
    SortedObjectEntries(v1);
    SortedObjectEntries(v2);
    SortedUniqueness(SortVariables(v1).fields, SortVariables(v2).fields);
  }

  /** Sorting an already sorted object changes nothing. */
  lemma SortVariablesIdempotent(variables: Value)
    requires variables.Obj? && UniqueKeys(variables.fields)
    ensures SortVariables(SortVariables(variables)) == SortVariables(variables)
  {
    var r := SortVariables(variables);
    SortVariablesEntries(variables);
    SortedByKeyUnique(r.fields);
    SortVariablesEntries(r);
    var rr := SortVariables(r);
    KeysListKeySet(r.fields);
    assert KeySet(rr.fields) == KeySet(r.fields);
    forall k ensures Find(rr.fields, k) == Find(r.fields, k) {
      FindIffKey(rr.fields, k);
      FindIffKey(r.fields, k);
    }
    SortedUniqueness(rr.fields, r.fields);
  }
}
