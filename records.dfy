/** Plain objects used as `Record<string, T>` maps, and the two helpers the
    script applies to them: `mergeRecords`, which copies the defined entries
    of one record into another in place, and `getEnabledArray`, which lists
    the keys whose value is `true`. */
module Records {
  import opened JsValues

  /** The own enumerable properties of a plain object: the keys in
      enumeration order, and the value of each key. */
  datatype Record = Record(keys: seq<string>, vals: map<string, Val>) {
    ghost predicate Valid() {
      && Distinct(keys)
      && (forall k :: k in vals <==> k in keys)
    }
  }

  ghost predicate Distinct(s: seq<string>) {
    forall i, j :: 0 <= i < j < |s| ==> s[i] != s[j]
  }

  /** `r[k] = v`: a new key goes to the end of the enumeration order, an
      existing key keeps its place. */
  function Put(r: Record, k: string, v: Val): (r': Record)
    requires r.Valid()
    ensures r'.Valid()
  {
    Record(if k in r.vals then r.keys else r.keys + [k], r.vals[k := v])
  }

  /** `src` has an own property `k` whose value is not `undefined`. */
  predicate Defines(src: Record, k: string) {
    k in src.vals && src.vals[k] != Undefined
  }

  predicate IsEnabled(r: Record, k: string) {
    k in r.vals && r.vals[k] == Bool(true)
  }

  // ---------------------------------------------------------------------
  // mergeRecords (ruten-filter.user.js:51-57)
  // ---------------------------------------------------------------------

  /** `dst` after the first `n` entries of `src` have been merged into it. */
  function MergePrefix(dst: Record, src: Record, n: nat): (r: Record)
    requires dst.Valid() && src.Valid() && n <= |src.keys|
    ensures r.Valid()
    decreases n
  {
    if n == 0 then dst
    else
      var acc := MergePrefix(dst, src, n - 1);
      var k := src.keys[n - 1];
      if src.vals[k] != Undefined then Put(acc, k, src.vals[k]) else acc
  }

  /** The record `mergeRecords(dst, src)` leaves in `dst`. */
  function Merge(dst: Record, src: Record): Record
    requires dst.Valid() && src.Valid()
  {
    MergePrefix(dst, src, |src.keys|)
  }

  lemma {:induction false} MergePrefixSpec(dst: Record, src: Record, n: nat)
    requires dst.Valid() && src.Valid() && n <= |src.keys|
    ensures var r := MergePrefix(dst, src, n);
      && (forall k :: Defines(src, k) && k in src.keys[..n] ==> k in r.vals && r.vals[k] == src.vals[k])
      && (forall k :: !(Defines(src, k) && k in src.keys[..n]) ==>
            (k in r.vals <==> k in dst.vals) && (k in dst.vals ==> r.vals[k] == dst.vals[k]))
      && dst.keys <= r.keys
    decreases n
  {
    if n > 0 {
      MergePrefixSpec(dst, src, n - 1);
      var k := src.keys[n - 1];
      assert src.keys[..n] == src.keys[..n - 1] + [k];
      assert k !in src.keys[..n - 1] by {
        assert Distinct(src.keys);
        forall i | 0 <= i < n - 1 ensures src.keys[i] != k {
          assert src.keys[i] != src.keys[n - 1];
        }
      }
    }
  }

  /** What `mergeRecords(dst, src)` promises: every key that `src` defines
      takes `src`'s value; every other key of `dst` keeps its value and its
      presence; no key of `dst` is removed or moved. */
  lemma MergeSpec(dst: Record, src: Record)
    requires dst.Valid() && src.Valid()
    ensures forall k :: Defines(src, k) ==> k in Merge(dst, src).vals && Merge(dst, src).vals[k] == src.vals[k]
    ensures forall k :: !Defines(src, k) ==>
      (k in Merge(dst, src).vals <==> k in dst.vals) &&
      (k in dst.vals ==> Merge(dst, src).vals[k] == dst.vals[k])
    ensures dst.keys <= Merge(dst, src).keys
  {
    MergePrefixSpec(dst, src, |src.keys|);
    assert src.keys[..|src.keys|] == src.keys;
  }

  /** A plain JavaScript object whose properties the script assigns in place. */
  class RecordObject {
    var keys: seq<string>
    var vals: map<string, Val>

    function Value(): Record
      reads this
    {
      Record(keys, vals)
    }

    ghost predicate Valid()
      reads this
    {
      Value().Valid()
    }

    /** A fresh object with the given properties. */
    constructor (init: Record)
      requires init.Valid()
      ensures Valid() && Value() == init
    {
      keys := init.keys;
      vals := init.vals;
    }

    /** `this[k] = v`. */
    method Assign(k: string, v: Val)
      requires Valid()
      modifies this
      ensures Valid() && Value() == Put(old(Value()), k, v)
    {
      if k !in vals {
        keys := keys + [k];
      }
      vals := vals[k := v];
    }
  }

  /** `mergeRecords(dst, src)`: walks the entries of `src` in order and
      assigns each value that is not `undefined` to `dst`. */
  method MergeRecords(dst: RecordObject, src: Record)
    requires dst.Valid() && src.Valid()
    modifies dst
    ensures dst.Valid() && dst.Value() == Merge(old(dst.Value()), src)
  {
    var i := 0;
    while i < |src.keys|
      invariant 0 <= i <= |src.keys|
      invariant dst.Valid() && dst.Value() == MergePrefix(old(dst.Value()), src, i)
    {
      var key := src.keys[i];
      var value := src.vals[key];
      if value != Undefined {
        dst.Assign(key, value);
      }
      i := i + 1;
    }
  }

  // ---------------------------------------------------------------------
  // getEnabledArray (ruten-filter.user.js:63-72)
  // ---------------------------------------------------------------------

  /** The enabled keys among the first `n` keys of `m`, in enumeration order. */
  function EnabledPrefix(m: Record, n: nat): (r: seq<string>)
    requires m.Valid() && n <= |m.keys|
    ensures forall k :: k in r <==> k in m.keys[..n] && IsEnabled(m, k)
    ensures Distinct(r)
    decreases n
  {
    if n == 0 then []
    else
      var acc := EnabledPrefix(m, n - 1);
      var k := m.keys[n - 1];
      assert m.keys[..n] == m.keys[..n - 1] + [k];
      assert k !in m.keys[..n - 1] by {
        forall i | 0 <= i < n - 1 ensures m.keys[i] != k { }
      }
      if m.vals[k] == Bool(true) then acc + [k] else acc
  }

  /** The keys of `m` whose value is exactly `true`, each once, in
      enumeration order. */
  function EnabledKeys(m: Record): (r: seq<string>)
    requires m.Valid()
    ensures forall k :: k in r <==> IsEnabled(m, k)
    ensures Distinct(r)
  {
    assert m.keys[..|m.keys|] == m.keys;
    EnabledPrefix(m, |m.keys|)
  }

  /** `getEnabledArray(m)`: pushes, in entry order, every key whose value is
      `=== true`. */
  method GetEnabledArray(m: Record) returns (results: seq<string>)
    requires m.Valid()
    ensures results == EnabledKeys(m)
    ensures forall k :: k in results <==> k in m.vals && m.vals[k] == Bool(true)
    ensures Distinct(results)
  {
    results := [];
    var i := 0;
    while i < |m.keys|
      invariant 0 <= i <= |m.keys|
      invariant results == EnabledPrefix(m, i)
    {
      var key := m.keys[i];
      assert EnabledPrefix(m, i + 1) ==
        if m.vals[key] == Bool(true) then EnabledPrefix(m, i) + [key] else EnabledPrefix(m, i);
      if m.vals[key] == Bool(true) {
        results := results + [key];
      }
      i := i + 1;
    }
    assert m.keys[..|m.keys|] == m.keys;
  }
}
