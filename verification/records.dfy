/**
 * JavaScript plain objects with string keys. A record keeps its own keys in
 * property order (the order `Object.keys` and `for ... of Object.entries`
 * visit them) and maps each key to its value; keys are distinct.
 */
module Records {
  import opened Wrappers

  datatype Entries<V> = Entries(keys: seq<string>, values: map<string, V>)

  predicate Distinct(keys: seq<string>)
  {
    forall i, j :: 0 <= i < j < |keys| ==> keys[i] != keys[j]
  }

  ghost predicate WellFormed<V>(e: Entries<V>)
  {
    Distinct(e.keys) && forall k :: k in e.values <==> k in e.keys
  }

  /** A plain object: its ordered own keys and their values. */
  type Record<V> = e: Entries<V> | WellFormed(e) witness Entries([], map[])

  /** `{}` */
  function Empty<V>(): Record<V>
  {
    Entries([], map[])
  }

  /** `r[k] = v`: an existing key keeps its position, a new key goes last. */
  function Put<V>(r: Record<V>, k: string, v: V): (r': Record<V>)
    ensures r'.values == r.values[k := v]
    ensures r'.keys == if k in r.values then r.keys else r.keys + [k]
  {
    if k in r.values then Entries(r.keys, r.values[k := v])
    else
      assert forall i :: 0 <= i < |r.keys| ==> r.keys[i] in r.values;
      Entries(r.keys + [k], r.values[k := v])
  }

  /** The keys of `keys` that `existing` does not have yet, in order. */
  function NewKeys<V>(keys: seq<string>, existing: map<string, V>): (r: seq<string>)
    ensures forall k :: k in r <==> k in keys && k !in existing
    ensures Distinct(keys) ==> Distinct(r)
  {
    if |keys| == 0 then []
    else
      var rest := NewKeys(keys[..|keys| - 1], existing);
      var last := keys[|keys| - 1];
      assert forall k :: k in keys <==> k in keys[..|keys| - 1] || k == last;
      rest + (if last in existing then [] else [last])
  }

  lemma {:induction false} NewKeysFresh<V>(keys: seq<string>, existing: map<string, V>)
    requires forall k :: k in keys ==> k !in existing
    ensures NewKeys(keys, existing) == keys
  {
    if |keys| > 0 {
      NewKeysFresh(keys[..|keys| - 1], existing);
      assert keys == keys[..|keys| - 1] + [keys[|keys| - 1]];
    }
  }

  /** `const { [k]: _, ...rest } = r`: every own property except `k`, in order. */
  function Remove<V>(r: Record<V>, k: string): (r': Record<V>)
    ensures r'.values == r.values - {k}
    ensures r'.keys == Without(r.keys, k)
  {
    Entries(Without(r.keys, k), r.values - {k})
  }

  function Without(keys: seq<string>, k: string): (r: seq<string>)
    ensures forall x :: x in r <==> x in keys && x != k
    ensures Distinct(keys) ==> Distinct(r)
  {
    if |keys| == 0 then []
    else
      var rest := Without(keys[1..], k);
      DistinctTail(keys);
      (if keys[0] == k then [] else [keys[0]]) + rest
  }

  lemma DistinctTail(keys: seq<string>)
    requires |keys| > 0
    ensures Distinct(keys) ==> Distinct(keys[1..]) && keys[0] !in keys[1..]
    ensures Distinct(keys) ==> Distinct(keys[..|keys| - 1]) && keys[|keys| - 1] !in keys[..|keys| - 1]
    ensures Distinct(keys[1..]) && keys[0] !in keys[1..] ==> Distinct(keys)
  {
    if Distinct(keys) {
      forall i, j | 0 <= i < j < |keys| - 1 ensures keys[1..][i] != keys[1..][j] {
        assert keys[i + 1] != keys[j + 1];
      }
    }
  }

  /** The entries of `from` whose keys are listed in `keys`. */
  function Restrict<V>(from: map<string, V>, keys: seq<string>): map<string, V>
    requires forall k :: k in keys ==> k in from
  {
    map k | k in keys :: from[k]
  }

  lemma RestrictAll<V>(r: Record<V>)
    ensures Restrict(r.values, r.keys) == r.values
  {
    var m := Restrict(r.values, r.keys);
    forall k | k in m ensures k in r.values && m[k] == r.values[k] { }
    forall k | k in r.values ensures k in m { assert k in r.keys; }
  }

  lemma RestrictSnoc<V>(from: map<string, V>, keys: seq<string>)
    requires |keys| > 0
    requires forall k :: k in keys ==> k in from
    ensures Restrict(from, keys) == Restrict(from, keys[..|keys| - 1])[keys[|keys| - 1] := from[keys[|keys| - 1]]]
  {
    assert keys == keys[..|keys| - 1] + [keys[|keys| - 1]];
  }

  lemma MapPlusUpdate<V>(a: map<string, V>, b: map<string, V>, k: string, v: V)
    ensures (a + b)[k := v] == a + b[k := v]
  {
  }

  /**
   * Copies the entries of `source` onto `target` key by key in `source`'s
   * order, as `Object.assign` does and as lodash's `merge` does for values
   * that are not plain objects.
   */
  function Assign<V>(target: Record<V>, source: Record<V>): (r: Record<V>)
    ensures r.values == target.values + source.values
    ensures r.keys == target.keys + NewKeys(source.keys, target.values)
  {
    RestrictAll(source);
    AssignKeys(target, source.keys, source.values)
  }

  function AssignKeys<V>(target: Record<V>, keys: seq<string>, from: map<string, V>): (r: Record<V>)
    requires Distinct(keys)
    requires forall k :: k in keys ==> k in from
    ensures r.values == target.values + Restrict(from, keys)
    ensures r.keys == target.keys + NewKeys(keys, target.values)
    decreases |keys|
  {
    if |keys| == 0 then target
    else
      var r := AssignKeys(target, keys[..|keys| - 1], from);
      AssignStep(target, keys, from, r);
      Put(r, keys[|keys| - 1], from[keys[|keys| - 1]])
  }

  /** One step of AssignKeys: writing the last key after all earlier ones. */
  lemma AssignStep<V>(target: Record<V>, keys: seq<string>, from: map<string, V>, r: Record<V>)
    requires Distinct(keys) && |keys| > 0
    requires forall k :: k in keys ==> k in from
    requires r.values == target.values + Restrict(from, keys[..|keys| - 1])
    requires r.keys == target.keys + NewKeys(keys[..|keys| - 1], target.values)
    ensures Put(r, keys[|keys| - 1], from[keys[|keys| - 1]]).values == target.values + Restrict(from, keys)
    ensures Put(r, keys[|keys| - 1], from[keys[|keys| - 1]]).keys == target.keys + NewKeys(keys, target.values)
  {
    var front, last := keys[..|keys| - 1], keys[|keys| - 1];
    RestrictSnoc(from, keys);
    MapPlusUpdate(target.values, Restrict(from, front), last, from[last]);
    DistinctTail(keys);
    assert last !in Restrict(from, front);
    SnocKeys(target.keys, NewKeys(front, target.values), last, last in target.values);
  }

  lemma SnocKeys(a: seq<string>, b: seq<string>, k: string, present: bool)
    ensures (if present then a + b else a + b + [k]) == a + (b + if present then [] else [k])
  {
  }

  /**
   * lodash `merge` of one flat source over `target` when values may be
   * `undefined` (`None`): an undefined source value is written only where
   * `target` lacks the key, so it never replaces a value.
   */
  function AssignDefined<V>(target: Record<Option<V>>, source: Record<Option<V>>): (r: Record<Option<V>>)
    ensures r.values == target.values + DefinedOver(source.values, source.keys, target.values)
    ensures r.keys == target.keys + NewKeys(source.keys, target.values)
  {
    AssignDefinedKeys(target, source.keys, source.values)
  }

  /** The entries of `from` listed in `keys` that a merge writes over `existing`. */
  function DefinedOver<V>(from: map<string, Option<V>>, keys: seq<string>, existing: map<string, Option<V>>): map<string, Option<V>>
    requires forall k :: k in keys ==> k in from
  {
    map k | k in keys && (from[k].Some? || k !in existing) :: from[k]
  }

  function AssignDefinedKeys<V>(target: Record<Option<V>>, keys: seq<string>, from: map<string, Option<V>>): (r: Record<Option<V>>)
    requires Distinct(keys)
    requires forall k :: k in keys ==> k in from
    ensures r.values == target.values + DefinedOver(from, keys, target.values)
    ensures r.keys == target.keys + NewKeys(keys, target.values)
    decreases |keys|
  {
    if |keys| == 0 then
      assert DefinedOver(from, keys, target.values) == map[];
      target
    else
      var r := AssignDefinedKeys(target, keys[..|keys| - 1], from);
      var last := keys[|keys| - 1];
      if from[last].None? && last in r.values then
        AssignDefinedSkip(target.values, keys, from);
        r
      else
        AssignDefinedWrite(target, keys, from, r);
        Put(r, last, from[last])
  }

  /** One step of AssignDefinedKeys where the last key is undefined and already present: nothing changes. */
  lemma AssignDefinedSkip<V>(existing: map<string, Option<V>>, keys: seq<string>, from: map<string, Option<V>>)
    requires Distinct(keys) && |keys| > 0
    requires forall k :: k in keys ==> k in from
    requires from[keys[|keys| - 1]].None?
    requires keys[|keys| - 1] in existing + DefinedOver(from, keys[..|keys| - 1], existing)
    ensures DefinedOver(from, keys, existing) == DefinedOver(from, keys[..|keys| - 1], existing)
    ensures NewKeys(keys, existing) == NewKeys(keys[..|keys| - 1], existing)
  {
    var front, last := keys[..|keys| - 1], keys[|keys| - 1];
    assert last in existing by {
      DistinctTail(keys);
      assert last !in DefinedOver(from, front, existing);
    }
    DefinedOverSnoc(from, keys, existing);
    assert NewKeys(front, existing) + [] == NewKeys(front, existing);
  }

  /** One step of AssignDefinedKeys where the last key is written. */
  lemma AssignDefinedWrite<V>(target: Record<Option<V>>, keys: seq<string>, from: map<string, Option<V>>, r: Record<Option<V>>)
    requires Distinct(keys) && |keys| > 0
    requires forall k :: k in keys ==> k in from
    requires r.values == target.values + DefinedOver(from, keys[..|keys| - 1], target.values)
    requires r.keys == target.keys + NewKeys(keys[..|keys| - 1], target.values)
    requires !(from[keys[|keys| - 1]].None? && keys[|keys| - 1] in r.values)
    ensures Put(r, keys[|keys| - 1], from[keys[|keys| - 1]]).values == target.values + DefinedOver(from, keys, target.values)
    ensures Put(r, keys[|keys| - 1], from[keys[|keys| - 1]]).keys == target.keys + NewKeys(keys, target.values)
  {
    var front, last := keys[..|keys| - 1], keys[|keys| - 1];
    DistinctTail(keys);
    var d := DefinedOver(from, front, target.values);
    assert last !in d;
    assert last in r.values <==> last in target.values;
    DefinedOverSnoc(from, keys, target.values);
    MapPlusUpdate(target.values, d, last, from[last]);
    SnocKeys(target.keys, NewKeys(front, target.values), last, last in target.values);
  }

  lemma DefinedOverSnoc<V>(from: map<string, Option<V>>, keys: seq<string>, existing: map<string, Option<V>>)
    requires |keys| > 0
    requires forall k :: k in keys ==> k in from
    ensures var front, last := keys[..|keys| - 1], keys[|keys| - 1];
      DefinedOver(from, keys, existing) ==
        if from[last].None? && last in existing then DefinedOver(from, front, existing)
        else DefinedOver(from, front, existing)[last := from[last]]
  {
    assert keys == keys[..|keys| - 1] + [keys[|keys| - 1]];
  }

  /** The object literal `{k1: v1, k2: v2, ...}`: a repeated key keeps its first position and its last value. */
  function FromPairs<V>(pairs: seq<(string, V)>): Record<V>
  {
    if |pairs| == 0 then Empty()
    else Put(FromPairs(pairs[..|pairs| - 1]), pairs[|pairs| - 1].0, pairs[|pairs| - 1].1)
  }
}
