/**
 * The `Headers` object of minipass-fetch, as the dispatcher uses it: a
 * table from header names to lists of values in which names are compared
 * without regard to ASCII case. A name is stored in the casing in which it
 * was first added; `append` adds a value to the list, `set` replaces the
 * list by one value, and iterating the object yields each name lower-cased
 * with its values joined by ", ".
 */
module FetchHeaders {
  import opened Wrappers
  import opened Text
  import opened Records

  /** Each stored name, in the casing first seen, with its values. */
  type Table = Record<seq<string>>

  /** Two names denote the same header. */
  predicate SameName(a: string, b: string)
  {
    Lower(a) == Lower(b)
  }

  /** The first stored name that denotes the same header as `name`. */
  function FindIn(keys: seq<string>, name: string): (r: Option<string>)
    ensures r.Some? ==> r.value in keys && SameName(r.value, name)
    ensures r.None? ==> forall k :: k in keys ==> !SameName(k, name)
  {
    if |keys| == 0 then None
    else if SameName(keys[0], name) then Some(keys[0])
    else FindIn(keys[1..], name)
  }

  function Find(t: Table, name: string): (r: Option<string>)
    ensures r.Some? ==> r.value in t.values && SameName(r.value, name)
    ensures r.None? ==> forall k :: k in t.values ==> !SameName(k, name)
  {
    FindIn(t.keys, name)
  }

  /** No two stored names denote the same header, and no list is empty. */
  ghost predicate Consistent(t: Table)
  {
    (forall a, b :: a in t.values && b in t.values && SameName(a, b) ==> a == b) &&
    (forall k :: k in t.values ==> t.values[k] != [])
  }

  /** The values stored for `name`, whatever its case; empty when there is none. */
  function ValuesOf(t: Table, name: string): seq<string>
  {
    match Find(t, name)
    case Some(k) => t.values[k]
    case None => []
  }

  lemma ValuesAt(t: Table, k: string, name: string)
    requires Consistent(t)
    requires k in t.values && SameName(k, name)
    ensures Find(t, name) == Some(k) && ValuesOf(t, name) == t.values[k]
  {
  }

  lemma ValuesAbsent(t: Table, name: string)
    requires forall k :: k in t.values ==> !SameName(k, name)
    ensures ValuesOf(t, name) == []
  {
  }

  /** `headers.append(name, value)` */
  function Appended(t: Table, name: string, value: string): Table
  {
    match Find(t, name)
    case Some(k) => Put(t, k, t.values[k] + [value])
    case None => Put(t, name, [value])
  }

  /** `headers.set(name, value)` */
  function Replaced(t: Table, name: string, value: string): Table
  {
    match Find(t, name)
    case Some(k) => Put(t, k, [value])
    case None => Put(t, name, [value])
  }

  /** Appending adds the value at the end of the list of that header and touches no other header. */
  lemma AppendedValues(t: Table, name: string, value: string, m: string)
    requires Consistent(t)
    ensures Consistent(Appended(t, name, value))
    ensures ValuesOf(Appended(t, name, value), m) ==
      if SameName(m, name) then ValuesOf(t, m) + [value] else ValuesOf(t, m)
  {
    var t' := Appended(t, name, value);
    match Find(t, name)
    case Some(k) =>
      assert t'.values.Keys == t.values.Keys;
      ValuesAfterUpdate(t, t', k, m);
    case None =>
      assert t'.values.Keys == t.values.Keys + {name};
      ValuesAfterInsert(t, t', name, m);
  }

  /** Setting makes the value the only one of that header and touches no other header. */
  lemma ReplacedValues(t: Table, name: string, value: string, m: string)
    requires Consistent(t)
    ensures Consistent(Replaced(t, name, value))
    ensures ValuesOf(Replaced(t, name, value), m) == if SameName(m, name) then [value] else ValuesOf(t, m)
  {
    var t' := Replaced(t, name, value);
    match Find(t, name)
    case Some(k) =>
      assert t'.values.Keys == t.values.Keys;
      ValuesAfterUpdate(t, t', k, m);
    case None =>
      assert t'.values.Keys == t.values.Keys + {name};
      ValuesAfterInsert(t, t', name, m);
  }

  /** A table whose names are unchanged and whose only changed entry is `k`'s, still non-empty. */
  lemma ValuesAfterUpdate(t: Table, t': Table, k: string, m: string)
    requires Consistent(t)
    requires t'.values.Keys == t.values.Keys && k in t.values && t'.values[k] != []
    requires forall x :: x in t.values && x != k ==> t'.values[x] == t.values[x]
    ensures Consistent(t')
    ensures SameName(m, k) ==> ValuesOf(t', m) == t'.values[k]
    ensures !SameName(m, k) ==> ValuesOf(t', m) == ValuesOf(t, m)
  {
    assert Consistent(t');
    if SameName(m, k) {
      ValuesAt(t', k, m);
    } else {
      match Find(t, m)
      case Some(x) =>
        ValuesAt(t', x, m);
      case None =>
        ValuesAbsent(t', m);
    }
  }

  /** A table with one more name, which no stored name matches, holding a non-empty list. */
  lemma ValuesAfterInsert(t: Table, t': Table, name: string, m: string)
    requires Consistent(t)
    requires forall x :: x in t.values ==> !SameName(x, name)
    requires t'.values.Keys == t.values.Keys + {name} && t'.values[name] != []
    requires forall x :: x in t.values ==> t'.values[x] == t.values[x]
    ensures Consistent(t')
    ensures SameName(m, name) ==> ValuesOf(t', m) == t'.values[name] && ValuesOf(t, m) == []
    ensures !SameName(m, name) ==> ValuesOf(t', m) == ValuesOf(t, m)
  {
    ConsistentAfterInsert(t, t', name);
    if SameName(m, name) {
      ValuesAt(t', name, m);
      ValuesAbsent(t, m);
    } else {
      match Find(t, m)
      case Some(x) =>
        ValuesAt(t', x, m);
      case None =>
        ValuesAbsent(t', m);
    }
  }

  lemma ConsistentAfterInsert(t: Table, t': Table, name: string)
    requires Consistent(t)
    requires forall x :: x in t.values ==> !SameName(x, name)
    requires t'.values.Keys == t.values.Keys + {name} && t'.values[name] != []
    requires forall x :: x in t.values ==> t'.values[x] == t.values[x]
    ensures Consistent(t')
  {
  }

  /** Appends every listed header in order: the `Headers` constructor given a plain object. */
  function AppendAll(t: Table, keys: seq<string>, from: map<string, string>): Table
    requires forall k :: k in keys ==> k in from
  {
    if |keys| == 0 then t
    else
      var last := keys[|keys| - 1];
      Appended(AppendAll(t, keys[..|keys| - 1], from), last, from[last])
  }

  /** Sets every listed header in order: the dispatcher's loop over call-site headers. */
  function SetAll(t: Table, keys: seq<string>, from: map<string, string>): Table
    requires forall k :: k in keys ==> k in from
  {
    if |keys| == 0 then t
    else
      var last := keys[|keys| - 1];
      Replaced(SetAll(t, keys[..|keys| - 1], from), last, from[last])
  }

  /** The values of the listed headers that denote `m`, in order. */
  function Matching(keys: seq<string>, from: map<string, string>, m: string): seq<string>
    requires forall k :: k in keys ==> k in from
  {
    if |keys| == 0 then []
    else
      var last := keys[|keys| - 1];
      Matching(keys[..|keys| - 1], from, m) + (if SameName(last, m) then [from[last]] else [])
  }

  /** The value of the last listed header that denotes `m`. */
  function LastMatch(keys: seq<string>, from: map<string, string>, m: string): Option<string>
    requires forall k :: k in keys ==> k in from
  {
    if |keys| == 0 then None
    else
      var last := keys[|keys| - 1];
      if SameName(last, m) then Some(from[last]) else LastMatch(keys[..|keys| - 1], from, m)
  }

  /** Appending headers one by one collects, per header, the values of all names that denote it, in order. */
  lemma {:induction false} AppendAllValues(t: Table, keys: seq<string>, from: map<string, string>, m: string)
    requires Consistent(t)
    requires forall k :: k in keys ==> k in from
    ensures Consistent(AppendAll(t, keys, from))
    ensures ValuesOf(AppendAll(t, keys, from), m) == ValuesOf(t, m) + Matching(keys, from, m)
  {
    if |keys| > 0 {
      var front, last := keys[..|keys| - 1], keys[|keys| - 1];
      AppendAllValues(t, front, from, m);
      AppendedValues(AppendAll(t, front, from), last, from[last], m);
    }
  }

  /** Setting headers one by one leaves, per header, the value of the last name that denotes it, if any. */
  lemma {:induction false} SetAllValues(t: Table, keys: seq<string>, from: map<string, string>, m: string)
    requires Consistent(t)
    requires forall k :: k in keys ==> k in from
    ensures Consistent(SetAll(t, keys, from))
    ensures ValuesOf(SetAll(t, keys, from), m) ==
      match LastMatch(keys, from, m)
      case Some(v) => [v]
      case None => ValuesOf(t, m)
  {
    if |keys| > 0 {
      var front, last := keys[..|keys| - 1], keys[|keys| - 1];
      SetAllValues(t, front, from, m);
      ReplacedValues(SetAll(t, front, from), last, from[last], m);
    }
  }

  /** `_.fromPairs([...headers])`: each header by its lower-cased name, its values joined by ", ". */
  function Flattened(t: Table): map<string, string>
    requires Consistent(t)
  {
    map k | k in t.values :: Lower(k) := Join(t.values[k], ", ")
  }

  /** The flattened object has one lower-case entry for each header the table holds. */
  lemma FlattenedValues(t: Table, m: string)
    requires Consistent(t)
    ensures Lower(m) in Flattened(t) <==> ValuesOf(t, m) != []
    ensures Lower(m) in Flattened(t) ==> Flattened(t)[Lower(m)] == Join(ValuesOf(t, m), ", ")
    ensures forall n :: n in Flattened(t) ==> Lower(n) == n
  {
    FlattenedNames(t);
    match Find(t, m)
    case Some(k) =>
      ValuesAt(t, k, m);
      FlattenedFound(t, k, m);
    case None =>
      ValuesAbsent(t, m);
      FlattenedMissing(t, m);
  }

  lemma FlattenedNames(t: Table)
    requires Consistent(t)
    ensures forall n :: n in Flattened(t) ==> Lower(n) == n
  {
    forall n | n in Flattened(t) ensures Lower(n) == n {
      var k :| k in t.values && Lower(k) == n;
      LowerIdempotent(k);
    }
  }

  lemma FlattenedFound(t: Table, k: string, m: string)
    requires Consistent(t)
    requires k in t.values && SameName(k, m)
    ensures Lower(m) in Flattened(t) && Flattened(t)[Lower(m)] == Join(t.values[k], ", ")
  {
    var f := Flattened(t);
    assert Lower(k) == Lower(m);
    assert Lower(k) in f;
    assert f[Lower(k)] == Join(t.values[k], ", ");
  }

  lemma FlattenedMissing(t: Table, m: string)
    requires Consistent(t)
    requires forall k :: k in t.values ==> !SameName(k, m)
    ensures Lower(m) !in Flattened(t)
  {
  }

  /**
   * The headers a request carries: the client's headers appended into an
   * empty table, then the call-site headers set over them, flattened.
   */
  function EffectiveHeaders(client: Record<string>, call: Record<string>): map<string, string>
  {
    var t := SetAll(AppendAll(Empty(), client.keys, client.values), call.keys, call.values);
    AppendAllValues(Empty(), client.keys, client.values, "");
    SetAllValues(AppendAll(Empty(), client.keys, client.values), call.keys, call.values, "");
    Flattened(t)
  }

  /**
   * A call-site header replaces, never adds to, every client header of the
   * same name in any case; the client headers whose names differ only in
   * case become one header with their values joined by ", " in order; all
   * other client headers are kept.
   */
  lemma EffectiveHeadersValues(client: Record<string>, call: Record<string>, m: string)
    ensures var r := EffectiveHeaders(client, call);
      (Lower(m) in r <==> Matching(client.keys, client.values, m) != [] || LastMatch(call.keys, call.values, m).Some?) &&
      (LastMatch(call.keys, call.values, m).Some? ==> r[Lower(m)] == LastMatch(call.keys, call.values, m).value) &&
      (LastMatch(call.keys, call.values, m).None? && Matching(client.keys, client.values, m) != [] ==>
        r[Lower(m)] == Join(Matching(client.keys, client.values, m), ", "))
  {
    var t := EffectiveTable(client, call, m);
    FlattenedValues(t, m);
  }

  lemma EffectiveTable(client: Record<string>, call: Record<string>, m: string) returns (t: Table)
    ensures t == SetAll(AppendAll(Empty(), client.keys, client.values), call.keys, call.values)
    ensures Consistent(t)
    ensures ValuesOf(t, m) ==
      match LastMatch(call.keys, call.values, m)
      case Some(v) => [v]
      case None => Matching(client.keys, client.values, m)
  {
    var appended := AppendAll(Empty(), client.keys, client.values);
    AppendFromEmpty(client, m);
    SetAllValues(appended, call.keys, call.values, m);
    t := SetAll(appended, call.keys, call.values);
  }

  lemma AppendFromEmpty(client: Record<string>, m: string)
    ensures Consistent(AppendAll(Empty(), client.keys, client.values))
    ensures ValuesOf(AppendAll(Empty(), client.keys, client.values), m) == Matching(client.keys, client.values, m)
  {
    AppendIntoEmpty(Empty(), client.keys, client.values, m);
  }

  lemma AppendIntoEmpty(e: Table, keys: seq<string>, from: map<string, string>, m: string)
    requires e.values == map[]
    requires forall k :: k in keys ==> k in from
    ensures Consistent(AppendAll(e, keys, from))
    ensures ValuesOf(AppendAll(e, keys, from), m) == Matching(keys, from, m)
  {
    AppendAllValues(e, keys, from, m);
    ValuesAbsent(e, m);
    assert [] + Matching(keys, from, m) == Matching(keys, from, m);
  }

  /** A `Headers` object. */
  class Headers {
    var table: Table

    ghost predicate Valid()
      reads this
    {
      Consistent(table)
    }

    /** `new Headers(init)` for a plain object: appends its entries in property order. */
    constructor (init: Record<string>)
      ensures Valid() && table == AppendAll(Empty(), init.keys, init.values)
    {
      table := Empty();
      new;
      var i := 0;
      while i < |init.keys|
        invariant 0 <= i <= |init.keys|
        invariant Valid() && table == AppendAll(Empty(), init.keys[..i], init.values)
      {
        var name := init.keys[i];
        assert init.keys[..i + 1][..i] == init.keys[..i];
        Append(name, init.values[name]);
        i := i + 1;
      }
      assert init.keys[..i] == init.keys;
    }

    /** `headers.append(name, value)` */
    method Append(name: string, value: string)
      modifies this
      requires Valid()
      ensures Valid() && table == Appended(old(table), name, value)
    {
      AppendedValues(table, name, value, name);
      match Find(table, name)
      case Some(k) =>
        table := Put(table, k, table.values[k] + [value]);
      case None =>
        table := Put(table, name, [value]);
    }

    /** `headers.set(name, value)` */
    method Set(name: string, value: string)
      modifies this
      requires Valid()
      ensures Valid() && table == Replaced(old(table), name, value)
    {
      ReplacedValues(table, name, value, name);
      var key := Find(table, name);
      var stored := if key.Some? then key.value else name;
      table := Put(table, stored, [value]);
    }

    /** `_.fromPairs([...headers])` */
    function Flatten(): map<string, string>
      reads this
      requires Valid()
    {
      Flattened(table)
    }
  }
}
