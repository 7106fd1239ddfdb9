/**
 * JavaScript's `Map<string, string[]>`, as the capture paths and the node
 * projector use it: entries kept in insertion order, `has`, `get`, `set` of a
 * new key (appended at the end) and `push` onto the list stored under a key.
 */
module JsMap {
  import opened Wrappers

  type Entry = (string, seq<string>)
  type Entries = seq<Entry>

  /** `Array.from(m.keys())`: the keys in insertion order. */
  function Keys(m: Entries): (ks: seq<string>)
    ensures |ks| == |m|
    decreases |m|
  {
    if m == [] then [] else [m[0].0] + Keys(m[1..])
  }

  lemma {:induction false} KeysAt(m: Entries, i: nat)
    requires i < |m|
    ensures Keys(m)[i] == m[i].0
    decreases |m|
  {
    if i > 0 {
      KeysAt(m[1..], i - 1);
    }
  }

  /** `m.has(key)`. */
  predicate Has(m: Entries, key: string) {
    key in Keys(m)
  }

  /** Every key occurs once, as in any JavaScript `Map`. */
  predicate DistinctKeys(m: Entries) {
    forall i, j :: 0 <= i < j < |m| ==> m[i].0 != m[j].0
  }

  /** `m.get(key)`: the list stored under `key`, `None` for `undefined`. */
  function Get(m: Entries, key: string): (r: Option<seq<string>>)
    ensures r.Some? <==> Has(m, key)
    decreases |m|
  {
    if m == [] then None
    else if m[0].0 == key then Some(m[0].1)
    else Get(m[1..], key)
  }

  /** `if (!m.has(key)) m.set(key, [])`. */
  function SetIfAbsent(m: Entries, key: string): Entries {
    if Has(m, key) then m else m + [(key, [])]
  }

  /** `m.get(key)!.push(v)`: the list under `key` grows by `v` in place. */
  function Push(m: Entries, key: string, v: string): (r: Entries)
    requires Has(m, key)
    ensures |r| == |m|
    decreases |m|
  {
    if m[0].0 == key then [(key, m[0].1 + [v])] + m[1..]
    else [m[0]] + Push(m[1..], key, v)
  }

  /** Sum of the lengths of all value lists. */
  function TotalValues(m: Entries): nat
    decreases |m|
  {
    if m == [] then 0 else |m[0].1| + TotalValues(m[1..])
  }

  /** Looking up a map with one more entry at the end. */
  lemma {:induction false} GetSnoc(m: Entries, e: Entry, key: string)
    ensures Get(m + [e], key) ==
      if Has(m, key) then Get(m, key) else if e.0 == key then Some(e.1) else None
    decreases |m|
  {
    if m != [] {
      assert (m + [e])[1..] == m[1..] + [e];
      GetSnoc(m[1..], e, key);
    }
  }

  lemma {:induction false} KeysSnoc(m: Entries, e: Entry)
    ensures Keys(m + [e]) == Keys(m) + [e.0]
    decreases |m|
  {
    if m != [] {
      assert (m + [e])[1..] == m[1..] + [e];
      KeysSnoc(m[1..], e);
    }
  }

  /** `has` after `set`: the key set grows by the new key (when it was absent) at the end. */
  lemma SetIfAbsentKeys(m: Entries, key: string)
    ensures Keys(SetIfAbsent(m, key)) == if Has(m, key) then Keys(m) else Keys(m) + [key]
    ensures Has(SetIfAbsent(m, key), key)
  {
    KeysSnoc(m, (key, []));
  }

  /** `get` after `set`: a fresh key holds the empty list, nothing else changes. */
  lemma SetIfAbsentGet(m: Entries, key: string, other: string)
    ensures Get(SetIfAbsent(m, key), other) ==
      if other == key && !Has(m, key) then Some([]) else Get(m, other)
  {
    if !Has(m, key) {
      GetSnoc(m, (key, []), other);
    }
  }

  /** `push` keeps the keys, in their order. */
  lemma {:induction false} PushKeys(m: Entries, key: string, v: string)
    requires Has(m, key)
    ensures Keys(Push(m, key, v)) == Keys(m)
    decreases |m|
  {
    if m[0].0 != key {
      PushKeys(m[1..], key, v);
    }
  }

  /** `push` appends `v` to the list under `key` and leaves every other list alone. */
  lemma {:induction false} PushGet(m: Entries, key: string, v: string, other: string)
    requires Has(m, key)
    ensures Get(Push(m, key, v), other) ==
      if other == key then Some(Get(m, key).value + [v]) else Get(m, other)
    decreases |m|
  {
    if m[0].0 != key {
      PushGet(m[1..], key, v, other);
    }
  }

  /** Pushing under the last key, absent from the entries before it, extends its list. */
  lemma {:induction false} PushLast(m: Entries, key: string, vs: seq<string>, v: string)
    requires !Has(m, key)
    ensures Has(m + [(key, vs)], key)
    ensures Push(m + [(key, vs)], key, v) == m + [(key, vs + [v])]
    decreases |m|
  {
    KeysSnoc(m, (key, vs));
    if m != [] {
      assert Keys(m) == [m[0].0] + Keys(m[1..]);
      assert (m + [(key, vs)])[1..] == m[1..] + [(key, vs)];
      PushLast(m[1..], key, vs, v);
    }
  }

  /** `push` adds exactly one value in all. */
  lemma {:induction false} PushTotal(m: Entries, key: string, v: string)
    requires Has(m, key)
    ensures TotalValues(Push(m, key, v)) == TotalValues(m) + 1
    decreases |m|
  {
    if m[0].0 != key {
      PushTotal(m[1..], key, v);
      assert Push(m, key, v)[1..] == Push(m[1..], key, v);
    } else {
      assert Push(m, key, v)[1..] == m[1..];
    }
  }

  /** Appending an entry adds the length of its list. */
  lemma {:induction false} TotalValuesSnoc(m: Entries, e: Entry)
    ensures TotalValues(m + [e]) == TotalValues(m) + |e.1|
    decreases |m|
  {
    if m != [] {
      assert (m + [e])[1..] == m[1..] + [e];
      TotalValuesSnoc(m[1..], e);
    }
  }
}
