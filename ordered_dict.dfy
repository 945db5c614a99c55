/** A Python `dict` as the callback uses it: its (key, value) pairs in
    insertion order. Assigning to a new key appends it; assigning to a key
    already present replaces its value where it stands; `update` assigns
    each pair of its argument in that argument's order. */
module OrderedDict {

  import opened Wrappers

  type Dict<K, V> = seq<(K, V)>

  predicate Distinct<T(==)>(s: seq<T>) {
    forall i, j :: 0 <= i < j < |s| ==> s[i] != s[j]
  }

  /** The keys, in insertion order (`d.keys()`). */
  function Keys<K, V>(d: Dict<K, V>): (ks: seq<K>)
    ensures |ks| == |d|
    ensures forall i :: 0 <= i < |d| ==> ks[i] == d[i].0
  {
    if d == [] then [] else [d[0].0] + Keys(d[1..])
  }

  /** The keys are determined position by position. */
  lemma KeysAre<K, V>(d: Dict<K, V>, ks: seq<K>)
    requires |d| == |ks| && forall i :: 0 <= i < |d| ==> d[i].0 == ks[i]
    ensures Keys(d) == ks
  {
  }

  lemma KeysAppend<K, V>(a: Dict<K, V>, b: Dict<K, V>)
    ensures Keys(a + b) == Keys(a) + Keys(b)
  {
    KeysAre(a + b, Keys(a) + Keys(b));
  }

  /** A dict never holds a key twice. */
  predicate Wf<K(==), V>(d: Dict<K, V>) {
    Distinct(Keys(d))
  }

  /** `d.get(k)`: the value of the first pair with key `k`. */
  function Get<K(==), V>(d: Dict<K, V>, k: K): (r: Option<V>)
    ensures r.Some? <==> k in Keys(d)
    ensures r.Some? ==> (k, r.value) in d
  {
    if d == [] then None
    else if d[0].0 == k then Some(d[0].1)
    else Get(d[1..], k)
  }

  /** `d[k] = v`. */
  function Set<K(==), V>(d: Dict<K, V>, k: K, v: V): (r: Dict<K, V>)
    ensures Keys(r) == if k in Keys(d) then Keys(d) else Keys(d) + [k]
  {
    if d == [] then [(k, v)]
    else if d[0].0 == k then [(k, v)] + d[1..]
    else [d[0]] + Set(d[1..], k, v)
  }

  /** After `d[k] = v`, `k` maps to `v` and every other key to what it did. */
  lemma {:induction false} SetGet<K, V>(d: Dict<K, V>, k: K, v: V, k': K)
    ensures Get(Set(d, k, v), k') == if k' == k then Some(v) else Get(d, k')
  {
    if d != [] && d[0].0 != k {
      assert Set(d, k, v)[1..] == Set(d[1..], k, v);
      SetGet(d[1..], k, v, k');
    }
  }

  /** Assigning a key the dict does not hold appends the pair at the end. */
  lemma {:induction false} SetAppends<K, V>(d: Dict<K, V>, k: K, v: V)
    requires k !in Keys(d)
    ensures Set(d, k, v) == d + [(k, v)]
  {
    if d != [] {
      assert k !in Keys(d[1..]);
      SetAppends(d[1..], k, v);
    }
  }

  /** Assignment keeps the keys distinct. */
  lemma SetWf<K, V>(d: Dict<K, V>, k: K, v: V)
    requires Wf(d)
    ensures Wf(Set(d, k, v))
  {
    var ks := Keys(d);
    if k !in ks {
      var ks' := ks + [k];
      forall i, j | 0 <= i < j < |ks'| ensures ks'[i] != ks'[j] {
        if j == |ks| {
          assert ks'[i] == ks[i];
        } else {
          assert ks'[i] == ks[i] && ks'[j] == ks[j];
        }
      }
    }
  }

  /** `d.update(e)`. */
  function Update<K(==), V>(d: Dict<K, V>, e: Dict<K, V>): (r: Dict<K, V>)
    decreases |e|
  {
    if e == [] then d else Update(Set(d, e[0].0, e[0].1), e[1..])
  }

  /** Regrouping a concatenation around one element. */
  lemma AppendRegroup<T>(a: seq<T>, x: T, b: seq<T>, c: seq<T>)
    requires c == [x] + b
    ensures (a + [x]) + b == a + c
  {
  }

  /** The names of `ks` that are not in `seen`, each at its first place
      in `ks`. */
  function Fresh<K(==)>(ks: seq<K>, seen: seq<K>): seq<K> {
    if ks == [] then []
    else if ks[0] in seen then Fresh(ks[1..], seen)
    else [ks[0]] + Fresh(ks[1..], seen + [ks[0]])
  }

  /** `update` keeps the keys distinct and the old keys in their places,
      and appends the keys of its argument that are new, in the
      argument's order. */
  lemma {:induction false} UpdateKeys<K, V>(d: Dict<K, V>, e: Dict<K, V>)
    ensures Keys(Update(d, e)) == Keys(d) + Fresh(Keys(e), Keys(d))
    ensures forall k :: k in Keys(Update(d, e)) <==> k in Keys(d) || k in Keys(e)
    ensures Keys(d) <= Keys(Update(d, e))
    ensures Wf(d) ==> Wf(Update(d, e))
    decreases |e|
  {
    if e != [] {
      var d' := Set(d, e[0].0, e[0].1);
      assert Keys(e) == [e[0].0] + Keys(e[1..]);
      UpdateKeys(d', e[1..]);
      if Wf(d) { SetWf(d, e[0].0, e[0].1); }
    }
    UpdateFresh(d, e);
  }

  /** `Fresh` on a list with a first name: that name is kept unless
      already seen. */
  lemma FreshCons<K>(k: K, ks: seq<K>, seen: seq<K>)
    ensures Fresh([k] + ks, seen) == if k in seen then Fresh(ks, seen) else [k] + Fresh(ks, seen + [k])
  {
    assert ([k] + ks)[1..] == ks;
  }

  /** The order half of `UpdateKeys`. */
  lemma {:induction false} UpdateFresh<K, V>(d: Dict<K, V>, e: Dict<K, V>)
    ensures Keys(Update(d, e)) == Keys(d) + Fresh(Keys(e), Keys(d))
    decreases |e|
  {
    if e != [] {
      var ks := Keys(d);
      var k0, rest := e[0].0, e[1..];
      var d' := Set(d, k0, e[0].1);
      assert Update(d, e) == Update(d', rest);
      UpdateFresh(d', rest);
      assert Keys(e) == [k0] + Keys(rest);
      FreshCons(k0, Keys(rest), ks);
      if k0 !in ks {
        var tail := Fresh(Keys(rest), ks + [k0]);
        AppendRegroup(ks, k0, tail, [k0] + tail);
      }
    }
  }

  /** After `d.update(e)`, the values of `e` win on shared keys; the
      other keys keep the values they had in `d`. */
  lemma {:induction false} UpdateGet<K, V>(d: Dict<K, V>, e: Dict<K, V>, k: K)
    requires Wf(e)
    ensures Get(Update(d, e), k) == if k in Keys(e) then Get(e, k) else Get(d, k)
    decreases |e|
  {
    if e != [] {
      var d' := Set(d, e[0].0, e[0].1);
      assert Keys(e) == [e[0].0] + Keys(e[1..]);
      UpdateGet(d', e[1..], k);
      SetGet(d, e[0].0, e[0].1, k);
    }
  }

  /** Dropping the first pair keeps the keys distinct, and the dropped key
      is not among the rest. */
  lemma WfTail<K, V>(e: Dict<K, V>)
    requires Wf(e) && e != []
    ensures Wf(e[1..]) && e[0].0 !in Keys(e[1..])
  {
    var rest := e[1..];
    assert Keys(e) == [e[0].0] + Keys(rest);
  }

  /** When `e` shares no key with `d`, `d.update(e)` is `d` followed by `e`. */
  lemma {:induction false} UpdateDisjoint<K, V>(d: Dict<K, V>, e: Dict<K, V>)
    requires Wf(e)
    requires forall k :: k in Keys(e) ==> k !in Keys(d)
    ensures Update(d, e) == d + e
    decreases |e|
  {
    if e != [] {
      var k0, v0 := e[0].0, e[0].1;
      var rest := e[1..];
      WfTail(e);
      SetAppends(d, k0, v0);
      var d' := d + [(k0, v0)];
      assert Update(d, e) == Update(d', rest);
      assert Keys(d') == Keys(d) + [k0];
      assert Keys(e) == [k0] + Keys(rest);
      forall k | k in Keys(rest) ensures k !in Keys(d') {
        assert k in Keys(e);
      }
      UpdateDisjoint(d', rest);
      assert e == [(k0, v0)] + rest;
      AppendRegroup(d, (k0, v0), rest, e);
    }
  }

  /** Assigning a key twice leaves the second value (`d[k] = v` followed
      by an in-place change of `d[k]`). */
  lemma {:induction false} SetTwice<K, V>(d: Dict<K, V>, k: K, v: V, w: V)
    ensures Set(Set(d, k, v), k, w) == Set(d, k, w)
  {
    if d != [] && d[0].0 != k {
      SetTwice(d[1..], k, v, w);
    }
  }
}
