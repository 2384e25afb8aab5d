/** A JavaScript `Map`: lookups by key plus the insertion order that iteration follows.
    `set` on a key already present keeps that key's place. */
module JsMaps {
  import opened Prelude

  datatype JsMap<K(!new), V> = JsMap(keys: seq<K>, vals: map<K, V>) {
    ghost predicate Valid() {
      && Distinct(keys)
      && (forall k :: k in keys <==> k in vals)
    }

    predicate Has(k: K) { k in vals }

    function Set(k: K, v: V): (r: JsMap<K, V>)
      requires Valid()
      ensures r.Valid()
    {
      if k in vals then JsMap(keys, vals[k := v]) else JsMap(keys + [k], vals[k := v])
    }

    /** `Array.from(m.values())` */
    function Values(): (r: seq<V>)
      requires Valid()
      ensures |r| == |keys|
      ensures forall i :: 0 <= i < |keys| ==> r[i] == vals[keys[i]]
    {
      assert forall i :: 0 <= i < |keys| ==> keys[i] in vals;
      seq(|keys|, i requires 0 <= i < |keys| => vals[keys[i]])
    }
  }

  function Empty<K(!new), V>(): (m: JsMap<K, V>)
    ensures m.Valid()
  {
    JsMap([], map[])
  }

  lemma ValuesOfNewKey<K(!new), V>(m: JsMap<K, V>, k: K, v: V)
    requires m.Valid() && k !in m.vals
    ensures m.Set(k, v).Values() == m.Values() + [v]
  {
    var r := m.Set(k, v);
    forall i | 0 <= i < |r.keys| ensures r.Values()[i] == (m.Values() + [v])[i] {
      if i < |m.keys| {
        assert r.keys[i] == m.keys[i] && m.keys[i] in m.keys;
      }
    }
  }

  /** The map a loop of "set unless already there" builds from `list`. */
  ghost predicate HoldsFirsts<K(!new), V(!new)>(m: JsMap<K, V>, list: seq<V>, key: V -> K) {
    m.Valid() && m.Values() == FirstBy(list, key) && m.keys == Map(FirstBy(list, key), key)
  }

  lemma SetUnlessThere<K(!new), V(!new)>(m: JsMap<K, V>, list: seq<V>, key: V -> K, x: V)
    requires HoldsFirsts(m, list, key)
    ensures HoldsFirsts(if m.Has(key(x)) then m else m.Set(key(x), x), list + [x], key)
  {
    assert (list + [x])[..|list|] == list;
    var firsts := FirstBy(list, key);
    if m.Has(key(x)) {
      assert key(x) in m.keys;
      var i :| 0 <= i < |m.keys| && m.keys[i] == key(x);
      assert key(firsts[i]) == key(x);
    } else {
      forall i | 0 <= i < |firsts| ensures key(firsts[i]) != key(x) {
        assert m.keys[i] in m.keys;
      }
      ValuesOfNewKey(m, key(x), x);
      assert Map(firsts + [x], key) == Map(firsts, key) + [key(x)];
    }
  }

  // ---- tables of rows, keyed by unique strings ----

  lemma UpsertRow<K, V>(table: map<K, V>, added: map<K, V>, k: K, v: V)
    ensures (table + added)[k := v] == table + added[k := v]
    ensures added[k := v].Keys == added.Keys + {k}
  {
  }

  lemma UpsertRows<K, V>(table: map<K, V>, a: map<K, V>, b: map<K, V>)
    ensures (table + a) + b == table + (a + b)
    ensures (a + b).Keys == a.Keys + b.Keys
  {
  }

  /** Dropping every key outside `keep`. */
  function Restrict<K, V>(table: map<K, V>, keep: set<K>): map<K, V> {
    map k | k in table && k in keep :: table[k]
  }

  /** Once the new rows are upserted, evicting every other key leaves exactly the new rows. */
  lemma EvictOthers<K, V>(table: map<K, V>, added: map<K, V>)
    ensures Restrict(table + added, added.Keys) == added
  {
  }

  /** Deletes, one by one, the rows whose key is no longer current. */
  method EvictStale<V>(table: map<string, V>, currentKeys: set<string>) returns (rows: map<string, V>)
    ensures rows == Restrict(table, currentKeys)
  {
    rows := table;
    var pending := table.Keys;
    while pending != {}
      invariant pending <= rows.Keys <= table.Keys
      invariant forall k :: k in table ==> (k in rows <==> k in pending || k in currentKeys)
      invariant forall k :: k in rows ==> rows[k] == table[k]
      decreases |pending|
    {
      var key :| key in pending;
      if key !in currentKeys {
        rows := rows - {key};
      }
      pending := pending - {key};
    }
  }
}
