/** JavaScript records keyed by item id: a map together with its insertion order. */
module Records {
  import opened Seqs

  datatype Record<V> = Record(keys: seq<string>, at: map<string, V>) {
    ghost predicate Valid() {
      NoDup(keys) && forall k :: k in keys <==> k in at
    }

    predicate Has(key: string) {
      key in at
    }

    function Get(key: string): Option<V> {
      if key in at then Some(at[key]) else None
    }

    /** `record[key] = value`: an existing key keeps its place, a new one goes last. */
    function Put(key: string, value: V): Record<V> {
      Record(if key in at then keys else keys + [key], at[key := value])
    }

    /** `delete record[key]`. */
    function Drop(key: string): Record<V> {
      Record(Filter(keys, k => k != key), map k | k in at && k != key :: at[k])
    }
  }

  function Empty<V>(): Record<V> {
    Record([], map[])
  }

  lemma PutValid<V>(r: Record<V>, key: string, value: V)
    requires r.Valid()
    ensures r.Put(key, value).Valid()
  {}

  lemma DropValid<V>(r: Record<V>, key: string)
    requires r.Valid()
    ensures r.Drop(key).Valid()
  {
    FilterNoDup(r.keys, k => k != key);
    FilterIn(r.keys, k => k != key);
  }

  lemma PutSame<V>(r: Record<V>, key: string)
    requires r.Has(key)
    ensures r.Put(key, r.at[key]) == r
  {
    assert r.at[key := r.at[key]] == r.at;
  }

  /** Neither update disturbs the order of the keys that a filter keeps. */
  lemma PutDropKeys<V>(r: Record<V>, key: string, value: V, keep: string -> bool)
    requires !keep(key)
    ensures Filter(r.Put(key, value).keys, keep) == Filter(r.keys, keep)
    ensures Filter(r.Drop(key).keys, keep) == Filter(r.keys, keep)
  {
    FilterSnoc(r.keys, key, keep);
    FilterTwice(r.keys, k => k != key, keep, keep);
  }
}
