/** Java maps as association lists.

    A Java `Map` (the `HashMap` the converter fills, the `LinkedHashMap` behind a
    JSON object builder) is modelled as the sequence of its entries in iteration
    order. `Put` has the semantics of `Map.put`: it replaces the value of an
    existing key in place and appends a new key at the end. */
module AssocLists {
  import opened Results

  datatype Pair<K, V> = Pair(key: K, value: V)

  /** The keys of `ps`, in iteration order. */
  function Keys<K, V>(ps: seq<Pair<K, V>>): (ks: seq<K>)
    ensures |ks| == |ps|
    ensures forall i :: 0 <= i < |ps| ==> ks[i] == ps[i].key
  {
    if ps == [] then [] else [ps[0].key] + Keys(ps[1..])
  }

  /** Appending an entry appends its key. */
  lemma KeysSnoc<K, V>(ps: seq<Pair<K, V>>, p: Pair<K, V>)
    ensures Keys(ps + [p]) == Keys(ps) + [p.key]
  {
  }

  /** A non-empty sequence is its prefix followed by its last element. */
  lemma SplitLast<T>(s: seq<T>)
    requires |s| > 0
    ensures s == s[..|s| - 1] + [s[|s| - 1]]
  {
  }

  /** No key occurs twice: the invariant every Java map keeps. */
  predicate UniqueKeys<K(==), V>(ps: seq<Pair<K, V>>)
  {
    forall i, j :: 0 <= i < j < |ps| ==> ps[i].key != ps[j].key
  }

  /** The position of the first entry for `k`, or -1 if there is none. */
  function Find<K(==), V>(ps: seq<Pair<K, V>>, k: K): (i: int)
    ensures -1 <= i < |ps|
    ensures i == -1 <==> k !in Keys(ps)
    ensures 0 <= i ==> ps[i].key == k && forall j :: 0 <= j < i ==> ps[j].key != k
  {
    if ps == [] then -1
    else if ps[0].key == k then 0
    else
      var i := Find(ps[1..], k);
      assert Keys(ps) == [ps[0].key] + Keys(ps[1..]);
      if i < 0 then -1 else i + 1
  }

  /** Two entry lists with the same keys find every key at the same place. */
  lemma {:induction false} FindByKeys<K, V>(a: seq<Pair<K, V>>, b: seq<Pair<K, V>>, k: K)
    requires Keys(a) == Keys(b)
    ensures Find(a, k) == Find(b, k)
  {
    if a != [] {
      assert Keys(a) == [a[0].key] + Keys(a[1..]);
      assert Keys(b) == [b[0].key] + Keys(b[1..]);
      assert Keys(a)[1..] == Keys(a[1..]) && Keys(b)[1..] == Keys(b[1..]);
      FindByKeys(a[1..], b[1..], k);
    }
  }

  /** `Map.get`, with `None` for a missing key. */
  function Lookup<K(==), V>(ps: seq<Pair<K, V>>, k: K): (r: Option<V>)
    ensures r.None? <==> k !in Keys(ps)
    ensures r.Some? ==> Pair(k, r.value) in ps
  {
    var i := Find(ps, k);
    if i < 0 then None else Some(ps[i].value)
  }

  /** `Map.put`: replace in place, or append a new entry. */
  function Put<K(==), V>(ps: seq<Pair<K, V>>, k: K, v: V): (r: seq<Pair<K, V>>)
    ensures Keys(r) == if k in Keys(ps) then Keys(ps) else Keys(ps) + [k]
    ensures k !in Keys(ps) ==> r == ps + [Pair(k, v)]
  {
    var i := Find(ps, k);
    if i < 0 then
      KeysSnoc(ps, Pair(k, v));
      ps + [Pair(k, v)]
    else
      var r := ps[i := Pair(k, v)];
      assert Keys(r) == Keys(ps) by {
        forall j | 0 <= j < |r| ensures Keys(r)[j] == Keys(ps)[j] {
        }
      }
      r
  }

  /** After a put, the key maps to the new value and every other key maps to
      what it mapped to before. */
  lemma PutLookup<K, V>(ps: seq<Pair<K, V>>, k: K, v: V, k': K)
    ensures Lookup(Put(ps, k, v), k') == if k' == k then Some(v) else Lookup(ps, k')
  {
    var r := Put(ps, k, v);
    if k !in Keys(ps) {
      FindSnoc(ps, Pair(k, v), k');
    } else {
      FindByKeys(r, ps, k');
    }
  }

  /** Where a key is found once an entry is appended. */
  lemma {:induction false} FindSnoc<K, V>(ps: seq<Pair<K, V>>, p: Pair<K, V>, k: K)
    ensures Find(ps + [p], k) == if k in Keys(ps) then Find(ps, k) else if p.key == k then |ps| else -1
  {
    if ps != [] {
      assert (ps + [p])[1..] == ps[1..] + [p];
      assert Keys(ps) == [ps[0].key] + Keys(ps[1..]);
      FindSnoc(ps[1..], p, k);
    }
  }

  /** A put keeps keys unique. */
  lemma PutKeepsKeysUnique<K, V>(ps: seq<Pair<K, V>>, k: K, v: V)
    requires UniqueKeys(ps)
    ensures UniqueKeys(Put(ps, k, v))
  {
    var r := Put(ps, k, v);
    forall i, j | 0 <= i < j < |r|
      ensures r[i].key != r[j].key
    {
      assert Keys(r)[i] == r[i].key && Keys(r)[j] == r[j].key;
      if k !in Keys(ps) && j == |ps| {
        assert Keys(ps)[i] == ps[i].key;
      } else {
        assert Keys(ps)[i] == ps[i].key && Keys(ps)[j] == ps[j].key;
      }
    }
  }

  /** `Map.putAll`: put every entry of `qs` into `ps`, in order. */
  function PutAll<K(==), V>(ps: seq<Pair<K, V>>, qs: seq<Pair<K, V>>): (r: seq<Pair<K, V>>)
    ensures UniqueKeys(ps) ==> UniqueKeys(r)
  {
    if qs == [] then ps
    else
      var last := qs[|qs| - 1];
      var prev := PutAll(ps, qs[..|qs| - 1]);
      if UniqueKeys(ps) then PutKeepsKeysUnique(prev, last.key, last.value); Put(prev, last.key, last.value)
      else Put(prev, last.key, last.value)
  }

  /** After `putAll`, a key of `qs` maps to the value of its last entry in
      `qs`, and any other key maps to what it mapped to before. */
  lemma {:induction false} PutAllLookup<K, V>(ps: seq<Pair<K, V>>, qs: seq<Pair<K, V>>, k: K)
    ensures Lookup(PutAll(ps, qs), k) == if k in Keys(qs) then LastValue(qs, k) else Lookup(ps, k)
  {
    if qs != [] {
      var init := qs[..|qs| - 1];
      var last := qs[|qs| - 1];
      assert qs == init + [last];
      KeysSnoc(init, last);
      PutAllLookup(ps, init, k);
      PutLookup(PutAll(ps, init), last.key, last.value, k);
    }
  }

  /** The value that the last entry for `k` in `qs` carries: what a sequence of
      puts leaves behind. */
  function LastValue<K(==), V>(qs: seq<Pair<K, V>>, k: K): (r: Option<V>)
    ensures r.None? <==> k !in Keys(qs)
    ensures r.Some? ==> Pair(k, r.value) in qs
  {
    if qs == [] then None
    else if qs[|qs| - 1].key == k then Some(qs[|qs| - 1].value)
    else
      var init := qs[..|qs| - 1];
      KeysSnoc(init, qs[|qs| - 1]);
      assert qs == init + [qs[|qs| - 1]];
      LastValue(init, k)
  }

  /** Putting entries with distinct keys into an empty map gives exactly those
      entries, in order. */
  lemma {:induction false} PutAllIntoEmpty<K, V>(qs: seq<Pair<K, V>>)
    requires UniqueKeys(qs)
    ensures PutAll([], qs) == qs
  {
    if qs != [] {
      var init := qs[..|qs| - 1];
      var last := qs[|qs| - 1];
      assert UniqueKeys(init);
      PutAllIntoEmpty(init);
      assert last.key !in Keys(init) by {
        forall j | 0 <= j < |init| ensures Keys(init)[j] != last.key {
          assert init[j] == qs[j];
        }
      }
      SplitLast(qs);
    }
  }

  /** With distinct keys, the last entry for a key is its only entry. */
  lemma {:induction false} LastValueUnique<K, V>(qs: seq<Pair<K, V>>, k: K)
    requires UniqueKeys(qs)
    ensures LastValue(qs, k) == Lookup(qs, k)
  {
    if qs != [] {
      var init := qs[..|qs| - 1];
      var last := qs[|qs| - 1];
      SplitLast(qs);
      KeysSnoc(init, last);
      FindSnoc(init, last, k);
      assert UniqueKeys(init);
      if last.key != k {
        LastValueUnique(init, k);
      } else {
        assert k !in Keys(init) by {
          forall j | 0 <= j < |init| ensures Keys(init)[j] != k {
            assert init[j] == qs[j];
          }
        }
      }
    }
  }
}
