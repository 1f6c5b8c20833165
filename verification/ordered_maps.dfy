/**
 An insertion-ordered map, as a Python `dict` behaves: entries in the order their
 keys were first inserted, assignment to an existing key replacing its value in place.
 */
module OrderedMaps {
  import opened Wrappers

  /** The keys of a sequence of entries, in order. */
  function Keys<K, V>(m: seq<(K, V)>): seq<K> {
    seq(|m|, i requires 0 <= i < |m| => m[i].0)
  }

  /** No key appears in two entries. */
  predicate UniqueKeys<K(==), V>(m: seq<(K, V)>) {
    forall i, j :: 0 <= i < j < |m| ==> m[i].0 != m[j].0
  }

  /** The position of the first `k` in `ks`, or `|ks|` when there is none. */
  function FirstIndex<K(==)>(ks: seq<K>, k: K): (r: nat)
    ensures r <= |ks|
    ensures r < |ks| <==> k in ks
    ensures r < |ks| ==> ks[r] == k
    ensures forall j :: 0 <= j < r ==> ks[j] != k
  {
    if |ks| == 0 then 0
    else if ks[0] == k then 0
    else 1 + FirstIndex(ks[1..], k)
  }

  /** `m[k]`: the value of the first entry with key `k`. */
  function Get<K(==), V>(m: seq<(K, V)>, k: K): (r: Option<V>)
    ensures r.Some? <==> k in Keys(m)
    ensures r.Some? ==> (k, r.value) in m
  {
    var i := FirstIndex(Keys(m), k);
    if i < |m| then Some(m[i].1) else None
  }

  /**
   `m[k] = v`: a key already present keeps its position and takes the new value;
   a new key is appended at the end.
   */
  function Put<K(==, !new), V>(m: seq<(K, V)>, k: K, v: V): (r: seq<(K, V)>)
    ensures Keys(r) == if k in Keys(m) then Keys(m) else Keys(m) + [k]
    ensures Get(r, k) == Some(v)
    ensures forall k' :: k' != k ==> Get(r, k') == Get(m, k')
    ensures UniqueKeys(m) ==> UniqueKeys(r)
    ensures forall e :: e in r ==> e in m || e == (k, v)
  {
    var i := FirstIndex(Keys(m), k);
    if i < |m| then
      var r := m[i := (k, v)];
      assert Keys(r) == Keys(m);
      r
    else
      var r := m + [(k, v)];
      assert Keys(r) == Keys(m) + [k];
      assert forall j :: 0 <= j < |m| ==> m[j].0 == Keys(m)[j] != k;
      assert forall k' :: k' in Keys(m) ==> FirstIndex(Keys(r), k') == FirstIndex(Keys(m), k') by {
        forall k' | k' in Keys(m) {
          FirstIndexAppend(Keys(m), k, k');
        }
      }
      r
  }

  /** The keys of `ps` are those of all but its last entry, then the last entry's key. */
  lemma KeysSnoc<K, V>(ps: seq<(K, V)>)
    requires |ps| > 0
    ensures Keys(ps) == Keys(ps[..|ps| - 1]) + [ps[|ps| - 1].0]
  {
  }

  /** Inserting the entries of `ps` one after another into an empty map. */
  function Build<K(==, !new), V>(ps: seq<(K, V)>): seq<(K, V)> {
    if |ps| == 0 then []
    else Put(Build(ps[..|ps| - 1]), ps[|ps| - 1].0, ps[|ps| - 1].1)
  }

  /** No later entry of `ps` has the same key as entry `i`. */
  predicate IsLastOccurrence<K(==), V>(ps: seq<(K, V)>, i: nat)
    requires i < |ps|
  {
    forall j :: i < j < |ps| ==> ps[j].0 != ps[i].0
  }

  /** The built map has unique keys, and exactly the keys that occur in `ps`. */
  lemma {:induction false} BuildKeys<K(!new), V>(ps: seq<(K, V)>)
    ensures forall k :: k in Keys(Build(ps)) <==> k in Keys(ps)
    ensures UniqueKeys(Build(ps))
  {
    if |ps| > 0 {
      var p := ps[..|ps| - 1];
      BuildKeys(p);
      KeysSnoc(ps);
    }
  }

  /** Every entry of the built map is one of the inserted pairs. */
  lemma {:induction false} BuildEntries<K(!new), V>(ps: seq<(K, V)>)
    ensures forall e :: e in Build(ps) ==> e in ps
  {
    if |ps| > 0 {
      var p := ps[..|ps| - 1];
      BuildEntries(p);
      assert ps == p + [ps[|ps| - 1]];
    }
  }

  /** Each key holds the value of its last occurrence in `ps`. */
  lemma {:induction false} BuildLastWins<K(!new), V>(ps: seq<(K, V)>)
    ensures forall i :: 0 <= i < |ps| && IsLastOccurrence(ps, i) ==> Get(Build(ps), ps[i].0) == Some(ps[i].1)
  {
    if |ps| > 0 {
      var n := |ps| - 1;
      var p := ps[..n];
      var m, k, v := Build(p), ps[n].0, ps[n].1;
      BuildLastWins(p);
      assert Build(ps) == Put(m, k, v);
      forall i | 0 <= i < |ps| && IsLastOccurrence(ps, i)
        ensures Get(Put(m, k, v), ps[i].0) == Some(ps[i].1)
      {
        if i < n {
          assert ps[i].0 != k;
          assert ps[i] == p[i];
          assert IsLastOccurrence(p, i);
        }
      }
    }
  }

  lemma {:induction false} FirstIndexAppend<K>(ks: seq<K>, x: K, k: K)
    requires k in ks
    ensures FirstIndex(ks + [x], k) == FirstIndex(ks, k)
  {
    var r := FirstIndex(ks, k);
    var r' := FirstIndex(ks + [x], k);
    assert (ks + [x])[r] == k;
    if r' < r {
      assert ks[r'] == (ks + [x])[r'];
    }
  }

  /** The keys of `m` all occur in `ks`, and in the order of their first occurrence there. */
  predicate OrderedBy<K(==)>(m: seq<K>, ks: seq<K>) {
    && (forall a :: 0 <= a < |m| ==> m[a] in ks)
    && (forall a, b :: 0 <= a < b < |m| ==> FirstIndex(ks, m[a]) < FirstIndex(ks, m[b]))
  }

  /** One `Put` of the next key keeps the built map in first-occurrence order. */
  lemma {:induction false} PutKeepsOrder<K(!new), V>(m: seq<(K, V)>, ks: seq<K>, k: K, v: V)
    requires OrderedBy(Keys(m), ks)
    requires forall x :: x in Keys(m) <==> x in ks
    ensures OrderedBy(Keys(Put(m, k, v)), ks + [k])
  {
    var r := Keys(Put(m, k, v));
    var old_ := Keys(m);
    if k in old_ {
      assert r == old_;
      assert k in ks;
      forall a | 0 <= a < |r|
        ensures r[a] in ks + [k]
        ensures FirstIndex(ks + [k], r[a]) == FirstIndex(ks, r[a])
      {
        FirstIndexAppend(ks, k, r[a]);
      }
    } else {
      assert r == old_ + [k];
      assert k !in ks;
      assert FirstIndex(ks + [k], k) == |ks|;
      forall a | 0 <= a < |old_|
        ensures r[a] in ks + [k]
        ensures FirstIndex(ks + [k], r[a]) == FirstIndex(ks, old_[a]) < |ks|
      {
        FirstIndexAppend(ks, k, old_[a]);
      }
    }
  }

  /** Entries appear in the order in which their keys first occur in `ps`. */
  lemma {:induction false} BuildFirstOrder<K(!new), V>(ps: seq<(K, V)>)
    ensures OrderedBy(Keys(Build(ps)), Keys(ps))
  {
    if |ps| > 0 {
      var n := |ps| - 1;
      var p := ps[..n];
      var m, k, v := Build(p), ps[n].0, ps[n].1;
      BuildFirstOrder(p);
      BuildKeys(p);
      PutKeepsOrder(m, Keys(p), k, v);
      assert Build(ps) == Put(m, k, v);
      KeysSnoc(ps);
    }
  }
}
