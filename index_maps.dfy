// The `indexmap` crate's `IndexMap` as the parsers and `main` use it: an
// insertion-ordered sequence of entries with distinct keys. `insert` on a
// present key replaces the value where the key already stands; `remove` is
// `swap_remove`, which moves the last entry into the vacated slot.
module IndexMaps {
  import opened Wrappers

  type IndexMap<K, V> = seq<(K, V)>

  function Keys<K, V>(m: IndexMap<K, V>): (ks: seq<K>)
    ensures |ks| == |m| && forall i :: 0 <= i < |m| ==> ks[i] == m[i].0
  {
    seq(|m|, i requires 0 <= i < |m| => m[i].0)
  }

  predicate UniqueKeys<K(==), V>(m: IndexMap<K, V>) {
    forall i, j :: 0 <= i < j < |m| ==> m[i].0 != m[j].0
  }

  /** The position of key `k` among `ks`, if it is there. */
  function FindKey<K(==,!new)>(ks: seq<K>, k: K): (r: Option<nat>)
    ensures r.Some? ==> r.value < |ks| && ks[r.value] == k
    ensures r.Some? ==> forall i :: 0 <= i < r.value ==> ks[i] != k
    ensures r.None? <==> k !in ks
    decreases |ks|
  {
    if ks == [] then None
    else if ks[0] == k then Some(0)
    else match FindKey(ks[1..], k)
      case None => None
      case Some(i) => Some(i + 1)
  }

  /** `IndexMap::get`. */
  function Get<K(==,!new), V>(m: IndexMap<K, V>, k: K): (r: Option<V>)
    ensures r.None? <==> k !in Keys(m)
  {
    match FindKey(Keys(m), k)
    case None => None
    case Some(i) => Some(m[i].1)
  }

  /** In a map with distinct keys, a lookup finds exactly the entry that holds the key. */
  lemma GetUnique<K(!new), V>(m: IndexMap<K, V>, i: nat)
    requires UniqueKeys(m) && i < |m|
    ensures Get(m, m[i].0) == Some(m[i].1)
  {
    var r := FindKey(Keys(m), m[i].0);
    assert Keys(m)[i] == m[i].0;
  }

  /** `IndexMap::insert`: a new key is appended; a present key keeps its position and takes the new value. */
  function Insert<K(==,!new), V>(m: IndexMap<K, V>, k: K, v: V): (r: IndexMap<K, V>)
    requires UniqueKeys(m)
    ensures UniqueKeys(r)
    ensures k in Keys(m) ==> Keys(r) == Keys(m)
    ensures k !in Keys(m) ==> Keys(r) == Keys(m) + [k]
    ensures Get(r, k) == Some(v)
    ensures forall k' :: k' != k ==> Get(r, k') == Get(m, k')
  {
    match FindKey(Keys(m), k)
    case Some(i) =>
      var r := m[i := (k, v)];
      assert Keys(r) == Keys(m);
      GetUnique(r, i);
      r
    case None =>
      var r := m + [(k, v)];
      assert Keys(r) == Keys(m) + [k];
      GetUnique(r, |m|);
      forall k' | k' != k
        ensures Get(r, k') == Get(m, k')
      {
        FindKeyAppend(Keys(m), k, k');
      }
      r
  }

  lemma {:induction false} FindKeyAppend<K(!new)>(ks: seq<K>, k: K, k': K)
    requires k' != k
    ensures FindKey(ks + [k], k') == FindKey(ks, k')
    decreases |ks|
  {
    if ks != [] {
      assert (ks + [k])[1..] == ks[1..] + [k];
      FindKeyAppend(ks[1..], k, k');
    }
  }

  /** `IndexMap::remove` (that is, `swap_remove`): the entry of `k` is replaced by the
      last entry and the map shrinks by one; the removed value is returned. */
  function SwapRemove<K(==,!new), V>(m: IndexMap<K, V>, k: K): (r: (IndexMap<K, V>, Option<V>))
    requires UniqueKeys(m)
    ensures r.1 == Get(m, k)
    ensures UniqueKeys(r.0)
    ensures k !in Keys(r.0)
    ensures forall k' :: k' != k ==> Get(r.0, k') == Get(m, k')
    ensures |r.0| == if r.1.Some? then |m| - 1 else |m|
  {
    match FindKey(Keys(m), k)
    case None => (m, None)
    case Some(i) =>
      var last := |m| - 1;
      var rest := m[i := m[last]][..last];
      forall a, b | 0 <= a < b < |rest|
        ensures rest[a].0 != rest[b].0
      {
      }
      forall k' | k' != k
        ensures Get(rest, k') == Get(m, k')
      {
        if k' in Keys(m) {
          var j := FindKey(Keys(m), k').value;
          var p := if j == last then i else j;
          assert rest[p] == m[j];
          GetUnique(rest, p);
          GetUnique(m, j);
        } else {
          assert forall a :: 0 <= a < |rest| ==> rest[a].0 in Keys(m) by {
            forall a | 0 <= a < |rest|
              ensures rest[a].0 in Keys(m)
            {
              var src := if a == i then last else a;
              assert rest[a].0 == Keys(m)[src];
            }
          }
        }
      }
      (rest, Some(m[i].1))
  }

  /** `zip`: pairs up the two sequences as far as the shorter one goes. */
  function Zip<K, V>(ks: seq<K>, vs: seq<V>): (r: seq<(K, V)>)
    ensures |r| == if |ks| <= |vs| then |ks| else |vs|
    ensures forall i :: 0 <= i < |r| ==> r[i] == (ks[i], vs[i])
  {
    var n := if |ks| <= |vs| then |ks| else |vs|;
    seq(n, i requires 0 <= i < n => (ks[i], vs[i]))
  }

  /** `collect::<IndexMap<_, _>>()`: each pair inserted in order, so a repeated key keeps its
      first position and its last value. */
  function FromPairs<K(==,!new), V>(ps: seq<(K, V)>): (r: IndexMap<K, V>)
    ensures UniqueKeys(r)
    decreases |ps|
  {
    if ps == [] then [] else Insert(FromPairs(ps[..|ps| - 1]), ps[|ps| - 1].0, ps[|ps| - 1].1)
  }

  /** Collecting pairs whose keys are already distinct keeps them as they are. */
  lemma {:induction false} FromDistinctPairs<K(!new), V>(ps: seq<(K, V)>)
    requires UniqueKeys(ps)
    ensures FromPairs(ps) == ps
    decreases |ps|
  {
    if ps != [] {
      var init := ps[..|ps| - 1];
      FromDistinctPairs(init);
      assert ps[|ps| - 1].0 !in Keys(init) by {
        forall i | 0 <= i < |init|
          ensures Keys(init)[i] != ps[|ps| - 1].0
        {
        }
      }
      assert init + [ps[|ps| - 1]] == ps;
    }
  }
}
