/**
 * Counting maps: the `m[k] += v` idiom of Go and Python, where a missing key
 * counts as zero and is created by the addition.
 */
module Tally {
  import opened Seqs

  /** The value of `k`, or 0 when absent (Go's zero value, Python's defaultdict(int)). */
  function Get<K>(m: map<K, int>, k: K): int {
    if k in m then m[k] else 0
  }

  /** `m[k] += v`. */
  function Add<K>(m: map<K, int>, k: K, v: int): (r: map<K, int>)
    ensures r.Keys == m.Keys + {k}
  {
    m[k := Get(m, k) + v]
  }

  /** Applies the additions in `cs` to `m`, in order. */
  function AddAll<K>(m: map<K, int>, cs: seq<(K, int)>): map<K, int> {
    if cs == [] then m else Add(AddAll(m, cs[..|cs| - 1]), cs[|cs| - 1].0, cs[|cs| - 1].1)
  }

  /** The total added to key `k` by `cs`. */
  function Total<K(==)>(cs: seq<(K, int)>, k: K): int {
    if cs == [] then 0
    else Total(cs[..|cs| - 1], k) + (if cs[|cs| - 1].0 == k then cs[|cs| - 1].1 else 0)
  }

  /** The keys that `cs` adds to. */
  function KeysOf<K>(cs: seq<(K, int)>): set<K> {
    set i | 0 <= i < |cs| :: cs[i].0
  }

  /** After the additions, every key holds its old value plus everything added to it. */
  lemma {:induction false} AddAllValue<K>(m: map<K, int>, cs: seq<(K, int)>, k: K)
    ensures Get(AddAll(m, cs), k) == Get(m, k) + Total(cs, k)
  {
    if cs != [] {
      AddAllValue(m, cs[..|cs| - 1], k);
    }
  }

  /** The additions create exactly the keys they name, and remove none. */
  lemma {:induction false} AddAllKeys<K>(m: map<K, int>, cs: seq<(K, int)>)
    ensures AddAll(m, cs).Keys == m.Keys + KeysOf(cs)
  {
    if cs != [] {
      var init := cs[..|cs| - 1];
      AddAllKeys(m, init);
      assert KeysOf(cs) == KeysOf(init) + {cs[|cs| - 1].0} by {
        forall x | x in KeysOf(cs) ensures x in KeysOf(init) + {cs[|cs| - 1].0} {
          var i :| 0 <= i < |cs| && cs[i].0 == x;
          if i < |cs| - 1 {
            assert init[i] == cs[i];
          }
        }
      }
    }
  }

  lemma AddAllSnoc<K>(m: map<K, int>, cs: seq<(K, int)>, c: (K, int))
    ensures AddAll(m, cs + [c]) == Add(AddAll(m, cs), c.0, c.1)
  {
    assert (cs + [c])[..|cs|] == cs;
  }
}
