/**
 * Grouped bookkeeping: a counter per group, and a set per group. A FlatGraph keeps several of these
 * beside its nodes (by tenant prefix and by type); each `...Match` predicate says such a map equals
 * a recount of the elements, and each lemma says what one in-place update does to the recount.
 */
module GroupedBooks {

  // Go map reads and writes: a missing counter reads as 0, and a set that empties is deleted.

  function Get<K>(c: map<K, int>, k: K): int {
    if k in c then c[k] else 0
  }

  function Bump<K>(c: map<K, int>, k: K, d: int): map<K, int> {
    c[k := Get(c, k) + d]
  }

  function Members<K, N>(m: map<K, set<N>>, k: K): set<N> {
    if k in m then m[k] else {}
  }

  function IndexAdd<K, N>(m: map<K, set<N>>, k: K, n: N): map<K, set<N>> {
    m[k := Members(m, k) + {n}]
  }

  function IndexDel<K, N>(m: map<K, set<N>>, k: K, n: N): map<K, set<N>> {
    if k !in m then m else if m[k] - {n} == {} then m - {k} else m[k := m[k] - {n}]
  }

  function Group<N, K(==)>(S: set<N>, key: N -> K, k: K): set<N> {
    set n | n in S && key(n) == k
  }

  ghost predicate CountersMatch<N, K(!new)>(S: set<N>, key: N -> K, c: map<K, int>) {
    forall k :: Get(c, k) == |Group(S, key, k)|
  }

  /** Every group is recorded, and no empty set is kept. */
  ghost predicate IndexMatch<N, K(!new)>(S: set<N>, key: N -> K, m: map<K, set<N>>) {
    && (forall k :: Members(m, k) == Group(S, key, k))
    && (forall k :: k in m ==> m[k] != {})
  }

  lemma CountAdd<N, K(!new)>(S: set<N>, key: N -> K, c: map<K, int>, n: N)
    requires n !in S && CountersMatch(S, key, c)
    ensures CountersMatch(S + {n}, key, Bump(c, key(n), 1))
  {
    hide Group;
    forall k
      ensures Get(Bump(c, key(n), 1), k) == |Group(S + {n}, key, k)|
    {
      assert Get(c, k) == |Group(S, key, k)|;
      GroupAdd(S, key, n, k);
    }
  }

  lemma GroupAdd<N, K>(S: set<N>, key: N -> K, n: N, k: K)
    requires n !in S
    ensures |Group(S + {n}, key, k)| == |Group(S, key, k)| + if k == key(n) then 1 else 0
  {
    if k == key(n) {
      assert Group(S + {n}, key, k) == Group(S, key, k) + {n};
    } else {
      assert Group(S + {n}, key, k) == Group(S, key, k);
    }
  }

  lemma CountDel<N, K(!new)>(S: set<N>, key: N -> K, c: map<K, int>, n: N)
    requires n in S && CountersMatch(S, key, c)
    ensures CountersMatch(S - {n}, key, Bump(c, key(n), -1))
  {
    forall k
      ensures Get(Bump(c, key(n), -1), k) == |Group(S - {n}, key, k)|
    {
      assert Get(c, k) == |Group(S, key, k)|;
      if k == key(n) {
        assert n in Group(S, key, k);
        assert Group(S - {n}, key, k) == Group(S, key, k) - {n};
      } else {
        assert Group(S - {n}, key, k) == Group(S, key, k);
      }
    }
  }

  lemma IndexAddMatch<N, K(!new)>(S: set<N>, key: N -> K, m: map<K, set<N>>, n: N)
    requires n !in S && IndexMatch(S, key, m)
    ensures IndexMatch(S + {n}, key, IndexAdd(m, key(n), n))
  {
    forall k
      ensures Members(IndexAdd(m, key(n), n), k) == Group(S + {n}, key, k)
    {
      assert Group(S + {n}, key, k) == Group(S, key, k) + (if k == key(n) then {n} else {});
      assert Members(m, k) == Group(S, key, k);
    }
  }

  lemma IndexDelMatch<N, K(!new)>(S: set<N>, key: N -> K, m: map<K, set<N>>, n: N)
    requires n in S && IndexMatch(S, key, m)
    ensures IndexMatch(S - {n}, key, IndexDel(m, key(n), n))
  {
    assert Members(m, key(n)) == Group(S, key, key(n));
    assert n in Group(S, key, key(n));
    forall k
      ensures Members(IndexDel(m, key(n), n), k) == Group(S - {n}, key, k)
    {
      assert Group(S - {n}, key, k) == Group(S, key, k) - (if k == key(n) then {n} else {});
      assert Members(m, k) == Group(S, key, k);
    }
  }

  lemma IndexRekey<N, K(!new)>(S: set<N>, key: N -> K, key': N -> K, m: map<K, set<N>>)
    requires IndexMatch(S, key, m)
    requires forall n :: n in S ==> key(n) == key'(n)
    ensures IndexMatch(S, key', m)
  {
    forall k
      ensures Members(m, k) == Group(S, key', k)
    {
      assert Group(S, key', k) == Group(S, key, k);
      assert Members(m, k) == Group(S, key, k);
    }
  }
}
