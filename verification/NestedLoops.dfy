/** Maps filled by two nested loops: for each key the last turn that writes it wins. */
module NestedLoops {

  /** Turn (p, q) comes before turn (i, j). */
  predicate Before(p: int, q: int, i: int, j: int) {
    p < i || (p == i && q < j)
  }

  /** Turns have natural indices. */
  ghost predicate Indexed<K(!new)>(gives: (int, int, K) -> bool) {
    forall p, q, k :: gives(p, q, k) ==> 0 <= p && 0 <= q
  }

  /** (p, q) is the last turn before (i, j) that gives k. */
  ghost predicate IsLastBefore<K(!new)>(gives: (int, int, K) -> bool, k: K, i: int, j: int, p: int, q: int) {
    && Before(p, q, i, j) && gives(p, q, k)
    && forall s, t :: Before(s, t, i, j) && gives(s, t, k) ==> !Before(p, q, s, t)
  }

  /** What the map holds before turn (i, j). */
  ghost predicate Holds<K(!new), V(!new)>(m: map<K, V>, gives: (int, int, K) -> bool, value: (int, int) -> V, i: int, j: int) {
    && (forall k :: k in m <==> exists p, q :: Before(p, q, i, j) && gives(p, q, k))
    && (forall k, p, q :: IsLastBefore(gives, k, i, j, p, q) ==> k in m && m[k] == value(p, q))
  }

  lemma HoldsFirst<K(!new), V(!new)>(gives: (int, int, K) -> bool, value: (int, int) -> V)
    requires Indexed(gives)
    ensures Holds(map[], gives, value, 0, 0)
  {
  }

  /** m' is m with what turn (i, j) gives. */
  ghost predicate TurnTaken<K(!new), V(!new)>(
    m: map<K, V>, m': map<K, V>, gives: (int, int, K) -> bool, value: (int, int) -> V, i: int, j: int)
  {
    && (forall k :: k in m' <==> k in m || gives(i, j, k))
    && (forall k :: gives(i, j, k) ==> k in m' && m'[k] == value(i, j))
    && (forall k :: k in m && !gives(i, j, k) ==> k in m' && m'[k] == m[k])
  }

  lemma HoldsNext<K(!new), V(!new)>(
    m: map<K, V>, m': map<K, V>, gives: (int, int, K) -> bool, value: (int, int) -> V, i: int, j: int)
    requires Holds(m, gives, value, i, j) && TurnTaken(m, m', gives, value, i, j)
    ensures Holds(m', gives, value, i, j + 1)
  {
    forall k ensures k in m' <==> exists p, q :: Before(p, q, i, j + 1) && gives(p, q, k) {
      if gives(i, j, k) {
        assert Before(i, j, i, j + 1);
      } else if k in m {
        var p, q :| Before(p, q, i, j) && gives(p, q, k);
        assert Before(p, q, i, j + 1);
      }
    }
    forall k, p, q | IsLastBefore(gives, k, i, j + 1, p, q) ensures k in m' && m'[k] == value(p, q) {
      if gives(i, j, k) {
        assert Before(i, j, i, j + 1);
        assert p == i && q == j;
      } else {
        assert IsLastBefore(gives, k, i, j, p, q);
      }
    }
  }

  lemma HoldsNextRow<K(!new), V(!new)>(m: map<K, V>, gives: (int, int, K) -> bool, value: (int, int) -> V, i: int, n: int)
    requires Indexed(gives) && Holds(m, gives, value, i, n)
    requires forall q, k :: gives(i, q, k) ==> q < n
    ensures Holds(m, gives, value, i + 1, 0)
  {
    forall k, p, q | gives(p, q, k) ensures Before(p, q, i, n) <==> Before(p, q, i + 1, 0) {
    }
    forall k, p, q | IsLastBefore(gives, k, i + 1, 0, p, q) ensures IsLastBefore(gives, k, i, n, p, q) {
    }
  }

  /** (p, q) is the last turn of all that gives k. */
  ghost predicate IsLastTurn<K(!new)>(gives: (int, int, K) -> bool, k: K, p: int, q: int) {
    gives(p, q, k) && forall s, t :: gives(s, t, k) ==> s < p || (s == p && t <= q)
  }

  lemma HoldsAll<K(!new), V(!new)>(m: map<K, V>, gives: (int, int, K) -> bool, value: (int, int) -> V, n: int)
    requires Holds(m, gives, value, n, 0)
    requires forall p, q, k :: gives(p, q, k) ==> p < n
    ensures forall k :: k in m <==> exists p, q :: gives(p, q, k)
    ensures forall k, p, q :: IsLastTurn(gives, k, p, q) ==> k in m && m[k] == value(p, q)
  {
    forall k ensures k in m <==> exists p, q :: gives(p, q, k) {
      if p, q :| gives(p, q, k) {
        assert Before(p, q, n, 0);
      }
    }
    forall k, p, q | IsLastTurn(gives, k, p, q) ensures IsLastBefore(gives, k, n, 0, p, q) {
    }
  }
}
