/** Maps filled by a loop: the last entry written for a key wins. */
module LastWriter {

  /** The map after writing the entries in order. */
  function FromEntries<K(==), V>(es: seq<(K, V)>): map<K, V> {
    if es == [] then map[]
    else
      var last := es[|es| - 1];
      FromEntries(es[..|es| - 1])[last.0 := last.1]
  }

  lemma FromAppend<K, V>(es: seq<(K, V)>, k: K, v: V)
    ensures FromEntries(es + [(k, v)]) == FromEntries(es)[k := v]
  {
    assert (es + [(k, v)])[..|es|] == es;
  }

  /** Entry i is the last one for its key. */
  ghost predicate IsLast<K, V>(es: seq<(K, V)>, i: int) {
    0 <= i < |es| && forall j :: i < j < |es| ==> es[j].0 != es[i].0
  }

  /** The last entry of every written key is the one in the map. */
  lemma {:induction false} LastEntryWins<K, V>(es: seq<(K, V)>, i: int)
    requires IsLast(es, i)
    ensures es[i].0 in FromEntries(es) && FromEntries(es)[es[i].0] == es[i].1
  {
    var n := |es| - 1;
    if i < n {
      assert es[n].0 != es[i].0;
      LastEntryWins(es[..n], i);
    }
  }

  /** Nothing is in the map but written keys. */
  lemma {:induction false} KeysAreWritten<K, V>(es: seq<(K, V)>, k: K) returns (i: int)
    requires k in FromEntries(es)
    ensures IsLast(es, i) && es[i].0 == k
  {
    var n := |es| - 1;
    if k == es[n].0 {
      i := n;
    } else {
      i := KeysAreWritten(es[..n], k);
    }
  }

  /** A listing of a set: every element once. */
  ghost predicate Lists<K(!new)>(s: seq<K>, keys: set<K>) {
    && (forall k :: k in s <==> k in keys)
    && (forall i, j :: 0 <= i < j < |s| ==> s[i] != s[j])
  }

  /** Ranging over the keys of a map, in an arbitrary order, into a list. */
  method KeysInSomeOrder<K(==,!new), V>(m: map<K, V>) returns (s: seq<K>)
    ensures Lists(s, m.Keys)
  {
    s := [];
    var todo := m.Keys;
    while todo != {}
      invariant todo <= m.Keys && Lists(s, m.Keys - todo)
      decreases |todo|
    {
      var k :| k in todo;
      s := s + [k];
      todo := todo - {k};
    }
  }
}
