/** Sums of real numbers over finite sets, in no particular order. */
module Sums {

  ghost function SumOver<K(!new)>(s: set<K>, f: K -> real): real
    decreases |s|
  {
    if s == {} then 0.0
    else
      var k :| k in s;
      f(k) + SumOver(s - {k}, f)
  }

  /** Any element may be taken out first. */
  lemma {:induction false} SumRemove<K(!new)>(s: set<K>, f: K -> real, k: K)
    requires k in s
    ensures SumOver(s, f) == f(k) + SumOver(s - {k}, f)
    decreases |s|
  {
    var j :| j in s && SumOver(s, f) == f(j) + SumOver(s - {j}, f);
    if j != k {
      SumRemove(s - {j}, f, k);
      SumRemove(s - {k}, f, j);
      assert s - {j} - {k} == s - {k} - {j};
    }
  }

  lemma SumAdd<K(!new)>(s: set<K>, f: K -> real, k: K)
    requires k !in s
    ensures SumOver(s + {k}, f) == SumOver(s, f) + f(k)
  {
    SumRemove(s + {k}, f, k);
    assert s + {k} - {k} == s;
  }

  lemma SumEmpty<K(!new)>(f: K -> real)
    ensures SumOver({}, f) == 0.0
  {
  }

  lemma SumOne<K(!new)>(k: K, f: K -> real)
    ensures SumOver({k}, f) == f(k)
  {
    SumRemove({k}, f, k);
    assert {k} - {k} == {};
  }

  lemma {:induction false} SumUnion<K(!new)>(s: set<K>, t: set<K>, f: K -> real)
    requires s !! t
    ensures SumOver(s + t, f) == SumOver(s, f) + SumOver(t, f)
    decreases |t|
  {
    if t == {} {
      assert s + t == s;
    } else {
      var k :| k in t;
      SumUnion(s, t - {k}, f);
      SumRemove(t, f, k);
      SumRemove(s + t, f, k);
      assert s + t - {k} == s + (t - {k});
    }
  }

  lemma {:induction false} SumSame<K(!new)>(s: set<K>, f: K -> real, g: K -> real)
    requires forall k :: k in s ==> f(k) == g(k)
    ensures SumOver(s, f) == SumOver(s, g)
    decreases |s|
  {
    if s != {} {
      var k :| k in s;
      SumRemove(s, f, k);
      SumRemove(s, g, k);
      SumSame(s - {k}, f, g);
    }
  }

  lemma {:induction false} SumScale<K(!new)>(s: set<K>, f: K -> real, a: real, h: K -> real)
    requires forall k :: k in s ==> h(k) == f(k) * a
    ensures SumOver(s, h) == SumOver(s, f) * a
    decreases |s|
  {
    hide SumOver;
    if s == {} {
      SumEmpty(f);
      SumEmpty(h);
    } else {
      var k :| k in s;
      var rest := s - {k};
      SumRemove(s, f, k);
      SumRemove(s, h, k);
      SumScale(rest, f, a, h);
      var x, y := f(k), SumOver(rest, f);
      Distribute(x, y, a);
      assert SumOver(s, h) == x * a + y * a;
    }
  }

  lemma {:induction false} SumShift<K(!new)>(s: set<K>, f: K -> real, b: real, h: K -> real)
    requires forall k :: k in s ==> h(k) == f(k) + b
    ensures SumOver(s, h) == SumOver(s, f) + |s| as real * b
    decreases |s|
  {
    if s != {} {
      var k :| k in s;
      var rest := s - {k};
      SumRemove(s, f, k);
      SumRemove(s, h, k);
      SumShift(rest, f, b, h);
      assert |s| as real == |rest| as real + 1.0;
      Distribute(|rest| as real, 1.0, b);
    }
  }

  lemma Distribute(x: real, y: real, a: real)
    ensures (x + y) * a == x * a + y * a
  {
  }

  /** Summing over the image of an injection is summing over its domain. */
  lemma {:induction false} SumImage<J(!new), K(!new)>(s: set<J>, h: J -> K, image: set<K>, f: K -> real, g: J -> real)
    requires image == set j | j in s :: h(j)
    requires forall i, j :: i in s && j in s && h(i) == h(j) ==> i == j
    requires forall j :: j in s ==> g(j) == f(h(j))
    ensures SumOver(image, f) == SumOver(s, g)
    decreases |s|
  {
    if s != {} {
      var j :| j in s;
      SumRemove(s, g, j);
      SumRemove(image, f, h(j));
      SumImage(s - {j}, h, image - {h(j)}, f, g);
    }
  }

  /** The elements of s whose key is l. */
  ghost function Group<K(!new), L>(s: set<K>, key: K -> L, l: L): set<K> {
    set k | k in s && key(k) == l
  }

  /** Adding up the sums of all groups is adding up all elements. */
  lemma {:induction false} SumGroups<K(!new), L(!new)>(
    s: set<K>, key: K -> L, keys: set<L>, f: K -> real, sums: L -> real)
    requires forall k :: k in s ==> key(k) in keys
    requires forall l :: l in keys ==> sums(l) == SumOver(Group(s, key, l), f)
    ensures SumOver(keys, sums) == SumOver(s, f)
    decreases |keys|
  {
    if keys == {} {
      assert s == {};
    } else {
      var l :| l in keys;
      var rest := s - Group(s, key, l);
      SumRemove(keys, sums, l);
      forall m | m in keys - {l} ensures sums(m) == SumOver(Group(rest, key, m), f) {
        OtherGroup(s, key, l, m);
      }
      SumGroups(rest, key, keys - {l}, f, sums);
      SumUnion(rest, Group(s, key, l), f);
      assert rest + Group(s, key, l) == s;
    }
  }

  lemma OtherGroup<K(!new), L>(s: set<K>, key: K -> L, l: L, m: L)
    requires l != m
    ensures Group(s - Group(s, key, l), key, m) == Group(s, key, m)
  {
  }
}
