/** Finite sets and maps. */
module Collections {

  function Elements<T>(s: seq<T>): set<T> { set x | x in s }

  lemma KeyOf<K, V>(m: map<K, V>, v: V) returns (k: K)
    requires v in m.Values
    ensures k in m && m[k] == v
  {
    k :| k in m && m[k] == v;
  }

  lemma SomeKey<K, V>(m: map<K, V>) returns (k: K)
    requires m.Keys != {}
    ensures k in m
  {
    k :| k in m.Keys;
  }

  lemma OneKeyLess<K, V>(m: map<K, V>, k: K)
    requires k in m
    ensures |m - {k}| == |m| - 1
  {
    assert (m - {k}).Keys == m.Keys - {k};
    assert |m.Keys| == |m| && |(m - {k}).Keys| == |m - {k}|;
  }

  ghost predicate Injective<K, V>(m: map<K, V>) {
    forall k <- m, k' <- m | m[k] == m[k'] :: k == k'
  }

  /** A map has at most as many values as keys, and as many exactly when it is injective. */
  lemma ValueCount<K, V>(m: map<K, V>)
    ensures |m.Values| <= |m|
    ensures |m.Values| == |m| <==> Injective(m)
    decreases |m|
  {
    if m.Keys == {} {
      assert m == map[];
      assert m.Values == {};
    } else {
      var k := SomeKey(m);
      var rest := m - {k};
      OneKeyLess(m, k);
      ValueCount(rest);
      assert m.Values == rest.Values + {m[k]} by {
        forall v | v in m.Values ensures v in rest.Values + {m[k]} {
          var k' := KeyOf(m, v);
          assert k' != k ==> k' in rest;
        }
      }
      if m[k] in rest.Values {
        var k' := KeyOf(rest, m[k]);
        assert k' in m && m[k'] == m[k] && k' != k;
        assert m.Values == rest.Values;
      } else {
        assert |m.Values| == |rest.Values| + 1;
        if Injective(rest) {
          forall a, b | a in m && b in m && m[a] == m[b] ensures a == b {
            assert a != k ==> a in rest && m[a] in rest.Values;
            assert b != k ==> b in rest && m[b] in rest.Values;
          }
        }
        if Injective(m) {
          assert forall a <- rest :: a in m && rest[a] == m[a];
        }
      }
    }
  }

  lemma AtMostOne<T>(s: set<T>)
    requires |s| <= 1
    ensures forall a <- s, b <- s :: a == b
  {
    forall a, b | a in s && b in s ensures a == b {
      assert |s - {a}| == |s| - 1;
      assert b !in s - {a};
    }
  }

  lemma SubsetSize<T>(a: set<T>, b: set<T>)
    requires a <= b
    ensures |a| <= |b|
  {
    assert b == a + (b - a);
  }

  lemma UnionSize<T>(a: set<T>, b: set<T>)
    ensures |a + b| == |a| + |b| - |a * b|
  {
    assert a + b == a + (b - a);
    assert b == (b - a) + (a * b);
  }
}
