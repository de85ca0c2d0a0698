/** Small vocabulary shared by the other modules. */
module Prelude {
  type UserId = nat
  type DeviceId = nat

  datatype Option<+T> = None | Some(value: T)

  function Min(a: int, b: int): int { if a <= b then a else b }

  function Max(a: int, b: int): int { if a >= b then a else b }

  /** Some element of a non-empty set. */
  ghost function Pick<T>(s: set<T>): (x: T)
    requires s != {}
    ensures x in s
  {
    var x :| x in s;
    x
  }

  /** The greatest element of a non-empty finite set. */
  function MaxOf(s: set<int>): (m: int)
    requires s != {}
    ensures m in s && forall x | x in s :: x <= m
  {
    MaxExists(s);
    var m :| m in s && forall x | x in s :: x <= m;
    m
  }

  lemma {:induction false} MaxExists(s: set<int>)
    requires s != {}
    ensures exists m :: m in s && forall x | x in s :: x <= m
  {
    var x := Pick(s);
    if s != {x} {
      MaxExists(s - {x});
      var m :| m in s - {x} && forall y | y in s - {x} :: y <= m;
      var top := Max(m, x);
      assert top in s && forall y | y in s :: y <= top by {
        forall y | y in s ensures y <= top {
          assert y == x || y in s - {x};
        }
      }
    } else {
      assert x in s && forall y | y in s :: y <= x;
    }
  }

  /** Sum of the values a map gives to a set of its keys. */
  ghost function SumOver<K(!new)>(m: map<K, nat>, keys: set<K>): nat
    requires keys <= m.Keys
  {
    if keys == {} then 0 else
      var k :| k in keys;
      m[k] + SumOver(m, keys - {k})
  }

  lemma {:induction false} SumOverSplit<K(!new)>(m: map<K, nat>, keys: set<K>, k: K)
    requires keys <= m.Keys && k in keys
    ensures SumOver(m, keys) == m[k] + SumOver(m, keys - {k})
  {
    var picked :| picked in keys && SumOver(m, keys) == m[picked] + SumOver(m, keys - {picked});
    if picked != k {
      SumOverSplit(m, keys - {picked}, k);
      SumOverSplit(m, keys - {k}, picked);
      assert keys - {picked} - {k} == keys - {k} - {picked};
    }
  }

  lemma {:induction false} SumOverAgrees<K(!new)>(m: map<K, nat>, n: map<K, nat>, keys: set<K>)
    requires keys <= m.Keys && keys <= n.Keys
    requires forall k | k in keys :: m[k] == n[k]
    ensures SumOver(m, keys) == SumOver(n, keys)
  {
    if keys != {} {
      var k :| k in keys;
      SumOverSplit(m, keys, k);
      SumOverSplit(n, keys, k);
      SumOverAgrees(m, n, keys - {k});
    }
  }

  lemma SubsetSize<T>(a: set<T>, b: set<T>)
    requires a <= b
    ensures |a| <= |b| && |b - a| == |b| - |a|
  {
    assert b == a + (b - a);
  }
}
