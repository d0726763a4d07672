/**
  Order-independent comparison by counting: up for one list, down for the other,
  equal when every count is back to zero.
 */
module CountingCompare {

  function Count<K(==)>(m: map<K, int>, k: K): int {
    if k in m then m[k] else 0
  }

  lemma MultisetSnoc<K>(a: seq<K>, i: nat)
    requires i < |a|
    ensures multiset(a[..i + 1]) == multiset(a[..i]) + multiset{a[i]}
  {
    assert a[..i + 1] == a[..i] + [a[i]];
  }

  /** Adds (or subtracts) one for each element. */
  method Tally<K(==)>(a: seq<K>, m0: map<K, int>, up: bool) returns (m: map<K, int>)
    ensures forall k :: Count(m, k) == Count(m0, k) + (if up then multiset(a)[k] as int else -(multiset(a)[k] as int))
  {
    m := m0;
    for i := 0 to |a|
      invariant forall k :: Count(m, k) ==
                  Count(m0, k) + (if up then multiset(a[..i])[k] as int else -(multiset(a[..i])[k] as int))
    {
      MultisetSnoc(a, i);
      m := m[a[i] := Count(m, a[i]) + if up then 1 else -1];
    }
    assert a[..|a|] == a;
  }

  method AllZero<K(==)>(m: map<K, int>) returns (zero: bool)
    ensures zero <==> forall k :: Count(m, k) == 0
  {
    var todo := m.Keys;
    while todo != {}
      invariant todo <= m.Keys
      invariant forall k :: k in m && k !in todo ==> m[k] == 0
    {
      var k :| k in todo;
      if m[k] != 0 {
        assert Count(m, k) != 0;
        return false;
      }
      todo := todo - {k};
    }
    zero := true;
  }

  /** The counting loops decide exactly multiset equality. */
  method SameElements<K(==)>(a: seq<K>, b: seq<K>) returns (same: bool)
    ensures same <==> multiset(a) == multiset(b)
  {
    if |a| != |b| {
      assert |multiset(a)| == |a| && |multiset(b)| == |b|;
      return false;
    }
    var m := Tally(a, map[], true);
    m := Tally(b, m, false);
    same := AllZero(m);
    if same {
      forall k ensures multiset(a)[k] == multiset(b)[k] {
        assert Count(m, k) == 0;
      }
    }
  }
}
