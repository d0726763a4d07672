/**
  What it means that a list holds some elements of another one, at which places and in
  which order.
 */
module Picking {

  /** r holds the elements of s at the indices at, in their order and nothing else. */
  ghost predicate PickedAt<T(!new)>(s: seq<T>, at: seq<nat>, r: seq<T>) {
    && |r| == |at| && (forall i :: 0 <= i < |at| ==> at[i] < |s| && r[i] == s[at[i]])
    && Rising(at)
  }

  lemma PickNext<T(!new)>(s: seq<T>, n: nat, at: seq<nat>, r: seq<T>)
    requires n < |s| && PickedAt(s[..n], at, r)
    ensures PickedAt(s[..n + 1], at, r) && PickedAt(s[..n + 1], at + [n], r + [s[n]])
  {
  }

  /** Increasing. */
  ghost predicate Rising(at: seq<nat>) {
    forall i, j :: 0 <= i < j < |at| ==> at[i] < at[j]
  }

  ghost function Places(at: seq<nat>): set<nat> {
    set i | i in at
  }

  /** The places determine the list. */
  lemma PickedOnce<T(!new)>(s: seq<T>, at: seq<nat>, r: seq<T>, at': seq<nat>, r': seq<T>)
    requires PickedAt(s, at, r) && PickedAt(s, at', r') && Places(at) == Places(at')
    ensures at == at' && r == r'
  {
    OneOrder(at, at');
  }

  lemma {:induction false} OneOrder(at: seq<nat>, at': seq<nat>)
    requires Rising(at) && Rising(at') && Places(at) == Places(at')
    ensures at == at'
    decreases |at|
  {
    if at != [] && at' != [] {
      var init, last := LastPlace(at);
      var init', last' := LastPlace(at');
      assert last == last';
      OneOrder(init, init');
    } else {
      NoPlace(at);
      NoPlace(at');
    }
  }

  lemma NoPlace(at: seq<nat>)
    ensures Places(at) == {} <==> at == []
  {
    if at != [] { assert at[0] in Places(at); }
  }

  lemma LastPlace(at: seq<nat>) returns (init: seq<nat>, last: nat)
    requires at != [] && Rising(at)
    ensures at == init + [last] && |init| < |at| && Rising(init) && Places(init) == Places(at) - {last}
    ensures last in Places(at) && forall i :: i in Places(at) ==> i <= last
  {
    init, last := at[..|at| - 1], at[|at| - 1];
    assert at == init + [last];
    assert last !in init;
  }
}
