/**
  Candidate-path selection inside one endpoint's cached candidates: segment-list
  validation (section 5.1 of RFC 9256), the tie-break order (section 2.9) and the
  loop that picks the active candidate.
 */
module CandidateSelection {
  import opened Srv6Types
  import opened Picking

  /** Outcome of one FIB lookup: the lookup failed, found nothing, or found a
      route; a path is `true` when it is a drop path. */
  datatype Lookup = LookupFailed | NoRoute | Route(dropPaths: seq<bool>)

  type Fib = IP6 -> Lookup

  /** A failed lookup counts as reachable; a route needs a path that is not a drop. */
  predicate Reachable(l: Lookup) {
    match l
    case LookupFailed => true
    case NoRoute => false
    case Route(paths) => false in paths
  }

  function Pow2(n: nat): (p: nat)
    ensures p > 0
  {
    if n == 0 then 1 else 2 * Pow2(n - 1)
  }

  /** Whether the V-Flag of segment i is set in a 32-bit verify mask. */
  predicate VFlag(mask: Uint32, i: nat) {
    i < 32 && (mask / Pow2(i)) % 2 == 1
  }

  /** The segments whose reachability decides whether a list is usable. */
  predicate MustVerify(sl: SidList, mask: Uint32, i: nat) {
    i < sl.numSids && i < |sl.sids| && (i == 0 || VFlag(mask, i))
  }

  ghost predicate ListResolvable(sl: SidList, mask: Uint32, fib: Fib) {
    forall i: nat :: i < |sl.sids| && MustVerify(sl, mask, i) ==> Reachable(fib(sl.sids[i]))
  }

  function MaskFor(masks: seq<Uint32>, i: nat): Uint32 {
    if i < |masks| then masks[i] else 0
  }

  /** The segment lists among the first n that resolve, in order. */
  ghost function UsableLists(lists: seq<SidList>, masks: seq<Uint32>, fib: Fib, n: nat): (r: seq<SidList>)
    requires n <= |lists|
  {
    if n == 0 then []
    else
      var rest := UsableLists(lists, masks, fib, n - 1);
      if ListResolvable(lists[n - 1], MaskFor(masks, n - 1), fib) then rest + [lists[n - 1]] else rest
  }

  /** The installable form of a candidate: its policy with the unresolvable lists removed. */
  ghost function UsablePolicy(t: Tunnel, fib: Fib): (r: Option<SrPolicy>)
    requires t.policy.Some?
  {
    var p := t.policy.value;
    var kept := UsableLists(p.sidLists, t.verifyMasks, fib, |p.sidLists|);
    if kept == [] then None else Some(p.(sidLists := kept))
  }

  // ----- What makes a candidate unusable -----

  /** Lookup works, and finds no route or one that only drops. */
  ghost predicate Unroutable(l: Lookup) {
    l.NoRoute? || (l.Route? && forall k :: 0 <= k < |l.dropPaths| ==> l.dropPaths[k])
  }

  /** These are the powers of two. */
  lemma {:induction false} PowersMultiply(m: nat, n: nat)
    ensures Pow2(0) == 1 && Pow2(1) == 2 && Pow2(m + n) == Pow2(m) * Pow2(n)
  {
    if n > 0 {
      PowersMultiply(m, n - 1);
      assert Pow2(m) * Pow2(n) == 2 * (Pow2(m) * Pow2(n - 1));
    }
  }

  /** A one with these digits above it and low, i digits, below. */
  ghost predicate Splits(mask: Uint32, i: nat, high: nat, low: nat) {
    low < Pow2(i) && mask == high * (2 * Pow2(i)) + Pow2(i) + low
  }

  /** Binary digit i is one. */
  ghost predicate BitSet(mask: Uint32, i: nat) {
    exists high: nat, low: nat :: Splits(mask, i, high, low)
  }

  lemma VFlagIff(mask: Uint32, i: nat)
    ensures VFlag(mask, i) <==> i < 32 && BitSet(mask, i)
  {
    var p := Pow2(i);
    if (mask / p) % 2 == 1 {
      HalfOf(mask, p);
      assert Splits(mask, i, mask / p / 2, mask % p);
    }
    if BitSet(mask, i) {
      var high: nat, low: nat :| Splits(mask, i, high, low);
      QuotientIs(mask, p, high, low);
    }
  }

  lemma HalfOf(m: nat, p: nat)
    requires p > 0 && (m / p) % 2 == 1
    ensures m == (m / p / 2) * (2 * p) + p + m % p
  {
    var h := m / p / 2;
    assert m / p == 2 * h + 1;
    assert m == p * (m / p) + m % p;
    assert p * (2 * h + 1) == h * (2 * p) + p;
  }

  lemma QuotientIs(m: nat, p: nat, high: nat, low: nat)
    requires low < p && m == high * (2 * p) + p + low
    ensures (m / p) % 2 == 1
  {
    assert m == p * (2 * high + 1) + low;
    DivisionIs(m, p, 2 * high + 1, low);
  }

  lemma DivisionIs(m: nat, p: nat, q: nat, r: nat)
    requires r < p && m == p * q + r
    ensures m / p == q
  {
    var k, rest := m / p - q, m % p;
    assert p * k == p * (m / p) - p * q;
    assert p * k == r - rest;
    NoSmallMultiple(p, k, r - rest);
  }

  lemma NoSmallMultiple(p: nat, k: int, x: int)
    requires p * k == x && 0 - p < x < p
    ensures k == 0
  {
    Multiple(p, k);
  }

  lemma {:induction false} Multiple(p: nat, k: int)
    ensures k > 0 ==> p * k >= p
    ensures k < 0 ==> p * k <= 0 - p
    decreases if k < 0 then 0 - k else k
  {
    if k > 1 {
      Multiple(p, k - 1);
      assert p * k == p * (k - 1) + p;
    } else if k < -1 {
      Multiple(p, k + 1);
      assert p * k == p * (k + 1) - p;
    }
  }

  /** The first segment, or one of the first 32 whose digit in the mask is one, cannot be
      routed to. */
  ghost predicate Unresolved(sl: SidList, mask: Uint32, fib: Fib) {
    exists i: nat :: i < sl.numSids && i < |sl.sids| && Unroutable(fib(sl.sids[i])) &&
                     (i == 0 || (i < 32 && BitSet(mask, i)))
  }

  lemma UnresolvedIff(sl: SidList, mask: Uint32, fib: Fib)
    ensures ListResolvable(sl, mask, fib) <==> !Unresolved(sl, mask, fib)
  {
    forall i: nat ensures VFlag(mask, i) <==> i < 32 && BitSet(mask, i) {
      VFlagIff(mask, i);
    }
    forall i: nat | i < |sl.sids| ensures Reachable(fib(sl.sids[i])) <==> !Unroutable(fib(sl.sids[i])) {
      var l := fib(sl.sids[i]);
      if l.Route? && !Reachable(l) {
        forall k | 0 <= k < |l.dropPaths| ensures l.dropPaths[k] {
          assert l.dropPaths[k] in l.dropPaths;
        }
      }
    }
  }

  lemma {:induction false} UsableArePicked(lists: seq<SidList>, masks: seq<Uint32>, fib: Fib, n: nat)
    returns (at: seq<nat>)
    requires n <= |lists|
    ensures PickedAt(lists, at, UsableLists(lists, masks, fib, n))
    ensures forall i: nat :: i in at <==>
              i < n && ListResolvable(lists[i], if i < |masks| then masks[i] else 0, fib)
  {
    at := [];
    if n > 0 {
      at := UsableArePicked(lists, masks, fib, n - 1);
      if ListResolvable(lists[n - 1], MaskFor(masks, n - 1), fib) { at := at + [n - 1]; }
    }
  }

  /** The list at i of a candidate resolves; a missing mask asks for nothing. */
  ghost predicate Resolves(t: Tunnel, i: nat, fib: Fib)
    requires t.policy.Some?
  {
    i < |t.policy.value.sidLists| &&
    !Unresolved(t.policy.value.sidLists[i], if i < |t.verifyMasks| then t.verifyMasks[i] else 0, fib)
  }

  /** What is installable of a candidate is its policy with exactly the lists that resolve, in
      their order, and nothing exactly if none does. */
  lemma UsableIsPicked(t: Tunnel, fib: Fib) returns (at: seq<nat>)
    requires t.policy.Some?
    ensures forall i: nat :: i in at <==> Resolves(t, i, fib)
    ensures UsablePolicy(t, fib).None? <==> forall i: nat :: !Resolves(t, i, fib)
    ensures UsablePolicy(t, fib).Some? ==>
              var r := UsablePolicy(t, fib).value;
              PickedAt(t.policy.value.sidLists, at, r.sidLists) && r == t.policy.value.(sidLists := r.sidLists)
  {
    var lists := t.policy.value.sidLists;
    at := UsableArePicked(lists, t.verifyMasks, fib, |lists|);
    forall i: nat ensures i in at <==> Resolves(t, i, fib) {
      if i < |lists| { UnresolvedIff(lists[i], MaskFor(t.verifyMasks, i), fib); }
    }
    var kept := UsableLists(lists, t.verifyMasks, fib, |lists|);
    if kept != [] { assert at[0] in at; }
  }

  /** Which candidates one selection ranges over. */
  datatype Filter = ByColor(color: Uint32) | ByBehavior(behavior: Behavior)

  predicate Wanted(f: Filter, t: Tunnel) {
    t.policy.Some? &&
    match f
    case ByColor(c) => t.color == c
    case ByBehavior(b) => t.behavior == b
  }

  /** A candidate takes part in the selection when it is wanted, has a BSID and some list resolves. */
  ghost predicate Eligible(t: Tunnel, f: Filter, fib: Fib) {
    Wanted(f, t) && TunnelBsid(t).Some? && UsablePolicy(t, fib).Some?
  }

  // ----- The tie-break order -----

  /** Byte-wise string order. */
  predicate StringLess(a: string, b: string) {
    if b == "" then false
    else if a == "" then true
    else if a[0] != b[0] then a[0] < b[0]
    else StringLess(a[1..], b[1..])
  }

  /** Higher preference, then lower originator, then higher discriminator. */
  predicate Preferred(a: Tunnel, b: Tunnel) {
    if a.preference != b.preference then a.preference > b.preference
    else if a.originatorAsn != b.originatorAsn then a.originatorAsn < b.originatorAsn
    else if a.originatorNode != b.originatorNode then StringLess(a.originatorNode, b.originatorNode)
    else a.distinguisher > b.distinguisher
  }

  predicate SameRank(a: Tunnel, b: Tunnel) {
    && a.preference == b.preference
    && a.originatorAsn == b.originatorAsn
    && a.originatorNode == b.originatorNode
    && a.distinguisher == b.distinguisher
  }

  lemma {:induction false} StringLessAsymmetric(a: string, b: string)
    ensures !(StringLess(a, b) && StringLess(b, a))
  {
    if a != "" && b != "" && a[0] == b[0] {
      StringLessAsymmetric(a[1..], b[1..]);
    }
  }

  lemma {:induction false} StringLessTransitive(a: string, b: string, c: string)
    requires StringLess(a, b) && StringLess(b, c)
    ensures StringLess(a, c)
  {
    if a != "" && a[0] == b[0] && b[0] == c[0] {
      StringLessTransitive(a[1..], b[1..], c[1..]);
    }
  }

  lemma {:induction false} StringLessTotal(a: string, b: string)
    ensures a == b || StringLess(a, b) || StringLess(b, a)
  {
    if a != "" && b != "" && a[0] == b[0] {
      StringLessTotal(a[1..], b[1..]);
      assert a == [a[0]] + a[1..] && b == [b[0]] + b[1..];
    }
  }

  /** Smaller at the first difference, or a proper prefix. */
  ghost predicate Before(a: string, b: string) {
    exists i: nat :: i <= |a| && i < |b| && a[..i] == b[..i] && (i == |a| || a[i] < b[i])
  }

  lemma {:induction false} StringLessIff(a: string, b: string)
    ensures StringLess(a, b) <==> Before(a, b)
  {
    if a == "" || b == "" || a[0] != b[0] {
      assert a[..0] == b[..0];
    } else {
      StringLessIff(a[1..], b[1..]);
      BeforeTail(a, b);
    }
  }

  lemma BeforeTail(a: string, b: string)
    requires a != "" && b != "" && a[0] == b[0]
    ensures Before(a, b) <==> Before(a[1..], b[1..])
  {
    if Before(a, b) {
      var i: nat :| i <= |a| && i < |b| && a[..i] == b[..i] && (i == |a| || a[i] < b[i]);
      assert i > 0 && a[1..][..i - 1] == a[..i][1..] == b[..i][1..] == b[1..][..i - 1];
    }
    if Before(a[1..], b[1..]) {
      var i: nat :| i <= |a[1..]| && i < |b[1..]| && a[1..][..i] == b[1..][..i] &&
                    (i == |a[1..]| || a[1..][i] < b[1..][i]);
      assert a[..i + 1] == [a[0]] + a[1..][..i] && b[..i + 1] == [b[0]] + b[1..][..i];
    }
  }

  /** Of higher preference; or of equal preference and lower autonomous system; or, these equal
      too, of a smaller originator; or, all equal, of a discriminator at least as high. */
  ghost predicate Outranks(t: Tunnel, u: Tunnel) {
    || t.preference > u.preference
    || (t.preference == u.preference &&
        (|| t.originatorAsn < u.originatorAsn
         || (t.originatorAsn == u.originatorAsn &&
             (|| Before(t.originatorNode, u.originatorNode)
              || (t.originatorNode == u.originatorNode && t.distinguisher >= u.distinguisher)))))
  }

  lemma OutranksIff(t: Tunnel, u: Tunnel)
    ensures Outranks(t, u) <==> !Preferred(u, t)
  {
    StringLessIff(t.originatorNode, u.originatorNode);
    StringLessIff(u.originatorNode, t.originatorNode);
    StringLessTotal(t.originatorNode, u.originatorNode);
    StringLessAsymmetric(t.originatorNode, u.originatorNode);
  }

  /** The coded order is a strict order whose only ties are candidates of equal rank. */
  lemma PreferredIsStrictOrder(a: Tunnel, b: Tunnel, c: Tunnel)
    ensures !Preferred(a, a)
    ensures !(Preferred(a, b) && Preferred(b, a))
    ensures Preferred(a, b) && Preferred(b, c) ==> Preferred(a, c)
    ensures Preferred(a, b) || Preferred(b, a) || SameRank(a, b)
    ensures SameRank(a, b) ==> !Preferred(a, b)
  {
    StringLessAsymmetric(a.originatorNode, b.originatorNode);
    StringLessTotal(a.originatorNode, b.originatorNode);
    if StringLess(a.originatorNode, b.originatorNode) && StringLess(b.originatorNode, c.originatorNode) {
      StringLessTransitive(a.originatorNode, b.originatorNode, c.originatorNode);
    }
  }

  // ----- The selection -----

  /** The candidate the loop holds after the first n candidates. */
  ghost function SelectFrom(cs: seq<Tunnel>, f: Filter, fib: Fib, n: nat): (best: Option<Tunnel>)
    requires n <= |cs|
  {
    if n == 0 then None
    else
      var best := SelectFrom(cs, f, fib, n - 1);
      var t := cs[n - 1];
      if Eligible(t, f, fib) && (best.None? || Preferred(t, best.value)) then Some(t) else best
  }

  ghost function Select(cs: seq<Tunnel>, f: Filter, fib: Fib): (best: Option<Tunnel>) {
    SelectFrom(cs, f, fib, |cs|)
  }

  /** t is an eligible candidate that no eligible candidate beats. */
  ghost predicate IsBest(cs: seq<Tunnel>, f: Filter, fib: Fib, t: Tunnel) {
    && t in cs && Eligible(t, f, fib)
    && forall u :: u in cs && Eligible(u, f, fib) ==> !Preferred(u, t)
  }

  lemma {:induction false} SelectFromIsBest(cs: seq<Tunnel>, f: Filter, fib: Fib, n: nat)
    requires n <= |cs|
    ensures
      match SelectFrom(cs, f, fib, n)
      case None => forall u :: u in cs[..n] ==> !Eligible(u, f, fib)
      case Some(t) => IsBest(cs[..n], f, fib, t)
  {
    if n > 0 {
      SelectFromIsBest(cs, f, fib, n - 1);
      var t := cs[n - 1];
      assert cs[..n] == cs[..n - 1] + [t];
      var best := SelectFrom(cs, f, fib, n - 1);
      if best.Some? {
        forall u | u in cs[..n] && Eligible(u, f, fib)
          ensures !Preferred(u, SelectFrom(cs, f, fib, n).value)
        {
          PreferredIsStrictOrder(u, t, best.value);
          PreferredIsStrictOrder(u, best.value, t);
          PreferredIsStrictOrder(t, best.value, u);
        }
      } else if Eligible(t, f, fib) {
        PreferredIsStrictOrder(t, t, t);
      }
    }
  }

  /** Selection returns a maximum of the valid candidates, and nothing exactly when none is valid. */
  lemma SelectIsBest(cs: seq<Tunnel>, f: Filter, fib: Fib)
    ensures Select(cs, f, fib).Some? ==> IsBest(cs, f, fib, Select(cs, f, fib).value)
    ensures Select(cs, f, fib).None? <==> forall u :: u in cs ==> !Eligible(u, f, fib)
  {
    SelectFromIsBest(cs, f, fib, |cs|);
    assert cs[..|cs|] == cs;
  }

  /** The selected candidate outranks every eligible one, field by field. */
  lemma SelectedOutranks(cs: seq<Tunnel>, f: Filter, fib: Fib)
    requires Select(cs, f, fib).Some?
    ensures forall u :: u in cs && Eligible(u, f, fib) ==> Outranks(Select(cs, f, fib).value, u)
  {
    SelectIsBest(cs, f, fib);
    forall u | u in cs && Eligible(u, f, fib) ensures Outranks(Select(cs, f, fib).value, u) {
      OutranksIff(Select(cs, f, fib).value, u);
    }
  }

  /** A candidate that a selection may choose: of the color or the behavior, with a BSID, and
      with a segment list that resolves. */
  ghost predicate Fit(u: Tunnel, f: Filter, fib: Fib) {
    && u.policy.Some? && (f.ByColor? ==> u.color == f.color) && (f.ByBehavior? ==> u.behavior == f.behavior)
    && (u.policy.value.bsid != 0 || u.bsid.Some?) && exists i: nat :: Resolves(u, i, fib)
  }

  lemma FitIff(u: Tunnel, f: Filter, fib: Fib)
    ensures Eligible(u, f, fib) <==> Fit(u, f, fib)
  {
    if u.policy.Some? {
      var at := UsableIsPicked(u, fib);
    }
  }

  /** The best of these candidates that fit, or none exactly if none fits. */
  ghost predicate BestOf(cs: seq<Tunnel>, f: Filter, fib: Fib, best: Option<Tunnel>) {
    if best.None? then forall u :: u in cs ==> !Fit(u, f, fib)
    else best.value in cs && Fit(best.value, f, fib) &&
         forall u :: u in cs && Fit(u, f, fib) ==> Outranks(best.value, u)
  }

  /** Selection, said without the order and the validation it is coded with. */
  lemma SelectIsBestOf(cs: seq<Tunnel>, f: Filter, fib: Fib)
    ensures BestOf(cs, f, fib, Select(cs, f, fib))
  {
    SelectIsBest(cs, f, fib);
    forall u | u in cs ensures Eligible(u, f, fib) <==> Fit(u, f, fib) {
      FitIff(u, f, fib);
    }
    if Select(cs, f, fib).Some? { SelectedOutranks(cs, f, fib); }
  }

  /** Inside one SR Policy <endpoint, color> the candidates' discriminators are distinct. */
  ghost predicate UniqueKeys(cs: seq<Tunnel>) {
    forall i, j :: 0 <= i < |cs| && 0 <= j < |cs| && i != j ==>
      cs[i].color != cs[j].color || cs[i].distinguisher != cs[j].distinguisher
  }

  lemma BestIsUniquePerColor(cs: seq<Tunnel>, c: Uint32, fib: Fib, a: Tunnel, b: Tunnel)
    requires UniqueKeys(cs)
    requires IsBest(cs, ByColor(c), fib, a) && IsBest(cs, ByColor(c), fib, b)
    ensures a == b
  {
    PreferredIsStrictOrder(a, b, a);
    var i :| 0 <= i < |cs| && cs[i] == a;
    var j :| 0 <= j < |cs| && cs[j] == b;
  }

  /** The active candidate of an <endpoint, color> does not depend on the order in
      which its candidates arrived. */
  lemma ColorSelectionIgnoresArrivalOrder(cs: seq<Tunnel>, ds: seq<Tunnel>, c: Uint32, fib: Fib)
    requires UniqueKeys(cs)
    requires forall t :: t in cs <==> t in ds
    ensures Select(cs, ByColor(c), fib) == Select(ds, ByColor(c), fib)
  {
    var f := ByColor(c);
    SelectIsBest(cs, f, fib);
    SelectIsBest(ds, f, fib);
    if Select(ds, f, fib).Some? {
      assert IsBest(cs, f, fib, Select(ds, f, fib).value);
      BestIsUniquePerColor(cs, c, fib, Select(cs, f, fib).value, Select(ds, f, fib).value);
    }
  }

  // ----- Selection across colors: ties are settled by arrival order -----

  lemma {:induction false} FirstBestIsKept(t: Tunnel, cs: seq<Tunnel>, f: Filter, fib: Fib, n: nat)
    requires 0 < n <= |cs| + 1
    requires Eligible(t, f, fib)
    requires forall u :: u in cs && Eligible(u, f, fib) ==> !Preferred(u, t)
    ensures SelectFrom([t] + cs, f, fib, n) == Some(t)
  {
    if n > 1 {
      FirstBestIsKept(t, cs, f, fib, n - 1);
      assert ([t] + cs)[n - 1] == cs[n - 2];
    } else {
      assert SelectFrom([t] + cs, f, fib, 0) == None;
    }
  }

  ghost predicate OrderIndependent(cs: seq<Tunnel>, f: Filter, fib: Fib) {
    forall ds: seq<Tunnel> :: (forall t :: t in cs <==> t in ds) ==> Select(ds, f, fib) == Select(cs, f, fib)
  }

  /** For the selection by terminal behavior, the result is independent of the
      arrival order exactly when the best candidate is unique. */
  lemma OrderIndependentIffUniqueBest(cs: seq<Tunnel>, f: Filter, fib: Fib)
    ensures OrderIndependent(cs, f, fib) <==>
            forall a, b :: IsBest(cs, f, fib, a) && IsBest(cs, f, fib, b) ==> a == b
  {
    SelectIsBest(cs, f, fib);
    if OrderIndependent(cs, f, fib) {
      forall a, b | IsBest(cs, f, fib, a) && IsBest(cs, f, fib, b)
        ensures a == b
      {
        FirstBestIsKept(a, cs, f, fib, |cs| + 1);
        FirstBestIsKept(b, cs, f, fib, |cs| + 1);
        assert Select([a] + cs, f, fib) == Some(a) && Select([b] + cs, f, fib) == Some(b);
      }
    } else {
      var ds: seq<Tunnel> :| (forall t :: t in cs <==> t in ds) && Select(ds, f, fib) != Select(cs, f, fib);
      SelectIsBest(ds, f, fib);
      assert Select(ds, f, fib).Some? <==> Select(cs, f, fib).Some?;
      assert IsBest(cs, f, fib, Select(ds, f, fib).value);
    }
  }

  function TieTunnel(color: Uint32): Tunnel {
    Tunnel("fd00::1", Some(color + 1 as IP6), Some(SrPolicy(color + 1, false, true, 0, [SidList(1, 1, [7])])),
           DT6, color, 5, 100, 65000, "10.0.0.1", false, false, [])
  }

  /** Two equally ranked candidates of different colors: whichever arrived first is used. */
  lemma BehaviorSelectionDependsOnArrival()
    ensures
      var fib: Fib := _ => LookupFailed;
      var a, b := TieTunnel(1), TieTunnel(2);
      && UniqueKeys([a, b])
      && Select([a, b], ByBehavior(DT6), fib) == Some(a)
      && Select([b, a], ByBehavior(DT6), fib) == Some(b)
      && a != b
  {
    var fib: Fib := _ => LookupFailed;
    var a, b := TieTunnel(1), TieTunnel(2);
    var lists := [SidList(1, 1, [7])];
    assert ListResolvable(lists[0], 0, fib);
    assert UsableLists(lists, [], fib, 0) == [];
    assert UsableLists(lists, [], fib, 1) == lists;
    PreferredIsStrictOrder(a, b, a);
    FirstBestIsKept(a, [b], ByBehavior(DT6), fib, 2);
    FirstBestIsKept(b, [a], ByBehavior(DT6), fib, 2);
    assert [a] + [b] == [a, b] && [b] + [a] == [b, a];
  }

  // ----- The loops, with the reachability cache shared by one selection -----

  /** Every cached verdict is the verdict a direct lookup would give. */
  ghost predicate CacheSound(cache: map<IP6, bool>, fib: Fib) {
    forall s :: s in cache ==> cache[s] == Reachable(fib(s))
  }

  method SidReachable(sid: IP6, cache: map<IP6, bool>, fib: Fib) returns (ok: bool, cache': map<IP6, bool>)
    requires CacheSound(cache, fib)
    ensures ok <==> Reachable(fib(sid))
    ensures CacheSound(cache', fib)
  {
    if sid in cache {
      return cache[sid], cache;
    }
    match fib(sid) {
      case LookupFailed =>
        ok := true;
      case NoRoute =>
        ok := false;
      case Route(paths) =>
        ok := false;
        for i := 0 to |paths|
          invariant !ok && false !in paths[..i]
        {
          if !paths[i] {
            ok := true;
            break;
          }
        }
    }
    cache' := cache[sid := ok];
  }

  method SidListResolvable(sl: SidList, mask: Uint32, cache: map<IP6, bool>, fib: Fib)
    returns (ok: bool, cache': map<IP6, bool>)
    requires CacheSound(cache, fib)
    ensures ok <==> ListResolvable(sl, mask, fib)
    ensures CacheSound(cache', fib)
  {
    cache' := cache;
    var i := 0;
    while i < sl.numSids && i < |sl.sids|
      invariant 0 <= i <= |sl.sids|
      invariant CacheSound(cache', fib)
      invariant forall k: nat :: k < i && MustVerify(sl, mask, k) ==> Reachable(fib(sl.sids[k]))
    {
      if i == 0 || VFlag(mask, i) {
        var reachable;
        reachable, cache' := SidReachable(sl.sids[i], cache', fib);
        if !reachable {
          return false, cache';
        }
      }
      i := i + 1;
    }
    ok := true;
  }

  /** Validation through the shared cache gives the policy that direct lookups give. */
  method ComputeUsablePolicy(t: Tunnel, cache: map<IP6, bool>, fib: Fib)
    returns (r: Option<SrPolicy>, cache': map<IP6, bool>)
    requires t.policy.Some?
    requires CacheSound(cache, fib)
    ensures r == UsablePolicy(t, fib)
    ensures CacheSound(cache', fib)
  {
    var lists := t.policy.value.sidLists;
    var kept: seq<SidList> := [];
    cache' := cache;
    for i := 0 to |lists|
      invariant CacheSound(cache', fib)
      invariant kept == UsableLists(lists, t.verifyMasks, fib, i)
      invariant |kept| <= i
      invariant |kept| == i ==> kept == lists[..i]
    {
      var ok;
      ok, cache' := SidListResolvable(lists[i], MaskFor(t.verifyMasks, i), cache', fib);
      if ok {
        kept := kept + [lists[i]];
      }
    }
    if |kept| == 0 {
      return None, cache';
    }
    if |kept| == |lists| {
      assert lists[..|lists|] == lists;
      return t.policy, cache';
    }
    r := Some(t.policy.value.(sidLists := kept));
  }
}
