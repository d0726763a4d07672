/**
  Candidates under the all-zero BSID. BGP hands every candidate that came without a BSID
  to the provider under it; such a candidate counts as having a BSID, so none is ever
  bound to it, and its policy cannot be installed.
 */
module ZeroBsid {
  import opened Srv6Types
  import opened CandidateSelection
  import opened CandidateCache
  import opened PolicyEvents
  import opened Srv6Effects

  /** The candidate a BGP advertisement becomes: t has what else it says, sid its usable
      BSID. Without one the S-Flag makes it invalid. */
  function FromBgp(t: Tunnel, lists: seq<SidList>, sid: Option<IP6>): (r: Option<Tunnel>)
    ensures r.Some? <==> |lists| > 0 && (t.specifiedBsidOnly ==> sid.Some?)
  {
    if lists == [] || (sid.None? && t.specifiedBsidOnly) then None
    else
      var b := if sid.Some? then sid.value else ZERO_ADDRESS;
      Some(t.(policy := Some(SrPolicy(b, false, true, 0, lists)), bsid := Some(b)))
  }

  /** A candidate from BGP always counts as having a BSID, so section 6.2.1 of RFC 9256 is
      never applied to it: it keeps the zero BSID it came with. */
  lemma BgpCandidatesAreNeverBound(t: Tunnel, lists: seq<SidList>, sid: Option<IP6>, c: Tunnel,
                                   node: string, c': Tunnel, dyn: map<PolicyKey, IP6>)
    requires FromBgp(t, lists, sid) == Some(c)
    ensures TunnelBsid(c) == Some(if sid.Some? then sid.value else ZERO_ADDRESS)
    ensures !BoundTo(node, c, c', dyn)
    ensures OnlyBinds(node, [c], [c'], dyn) <==> c' == c
  {
    assert [c][0] == c && [c'][0] == c';
  }

  /** A candidate of color 1 with one segment list. */
  function Path(bsid: IP6, behavior: Behavior, preference: Uint32): Tunnel {
    TieTunnel(1).(bsid := Some(bsid), policy := Some(SrPolicy(bsid, false, true, 0, [SidList(1, 1, [7])])),
                  behavior := behavior, preference := preference, distinguisher := preference)
  }

  lemma PathIsUsable(bsid: IP6, behavior: Behavior, preference: Uint32, fib: Fib)
    requires fib(7) == LookupFailed
    ensures UsablePolicy(Path(bsid, behavior, preference), fib) == Path(bsid, behavior, preference).policy
    ensures forall f :: Eligible(Path(bsid, behavior, preference), f, fib) <==>
              Wanted(f, Path(bsid, behavior, preference))
  {
    var lists := [SidList(1, 1, [7])];
    assert ListResolvable(lists[0], 0, fib);
    assert UsableLists(lists, [], fib, 0) == [];
    assert UsableLists(lists, [], fib, 1) == lists;
  }

  /** Of two valid candidates the preferred one is selected, whichever comes first. */
  lemma PreferredIsSelected(a: Tunnel, b: Tunnel, f: Filter, fib: Fib)
    requires Eligible(a, f, fib) && (Eligible(b, f, fib) ==> Preferred(a, b))
    ensures Select([a, b], f, fib) == Some(a)
  {
    SelectIsBest([a, b], f, fib);
    assert a in [a, b];
  }

  /** A preferred candidate without a BSID hides a valid one. */
  lemma ZeroBsidHidesValidCandidate(e: SteerKey, fib: Fib)
    requires e.prefix.isIP6 && fib(7) == LookupFailed
    ensures var zero, valid := Path(ZERO_ADDRESS, DT6, 200), Path(9, DT6, 100);
            && FromBgp(zero, zero.policy.value.sidLists, None) == Some(zero)
            && Target([zero, valid], e, fib) == Some(ZERO_ADDRESS) && Target([valid], e, fib) == Some(9)
  {
    var zero, valid := Path(ZERO_ADDRESS, DT6, 200), Path(9, DT6, 100);
    PathIsUsable(ZERO_ADDRESS, DT6, 200, fib);
    PathIsUsable(9, DT6, 100, fib);
    PreferredIsSelected(zero, valid, BehaviorOf(e), fib);
    SelectIsBest([valid], BehaviorOf(e), fib);
    assert valid in [valid];
  }

  /** An orphaned entry whose best candidate has the zero BSID is left neither steered nor
      dropped, whether or not dropping was asked for. */
  lemma ZeroTargetIsStranded(e: SteerKey, cs: seq<Tunnel>, fib: Fib, drop: bool,
                             steering: map<SteerKey, IP6>, policies: map<IP6, SrPolicy>, drops: set<SteerKey>,
                             steering': map<SteerKey, IP6>, policies': map<IP6, SrPolicy>, drops': set<SteerKey>)
    requires Target(cs, e, fib) == Some(ZERO_ADDRESS) && e !in steering
    requires ResteerEffect(e, cs, fib, drop, steering, policies, drops, steering', policies', drops')
    ensures e !in steering' && drops' == drops && !Resettled(e, cs, fib, drop, steering', policies', drops')
  {
  }

  /** Where no advertisement of an endpoint came with a zero policy BSID of its own, no
      selection ever finds one, so failover settles every entry. */
  lemma NonzeroAdvertisementsSettle(book: Book, last: LastWords, node: string, f: Filter, fib: Fib)
    requires Faithful(book, last)
    requires forall k :: (node, k) in last ==>
               var t := last[(node, k)]; TunnelBsid(t).Some? && t.policy.Some? ==> t.policy.value.bsid != ZERO_ADDRESS
    ensures SelectedBsid(Candidates(book.cache, node), f, fib) != Some(ZERO_ADDRESS)
  {
    var cs := Candidates(book.cache, node);
    SelectedIsInstallable(cs, f, fib);
    if Select(cs, f, fib).Some? {
      var t := Select(cs, f, fib).value;
      var k := KeyOf(t);
      LookupFinds(cs, k, t);
      assert HoldsLastWord(book, last, node, k);
    }
  }

  /** A valid End.DT4 candidate, preferred to a valid End.DT6 one of the same color. */
  ghost predicate Mixed(v4: Tunnel, v6: Tunnel, color: Uint32, fib: Fib) {
    && v4.behavior == DT4 && v6.behavior == DT6 && Preferred(v4, v6)
    && Eligible(v4, ByColor(color), fib) && Eligible(v6, ByColor(color), fib)
    && v4.policy.value.bsid != v6.policy.value.bsid
  }

  lemma MixedSelections(v4: Tunnel, v6: Tunnel, color: Uint32, fib: Fib)
    requires Mixed(v4, v6, color, fib)
    ensures SelectedBsid([v4, v6], ByBehavior(DT4), fib) == Some(v4.policy.value.bsid) ==
              SelectedBsid([v4, v6], ByColor(color), fib)
    ensures SelectedBsid([v4, v6], ByBehavior(DT6), fib) == Some(v6.policy.value.bsid)
  {
    PreferredIsSelected(v4, v6, ByColor(color), fib);
    PreferredIsSelected(v4, v6, ByBehavior(DT4), fib);
    SelectIsBest([v4, v6], ByBehavior(DT6), fib);
    assert v6 in [v4, v6];
  }

  lemma MixedExample(fib: Fib)
    requires fib(7) == LookupFailed
    ensures Mixed(Path(8, DT4, 200), Path(9, DT6, 100), 1, fib)
  {
    PathIsUsable(8, DT4, 200, fib);
    PathIsUsable(9, DT6, 100, fib);
  }

  /** On a node with an IPv4 prefix only, its own address is steered into the End.DT6
      candidate of such a color, whose policy neither the prefix nor the color installs:
      the entry dangles after the advertisement and after the prefix is learned. */
  lemma NodeSteeringCanDangle(a: IP6, p: Prefix, v4: Tunnel, v6: Tunnel, color: Uint32, fib: Fib,
                              p0: map<IP6, SrPolicy>)
    requires !p.isIP6 && Mixed(v4, v6, color, fib) && v6.policy.value.bsid !in p0
    ensures !NodeBacked([p], Some(a), [v4, v6], fib, p0) &&
            !AdvertisementBacked([p], Some(a), [v4, v6], fib, p0, color, None)
  {
    MixedSelections(v4, v6, color, fib);
    assert Target([v4, v6], MainTable(p), fib) == Some(v4.policy.value.bsid);
  }
}
