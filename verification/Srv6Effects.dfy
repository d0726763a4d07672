/**
  What the operations of the SRv6 provider do to VPP when its calls succeed: the steps of
  a failover, of reconciling one SR Policy and of installing a node, and how they compose.
  Targets are read off the endpoint's candidates as they are after the operation, with
  the dynamic BSIDs it bound.
 */
module Srv6Effects {
  import opened Srv6Types
  import opened CandidateSelection
  import opened CandidateCache
  import opened PolicyEvents

  const POD_VRF_INDEX := 2

  /** No steering entry resolves through a BSID that has no policy. */
  ghost predicate NoDangling(steering: map<SteerKey, IP6>, policies: map<IP6, SrPolicy>) {
    forall k :: k in steering ==> steering[k] in policies
  }

  /** The steering entries that do not use the BSID. */
  function WithoutBsid(steering: map<SteerKey, IP6>, b: IP6): map<SteerKey, IP6> {
    map k | k in steering && steering[k] != b :: steering[k]
  }

  /** Steering only lost entries, and only entries that used one of the BSIDs. */
  ghost predicate OnlyLoses(before: map<SteerKey, IP6>, after: map<SteerKey, IP6>, bsids: set<IP6>) {
    && (forall k :: k in after ==> k in before && after[k] == before[k])
    && (forall k :: k in before && before[k] !in bsids ==> k in after)
  }

  /** Drop routes only went away. */
  ghost predicate Lifted(before: map<SteerKey, string>, after: map<SteerKey, string>) {
    forall k :: k in after ==> k in before && after[k] == before[k]
  }

  /** Drop routes that were added are filed under the endpoint. */
  ghost predicate Filed(node: string, before: map<SteerKey, string>, after: map<SteerKey, string>) {
    forall k :: k in after ==> after[k] == node || (k in before && after[k] == before[k])
  }

  /** At most entries of the prefix went away, and nothing else changed. */
  ghost predicate Unsteered(p: Prefix, before: map<SteerKey, IP6>, after: map<SteerKey, IP6>) {
    && (forall k :: k in after ==> k in before && after[k] == before[k])
    && (forall k :: k in before && k.prefix != p ==> k in after)
  }

  /** Drop routes went away at most of these prefixes, in the main table, and of the node's
      own address, in the pod table. */
  ghost predicate LiftedFor(list: seq<Prefix>, a: Option<IP6>, before: map<SteerKey, string>,
                            after: map<SteerKey, string>) {
    && Lifted(before, after)
    && forall k :: k in before && k !in after ==>
         (k.table == 0 && k.prefix in list) || (a.Some? && k == SteerKey(2, Prefix(a.value, 128, true)))
  }

  lemma LiftsOwnAddress(a: IP6, before: map<SteerKey, string>, after: map<SteerKey, string>)
    requires after == before || after == before - {SteerKey(2, Prefix(a, 128, true))}
    ensures LiftedFor([], Some(a), before, after)
  {
  }

  // ----- Selections along a changing slice -----

  /** No wanted candidate is waiting for a dynamic BSID: it has one, or insists on being given one. */
  ghost predicate Ready(cs: seq<Tunnel>, f: Filter) {
    forall t :: t in cs && Wanted(f, t) ==> TunnelBsid(t).Some? || t.specifiedBsidOnly
  }

  lemma {:induction false} SelectFromPrefix(cs: seq<Tunnel>, ds: seq<Tunnel>, f: Filter, fib: Fib, n: nat)
    requires n <= |cs| && n <= |ds| && cs[..n] == ds[..n]
    ensures SelectFrom(cs, f, fib, n) == SelectFrom(ds, f, fib, n)
  {
    if n > 0 {
      assert cs[..n - 1] == cs[..n][..n - 1] == ds[..n - 1];
      assert cs[n - 1] == cs[..n][n - 1] == ds[n - 1];
      SelectFromPrefix(cs, ds, f, fib, n - 1);
    }
  }

  /** Once a selection has bound what it wants, what later selections bind does not change it. */
  lemma StableSelect(node: string, cs: seq<Tunnel>, cs': seq<Tunnel>, dyn: map<PolicyKey, IP6>, f: Filter, fib: Fib)
    requires Ready(cs, f) && OnlyBinds(node, cs, cs', dyn)
    ensures Ready(cs', f) && Select(cs', f, fib) == Select(cs, f, fib)
  {
    forall i | 0 <= i < |cs| ensures cs'[i] == cs[i] || (!Wanted(f, cs[i]) && !Wanted(f, cs'[i])) {
      assert cs[i] in cs;
    }
    StableSelectFrom(cs, cs', f, fib, |cs|);
  }

  lemma {:induction false} StableSelectFrom(cs: seq<Tunnel>, cs': seq<Tunnel>, f: Filter, fib: Fib, n: nat)
    requires n <= |cs| == |cs'|
    requires forall i :: 0 <= i < |cs| ==> cs'[i] == cs[i] || (!Wanted(f, cs[i]) && !Wanted(f, cs'[i]))
    ensures SelectFrom(cs', f, fib, n) == SelectFrom(cs, f, fib, n)
  {
    if n > 0 {
      StableSelectFrom(cs, cs', f, fib, n - 1);
    }
  }

  /** Partway through a selection: the first i candidates are bound and compared. */
  ghost predicate Selecting(node: string, f: Filter, fib: Fib, was: seq<Tunnel>, cs: seq<Tunnel>, i: nat,
                            best: Option<Tunnel>, policy: Option<SrPolicy>, dyn: map<PolicyKey, IP6>)
  {
    && i <= |cs| == |was| && (forall j :: i <= j < |cs| ==> cs[j] == was[j])
    && OnlyBinds(node, was, cs, dyn)
    && best == SelectFrom(cs, f, fib, i)
    && (best.Some? ==> best.value.policy.Some? && policy.Some? && policy == UsablePolicy(best.value, fib))
    && (best.None? ==> policy.None?)
  }

  lemma SelectingStep(node: string, f: Filter, fib: Fib, was: seq<Tunnel>, cs: seq<Tunnel>, i: nat,
                      best: Option<Tunnel>, policy: Option<SrPolicy>, dyn: map<PolicyKey, IP6>,
                      t: Tunnel, pol: Option<SrPolicy>, dyn': map<PolicyKey, IP6>)
    requires Selecting(node, f, fib, was, cs, i, best, policy, dyn) && i < |cs| && Extends(dyn, dyn')
    requires t == cs[i] || BoundTo(node, cs[i], t, dyn')
    requires (pol.Some? <==> Eligible(t, f, fib)) && (pol.Some? ==> pol == UsablePolicy(t, fib))
    ensures if pol.Some? && (best.None? || Preferred(t, best.value))
            then Selecting(node, f, fib, was, cs[i := t], i + 1, Some(t), pol, dyn')
            else Selecting(node, f, fib, was, cs[i := t], i + 1, best, policy, dyn')
  {
    var cs' := cs[i := t];
    assert cs'[..i] == cs[..i];
    SelectFromPrefix(cs, cs', f, fib, i);
    forall j | 0 <= j < |was| ensures cs'[j] == was[j] || BoundTo(node, was[j], cs'[j], dyn') {
      assert cs[j] == was[j] || BoundTo(node, was[j], cs[j], dyn);
    }
  }

  ghost predicate ReadyUpTo(cs: seq<Tunnel>, f: Filter, n: nat) {
    n <= |cs| && forall i :: 0 <= i < n && Wanted(f, cs[i]) ==> TunnelBsid(cs[i]).Some? || cs[i].specifiedBsidOnly
  }

  /** A BSID may have been bound to the SR Policy of a candidate that waits for one. */
  ghost predicate BindsOne(node: string, t: Tunnel, dyn: map<PolicyKey, IP6>, dyn': map<PolicyKey, IP6>) {
    && Extends(dyn, dyn') && (Nonzero(dyn) ==> Nonzero(dyn'))
    && (forall k :: k in dyn' && k !in dyn ==>
          k == PolicyKey(node, t.color) && TunnelBsid(t).None? && !t.specifiedBsidOnly)
  }

  ghost predicate BindsFor(node: string, cs: seq<Tunnel>, dyn: map<PolicyKey, IP6>, dyn': map<PolicyKey, IP6>) {
    && Extends(dyn, dyn') && (Nonzero(dyn) ==> Nonzero(dyn'))
    && (forall k :: k in dyn' && k !in dyn ==> Awaited(node, cs, k))
  }

  lemma BindsForOne(node: string, cs: seq<Tunnel>, i: nat,
                    dyn: map<PolicyKey, IP6>, dyn': map<PolicyKey, IP6>, dyn'': map<PolicyKey, IP6>)
    requires i < |cs| && BindsFor(node, cs, dyn, dyn') && BindsOne(node, cs[i], dyn', dyn'')
    ensures BindsFor(node, cs, dyn, dyn'')
  {
    assert cs[i] in cs;
  }

  /** The policy BSID of the best valid candidate a selection finds. It is the zero address
      when that candidate came with an all-zero BSID. */
  ghost function SelectedBsid(cs: seq<Tunnel>, f: Filter, fib: Fib): Option<IP6> {
    var best := Select(cs, f, fib);
    if best.Some? && best.value.policy.Some? then Some(best.value.policy.value.bsid) else None
  }

  function BehaviorOf(k: SteerKey): Filter {
    ByBehavior(PrefixBehavior(k.prefix))
  }

  /** Where a steering entry should go: the best valid candidate of its behavior. */
  ghost function Target(cs: seq<Tunnel>, k: SteerKey, fib: Fib): Option<IP6> {
    SelectedBsid(cs, BehaviorOf(k), fib)
  }

  /** That is a candidate that decapsulates the entry's address family, the best of those. */
  lemma TargetIs(cs: seq<Tunnel>, k: SteerKey, fib: Fib)
    ensures exists best ::
              && BestOf(cs, ByBehavior(if k.prefix.isIP6 then DT6 else DT4), fib, best)
              && Target(cs, k, fib) == if best.Some? then Some(best.value.policy.value.bsid) else None
  {
    SelectIsBestOf(cs, BehaviorOf(k), fib);
  }

  lemma SelectedIsInstallable(cs: seq<Tunnel>, f: Filter, fib: Fib)
    ensures
      match Select(cs, f, fib)
      case None => SelectedBsid(cs, f, fib).None?
      case Some(t) =>
        && t in cs && Eligible(t, f, fib)
        && SelectedBsid(cs, f, fib) == Some(t.policy.value.bsid)
        && UsablePolicy(t, fib).value.bsid == t.policy.value.bsid
        && UsablePolicy(t, fib).value.sidLists != []
  {
    SelectIsBest(cs, f, fib);
  }

  /** The policy is the one to install for the candidate a selection finds best. */
  ghost predicate ChosenBy(cs: seq<Tunnel>, f: Filter, fib: Fib, p: SrPolicy) {
    var best := Select(cs, f, fib);
    Ready(cs, f) && best.Some? && best.value.policy.Some? && UsablePolicy(best.value, fib) == Some(p)
  }

  /** VPP has under the BSID what is to be installed for a best candidate. */
  ghost predicate Served(cs: seq<Tunnel>, fib: Fib, b: IP6, policies: map<IP6, SrPolicy>) {
    b in policies && policies[b].bsid == b && exists f :: ChosenBy(cs, f, fib, policies[b])
  }

  /** Every policy is the one that was there or the one to install for a best candidate. */
  ghost predicate Written(cs: seq<Tunnel>, fib: Fib, p0: map<IP6, SrPolicy>, p1: map<IP6, SrPolicy>) {
    forall b :: b in p1 ==> (b in p0 && p1[b] == p0[b]) || Served(cs, fib, b, p1)
  }

  /** What later selections bind leaves served what was served. */
  lemma ServedStable(node: string, cs: seq<Tunnel>, cs': seq<Tunnel>, dyn: map<PolicyKey, IP6>, fib: Fib,
                     b: IP6, policies: map<IP6, SrPolicy>)
    requires Served(cs, fib, b, policies) && OnlyBinds(node, cs, cs', dyn)
    ensures Served(cs', fib, b, policies)
  {
    var f :| ChosenBy(cs, f, fib, policies[b]);
    StableSelect(node, cs, cs', dyn, f, fib);
    assert ChosenBy(cs', f, fib, policies[b]);
  }

  lemma WrittenStable(node: string, cs: seq<Tunnel>, cs': seq<Tunnel>, dyn: map<PolicyKey, IP6>, fib: Fib,
                      p0: map<IP6, SrPolicy>, p1: map<IP6, SrPolicy>)
    requires Written(cs, fib, p0, p1) && OnlyBinds(node, cs, cs', dyn)
    ensures Written(cs', fib, p0, p1)
  {
    forall b | b in p1 ensures (b in p0 && p1[b] == p0[b]) || Served(cs', fib, b, p1) {
      if Served(cs, fib, b, p1) {
        ServedStable(node, cs, cs', dyn, fib, b, p1);
      }
    }
  }

  /** Overwriting keeps a served BSID served, though perhaps by another best candidate. */
  lemma WrittenKeepsServed(cs: seq<Tunnel>, fib: Fib, b: IP6, p0: map<IP6, SrPolicy>, p1: map<IP6, SrPolicy>)
    requires Served(cs, fib, b, p0) && Written(cs, fib, p0, p1) && b in p1
    ensures Served(cs, fib, b, p1)
  {
  }

  lemma WrittenTrans(cs: seq<Tunnel>, fib: Fib, p0: map<IP6, SrPolicy>, p1: map<IP6, SrPolicy>, p2: map<IP6, SrPolicy>)
    requires Written(cs, fib, p0, p1) && Written(cs, fib, p1, p2)
    ensures Written(cs, fib, p0, p2)
  {
    forall b | b in p2 ensures (b in p0 && p2[b] == p0[b]) || Served(cs, fib, b, p2) {
      if b in p1 && Served(cs, fib, b, p1) {
        WrittenKeepsServed(cs, fib, b, p1, p2);
      }
    }
  }

  /** Installing the choice of a selection serves its BSID. */
  lemma InstallingServes(cs: seq<Tunnel>, f: Filter, fib: Fib, p: SrPolicy, p0: map<IP6, SrPolicy>)
    requires ChosenBy(cs, f, fib, p)
    ensures Served(cs, fib, p.bsid, p0[p.bsid := p]) && Written(cs, fib, p0, p0[p.bsid := p])
  {
  }

  ghost predicate AllServed(cs: seq<Tunnel>, fib: Fib, done: set<IP6>, policies: map<IP6, SrPolicy>) {
    forall b :: b in done ==> Served(cs, fib, b, policies)
  }

  lemma AllServedStable(node: string, cs: seq<Tunnel>, cs': seq<Tunnel>, dyn: map<PolicyKey, IP6>, fib: Fib,
                        done: set<IP6>, policies: map<IP6, SrPolicy>)
    requires AllServed(cs, fib, done, policies) && OnlyBinds(node, cs, cs', dyn)
    ensures AllServed(cs', fib, done, policies)
  {
    forall b | b in done ensures Served(cs', fib, b, policies) {
      ServedStable(node, cs, cs', dyn, fib, b, policies);
    }
  }

  // ----- Failover -----

  /** What failover owes one steering entry whose BSID was withdrawn. */
  ghost predicate Resettled(k: SteerKey, cs: seq<Tunnel>, fib: Fib, drop: bool,
                            steering: map<SteerKey, IP6>, policies: map<IP6, SrPolicy>, drops: set<SteerKey>)
  {
    match Target(cs, k, fib)
    case Some(b) => k in steering && steering[k] == b && Served(cs, fib, b, policies) && k !in drops
    case None => k !in steering && (drop ==> k in drops)
  }

  /** What re-steering comes to: vpplink refuses a policy under the zero address, and then
      the entry is neither steered nor dropped. */
  ghost predicate Handled(k: SteerKey, cs: seq<Tunnel>, fib: Fib, drop: bool, drops0: set<SteerKey>,
                          steering: map<SteerKey, IP6>, policies: map<IP6, SrPolicy>, drops: set<SteerKey>)
  {
    if Target(cs, k, fib) == Some(ZERO_ADDRESS) then k !in steering && (k in drops <==> k in drops0)
    else
      && Resettled(k, cs, fib, drop, steering, policies, drops)
      && (Target(cs, k, fib).None? ==> (k in drops <==> drop || k in drops0))
  }

  /** The effect of re-steering one orphan. */
  ghost predicate ResteerEffect(j: SteerKey, cs: seq<Tunnel>, fib: Fib, drop: bool,
                                steering: map<SteerKey, IP6>, policies: map<IP6, SrPolicy>, drops: set<SteerKey>,
                                steering': map<SteerKey, IP6>, policies': map<IP6, SrPolicy>, drops': set<SteerKey>)
  {
    && Ready(cs, BehaviorOf(j))
    && match Target(cs, j, fib)
       case Some(b) =>
         if b == ZERO_ADDRESS then steering' == steering && policies' == policies && drops' == drops
         else
           && steering' == steering[j := b]
           && policies'.Keys == policies.Keys + {b} && Written(cs, fib, policies, policies')
           && Served(cs, fib, b, policies')
           && j !in drops' && drops' - {j} == drops - {j}
       case None =>
         && steering' == steering && policies' == policies
         && drops' == if drop then drops + {j} else drops
  }

  /** An entry is pointed at a policy that was installed now or, by this failover, before;
      under the zero address nothing happens. */
  ghost predicate Pointed(j: SteerKey, p: SrPolicy, done: set<IP6>, done': set<IP6>,
                          steering: map<SteerKey, IP6>, policies: map<IP6, SrPolicy>, drops: set<SteerKey>,
                          steering': map<SteerKey, IP6>, policies': map<IP6, SrPolicy>, drops': set<SteerKey>)
  {
    if p.bsid == ZERO_ADDRESS then steering' == steering && policies' == policies && drops' == drops && done' == done
    else
      && steering' == steering[j := p.bsid] && done' == done + {p.bsid}
      && policies' == (if p.bsid in done then policies else policies[p.bsid := p])
      && j !in drops' && drops' - {j} == drops - {j}
  }

  /** Pointing an orphan at the choice for its behavior is the effect of re-steering it. */
  lemma PointingResteers(j: SteerKey, cs: seq<Tunnel>, fib: Fib, drop: bool, p: SrPolicy, done: set<IP6>,
                         done': set<IP6>, steering: map<SteerKey, IP6>, policies: map<IP6, SrPolicy>,
                         drops: set<SteerKey>, steering': map<SteerKey, IP6>, policies': map<IP6, SrPolicy>,
                         drops': set<SteerKey>)
    requires AllServed(cs, fib, done, policies) && ChosenBy(cs, BehaviorOf(j), fib, p)
    requires Pointed(j, p, done, done', steering, policies, drops, steering', policies', drops')
    ensures AllServed(cs, fib, done', policies')
    ensures ResteerEffect(j, cs, fib, drop, steering, policies, drops, steering', policies', drops')
  {
    SelectedIsInstallable(cs, BehaviorOf(j), fib);
    InstallingServes(cs, BehaviorOf(j), fib, p, policies);
    assert Written(cs, fib, policies, policies');
    forall b | b in done' ensures Served(cs, fib, b, policies') {
      if b in done {
        WrittenKeepsServed(cs, fib, b, policies, policies');
      }
    }
  }

  /** Re-steering one orphan handles it and keeps the others handled. */
  lemma ResteerKeepsHandled(j: SteerKey, k: SteerKey, cs: seq<Tunnel>, fib: Fib, drop: bool, drops0: set<SteerKey>,
                            steering: map<SteerKey, IP6>, policies: map<IP6, SrPolicy>, drops: set<SteerKey>,
                            steering': map<SteerKey, IP6>, policies': map<IP6, SrPolicy>, drops': set<SteerKey>)
    requires ResteerEffect(j, cs, fib, drop, steering, policies, drops, steering', policies', drops')
    requires Handled(k, cs, fib, drop, drops0, steering, policies, drops) ||
             (k == j && k !in steering && (k in drops <==> k in drops0))
    ensures Handled(k, cs, fib, drop, drops0, steering', policies', drops')
  {
    if k != j && Target(cs, j, fib).Some? {
      assert k in drops - {j} <==> k in drops;
      assert k in drops' - {j} <==> k in drops';
      if k in steering && Served(cs, fib, steering[k], policies) && policies' != policies {
        WrittenKeepsServed(cs, fib, steering[k], policies, policies');
      }
    }
  }

  /** Drop-upon-invalid is asked for by the withdraw or any cached candidate, and
      honored only while some candidate remains. */
  ghost predicate DropRequested(cs: seq<Tunnel>, k: CandidateKey, withdrawFlag: bool) {
    && (withdrawFlag || exists t :: t in cs && t.dropUponInvalid)
    && Without(cs, k) != []
  }

  /** What is recorded for an SR Policy is its best valid candidate, as it is installed, or
      nothing when none is valid. */
  ghost predicate FollowsSelection(cs: seq<Tunnel>, key: PolicyKey, fib: Fib,
                                   installed: map<PolicyKey, InstalledPolicy>)
  {
    match Select(cs, ByColor(key.color), fib)
    case None => key !in installed
    case Some(best) =>
      && key in installed && best.policy.Some? && Some(installed[key].policy) == UsablePolicy(best, fib)
      && installed[key].tunnel ==
           best.(policy := Some(installed[key].policy), bsid := Some(installed[key].policy.bsid))
  }

  /** Reconciling the color finds it without a valid candidate and removes this BSID, the
      one recorded for it, together with all its steering. */
  ghost predicate Removes(cs: seq<Tunnel>, color: Uint32, fib: Fib, prior: Option<InstalledPolicy>, b: IP6) {
    SelectedBsid(cs, ByColor(color), fib).None? && prior.Some? && prior.value.policy.bsid == b
  }

  /** No other color's candidate uses the BSID installed for this SR Policy. */
  ghost predicate DistinctFrom(cs: seq<Tunnel>, color: Uint32, prior: Option<InstalledPolicy>) {
    forall t :: t in cs && t.color != color && t.policy.Some? && prior.Some? ==>
      t.policy.value.bsid != prior.value.policy.bsid
  }

  /** Between distinct BSIDs a failover target is never the BSID that reconciling an invalid
      color removes. */
  lemma TargetSurvivesReconcile(cs: seq<Tunnel>, k: SteerKey, fib: Fib, color: Uint32, prior: Option<InstalledPolicy>)
    requires DistinctFrom(cs, color, prior) && Target(cs, k, fib).Some?
    ensures !Removes(cs, color, fib, prior, Target(cs, k, fib).value)
  {
    SelectedIsInstallable(cs, BehaviorOf(k), fib);
    SelectedIsInstallable(cs, ByColor(color), fib);
    SelectIsBest(cs, ByColor(color), fib);
  }

  /** The drop routes of an endpoint are released with its last candidate. */
  function Undropped(rest: seq<Tunnel>, owned: set<SteerKey>, drops: set<SteerKey>): set<SteerKey> {
    if rest == [] then drops - owned else drops
  }

  /** The failover of one withdraw. rest are the remaining candidates, owned the drop routes
      of the endpoint. */
  ghost predicate FailedOver(cs: seq<Tunnel>, k: CandidateKey, withdrawFlag: bool, rest: seq<Tunnel>, fib: Fib,
                             prior: Option<InstalledPolicy>, owned: set<SteerKey>,
                             steering: map<SteerKey, IP6>, policies: map<IP6, SrPolicy>, drops: set<SteerKey>,
                             steering': map<SteerKey, IP6>, policies': map<IP6, SrPolicy>, drops': set<SteerKey>)
  {
    var matched, drop, kept := MatchedBsids(cs, k), DropRequested(cs, k, withdrawFlag), Undropped(rest, owned, drops);
    && (forall e :: e in steering && steering[e] in matched ==>
          if Target(rest, e, fib).Some? && Removes(rest, k.color, fib, prior, Target(rest, e, fib).value)
          then e !in steering'
          else Handled(e, rest, fib, drop, kept, steering', policies', drops'))
    && (forall e :: e in steering && steering[e] !in matched ==>
          if Removes(rest, k.color, fib, prior, steering[e]) then e !in steering'
          else e in steering' && steering'[e] == steering[e])
    && (forall e :: !(e in steering && steering[e] in matched) ==> (e in drops' <==> e in kept))
    && steering'.Keys <= steering.Keys && Written(rest, fib, policies, policies')
    && (NoDangling(steering, policies) ==> NoDangling(steering', policies'))
  }

  /** The failover theorem: a withdrawn entry is settled exactly when the best candidate of
      its behavior has a nonzero policy BSID that reconciling the withdrawn color leaves. */
  lemma FailoverSettlesIff(cs: seq<Tunnel>, k: CandidateKey, withdrawFlag: bool, rest: seq<Tunnel>, fib: Fib,
                           prior: Option<InstalledPolicy>, owned: set<SteerKey>,
                           steering: map<SteerKey, IP6>, policies: map<IP6, SrPolicy>, drops: set<SteerKey>,
                           steering': map<SteerKey, IP6>, policies': map<IP6, SrPolicy>, drops': set<SteerKey>,
                           e: SteerKey)
    requires FailedOver(cs, k, withdrawFlag, rest, fib, prior, owned, steering, policies, drops, steering', policies',
                        drops')
    requires e in steering && steering[e] in MatchedBsids(cs, k)
    ensures Resettled(e, rest, fib, DropRequested(cs, k, withdrawFlag), steering', policies', drops') <==>
            match Target(rest, e, fib)
            case None => true
            case Some(b) => b != ZERO_ADDRESS && !Removes(rest, k.color, fib, prior, b)
    ensures DistinctFrom(rest, k.color, prior) && Target(rest, e, fib) != Some(ZERO_ADDRESS) ==>
              Resettled(e, rest, fib, DropRequested(cs, k, withdrawFlag), steering', policies', drops')
  {
    if DistinctFrom(rest, k.color, prior) && Target(rest, e, fib).Some? {
      TargetSurvivesReconcile(rest, e, fib, k.color, prior);
    }
  }

  /** Step 1 of a failover: the entries of the withdrawn BSIDs are orphaned, their policies gone. */
  ghost predicate TornDown(matched: seq<IP6>, orphaned: seq<SteerKey>, s0: map<SteerKey, IP6>, p0: map<IP6, SrPolicy>,
                           s1: map<SteerKey, IP6>, p1: map<IP6, SrPolicy>)
  {
    && (forall e :: e in orphaned <==> e in s0 && s0[e] in matched)
    && (forall e :: e in s1 <==> e in s0 && e !in orphaned)
    && (forall e :: e in s1 ==> s1[e] == s0[e])
    && p1 == p0 - (set b | b in matched)
  }

  /** Step 2: every orphan is handled, nothing else moved. */
  ghost predicate Resteered(rest: seq<Tunnel>, orphaned: seq<SteerKey>, fib: Fib, drop: bool,
                            s1: map<SteerKey, IP6>, p1: map<IP6, SrPolicy>, d1: set<SteerKey>,
                            s2: map<SteerKey, IP6>, p2: map<IP6, SrPolicy>, d2: set<SteerKey>)
  {
    && (forall e :: e in orphaned ==> Ready(rest, BehaviorOf(e)) && Handled(e, rest, fib, drop, d1, s2, p2, d2))
    && (forall e :: e in s1 ==> e in s2 && s2[e] == s1[e])
    && (forall e :: e in s2 ==> e in s1 || e in orphaned)
    && (forall e :: e !in orphaned ==> (e in d2 <==> e in d1))
    && p1.Keys <= p2.Keys && (ZERO_ADDRESS !in p1 ==> ZERO_ADDRESS !in p2) && Written(rest, fib, p1, p2)
  }

  /** What a later selection binds does not change what an orphan was owed. */
  lemma ResteeredStable(node: string, rest: seq<Tunnel>, rest': seq<Tunnel>, dyn: map<PolicyKey, IP6>,
                        orphaned: seq<SteerKey>, fib: Fib, drop: bool,
                        s1: map<SteerKey, IP6>, p1: map<IP6, SrPolicy>, d1: set<SteerKey>,
                        s2: map<SteerKey, IP6>, p2: map<IP6, SrPolicy>, d2: set<SteerKey>)
    requires Resteered(rest, orphaned, fib, drop, s1, p1, d1, s2, p2, d2) && OnlyBinds(node, rest, rest', dyn)
    ensures Resteered(rest', orphaned, fib, drop, s1, p1, d1, s2, p2, d2)
  {
    forall e | e in orphaned ensures Ready(rest', BehaviorOf(e)) && Handled(e, rest', fib, drop, d1, s2, p2, d2) {
      StableSelect(node, rest, rest', dyn, BehaviorOf(e), fib);
      if e in s2 && Served(rest, fib, s2[e], p2) {
        ServedStable(node, rest, rest', dyn, fib, s2[e], p2);
      }
    }
    WrittenStable(node, rest, rest', dyn, fib, p1, p2);
  }

  lemma ResteeredOneMore(rest: seq<Tunnel>, orphaned: seq<SteerKey>, j: SteerKey, fib: Fib, drop: bool,
                         s1: map<SteerKey, IP6>, p1: map<IP6, SrPolicy>, d1: set<SteerKey>,
                         s2: map<SteerKey, IP6>, p2: map<IP6, SrPolicy>, d2: set<SteerKey>,
                         s3: map<SteerKey, IP6>, p3: map<IP6, SrPolicy>, d3: set<SteerKey>)
    requires Resteered(rest, orphaned, fib, drop, s1, p1, d1, s2, p2, d2) && j !in s1
    requires ResteerEffect(j, rest, fib, drop, s2, p2, d2, s3, p3, d3)
    ensures Resteered(rest, orphaned + [j], fib, drop, s1, p1, d1, s3, p3, d3)
  {
    forall e | e in orphaned + [j] ensures Ready(rest, BehaviorOf(e)) && Handled(e, rest, fib, drop, d1, s3, p3, d3) {
      if e in orphaned {
        assert Handled(e, rest, fib, drop, d1, s2, p2, d2);
      }
      ResteerKeepsHandled(j, e, rest, fib, drop, d1, s2, p2, d2, s3, p3, d3);
    }
    WrittenTrans(rest, fib, p1, p2, p3);
    forall e | e !in orphaned + [j] ensures e in d3 <==> e in d1 {
      assert (e in d3 <==> e in d3 - {j}) && (e in d2 <==> e in d2 - {j});
    }
  }

  lemma ResteeredNext(node: string, rest: seq<Tunnel>, rest': seq<Tunnel>, dyn: map<PolicyKey, IP6>,
                      orphaned: seq<SteerKey>, j: SteerKey, fib: Fib, drop: bool,
                      s1: map<SteerKey, IP6>, p1: map<IP6, SrPolicy>, d1: set<SteerKey>,
                      s2: map<SteerKey, IP6>, p2: map<IP6, SrPolicy>, d2: set<SteerKey>,
                      s3: map<SteerKey, IP6>, p3: map<IP6, SrPolicy>, d3: set<SteerKey>)
    requires Resteered(rest, orphaned, fib, drop, s1, p1, d1, s2, p2, d2) && OnlyBinds(node, rest, rest', dyn) &&
             j !in s1
    requires ResteerEffect(j, rest', fib, drop, s2, p2, d2, s3, p3, d3)
    ensures Resteered(rest', orphaned + [j], fib, drop, s1, p1, d1, s3, p3, d3)
  {
    ResteeredStable(node, rest, rest', dyn, orphaned, fib, drop, s1, p1, d1, s2, p2, d2);
    ResteeredOneMore(rest', orphaned, j, fib, drop, s1, p1, d1, s2, p2, d2, s3, p3, d3);
  }

  /** Step 3: the color is installed, or removed when it has no valid candidate left; a
      policy under the zero address is refused. */
  ghost predicate Reconciled(rest: seq<Tunnel>, color: Uint32, fib: Fib, prior: Option<InstalledPolicy>,
                             s2: map<SteerKey, IP6>, p2: map<IP6, SrPolicy>, s3: map<SteerKey, IP6>,
                             p3: map<IP6, SrPolicy>)
  {
    && Ready(rest, ByColor(color))
    && match SelectedBsid(rest, ByColor(color), fib)
       case Some(b) => s3 == s2 && p3.Keys == p2.Keys + (if b == ZERO_ADDRESS then {} else {b}) &&
                       Written(rest, fib, p2, p3)
       case None =>
         if prior.Some? then s3 == WithoutBsid(s2, prior.value.policy.bsid) && p3 == p2 - {prior.value.policy.bsid}
         else s3 == s2 && p3 == p2
  }

  /** Step 4: deferred cleanup frees unreferenced BSIDs only. */
  ghost predicate Freed(s3: map<SteerKey, IP6>, p3: map<IP6, SrPolicy>, p4: map<IP6, SrPolicy>) {
    && (forall b :: b in p4 ==> b in p3 && p4[b] == p3[b])
    && forall b :: b in p3 && b !in p4 ==> b !in s3.Values
  }

  /** No superseded BSID is forgotten: each is gone from VPP or still queued, and if no call
      failed only those in use are. Of the live BSIDs, those only are freed. */
  ghost predicate Drained(queue: seq<IP6>, superseded: Option<IP6>, reliable: bool, live: set<IP6>,
                          pending: seq<IP6>, steering: map<SteerKey, IP6>, policies: map<IP6, SrPolicy>)
  {
    && (forall b :: b in queue || Some(b) == superseded ==> b in pending || b !in policies)
    && (forall b :: b in pending || (b in live && b !in policies) ==> b in queue || Some(b) == superseded)
    && (reliable ==> forall b :: b in pending ==> b in steering.Values)
  }

  lemma FreeingKeepsDangling(s3: map<SteerKey, IP6>, p3: map<IP6, SrPolicy>, p4: map<IP6, SrPolicy>)
    requires Freed(s3, p3, p4)
    ensures NoDangling(s3, p4) <==> NoDangling(s3, p3)
  {
    forall e | e in s3 ensures s3[e] in p4 <==> s3[e] in p3 {
      assert s3[e] in s3.Values;
    }
  }

  /** Installing the color's choice, or finding it there, reconciles the color. */
  lemma InstallingReconciles(cs: seq<Tunnel>, color: Uint32, fib: Fib, prior: Option<InstalledPolicy>, p: SrPolicy,
                             s: map<SteerKey, IP6>, p0: map<IP6, SrPolicy>, p1: map<IP6, SrPolicy>)
    requires ChosenBy(cs, ByColor(color), fib, p)
    requires if p.bsid == ZERO_ADDRESS then p1 == p0 else p.bsid in p1 && (p1 == p0 || p1 == p0[p.bsid := p])
    ensures Reconciled(cs, color, fib, prior, s, p0, s, p1)
  {
    SelectedIsInstallable(cs, ByColor(color), fib);
    InstallingServes(cs, ByColor(color), fib, p, p0);
  }

  /** What is left of the policies after the reconcile and the cleanup. */
  lemma ReconcileWrites(rest: seq<Tunnel>, color: Uint32, fib: Fib, prior: Option<InstalledPolicy>,
                        s2: map<SteerKey, IP6>, p2: map<IP6, SrPolicy>, s3: map<SteerKey, IP6>, p3: map<IP6, SrPolicy>,
                        p4: map<IP6, SrPolicy>)
    requires Reconciled(rest, color, fib, prior, s2, p2, s3, p3) && Freed(s3, p3, p4)
    ensures Written(rest, fib, p2, p4)
  {
    assert Written(rest, fib, p2, p3);
    assert Written(rest, fib, p3, p4);
    WrittenTrans(rest, fib, p2, p3, p4);
  }

  /** A handled orphan stays handled through the reconcile, unless that removes its BSID,
      and through the deferred cleanup. */
  lemma OrphanStaysHandled(
    e: SteerKey, rest: seq<Tunnel>, drop: bool, fib: Fib, color: Uint32, prior: Option<InstalledPolicy>,
    d0: set<SteerKey>, s2: map<SteerKey, IP6>, p2: map<IP6, SrPolicy>, s3: map<SteerKey, IP6>, p3: map<IP6, SrPolicy>,
    p4: map<IP6, SrPolicy>, drops: set<SteerKey>)
    requires Handled(e, rest, fib, drop, d0, s2, p2, drops)
    requires Reconciled(rest, color, fib, prior, s2, p2, s3, p3) && Freed(s3, p3, p4)
    ensures if Target(rest, e, fib).Some? && Removes(rest, color, fib, prior, Target(rest, e, fib).value) then e !in s3
            else Handled(e, rest, fib, drop, d0, s3, p4, drops)
  {
    if e in s3 {
      assert s3[e] in s3.Values;
      if Served(rest, fib, s3[e], p2) && s3[e] in p3 && p3 != p2 && SelectedBsid(rest, ByColor(color), fib).Some? {
        WrittenKeepsServed(rest, fib, s3[e], p2, p3);
      }
    }
  }

  /** The last selection of a failover binds more and reconciles the color. */
  /** A policy that was not withdrawn is there to steer to, and in the end only queued for
      cleanup or removed with its color. */
  ghost predicate OthersKept(matched: seq<IP6>, queue: seq<IP6>, rest: seq<Tunnel>, color: Uint32, fib: Fib,
                             prior: Option<InstalledPolicy>, p0: map<IP6, SrPolicy>, mid: set<IP6>,
                             p4: map<IP6, SrPolicy>)
  {
    forall b :: b in p0 && b !in matched ==>
      b in mid && (b in p4 || b in queue || Removes(rest, color, fib, prior, b))
  }

  /** What a failover passes through: the entries that lost their policy, the candidates
      left, and VPP after the tear-down, the re-steering and the reconciling. */
  datatype Handover = Handover(
    lost: seq<SteerKey>, rest: seq<Tunnel>, s1: map<SteerKey, IP6>, p1: map<IP6, SrPolicy>, d1: set<SteerKey>,
    s2: map<SteerKey, IP6>, p2: map<IP6, SrPolicy>, p3: map<IP6, SrPolicy>)

  ghost predicate HandedOver(
    h: Handover, node: string, matched: seq<IP6>, color: Uint32, drop: bool, rest': seq<Tunnel>,
    dyn: map<PolicyKey, IP6>, fib: Fib, prior: Option<InstalledPolicy>, owned: set<SteerKey>,
    s0: map<SteerKey, IP6>, p0: map<IP6, SrPolicy>, d0: set<SteerKey>,
    s3: map<SteerKey, IP6>, p4: map<IP6, SrPolicy>, drops: set<SteerKey>)
  {
    && OnlyBinds(node, h.rest, rest', dyn) && h.d1 == Undropped(h.rest, owned, d0)
    && TornDown(matched, h.lost, s0, p0, h.s1, h.p1)
    && Resteered(h.rest, h.lost, fib, drop, h.s1, h.p1, h.d1, h.s2, h.p2, drops)
    && Reconciled(rest', color, fib, prior, h.s2, h.p2, s3, h.p3) && Freed(s3, h.p3, p4)
  }

  lemma FailoverFinishes(
    h: Handover, node: string, cs: seq<Tunnel>, k: CandidateKey, flag: bool, rest': seq<Tunnel>,
    dyn: map<PolicyKey, IP6>, fib: Fib, prior: Option<InstalledPolicy>, owned: set<SteerKey>,
    queue: seq<IP6>, reliable: bool, pending: seq<IP6>, s0: map<SteerKey, IP6>, p0: map<IP6, SrPolicy>,
    d0: set<SteerKey>, s3: map<SteerKey, IP6>, p4: map<IP6, SrPolicy>, drops: set<SteerKey>)
    requires HandedOver(h, node, MatchedBsids(cs, k), k.color, DropRequested(cs, k, flag), rest', dyn, fib, prior,
                        owned, s0, p0, d0, s3, p4, drops)
    requires Drained(queue, None, reliable, h.p3.Keys, pending, s3, p4)
    ensures FailedOver(cs, k, flag, rest', fib, prior, owned, s0, p0, d0, s3, p4, drops)
    ensures OthersKept(MatchedBsids(cs, k), queue, rest', k.color, fib, prior, p0, h.p2.Keys, p4)
  {
    ResteeredStable(node, h.rest, rest', dyn, h.lost, fib, DropRequested(cs, k, flag), h.s1, h.p1, h.d1, h.s2, h.p2,
                    drops);
    FailoverComposes(cs, k, flag, rest', fib, prior, owned, h.lost, s0, p0, d0, h.s1, h.p1, h.d1, h.s2, h.p2, s3, h.p3,
                     p4, drops);
  }

  /** No step of a failover leaves an entry without its policy. */
  lemma FailoverLeavesNothingDangling(
    rest: seq<Tunnel>, orphaned: seq<SteerKey>, drop: bool, fib: Fib, color: Uint32, prior: Option<InstalledPolicy>,
    s1: map<SteerKey, IP6>, p1: map<IP6, SrPolicy>, d1: set<SteerKey>,
    s2: map<SteerKey, IP6>, p2: map<IP6, SrPolicy>, d2: set<SteerKey>,
    s3: map<SteerKey, IP6>, p3: map<IP6, SrPolicy>, p4: map<IP6, SrPolicy>)
    requires NoDangling(s1, p1)
    requires Resteered(rest, orphaned, fib, drop, s1, p1, d1, s2, p2, d2)
    requires Reconciled(rest, color, fib, prior, s2, p2, s3, p3) && Freed(s3, p3, p4)
    ensures NoDangling(s3, p4)
  {
    forall e | e in s3 ensures s3[e] in p3 {
      assert e in s2 && s2[e] == s3[e];
      assert e in orphaned ==> Handled(e, rest, fib, drop, d1, s2, p2, d2);
    }
    FreeingKeepsDangling(s3, p3, p4);
  }

  /** An entry of another BSID stays, unless reconciling removes that BSID. */
  lemma OtherStays(e: SteerKey, matched: seq<IP6>, rest: seq<Tunnel>, orphaned: seq<SteerKey>, drop: bool, fib: Fib,
                   color: Uint32, prior: Option<InstalledPolicy>,
                   s0: map<SteerKey, IP6>, p0: map<IP6, SrPolicy>, s1: map<SteerKey, IP6>, p1: map<IP6, SrPolicy>,
                   d1: set<SteerKey>, s2: map<SteerKey, IP6>, p2: map<IP6, SrPolicy>, d2: set<SteerKey>,
                   s3: map<SteerKey, IP6>, p3: map<IP6, SrPolicy>)
    requires TornDown(matched, orphaned, s0, p0, s1, p1) && e in s0 && s0[e] !in matched
    requires Resteered(rest, orphaned, fib, drop, s1, p1, d1, s2, p2, d2) &&
             Reconciled(rest, color, fib, prior, s2, p2, s3, p3)
    ensures if Removes(rest, color, fib, prior, s0[e]) then e !in s3 else e in s3 && s3[e] == s0[e]
  {
    assert e in s1 && s2[e] == s0[e];
  }

  lemma FailoverComposes(
    cs: seq<Tunnel>, k: CandidateKey, flag: bool, rest: seq<Tunnel>, fib: Fib, prior: Option<InstalledPolicy>,
    owned: set<SteerKey>, orphaned: seq<SteerKey>, s0: map<SteerKey, IP6>, p0: map<IP6, SrPolicy>, d0: set<SteerKey>,
    s1: map<SteerKey, IP6>, p1: map<IP6, SrPolicy>, d1: set<SteerKey>, s2: map<SteerKey, IP6>, p2: map<IP6, SrPolicy>,
    s3: map<SteerKey, IP6>, p3: map<IP6, SrPolicy>, p4: map<IP6, SrPolicy>, drops: set<SteerKey>)
    requires d1 == Undropped(rest, owned, d0)
    requires TornDown(MatchedBsids(cs, k), orphaned, s0, p0, s1, p1)
    requires Resteered(rest, orphaned, fib, DropRequested(cs, k, flag), s1, p1, d1, s2, p2, drops)
    requires Reconciled(rest, k.color, fib, prior, s2, p2, s3, p3)
    requires Freed(s3, p3, p4)
    ensures FailedOver(cs, k, flag, rest, fib, prior, owned, s0, p0, d0, s3, p4, drops)
  {
    var drop := DropRequested(cs, k, flag);
    forall e | e in orphaned
      ensures if Target(rest, e, fib).Some? && Removes(rest, k.color, fib, prior, Target(rest, e, fib).value)
              then e !in s3
              else Handled(e, rest, fib, drop, d1, s3, p4, drops)
    {
      OrphanStaysHandled(e, rest, drop, fib, k.color, prior, d1, s2, p2, s3, p3, p4, drops);
    }
    forall e | e in s0 && s0[e] !in MatchedBsids(cs, k)
      ensures if Removes(rest, k.color, fib, prior, s0[e]) then e !in s3 else e in s3 && s3[e] == s0[e]
    {
      OtherStays(e, MatchedBsids(cs, k), rest, orphaned, drop, fib, k.color, prior, s0, p0, s1, p1, d1, s2, p2, drops,
                 s3, p3);
    }
    assert Written(rest, fib, p0, p4) by {
      ReconcileWrites(rest, k.color, fib, prior, s2, p2, s3, p3, p4);
      WrittenTrans(rest, fib, p1, p2, p4);
    }
    if NoDangling(s0, p0) {
      assert NoDangling(s1, p1);
      FailoverLeavesNothingDangling(rest, orphaned, drop, fib, k.color, prior, s1, p1, d1, s2, p2, drops, s3, p3, p4);
    }
  }

  // ----- Installing an endpoint's ordinary prefixes -----

  function MainTable(p: Prefix): SteerKey {
    SteerKey(0, p)
  }

  function NodeKey(a: IP6): SteerKey {
    SteerKey(POD_VRF_INDEX, Prefix(a, 128, true))
  }

  /** Steering with the node's address, if it has one, pointed at the best End.DT6 candidate. */
  ghost function NodeSteered(a: Option<IP6>, cs: seq<Tunnel>, fib: Fib,
                             steering: map<SteerKey, IP6>): map<SteerKey, IP6>
  {
    if a.Some? && Target(cs, NodeKey(a.value), fib).Some?
    then steering[NodeKey(a.value) := Target(cs, NodeKey(a.value), fib).value]
    else steering
  }

  /** The drop route of the node's address is lifted when the address is steered. */
  ghost predicate NodeLifted(a: Option<IP6>, cs: seq<Tunnel>, fib: Fib, drops: set<SteerKey>) {
    a.Some? && Target(cs, NodeKey(a.value), fib).Some? ==> NodeKey(a.value) !in drops
  }

  /** A prefix whose target can be installed under a policy. */
  ghost predicate Installable(p: Prefix, cs: seq<Tunnel>, fib: Fib) {
    Target(cs, MainTable(p), fib).Some? && Target(cs, MainTable(p), fib) != Some(ZERO_ADDRESS)
  }

  /** The prefixes are steered through the best valid candidate of their behavior, each
      after its policy was installed. */
  ghost predicate PrefixesInstalled(list: seq<Prefix>, cs: seq<Tunnel>, fib: Fib,
                                    s0: map<SteerKey, IP6>, p0: map<IP6, SrPolicy>,
                                    s1: map<SteerKey, IP6>, p1: map<IP6, SrPolicy>, drops: set<SteerKey>)
  {
    && PrefixesSteered(list, cs, fib, s1, p1, drops)
    && (forall k :: k in s0 && !(k.table == 0 && k.prefix in list) ==> k in s1 && s1[k] == s0[k])
    && (forall k :: k in s1 ==> (k in s0 && s1[k] == s0[k]) || (k.table == 0 && k.prefix in list && s1[k] in p1))
    && (forall b :: b in p1 <==> b in p0 || IsPrefixTarget(list, cs, fib, b))
    && Written(cs, fib, p0, p1)
  }

  ghost predicate IsPrefixTarget(list: seq<Prefix>, cs: seq<Tunnel>, fib: Fib, b: IP6) {
    b != ZERO_ADDRESS && exists p :: p in list && Target(cs, MainTable(p), fib) == Some(b)
  }

  /** The effect of installing one prefix. */
  ghost predicate PrefixStep(p: Prefix, cs: seq<Tunnel>, fib: Fib,
                             s1: map<SteerKey, IP6>, p1: map<IP6, SrPolicy>, d1: set<SteerKey>,
                             s2: map<SteerKey, IP6>, p2: map<IP6, SrPolicy>, d2: set<SteerKey>)
  {
    && Ready(cs, BehaviorOf(MainTable(p)))
    && if !Installable(p, cs, fib) then s2 == s1 && p2 == p1 && d2 == d1
       else
         var b := Target(cs, MainTable(p), fib).value;
         && s2 == s1[MainTable(p) := b] && d2 <= d1 && MainTable(p) !in d2
         && p2.Keys == p1.Keys + {b} && Written(cs, fib, p1, p2) && Served(cs, fib, b, p2)
  }

  lemma PrefixesInstalledAdd(list: seq<Prefix>, p: Prefix, cs: seq<Tunnel>, fib: Fib,
                             s0: map<SteerKey, IP6>, p0: map<IP6, SrPolicy>,
                             s1: map<SteerKey, IP6>, p1: map<IP6, SrPolicy>, d1: set<SteerKey>,
                             s2: map<SteerKey, IP6>, p2: map<IP6, SrPolicy>, d2: set<SteerKey>)
    requires PrefixesInstalled(list, cs, fib, s0, p0, s1, p1, d1)
    requires PrefixStep(p, cs, fib, s1, p1, d1, s2, p2, d2)
    ensures PrefixesInstalled(list + [p], cs, fib, s0, p0, s2, p2, d2)
  {
    forall b ensures b in p2 <==> b in p0 || IsPrefixTarget(list + [p], cs, fib, b) {
      PrefixTargetAdd(list, p, cs, fib, b);
    }
    PrefixesSteeredAdd(list, p, cs, fib, p1, s1, d1, p2, s2, d2);
    WrittenTrans(cs, fib, p0, p1, p2);
  }

  lemma PrefixTargetAdd(list: seq<Prefix>, p: Prefix, cs: seq<Tunnel>, fib: Fib, b: IP6)
    ensures IsPrefixTarget(list + [p], cs, fib, b) <==>
            IsPrefixTarget(list, cs, fib, b) || (b != ZERO_ADDRESS && Target(cs, MainTable(p), fib) == Some(b))
  {
    if IsPrefixTarget(list, cs, fib, b) {
      var q :| q in list && Target(cs, MainTable(q), fib) == Some(b);
      assert q in list + [p];
    }
    assert p in list + [p];
  }

  /** Each prefix of the list that can be is steered to its target. */
  ghost predicate PrefixesSteered(list: seq<Prefix>, cs: seq<Tunnel>, fib: Fib,
                                  s1: map<SteerKey, IP6>, p1: map<IP6, SrPolicy>, drops: set<SteerKey>)
  {
    forall p :: p in list ==>
      && Ready(cs, BehaviorOf(MainTable(p)))
      && (Installable(p, cs, fib) ==>
            && MainTable(p) in s1 && Some(s1[MainTable(p)]) == Target(cs, MainTable(p), fib)
            && Served(cs, fib, s1[MainTable(p)], p1) && MainTable(p) !in drops)
  }

  lemma PrefixesSteeredAdd(list: seq<Prefix>, p: Prefix, cs: seq<Tunnel>, fib: Fib,
                           p1: map<IP6, SrPolicy>, s1: map<SteerKey, IP6>, d1: set<SteerKey>,
                           p2: map<IP6, SrPolicy>, s2: map<SteerKey, IP6>, d2: set<SteerKey>)
    requires PrefixesSteered(list, cs, fib, s1, p1, d1) && PrefixStep(p, cs, fib, s1, p1, d1, s2, p2, d2)
    ensures PrefixesSteered(list + [p], cs, fib, s2, p2, d2)
  {
    forall q | q in list + [p]
      ensures Ready(cs, BehaviorOf(MainTable(q)))
      ensures Installable(q, cs, fib) ==>
                && MainTable(q) in s2 && Some(s2[MainTable(q)]) == Target(cs, MainTable(q), fib)
                && Served(cs, fib, s2[MainTable(q)], p2) && MainTable(q) !in d2
    {
      if q != p && Installable(q, cs, fib) {
        assert q in list;
        if p2 != p1 {
          WrittenKeepsServed(cs, fib, s1[MainTable(q)], p1, p2);
        }
      }
    }
  }

  lemma PrefixesStable(node: string, cs: seq<Tunnel>, cs': seq<Tunnel>, dyn: map<PolicyKey, IP6>,
                       list: seq<Prefix>, fib: Fib, s0: map<SteerKey, IP6>, p0: map<IP6, SrPolicy>,
                       s1: map<SteerKey, IP6>, p1: map<IP6, SrPolicy>, drops: set<SteerKey>)
    requires PrefixesInstalled(list, cs, fib, s0, p0, s1, p1, drops) && OnlyBinds(node, cs, cs', dyn)
    ensures PrefixesInstalled(list, cs', fib, s0, p0, s1, p1, drops)
  {
    forall p | p in list
      ensures Ready(cs', BehaviorOf(MainTable(p))) && Target(cs', MainTable(p), fib) == Target(cs, MainTable(p), fib)
      ensures Installable(p, cs, fib) ==> Served(cs', fib, s1[MainTable(p)], p1)
    {
      StableSelect(node, cs, cs', dyn, BehaviorOf(MainTable(p)), fib);
      if Installable(p, cs, fib) {
        ServedStable(node, cs, cs', dyn, fib, s1[MainTable(p)], p1);
      }
    }
    WrittenStable(node, cs, cs', dyn, fib, p0, p1);
    forall b ensures IsPrefixTarget(list, cs', fib, b) <==> IsPrefixTarget(list, cs, fib, b) {
    }
  }

  lemma PrefixesNext(node: string, cs: seq<Tunnel>, cs': seq<Tunnel>, dyn: map<PolicyKey, IP6>,
                     list: seq<Prefix>, p: Prefix, fib: Fib, s0: map<SteerKey, IP6>, p0: map<IP6, SrPolicy>,
                     s1: map<SteerKey, IP6>, p1: map<IP6, SrPolicy>, d1: set<SteerKey>,
                     s2: map<SteerKey, IP6>, p2: map<IP6, SrPolicy>, d2: set<SteerKey>)
    requires PrefixesInstalled(list, cs, fib, s0, p0, s1, p1, d1) && OnlyBinds(node, cs, cs', dyn)
    requires PrefixStep(p, cs', fib, s1, p1, d1, s2, p2, d2)
    ensures PrefixesInstalled(list + [p], cs', fib, s0, p0, s2, p2, d2)
  {
    PrefixesStable(node, cs, cs', dyn, list, fib, s0, p0, s1, p1, d1);
    PrefixesInstalledAdd(list, p, cs', fib, s0, p0, s1, p1, d1, s2, p2, d2);
  }

  /** A node's prefixes are installed, then its own address is steered; mid and midDrops are
      the steering and the drop routes in between. */
  ghost predicate NodeInstalled(list: seq<Prefix>, a: Option<IP6>, cs: seq<Tunnel>, fib: Fib,
                                s0: map<SteerKey, IP6>, p0: map<IP6, SrPolicy>,
                                mid: map<SteerKey, IP6>, midDrops: set<SteerKey>,
                                s1: map<SteerKey, IP6>, p1: map<IP6, SrPolicy>)
  {
    && PrefixesInstalled(list, cs, fib, s0, p0, mid, p1, midDrops)
    && (a.Some? ==> Ready(cs, ByBehavior(DT6)))
    && s1 == NodeSteered(a, cs, fib, mid)
  }

  lemma NodeInstalledStable(node: string, cs: seq<Tunnel>, cs': seq<Tunnel>, dyn: map<PolicyKey, IP6>,
                            list: seq<Prefix>, a: Option<IP6>, fib: Fib, s0: map<SteerKey, IP6>, p0: map<IP6, SrPolicy>,
                            mid: map<SteerKey, IP6>, midDrops: set<SteerKey>, s1: map<SteerKey, IP6>,
                            p1: map<IP6, SrPolicy>)
    requires NodeInstalled(list, a, cs, fib, s0, p0, mid, midDrops, s1, p1) && OnlyBinds(node, cs, cs', dyn)
    ensures NodeInstalled(list, a, cs', fib, s0, p0, mid, midDrops, s1, p1)
  {
    PrefixesStable(node, cs, cs', dyn, list, fib, s0, p0, mid, p1, midDrops);
    if a.Some? {
      StableSelect(node, cs, cs', dyn, ByBehavior(DT6), fib);
    }
  }

  /** The BSID the node's own address is pointed at had a policy before, or got one as the
      target of one of the node's prefixes. */
  ghost predicate NodeBacked(list: seq<Prefix>, a: Option<IP6>, cs: seq<Tunnel>, fib: Fib, p0: map<IP6, SrPolicy>) {
    a.Some? && Target(cs, NodeKey(a.value), fib).Some? ==>
      var b := Target(cs, NodeKey(a.value), fib).value;
      b in p0 || IsPrefixTarget(list, cs, fib, b)
  }

  /** The node's own address is steered without installing its policy, so installing a
      node leaves a dangling entry exactly when the End.DT6 candidate it picks is
      neither in VPP already nor the choice of one of the node's prefixes. */
  lemma NodeSteeringDanglesIff(list: seq<Prefix>, a: Option<IP6>, cs: seq<Tunnel>, fib: Fib,
                               s0: map<SteerKey, IP6>, p0: map<IP6, SrPolicy>, mid: map<SteerKey, IP6>,
                               midDrops: set<SteerKey>, s1: map<SteerKey, IP6>, p1: map<IP6, SrPolicy>)
    requires NodeInstalled(list, a, cs, fib, s0, p0, mid, midDrops, s1, p1) && NoDangling(s0, p0)
    ensures NoDangling(s1, p1) <==> NodeBacked(list, a, cs, fib, p0)
    ensures forall e :: e in s1 && !(a.Some? && e == NodeKey(a.value)) ==> s1[e] in p1
  {
    if a.Some? && Target(cs, NodeKey(a.value), fib).Some? {
      assert s1[NodeKey(a.value)] == Target(cs, NodeKey(a.value), fib).value;
    }
  }

  /** A node without candidates is left as it is. */
  lemma NothingToInstall(list: seq<Prefix>, a: Option<IP6>, fib: Fib,
                         s0: map<SteerKey, IP6>, p0: map<IP6, SrPolicy>, drops: set<SteerKey>)
    ensures NodeInstalled(list, a, [], fib, s0, p0, s0, drops, s0, p0) && NodeBacked(list, a, [], fib, p0)
  {
    assert forall f :: Select([], f, fib) == None;
  }

  /** With an IPv6 prefix whose policy can be installed nothing dangles. */
  lemma IPv6PrefixBacksNode(list: seq<Prefix>, p: Prefix, a: Option<IP6>, cs: seq<Tunnel>, fib: Fib,
                            p0: map<IP6, SrPolicy>)
    requires p in list && p.isIP6 && Target(cs, MainTable(p), fib) != Some(ZERO_ADDRESS)
    ensures NodeBacked(list, a, cs, fib, p0)
  {
  }

  /** After an advertisement the color's own policy counts too, and an entry whose BSID the
      reconcile removes is removed with it. */
  ghost predicate AdvertisementBacked(list: seq<Prefix>, a: Option<IP6>, cs: seq<Tunnel>, fib: Fib,
                                      p0: map<IP6, SrPolicy>, color: Uint32, prior: Option<InstalledPolicy>)
  {
    a.Some? && Target(cs, NodeKey(a.value), fib).Some? ==>
      var b := Target(cs, NodeKey(a.value), fib).value;
      || b in p0 || IsPrefixTarget(list, cs, fib, b)
      || (b != ZERO_ADDRESS && SelectedBsid(cs, ByColor(color), fib) == Some(b))
      || Removes(cs, color, fib, prior, b)
  }

  /** What an advertisement comes to: the node is installed, then the color reconciled, then
      unused BSIDs freed; nothing dangles exactly if the steering of the node is backed. */
  ghost predicate Advertised(list: seq<Prefix>, a: Option<IP6>, cs: seq<Tunnel>, fib: Fib, color: Uint32,
                             prior: Option<InstalledPolicy>, s0: map<SteerKey, IP6>, p0: map<IP6, SrPolicy>,
                             mid: map<SteerKey, IP6>, midDrops: set<SteerKey>, s1: map<SteerKey, IP6>,
                             p1: map<IP6, SrPolicy>, s2: map<SteerKey, IP6>, p2: map<IP6, SrPolicy>,
                             p3: map<IP6, SrPolicy>)
  {
    && NodeInstalled(list, a, cs, fib, s0, p0, mid, midDrops, s1, p1)
    && Reconciled(cs, color, fib, prior, s1, p1, s2, p2) && Freed(s2, p2, p3) && Written(cs, fib, p0, p3)
    && (NoDangling(s0, p0) ==> (NoDangling(s2, p3) <==> AdvertisementBacked(list, a, cs, fib, p0, color, prior)))
  }

  /** The steps of an advertisement: the node is installed through the candidates at that
      moment; reconciling the color binds more of them. */
  ghost predicate Announced(node: string, cs: seq<Tunnel>, cs': seq<Tunnel>, dyn: map<PolicyKey, IP6>,
                            list: seq<Prefix>, a: Option<IP6>, fib: Fib, color: Uint32,
                            prior: Option<InstalledPolicy>, s0: map<SteerKey, IP6>, p0: map<IP6, SrPolicy>,
                            mid: map<SteerKey, IP6>, midDrops: set<SteerKey>, s1: map<SteerKey, IP6>,
                            p1: map<IP6, SrPolicy>, s2: map<SteerKey, IP6>, p2: map<IP6, SrPolicy>,
                            p3: map<IP6, SrPolicy>)
  {
    && NodeInstalled(list, a, cs, fib, s0, p0, mid, midDrops, s1, p1) && OnlyBinds(node, cs, cs', dyn)
    && Reconciled(cs', color, fib, prior, s1, p1, s2, p2) && Freed(s2, p2, p3)
  }

  lemma AdvertisementComposes(node: string, cs: seq<Tunnel>, cs': seq<Tunnel>, dyn: map<PolicyKey, IP6>,
                              list: seq<Prefix>, a: Option<IP6>, fib: Fib, color: Uint32,
                              prior: Option<InstalledPolicy>, s0: map<SteerKey, IP6>, p0: map<IP6, SrPolicy>,
                              mid: map<SteerKey, IP6>, midDrops: set<SteerKey>, s1: map<SteerKey, IP6>,
                              p1: map<IP6, SrPolicy>, s2: map<SteerKey, IP6>, p2: map<IP6, SrPolicy>,
                              p3: map<IP6, SrPolicy>)
    requires Announced(node, cs, cs', dyn, list, a, fib, color, prior, s0, p0, mid, midDrops, s1, p1, s2, p2, p3)
    ensures Advertised(list, a, cs', fib, color, prior, s0, p0, mid, midDrops, s1, p1, s2, p2, p3)
  {
    NodeInstalledStable(node, cs, cs', dyn, list, a, fib, s0, p0, mid, midDrops, s1, p1);
    ReconcileWrites(cs', color, fib, prior, s1, p1, s2, p2, p3);
    WrittenTrans(cs', fib, p0, p1, p3);
    if NoDangling(s0, p0) {
      AdvertisementDanglesIff(list, a, cs', fib, color, prior, s0, p0, mid, midDrops, s1, p1, s2, p2, p3);
    }
  }

  lemma AdvertisementDanglesIff(list: seq<Prefix>, a: Option<IP6>, cs: seq<Tunnel>, fib: Fib,
                                color: Uint32, prior: Option<InstalledPolicy>,
                                s0: map<SteerKey, IP6>, p0: map<IP6, SrPolicy>, mid: map<SteerKey, IP6>,
                                midDrops: set<SteerKey>, s1: map<SteerKey, IP6>, p1: map<IP6, SrPolicy>,
                                s2: map<SteerKey, IP6>, p2: map<IP6, SrPolicy>, p3: map<IP6, SrPolicy>)
    requires NoDangling(s0, p0) && NodeInstalled(list, a, cs, fib, s0, p0, mid, midDrops, s1, p1)
    requires Reconciled(cs, color, fib, prior, s1, p1, s2, p2) && Freed(s2, p2, p3)
    ensures NoDangling(s2, p3) <==> AdvertisementBacked(list, a, cs, fib, p0, color, prior)
  {
    NodeSteeringDanglesIff(list, a, cs, fib, s0, p0, mid, midDrops, s1, p1);
    FreeingKeepsDangling(s2, p2, p3);
    if a.Some? && Target(cs, NodeKey(a.value), fib).Some? {
      assert NodeKey(a.value) in s1 && s1[NodeKey(a.value)] == Target(cs, NodeKey(a.value), fib).value;
      ReconcileDanglesIff(NodeKey(a.value), cs, color, fib, prior, s1, p1, s2, p2);
    } else {
      ReconcileKeepsBacked(cs, color, fib, prior, s1, p1, s2, p2);
    }
  }

  lemma ReconcileKeepsBacked(cs: seq<Tunnel>, color: Uint32, fib: Fib, prior: Option<InstalledPolicy>,
                             s1: map<SteerKey, IP6>, p1: map<IP6, SrPolicy>, s2: map<SteerKey, IP6>,
                             p2: map<IP6, SrPolicy>)
    requires Reconciled(cs, color, fib, prior, s1, p1, s2, p2) && NoDangling(s1, p1)
    ensures NoDangling(s2, p2)
  {
  }

  /** One entry may dangle before the color is reconciled; whether it does afterwards. */
  lemma ReconcileDanglesIff(n: SteerKey, cs: seq<Tunnel>, color: Uint32, fib: Fib, prior: Option<InstalledPolicy>,
                            s1: map<SteerKey, IP6>, p1: map<IP6, SrPolicy>, s2: map<SteerKey, IP6>,
                            p2: map<IP6, SrPolicy>)
    requires Reconciled(cs, color, fib, prior, s1, p1, s2, p2)
    requires n in s1 && forall e :: e in s1 && e != n ==> s1[e] in p1
    ensures NoDangling(s2, p2) <==>
            || s1[n] in p1 || (s1[n] != ZERO_ADDRESS && SelectedBsid(cs, ByColor(color), fib) == Some(s1[n]))
            || Removes(cs, color, fib, prior, s1[n])
  {
    if n in s2 {
      assert NoDangling(s2, p2) ==> s2[n] in p2;
    }
  }
}
