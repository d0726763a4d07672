/**
  The SRv6 connectivity provider: it caches candidates, selects the active one per
  <endpoint, color>, installs policies and steering in VPP, fails over on withdraw
  and publishes Installed/Uninstalled events.
 */
module Srv6Provider {
  import opened Srv6Types
  import Environment
  import opened CandidateSelection
  import opened CandidateCache
  import opened PolicyEvents
  import opened Srv6Effects
  import opened Srv6Vpp

  /** A node's state between two steps of an advertisement or of a learned prefix: steering
      and drop routes once its prefixes are installed, steering and policies once its own
      address is steered too. */
  datatype Installing = Installing(mid: map<SteerKey, IP6>, midDrops: set<SteerKey>,
                                   steering: map<SteerKey, IP6>, policies: map<IP6, SrPolicy>)

  /** VPP between the tear-down and the re-steering of a failover. */
  datatype Torn = Torn(steering: map<SteerKey, IP6>, policies: map<IP6, SrPolicy>, drops: set<SteerKey>)

  class Provider {
    const vpp: Vpp
    /** Parses a node's name as an IPv6 address. */
    const nodeAddress: string -> Option<IP6>

    var cache: map<string, seq<Tunnel>>
    var prefixes: map<string, seq<Prefix>>
    var pending: seq<IP6>
    var installed: map<PolicyKey, InstalledPolicy>
    var dynBsids: map<PolicyKey, IP6>
    var dropped: map<SteerKey, string>
    var log: Log

    /** What holds between any two operations, whatever VPP calls failed: the record
        of installed policies is what the published events say, and the tracked drop
        prefixes are exactly the drop routes in VPP. */
    ghost predicate Valid()
      reads this, vpp
    {
      LogMatches(installed, log) && Tracked()
    }

    ghost predicate Tracked()
      reads this, vpp
    {
      dropped.Keys == vpp.drops && Nonzero(dynBsids)
    }

    /** Every call succeeds unless VPP's own rules reject it, and VPP has no policy under
        the zero address, as vpplink never adds one. */
    ghost predicate Calm()
      reads vpp
    {
      vpp.reliable && ZERO_ADDRESS !in vpp.policies
    }

    ghost function Now(): Book
      reads this
    {
      Book(cache, dynBsids)
    }

    ghost function Cached(node: string): seq<Tunnel>
      reads this
    {
      Candidates(cache, node)
    }

    constructor (vpp: Vpp, nodeAddress: string -> Option<IP6>)
      requires vpp.drops == {}
      ensures Valid() && this.vpp == vpp && this.nodeAddress == nodeAddress
      ensures Now() == Book(map[], map[]) && log == [] && installed == map[] && dropped == map[] && prefixes == map[]
    {
      this.vpp, this.nodeAddress := vpp, nodeAddress;
      cache, prefixes, pending, installed := map[], map[], [], map[];
      dynBsids, dropped, log := map[], map[], [];
    }

    // ----- Selection -----

    /** Asks IPAM for an address of the policy pool. */
    method AllocBsid(key: PolicyKey) returns (r: Option<IP6>)
      ensures r.Some? ==> r.value != ZERO_ADDRESS
      ensures vpp.reliable ==> r.Some?
    {
      var ok := Environment.Attempt(vpp.reliable);
      var b: IP6 := *;
      r := if !ok then None else if b == ZERO_ADDRESS then Some(1) else Some(b);
    }

    /** Gives a BSID-less candidate the BSID bound to its SR Policy, binding one first
        when the policy has none. */
    method EnsureBsid(node: string, t: Tunnel) returns (ok: bool, t': Tunnel)
      requires t.policy.Some?
      modifies this`dynBsids
      ensures BindsOne(node, t, old(dynBsids), dynBsids)
      ensures TunnelBsid(t).Some? ==> ok && t' == t
      ensures TunnelBsid(t).None? && ok ==> BoundTo(node, t, t', dynBsids)
      ensures ok ==> TunnelBsid(t').Some?
      ensures !ok ==> t' == t && TunnelBsid(t).None?
      ensures t.policy.value.bsid == 0 && t.bsid.None? && ok ==>
                var b := Some(dynBsids[PolicyKey(node, t.color)]);
                t' == t.(policy := Some(t.policy.value.(bsid := b.value)), bsid := b)
      ensures t.policy.value.bsid != 0 || t.bsid.Some? ==> ok && t' == t && dynBsids == old(dynBsids)
      ensures TunnelBsid(t).None? && t.specifiedBsidOnly ==> !ok
      ensures vpp.reliable && !t.specifiedBsidOnly ==> ok
    {
      if TunnelBsid(t).Some? {
        return true, t;
      }
      if t.specifiedBsidOnly {
        return false, t;
      }
      var key := PolicyKey(node, t.color);
      if key !in dynBsids {
        var ip := AllocBsid(key);
        if ip.None? {
          return false, t;
        }
        dynBsids := dynBsids[key := ip.value];
      }
      return true, Bound(t, dynBsids[key]);
    }

    /** Binds and validates one candidate; pol is its installable policy when it is valid. */
    method TryCandidate(node: string, f: Filter, t: Tunnel, reach: map<IP6, bool>)
      returns (t': Tunnel, pol: Option<SrPolicy>, reach': map<IP6, bool>)
      requires CacheSound(reach, vpp.fib)
      modifies this`dynBsids
      ensures t' == t || BoundTo(node, t, t', dynBsids)
      ensures BindsOne(node, t, old(dynBsids), dynBsids)
      ensures vpp.reliable && Wanted(f, t') ==> TunnelBsid(t').Some? || t'.specifiedBsidOnly
      ensures pol.Some? <==> Eligible(t', f, vpp.fib)
      ensures pol.Some? ==> pol == UsablePolicy(t', vpp.fib)
      ensures CacheSound(reach', vpp.fib)
    {
      t', pol, reach' := t, None, reach;
      if Wanted(f, t) {
        var ok;
        ok, t' := EnsureBsid(node, t);
        if ok {
          pol, reach' := ComputeUsablePolicy(t', reach, vpp.fib);
        }
      }
    }

    /** Selects the active candidate of an endpoint, by color or by terminal behavior. */
    method SelectCandidate(node: string, f: Filter) returns (best: Option<Tunnel>, policy: Option<SrPolicy>)
      modifies this`cache, this`dynBsids
      ensures Binds(node, old(Now()), Now())
      ensures best == Select(Cached(node), f, vpp.fib)
      ensures best.Some? ==> best.value.policy.Some? && policy.Some? && policy == UsablePolicy(best.value, vpp.fib)
      ensures best.None? ==> policy.None?
      ensures BestOf(Cached(node), f, vpp.fib, best)
      ensures vpp.reliable ==> Ready(Cached(node), f)
    {
      best, policy := None, None;
      if node !in cache {
        SelectIsBestOf([], f, vpp.fib);
        return;
      }
      var cs, reach := cache[node], map[];
      ghost var was := cs;
      for i := 0 to |cs|
        invariant cache == old(cache) && |cs| == |was|
        invariant Selecting(node, f, vpp.fib, was, cs, i, best, policy, dynBsids)
        invariant vpp.reliable ==> ReadyUpTo(cs, f, i)
        invariant BindsFor(node, was, old(dynBsids), dynBsids)
        invariant CacheSound(reach, vpp.fib)
      {
        ghost var before, dyn := cs, dynBsids;
        var t', pol;
        t', pol, reach := TryCandidate(node, f, cs[i], reach);
        cs := cs[i := t'];
        SelectingStep(node, f, vpp.fib, was, before, i, best, policy, dyn, t', pol, dynBsids);
        BindsForOne(node, was, i, old(dynBsids), dyn, dynBsids);
        if pol.Some? && (best.None? || Preferred(t', best.value)) {
          best, policy := Some(t'), pol;
        }
      }
      cache := cache[node := cs];
      SelectIsBestOf(cs, f, vpp.fib);
    }

    // ----- Drop-upon-invalid routes (section 8.2 of RFC 9256) -----

    method ClearDropRoute(key: SteerKey)
      requires dropped.Keys == vpp.drops
      modifies this`dropped, vpp`drops, vpp`writes
      ensures dropped.Keys == vpp.drops
      ensures dropped == old(dropped) || dropped == old(dropped) - {key}
      ensures vpp.reliable ==> key !in vpp.drops
    {
      if key !in dropped {
        return;
      }
      var r := vpp.DropRouteDel(key);
      if r.Failed? {
        return;
      }
      dropped := dropped - {key};
    }

    method EngageDropRoute(node: string, key: SteerKey)
      requires dropped.Keys == vpp.drops
      modifies this`dropped, vpp`drops, vpp`writes
      ensures dropped.Keys == vpp.drops
      ensures dropped == old(dropped) || (key !in old(dropped) && dropped == old(dropped)[key := node])
      ensures vpp.reliable ==> key in vpp.drops
    {
      if key in dropped {
        return;
      }
      var r := vpp.DropRouteAdd(key);
      if !r.Ok? {
        return;
      }
      dropped := dropped[key := node];
    }

    /** The drop routes tracked for the endpoint. */
    static function Owned(dropped: map<SteerKey, string>, node: string): set<SteerKey> {
      set k | k in dropped && dropped[k] == node
    }

    method ReleaseDropsForNode(node: string)
      requires dropped.Keys == vpp.drops
      modifies this`dropped, vpp`drops, vpp`writes
      ensures dropped.Keys == vpp.drops && Lifted(old(dropped), dropped)
      ensures forall k :: k in old(dropped) && old(dropped)[k] != node ==> k in dropped
      ensures vpp.reliable ==> vpp.drops == old(vpp.drops) - Owned(old(dropped), node)
    {
      var todo := dropped.Keys;
      while todo != {}
        invariant todo <= old(dropped).Keys
        invariant dropped.Keys == vpp.drops <= old(dropped).Keys
        invariant forall k :: k in todo ==> k in dropped
        invariant forall k :: k in dropped ==> dropped[k] == old(dropped)[k]
        invariant forall k :: k in old(dropped) && old(dropped)[k] != node ==> k in dropped
        invariant vpp.reliable ==> forall k :: k in dropped && k !in todo ==> dropped[k] != node
      {
        var k :| k in todo;
        todo := todo - {k};
        if dropped[k] == node {
          var r := vpp.DropRouteDel(k);
          if !r.Failed? {
            dropped := dropped - {k};
          }
        }
      }
    }

    // ----- Deferred cleanup of superseded BSIDs -----

    /** Frees queued BSIDs. Every one of them is afterwards gone from VPP or still
        queued, in order; none that a steering entry uses is deleted. */
    method DrainPendingBsidCleanup(orphaned: Option<IP6>)
      modifies this`pending, vpp`policies, vpp`writes
      ensures Drained(old(pending), orphaned, vpp.reliable, old(vpp.policies).Keys, pending, vpp.steering, vpp.policies)
      ensures forall b :: b in vpp.policies ==> b in old(vpp.policies) && vpp.policies[b] == old(vpp.policies)[b]
      ensures Freed(vpp.steering, old(vpp.policies), vpp.policies)
    {
      if orphaned.Some? {
        pending := pending + [orphaned.value];
      }
      if |pending| == 0 {
        return;
      }
      var steering := vpp.ListSRv6Steering();
      if steering.None? {
        return;
      }
      var referenced := set st | st in steering.value :: st.bsid;
      assert referenced == vpp.steering.Values by {
        ReferencedIsValues(steering.value, vpp.steering);
      }
      var queue := pending;
      pending := [];
      for i := 0 to |queue|
        invariant forall b :: b in queue[..i] ==> b in pending || b !in vpp.policies
        invariant forall b :: b in pending ==> b in queue
        invariant forall b :: b in old(vpp.policies) && b !in vpp.policies ==> b in queue && b !in referenced
        invariant forall b :: b in vpp.policies ==> b in old(vpp.policies) && vpp.policies[b] == old(vpp.policies)[b]
        invariant vpp.reliable ==> forall b :: b in pending ==> b in referenced
      {
        var bsid := queue[i];
        assert queue[..i + 1] == queue[..i] + [bsid];
        if bsid in referenced {
          pending := pending + [bsid];
        } else {
          var r := vpp.DelSRv6Policy(bsid);
          if r.Failed? {
            pending := pending + [bsid];
          }
        }
      }
      assert queue[..|queue|] == queue;
    }

    static lemma ReferencedIsValues(list: seq<Steer>, steering: map<SteerKey, IP6>)
      requires ListsSteering(list, steering)
      ensures (set st | st in list :: st.bsid) == steering.Values
    {
      forall b | b in steering.Values ensures b in (set st | st in list :: st.bsid) {
        var k :| k in steering && steering[k] == b;
        assert Steer(k, steering[k]) in list;
      }
    }

    // ----- Reconciling one SR Policy <endpoint, color> -----

    /** Removes a policy that no longer has a valid candidate, steering first. */
    method UninstallColor(key: PolicyKey, actual: seq<SrPolicy>) returns (ok: bool)
      requires Valid() && key in installed && ListsPolicies(actual, vpp.policies)
      modifies this`installed, this`log, vpp`steering, vpp`policies, vpp`writes
      ensures Valid()
      ensures ok ==> installed == old(installed) - {key}
      ensures ok ==> log == old(log) + [Emitted(Uninstalled(key, old(installed)[key]), vpp.policies.Keys)]
      ensures !ok ==> installed == old(installed) && log == old(log)
      ensures OnlyLoses(old(vpp.steering), vpp.steering, {old(installed)[key].policy.bsid})
      ensures ok ==>
                var b := old(installed)[key].policy.bsid;
                vpp.steering == WithoutBsid(old(vpp.steering), b) && vpp.policies == old(vpp.policies) - {b}
      ensures vpp.reliable ==> ok
    {
      var prior := installed[key];
      var b := prior.policy.bsid;
      var steering := vpp.ListSRv6Steering();
      if steering.None? {
        return false;
      }
      ok := DeleteSteeringOf(b, steering.value);
      if !ok {
        return;
      }
      if exists p :: p in actual && p.bsid == b {
        var r := vpp.DelSRv6Policy(b);
        if r.Failed? {
          return false;
        }
      }
      installed := installed - {key};
      log := log + [Emitted(Uninstalled(key, prior), vpp.policies.Keys)];
      UninstallMatches(old(installed), old(log), key, vpp.policies.Keys);
    }

    method DeleteSteeringOf(b: IP6, list: seq<Steer>) returns (ok: bool)
      requires ListsSteering(list, vpp.steering)
      modifies vpp`steering, vpp`writes
      ensures OnlyLoses(old(vpp.steering), vpp.steering, {b})
      ensures ok ==> vpp.steering == WithoutBsid(old(vpp.steering), b)
      ensures vpp.reliable ==> ok
    {
      for i := 0 to |list|
        invariant forall k :: k in vpp.steering ==> k in old(vpp.steering) && vpp.steering[k] == old(vpp.steering)[k]
        invariant forall k :: k in old(vpp.steering) && old(vpp.steering)[k] != b ==> k in vpp.steering
        invariant forall st :: st in list[..i] && st.bsid == b ==> st.key !in vpp.steering
      {
        assert list[..i + 1] == list[..i] + [list[i]];
        if list[i].bsid == b {
          var r := vpp.DelSRv6Steering(list[i]);
          if r.Failed? {
            return false;
          }
        }
      }
      assert list[..|list|] == list;
      ok := true;
      forall k | k in vpp.steering ensures vpp.steering[k] != b {
        assert Steer(k, old(vpp.steering)[k]) in list;
      }
    }

    /** VPP already has the policy, as far as the listing or the record and the listing tell. */
    ghost predicate Known(key: PolicyKey, desired: SrPolicy, actual: seq<SrPolicy>)
      reads this, vpp
    {
      || (key in installed && installed[key].policy == desired && desired.bsid in vpp.policies)
      || Shows(actual, desired)
    }

    /** The first listed policy of the BSID is this one. */
    static ghost predicate Shows(actual: seq<SrPolicy>, p: SrPolicy) {
      exists i :: 0 <= i < |actual| && actual[i] == p && p.bsid !in Bsids(actual[..i])
    }

    static ghost function Bsids(list: seq<SrPolicy>): set<IP6> {
      set p | p in list :: p.bsid
    }

    /** Installs the selected candidate, publishing the change. */
    method InstallColor(key: PolicyKey, selected: Tunnel, desired: SrPolicy, actual: seq<SrPolicy>, force: bool)
      returns (ok: bool)
      requires Valid() && ListsPolicies(actual, vpp.policies)
      modifies this`installed, this`log, vpp`policies, vpp`writes
      ensures Valid()
      ensures ok ==> key in installed && installed[key].policy == desired && desired.bsid in vpp.policies
      ensures ok ==> installed[key].tunnel == selected.(policy := Some(desired), bsid := Some(desired.bsid))
      ensures if old(Known(key, desired, actual))
              then ok && vpp.policies == old(vpp.policies) && vpp.writes == old(vpp.writes)
              else ok ==> vpp.policies == old(vpp.policies)[desired.bsid := desired]
      ensures ok ==>
                Published(key, force, old(installed), installed, old(vpp.policies).Keys, vpp.policies.Keys, old(log),
                          log)
      ensures !ok ==> installed == old(installed) && log == old(log)
      ensures old(Calm()) && desired.sidLists != [] ==>
                && (ok <==> desired.bsid != ZERO_ADDRESS)
                && vpp.policies.Keys == old(vpp.policies).Keys + (if ok then {desired.bsid} else {})
                && (!ok ==> vpp.policies == old(vpp.policies))
    {
      var shown, same := Listing(desired, actual);
      if key in installed && installed[key].policy == desired && shown {
        same := true;
      }
      if !same {
        var added := vpp.AddModSRv6Policy(desired);
        if !added {
          return false;
        }
      }
      var next := InstalledPolicy(selected.(policy := Some(desired), bsid := Some(desired.bsid)), desired);
      Publish(key, next, force || !same);
      ok := true;
    }

    /** Whether the BSID is listed, and listed first as this very policy. */
    static method Listing(p: SrPolicy, actual: seq<SrPolicy>) returns (shown: bool, same: bool)
      ensures shown <==> p.bsid in Bsids(actual)
      ensures same <==> Shows(actual, p)
    {
      shown, same := false, false;
      for i := 0 to |actual|
        invariant !shown && !same && p.bsid !in Bsids(actual[..i])
      {
        if actual[i].bsid == p.bsid {
          assert actual[i] in actual;
          return true, actual[i] == p;
        }
        assert actual[..i + 1] == actual[..i] + [actual[i]];
      }
      assert actual[..|actual|] == actual;
    }

    /** Records what is installed now and publishes it; what was recorded is withdrawn first
        if asked, or if it is another policy. */
    method Publish(key: PolicyKey, next: InstalledPolicy, anyway: bool)
      requires LogMatches(installed, log) && next.policy.bsid in vpp.policies
      modifies this`installed, this`log
      ensures LogMatches(installed, log) && installed == old(installed)[key := next]
      ensures
        var withdrawn := key in old(installed) && (anyway || old(installed)[key].policy != next.policy);
        var before := if withdrawn then [Emitted(Uninstalled(key, old(installed)[key]), vpp.policies.Keys)] else [];
        log == old(log) + before + [Emitted(Installed(key, next), vpp.policies.Keys)]
    {
      if key in installed && (anyway || installed[key].policy != next.policy) {
        log := log + [Emitted(Uninstalled(key, installed[key]), vpp.policies.Keys)];
        UninstallMatches(installed, old(log), key, vpp.policies.Keys);
        InstallMatches(installed - {key}, log, key, next, vpp.policies.Keys);
        assert (installed - {key})[key := next] == installed[key := next];
      } else {
        InstallMatches(installed, log, key, next, vpp.policies.Keys);
      }
      installed := installed[key := next];
      log := log + [Emitted(Installed(key, next), vpp.policies.Keys)];
    }

    /** Brings VPP and the published state of one SR Policy in line with the selection. */
    method ReconcilePolicyColor(node: string, color: Uint32, force: bool) returns (ok: bool)
      requires Valid()
      modifies this`cache, this`dynBsids, this`installed, this`log, vpp`steering, vpp`policies, vpp`writes
      ensures Valid() && Binds(node, old(Now()), Now())
      ensures ok ==> FollowsSelection(Cached(node), PolicyKey(node, color), vpp.fib, installed)
      ensures ok ==>
                Published(PolicyKey(node, color), force, old(installed), installed, old(vpp.policies).Keys,
                          vpp.policies.Keys, old(log), log)
      ensures !ok ==> installed == old(installed) && log == old(log)
      ensures old(Calm()) ==>
                && Calm() && (ok <==> SelectedBsid(Cached(node), ByColor(color), vpp.fib) != Some(ZERO_ADDRESS))
                && Reconciled(Cached(node), color, vpp.fib, Recorded(old(installed), PolicyKey(node, color)),
                              old(vpp.steering), old(vpp.policies), vpp.steering, vpp.policies)
    {
      var key := PolicyKey(node, color);
      var selected, desired := SelectCandidate(node, ByColor(color));
      SelectedIsInstallable(Cached(node), ByColor(color), vpp.fib);
      var actual := vpp.ListSRv6Policies();
      if actual.None? {
        return false;
      }
      if desired.None? {
        if key !in installed {
          return true;
        }
        ok := UninstallColor(key, actual.value);
      } else {
        ok := InstallColor(key, selected.value, desired.value, actual.value, force);
        if old(Calm()) {
          InstallingReconciles(Cached(node), color, vpp.fib, Recorded(old(installed), key), desired.value,
                               vpp.steering, old(vpp.policies), vpp.policies);
        }
      }
    }

    // ----- Failover on withdraw -----

    /** Deletes the steering and the policy of every withdrawn BSID; returns the
        entries that lost their steering. */
    method DeleteMatched(matched: seq<IP6>, list: seq<Steer>) returns (orphaned: seq<SteerKey>)
      requires list == [] || ListsSteering(list, vpp.steering)
      requires vpp.reliable ==> ListsSteering(list, vpp.steering)
      modifies vpp`steering, vpp`policies, vpp`writes
      ensures OnlyLoses(old(vpp.steering), vpp.steering, set b | b in matched)
      ensures vpp.reliable ==>
                TornDown(matched, orphaned, old(vpp.steering), old(vpp.policies), vpp.steering, vpp.policies)
    {
      orphaned := [];
      for i := 0 to |matched|
        invariant forall k :: k in orphaned ==> k in old(vpp.steering) && old(vpp.steering)[k] in matched
        invariant vpp.reliable ==>
                    forall k :: k in old(vpp.steering) && old(vpp.steering)[k] in matched[..i] ==> k in orphaned
        invariant forall k :: k in vpp.steering ==> k in old(vpp.steering) && vpp.steering[k] == old(vpp.steering)[k]
        invariant forall k :: k in old(vpp.steering) && k !in orphaned ==> k in vpp.steering
        invariant vpp.reliable ==> forall k :: k in orphaned ==> k !in vpp.steering
        invariant vpp.reliable ==> vpp.policies == old(vpp.policies) - (set b | b in matched[..i])
      {
        assert matched[..i + 1] == matched[..i] + [matched[i]];
        var lost := DeleteSteeringEntries(matched[i], list);
        ghost var before := orphaned;
        orphaned := orphaned + lost;
        assert forall k :: k in orphaned <==> k in before || k in lost;
        var r := vpp.DelSRv6Policy(matched[i]);
      }
      assert matched[..|matched|] == matched;
    }

    method DeleteSteeringEntries(b: IP6, list: seq<Steer>) returns (lost: seq<SteerKey>)
      modifies vpp`steering, vpp`writes
      ensures forall k :: k in lost <==> exists st :: st in list && st.bsid == b && st.key == k
      ensures forall k :: k in vpp.steering ==> k in old(vpp.steering) && vpp.steering[k] == old(vpp.steering)[k]
      ensures forall k :: k in old(vpp.steering) && k !in lost ==> k in vpp.steering
      ensures vpp.reliable ==> forall k :: k in lost ==> k !in vpp.steering
    {
      lost := [];
      for i := 0 to |list|
        invariant forall k :: k in lost <==> exists st :: st in list[..i] && st.bsid == b && st.key == k
        invariant forall k :: k in vpp.steering ==> k in old(vpp.steering) && vpp.steering[k] == old(vpp.steering)[k]
        invariant forall k :: k in old(vpp.steering) && k !in lost ==> k in vpp.steering
        invariant vpp.reliable ==> forall k :: k in lost ==> k !in vpp.steering
      {
        assert list[..i + 1] == list[..i] + [list[i]];
        if list[i].bsid == b {
          lost := lost + [list[i].key];
          var r := vpp.DelSRv6Steering(list[i]);
        }
      }
      assert list[..|list|] == list;
    }

    /** Re-points one orphaned entry, in its own table, at the best valid survivor;
        without one, drops it when asked to. */
    method ResteerOrphan(node: string, key: SteerKey, done: set<IP6>, drop: bool) returns (done': set<IP6>)
      requires Tracked() && done <= vpp.policies.Keys
      modifies this`cache, this`dynBsids, this`dropped, vpp`steering, vpp`policies, vpp`drops, vpp`writes
      ensures Tracked() && done' <= vpp.policies.Keys && Binds(node, old(Now()), Now())
      ensures Filed(node, old(dropped), dropped) && (!drop ==> Lifted(old(dropped), dropped))
      ensures old(Calm()) && AllServed(old(Cached(node)), vpp.fib, done, old(vpp.policies)) ==>
                && Calm() && AllServed(Cached(node), vpp.fib, done', vpp.policies)
                && ResteerEffect(key, Cached(node), vpp.fib, drop, old(vpp.steering), old(vpp.policies), old(vpp.drops),
                                 vpp.steering, vpp.policies, vpp.drops)
    {
      done' := done;
      ghost var calm := Calm() && AllServed(Cached(node), vpp.fib, done, vpp.policies);
      var best, policy := SelectCandidate(node, ByBehavior(PrefixBehavior(key.prefix)));
      SelectedIsInstallable(Cached(node), BehaviorOf(key), vpp.fib);
      if calm {
        AllServedStable(node, old(Cached(node)), Cached(node), dynBsids, vpp.fib, done, vpp.policies);
      }
      if policy.None? {
        if drop {
          EngageDropRoute(node, key);
        }
        return;
      }
      done' := PointAt(key, policy.value, done);
      if calm {
        PointingResteers(key, Cached(node), vpp.fib, drop, policy.value, done, done',
                         old(vpp.steering), old(vpp.policies), old(vpp.drops), vpp.steering, vpp.policies, vpp.drops);
      }
    }

    /** Installs the policy, once per failover, lifts a drop route, then steers the entry. */
    method PointAt(key: SteerKey, policy: SrPolicy, done: set<IP6>) returns (done': set<IP6>)
      requires dropped.Keys == vpp.drops && done <= vpp.policies.Keys
      modifies this`dropped, vpp`steering, vpp`policies, vpp`drops, vpp`writes
      ensures dropped.Keys == vpp.drops && done' <= vpp.policies.Keys && Lifted(old(dropped), dropped)
      ensures old(Calm()) && policy.sidLists != [] ==>
                Pointed(key, policy, done, done', old(vpp.steering), old(vpp.policies), old(vpp.drops),
                        vpp.steering, vpp.policies, vpp.drops)
    {
      done' := done;
      var b := policy.bsid;
      if b !in done {
        ghost var before := vpp.policies;
        var ok := vpp.AddModSRv6Policy(policy);
        if !ok {
          assert forall d :: d in done ==> d in before - {b};
          return;
        }
        done' := done + {b};
      }
      ClearDropRoute(key);
      var r := vpp.AddSRv6Steering(Steer(key, b));
    }

    method ResteerAll(node: string, orphaned: seq<SteerKey>, drop: bool)
      requires Tracked()
      requires vpp.reliable ==> forall k :: k in orphaned ==> k !in vpp.steering
      modifies this`cache, this`dynBsids, this`dropped, vpp`steering, vpp`policies, vpp`drops, vpp`writes
      ensures Tracked() && Binds(node, old(Now()), Now())
      ensures Filed(node, old(dropped), dropped) && (!drop ==> Lifted(old(dropped), dropped))
      ensures old(Calm()) ==>
                Calm() &&
                Resteered(Cached(node), orphaned, vpp.fib, drop, old(vpp.steering), old(vpp.policies), old(vpp.drops),
                          vpp.steering, vpp.policies, vpp.drops)
    {
      var done := {};
      ghost var calm, was, s1, p1, d1 := Calm(), Now(), vpp.steering, vpp.policies, vpp.drops;
      for i := 0 to |orphaned|
        invariant Tracked() && done <= vpp.policies.Keys && Binds(node, was, Now())
        invariant Filed(node, old(dropped), dropped) && (!drop ==> Lifted(old(dropped), dropped))
        invariant calm ==> Resteering(node, orphaned[..i], drop, done, s1, p1, d1)
      {
        done := ResteerNext(node, orphaned[..i], orphaned[i], done, drop, calm, was, s1, p1, d1);
        assert orphaned[..i + 1] == orphaned[..i] + [orphaned[i]];
      }
      assert orphaned[..|orphaned|] == orphaned;
    }

    /** Some orphans are re-steered; the policies of done were installed for them. */
    ghost predicate Resteering(node: string, orphaned: seq<SteerKey>, drop: bool, done: set<IP6>,
                               s1: map<SteerKey, IP6>, p1: map<IP6, SrPolicy>, d1: set<SteerKey>)
      reads this, vpp
    {
      && Calm() && AllServed(Cached(node), vpp.fib, done, vpp.policies)
      && Resteered(Cached(node), orphaned, vpp.fib, drop, s1, p1, d1, vpp.steering, vpp.policies, vpp.drops)
    }

    method ResteerNext(node: string, ghost orphaned: seq<SteerKey>, key: SteerKey, done: set<IP6>, drop: bool,
                       ghost calm: bool, ghost was: Book, ghost s1: map<SteerKey, IP6>, ghost p1: map<IP6, SrPolicy>,
                       ghost d1: set<SteerKey>)
      returns (done': set<IP6>)
      requires Tracked() && done <= vpp.policies.Keys && Binds(node, was, Now())
      requires calm ==> Resteering(node, orphaned, drop, done, s1, p1, d1) && key !in s1
      modifies this`cache, this`dynBsids, this`dropped, vpp`steering, vpp`policies, vpp`drops, vpp`writes
      ensures Tracked() && done' <= vpp.policies.Keys && Binds(node, was, Now())
      ensures Filed(node, old(dropped), dropped) && (!drop ==> Lifted(old(dropped), dropped))
      ensures calm ==> Resteering(node, orphaned + [key], drop, done', s1, p1, d1)
    {
      done' := ResteerOrphan(node, key, done, drop);
      BindsTrans(node, was, old(Now()), Now());
      if calm {
        ResteeredNext(node, old(Cached(node)), Cached(node), dynBsids, orphaned, key, vpp.fib, drop, s1, p1, d1,
                      old(vpp.steering), old(vpp.policies), old(vpp.drops), vpp.steering, vpp.policies, vpp.drops);
      }
    }

    /** Releases the dynamic BSID of an SR Policy with its last candidate. */
    method ReleaseUnusedDynBsids(node: string, color: Uint32, remaining: seq<Tunnel>)
      modifies this`dynBsids
      ensures
        var key := PolicyKey(node, color);
        dynBsids == if HasColor(remaining, color) then old(dynBsids) else old(dynBsids) - {key}
    {
      var key := PolicyKey(node, color);
      if key !in dynBsids {
        return;
      }
      for i := 0 to |remaining|
        invariant dynBsids == old(dynBsids)
        invariant forall t :: t in remaining[..i] ==> t.color != color
      {
        assert remaining[..i + 1] == remaining[..i] + [remaining[i]];
        if remaining[i].color == color {
          return;
        }
      }
      assert remaining[..|remaining|] == remaining;
      dynBsids := dynBsids - {key};
    }

    /** Compacts the endpoint's slice; its length is only cut when a withdrawn
        candidate had a BSID. */
    method CompactSlice(node: string, k: CandidateKey)
      returns (remaining: seq<Tunnel>, matched: seq<IP6>, drop: bool)
      requires node in cache
      modifies this`cache
      ensures remaining == Without(old(cache)[node], k) && matched == MatchedBsids(old(cache)[node], k)
      ensures drop <==> MatchedDrop(old(cache)[node], k)
      ensures node in cache && cache == old(cache)[node := cache[node]]
      ensures cache[node] == remaining + old(cache)[node][|remaining|..]
    {
      var cs := cache[node];
      var a := new Tunnel[|cs|](i requires 0 <= i < |cs| => cs[i]);
      assert a[..] == cs;
      var n;
      n, matched, drop := CompactInPlace(a, k);
      remaining := a[..n];
      assert a[..] == a[..n] + a[n..];
      cache := cache[node := a[..]];
    }

    /** Removes the withdrawn candidates from VPP and from the cache; was is the book before
        the slice was compacted. */
    method TearDown(node: string, ghost k: CandidateKey, color: Uint32, ghost was: Book, matched: seq<IP6>,
                    remaining: seq<Tunnel>)
      returns (orphaned: seq<SteerKey>)
      requires node in was.cache && node in cache && cache == was.cache[node := cache[node]] && dynBsids == was.dyn
      requires color == k.color && remaining == Without(was.cache[node], k) &&
               matched == MatchedBsids(was.cache[node], k) != []
      requires Tracked()
      modifies this`cache, this`dynBsids, this`dropped, vpp`steering, vpp`policies, vpp`drops, vpp`writes
      ensures Tracked() && Now() == AfterWithdraw(was, node, k) && Lifted(old(dropped), dropped)
      ensures vpp.reliable && remaining == [] ==> Owned(dropped, node) == {}
      ensures vpp.reliable ==>
                TornDown(matched, orphaned, old(vpp.steering), old(vpp.policies), vpp.steering, vpp.policies)
      ensures vpp.reliable || remaining != [] ==>
                vpp.drops == Undropped(remaining, old(Owned(dropped, node)), old(vpp.drops))
    {
      var list := vpp.ListSRv6Steering();
      orphaned := DeleteMatched(matched, if list.Some? then list.value else []);
      if |remaining| == 0 {
        cache := cache - {node};
        assert cache == was.cache - {node};
        ReleaseDropsForNode(node);
      } else {
        cache := cache[node := remaining];
        assert cache == was.cache[node := remaining];
      }
      ReleaseUnusedDynBsids(node, color, remaining);
    }

    /** Handles an SR Policy withdraw; mid and live are the BSIDs in VPP before and after the SR
        Policy is reconciled. */
    method DelSRPolicy(w: Tunnel) returns (ok: bool, ghost mid: set<IP6>, ghost live: set<IP6>)
      requires Valid()
      modifies this`cache, this`dynBsids, this`dropped, this`installed, this`log, this`pending
      modifies vpp`steering, vpp`policies, vpp`drops, vpp`writes
      ensures Valid() && Binds(w.dst, AfterWithdraw(old(Now()), w.dst, KeyOf(w)), Now())
      ensures Drained(old(pending), None, vpp.reliable, live, pending, vpp.steering, vpp.policies)
      ensures ok && MatchedBsids(old(Cached(w.dst)), KeyOf(w)) != [] ==>
                FollowsSelection(Cached(w.dst), PolicyKey(w.dst, w.color), vpp.fib, installed)
      ensures
        var key, matched := PolicyKey(w.dst, w.color), MatchedBsids(old(Cached(w.dst)), KeyOf(w));
        if ok && matched != [] then
          Published(key, key in old(installed) && old(installed)[key].policy.bsid in matched, old(installed), installed,
                    mid, live, old(log), log)
        else installed == old(installed) && log == old(log)
      ensures old(Calm()) ==>
                OthersKept(MatchedBsids(old(Cached(w.dst)), KeyOf(w)), old(pending), Cached(w.dst), w.color, vpp.fib,
                           Recorded(old(installed), PolicyKey(w.dst, w.color)), old(vpp.policies), mid, vpp.policies)
      ensures
        var cs, rest := old(Cached(w.dst)), Cached(w.dst);
        old(Calm()) && MatchedBsids(cs, KeyOf(w)) != [] ==>
          && (ok <==> SelectedBsid(rest, ByColor(w.color), vpp.fib) != Some(ZERO_ADDRESS))
          && FailedOver(cs, KeyOf(w), w.dropUponInvalid, rest, vpp.fib,
                        Recorded(old(installed), PolicyKey(w.dst, w.color)), old(Owned(dropped, w.dst)),
                        old(vpp.steering), old(vpp.policies), old(vpp.drops), vpp.steering, vpp.policies, vpp.drops)
      ensures MatchedBsids(old(Cached(w.dst)), KeyOf(w)) == [] ==>
                ok && vpp.steering == old(vpp.steering) && dropped == old(dropped)
      ensures Filed(w.dst, old(dropped), dropped)
      ensures vpp.reliable && old(Cached(w.dst)) != [] && Cached(w.dst) == [] ==> Owned(dropped, w.dst) == {}
    {
      var node, k := w.dst, KeyOf(w);
      mid, live := vpp.policies.Keys, vpp.policies.Keys;
      if node !in cache {
        ok := true;
        DrainPendingBsidCleanup(None);
        return;
      }
      ghost var was, cs := Now(), cache[node];
      var remaining, matched, drop := CompactSlice(node, k);
      if |matched| == 0 {
        ok := true;
        DrainPendingBsidCleanup(None);
        return;
      }
      drop := (w.dropUponInvalid || drop || exists t :: t in remaining && t.dropUponInvalid) && |remaining| > 0;
      assert drop <==> DropRequested(cs, k, w.dropUponInvalid) by {
        WithoutMembers(cs, k);
      }
      ok, mid, live := FailOver(node, w, k, was, matched, remaining, drop);
    }

    method FailOver(node: string, w: Tunnel, ghost k: CandidateKey, ghost was: Book,
                    matched: seq<IP6>, remaining: seq<Tunnel>, drop: bool)
      returns (ok: bool, ghost mid: set<IP6>, ghost live: set<IP6>)
      requires Valid()
      requires node in was.cache && node in cache && cache == was.cache[node := cache[node]] && dynBsids == was.dyn
      requires k == KeyOf(w) && remaining == Without(was.cache[node], k) &&
               matched == MatchedBsids(was.cache[node], k) != []
      requires drop <==> DropRequested(was.cache[node], k, w.dropUponInvalid)
      modifies this`cache, this`dynBsids, this`dropped, this`installed, this`log, this`pending
      modifies vpp`steering, vpp`policies, vpp`drops, vpp`writes
      ensures Valid() && Binds(node, AfterWithdraw(was, node, k), Now()) &&
              Drained(old(pending), None, vpp.reliable, live, pending, vpp.steering, vpp.policies)
      ensures Filed(node, old(dropped), dropped) && (vpp.reliable && remaining == [] ==> Owned(dropped, node) == {})
      ensures ok ==> FollowsSelection(Cached(node), PolicyKey(node, w.color), vpp.fib, installed)
      ensures
        var key := PolicyKey(node, w.color);
        if ok then
          Published(key, key in old(installed) && old(installed)[key].policy.bsid in matched, old(installed), installed,
                    mid, live, old(log), log)
        else installed == old(installed) && log == old(log)
      ensures old(Calm()) ==>
                OthersKept(matched, old(pending), Cached(node), w.color, vpp.fib,
                           Recorded(old(installed), PolicyKey(node, w.color)), old(vpp.policies), mid, vpp.policies)
      ensures old(Calm()) ==>
                && (ok <==> SelectedBsid(Cached(node), ByColor(w.color), vpp.fib) != Some(ZERO_ADDRESS))
                && FailedOver(was.cache[node], k, w.dropUponInvalid, Cached(node), vpp.fib,
                              Recorded(old(installed), PolicyKey(node, w.color)), old(Owned(dropped, node)),
                              old(vpp.steering), old(vpp.policies), old(vpp.drops), vpp.steering, vpp.policies,
                              vpp.drops)
    {
      var key := PolicyKey(node, w.color);
      var force := key in installed && installed[key].policy.bsid in matched;
      ghost var h;
      ok, h := HandOver(node, w.color, force, k, was, matched, remaining, drop);
      mid, live := h.p2.Keys, h.p3.Keys;
      if old(Calm()) {
        FailoverFinishes(h, node, was.cache[node], k, w.dropUponInvalid, Cached(node), dynBsids, vpp.fib,
                         Recorded(old(installed), key), old(Owned(dropped, node)), old(pending),
                         vpp.reliable, pending, old(vpp.steering), old(vpp.policies), old(vpp.drops), vpp.steering,
                         vpp.policies, vpp.drops);
      }
    }

    /** The steps of a failover, one after the other. */
    method HandOver(node: string, color: Uint32, force: bool, ghost k: CandidateKey, ghost was: Book,
                    matched: seq<IP6>, remaining: seq<Tunnel>, drop: bool)
      returns (ok: bool, ghost h: Handover)
      requires Valid()
      requires node in was.cache && node in cache && cache == was.cache[node := cache[node]] && dynBsids == was.dyn
      requires color == k.color && remaining == Without(was.cache[node], k) &&
               matched == MatchedBsids(was.cache[node], k) != [] && (drop ==> remaining != [])
      modifies this`cache, this`dynBsids, this`dropped, this`installed, this`log, this`pending
      modifies vpp`steering, vpp`policies, vpp`drops, vpp`writes
      ensures Valid() && Binds(node, AfterWithdraw(was, node, k), Now()) &&
              Drained(old(pending), None, vpp.reliable, h.p3.Keys, pending, vpp.steering, vpp.policies)
      ensures Filed(node, old(dropped), dropped) && (vpp.reliable && remaining == [] ==> Owned(dropped, node) == {})
      ensures ok ==> FollowsSelection(Cached(node), PolicyKey(node, color), vpp.fib, installed)
      ensures if ok then
                Published(PolicyKey(node, color), force, old(installed), installed, h.p2.Keys, h.p3.Keys, old(log), log)
              else installed == old(installed) && log == old(log)
      ensures old(Calm()) ==>
                && (ok <==> SelectedBsid(Cached(node), ByColor(color), vpp.fib) != Some(ZERO_ADDRESS))
                && HandedOver(h, node, matched, color, drop, Cached(node), dynBsids, vpp.fib,
                              Recorded(old(installed), PolicyKey(node, color)), old(Owned(dropped, node)),
                              old(vpp.steering), old(vpp.policies), old(vpp.drops), vpp.steering, vpp.policies,
                              vpp.drops)
    {
      ghost var lost, t := Reroute(node, k, color, was, matched, remaining, drop);
      ghost var rest, s2, p2 := Cached(node), vpp.steering, vpp.policies;
      ghost var p3;
      ok, p3 := Finish(node, color, force, None, AfterWithdraw(was, node, k));
      h := Handover(lost, rest, t.steering, t.policies, t.drops, s2, p2, p3);
    }

    /** Takes the withdrawn candidates out of VPP and re-steers what they carried; t is VPP
        in between. */
    method Reroute(node: string, ghost k: CandidateKey, color: Uint32, ghost was: Book,
                   matched: seq<IP6>, remaining: seq<Tunnel>, drop: bool)
      returns (ghost lost: seq<SteerKey>, ghost t: Torn)
      requires Tracked()
      requires node in was.cache && node in cache && cache == was.cache[node := cache[node]] && dynBsids == was.dyn
      requires color == k.color && remaining == Without(was.cache[node], k) &&
               matched == MatchedBsids(was.cache[node], k) != [] && (drop ==> remaining != [])
      modifies this`cache, this`dynBsids, this`dropped, vpp`steering, vpp`policies, vpp`drops, vpp`writes
      ensures Tracked() && Binds(node, AfterWithdraw(was, node, k), Now())
      ensures Filed(node, old(dropped), dropped) && (vpp.reliable && remaining == [] ==> Owned(dropped, node) == {})
      ensures vpp.reliable || remaining != [] ==>
                t.drops == Undropped(Cached(node), old(Owned(dropped, node)), old(vpp.drops))
      ensures old(Calm()) ==>
                && Calm() && TornDown(matched, lost, old(vpp.steering), old(vpp.policies), t.steering, t.policies)
                && Resteered(Cached(node), lost, vpp.fib, drop, t.steering, t.policies, t.drops,
                             vpp.steering, vpp.policies, vpp.drops)
    {
      var orphaned := TearDown(node, k, color, was, matched, remaining);
      lost, t := orphaned, Torn(vpp.steering, vpp.policies, vpp.drops);
      ResteerAll(node, orphaned, drop);
    }

    /** The end of a withdraw or an advertisement: reconcile the color, then the deferred
        cleanup; p3 is VPP's policy table in between. */
    method Finish(node: string, color: Uint32, force: bool, orphaned: Option<IP6>, ghost since: Book)
      returns (ok: bool, ghost p3: map<IP6, SrPolicy>)
      requires Valid() && Binds(node, since, Now())
      modifies this`cache, this`dynBsids, this`installed, this`log, this`pending, vpp`steering, vpp`policies, vpp`writes
      ensures Valid() && Binds(node, since, Now()) && OnlyBinds(node, old(Cached(node)), Cached(node), dynBsids)
      ensures ok ==> FollowsSelection(Cached(node), PolicyKey(node, color), vpp.fib, installed)
      ensures ok ==> Published(PolicyKey(node, color), force, old(installed), installed, old(vpp.policies).Keys,
                               p3.Keys, old(log), log)
      ensures !ok ==> installed == old(installed) && log == old(log)
      ensures Freed(vpp.steering, p3, vpp.policies) &&
              Drained(old(pending), orphaned, vpp.reliable, p3.Keys, pending, vpp.steering, vpp.policies)
      ensures old(Calm()) ==>
                && (ok <==> SelectedBsid(Cached(node), ByColor(color), vpp.fib) != Some(ZERO_ADDRESS))
                && Reconciled(Cached(node), color, vpp.fib, Recorded(old(installed), PolicyKey(node, color)),
                              old(vpp.steering), old(vpp.policies), vpp.steering, p3)
    {
      ok := ReconcilePolicyColor(node, color, force);
      p3 := vpp.policies;
      BindsTrans(node, since, old(Now()), Now());
      DrainPendingBsidCleanup(orphaned);
    }

    // ----- Advertisements and ordinary prefixes -----

    /** Installs the policy, lifts a drop route, then steers the prefix. */
    method CreateSRv6Tunnel(prefix: Prefix, policy: SrPolicy)
      requires dropped.Keys == vpp.drops
      modifies this`dropped, vpp`steering, vpp`policies, vpp`drops, vpp`writes
      ensures dropped.Keys == vpp.drops && LiftedFor([prefix], None, old(dropped), dropped)
      ensures vpp.steering == old(vpp.steering) ||
              (vpp.steering == old(vpp.steering)[SteerKey(0, prefix) := policy.bsid] && policy.bsid in vpp.policies)
      ensures vpp.reliable && policy.sidLists != [] && policy.bsid != ZERO_ADDRESS ==>
                && vpp.steering == old(vpp.steering)[MainTable(prefix) := policy.bsid]
                && vpp.policies == old(vpp.policies)[policy.bsid := policy]
                && MainTable(prefix) !in vpp.drops
      ensures old(Calm()) && policy.bsid == ZERO_ADDRESS ==>
                vpp.steering == old(vpp.steering) && vpp.policies == old(vpp.policies) && vpp.drops == old(vpp.drops)
    {
      var ok := vpp.AddModSRv6Policy(policy);
      if !ok {
        return;
      }
      ClearDropRoute(MainTable(prefix));
      var r := vpp.AddSRv6Steering(Steer(MainTable(prefix), policy.bsid));
    }

    method InstallPrefix(node: string, p: Prefix)
      requires Tracked()
      modifies this`cache, this`dynBsids, this`dropped, vpp`steering, vpp`policies, vpp`drops, vpp`writes
      ensures Tracked() && Binds(node, old(Now()), Now()) && LiftedFor([p], None, old(dropped), dropped)
      ensures old(Calm()) ==>
                Calm() && PrefixStep(p, Cached(node), vpp.fib, old(vpp.steering), old(vpp.policies), old(vpp.drops),
                                     vpp.steering, vpp.policies, vpp.drops)
    {
      var best, policy := SelectCandidate(node, ByBehavior(PrefixBehavior(p)));
      SelectedIsInstallable(Cached(node), BehaviorOf(MainTable(p)), vpp.fib);
      if policy.Some? {
        CreateSRv6Tunnel(p, policy.value);
        if old(Calm()) {
          InstallingServes(Cached(node), BehaviorOf(MainTable(p)), vpp.fib, policy.value, old(vpp.policies));
        }
      }
    }

    method InstallPrefixes(node: string, list: seq<Prefix>)
      requires Tracked()
      modifies this`cache, this`dynBsids, this`dropped, vpp`steering, vpp`policies, vpp`drops, vpp`writes
      ensures Tracked() && Binds(node, old(Now()), Now()) && LiftedFor(list, None, old(dropped), dropped)
      ensures old(Calm()) ==>
                Calm() && PrefixesInstalled(list, Cached(node), vpp.fib, old(vpp.steering), old(vpp.policies),
                                            vpp.steering, vpp.policies, vpp.drops)
    {
      for i := 0 to |list|
        invariant Tracked() && Binds(node, old(Now()), Now()) && LiftedFor(list, None, old(dropped), dropped)
        invariant old(Calm()) ==>
          Calm() && PrefixesInstalled(list[..i], Cached(node), vpp.fib, old(vpp.steering), old(vpp.policies),
                                      vpp.steering, vpp.policies, vpp.drops)
      {
        ghost var book, s1, p1, d1 := Now(), vpp.steering, vpp.policies, vpp.drops;
        InstallPrefix(node, list[i]);
        BindsTrans(node, old(Now()), book, Now());
        if old(Calm()) {
          PrefixesNext(node, Candidates(book.cache, node), Cached(node), dynBsids, list[..i], list[i], vpp.fib,
                       old(vpp.steering), old(vpp.policies), s1, p1, d1, vpp.steering, vpp.policies, vpp.drops);
        }
        assert list[..i + 1] == list[..i] + [list[i]];
      }
      assert list[..|list|] == list;
    }

    /** Steers the node's own address, in the pod VRF, onto its End.DT6 candidate. */
    method SteerNodeIPViaSID(node: string)
      requires Tracked()
      modifies this`cache, this`dynBsids, this`dropped, vpp`steering, vpp`drops, vpp`writes
      ensures Tracked() && LiftedFor([], nodeAddress(node), old(dropped), dropped) && Binds(node, old(Now()), Now())
      ensures vpp.reliable ==>
                && (nodeAddress(node).Some? ==> Ready(Cached(node), ByBehavior(DT6)))
                && vpp.steering == NodeSteered(nodeAddress(node), Cached(node), vpp.fib, old(vpp.steering))
                && NodeLifted(nodeAddress(node), Cached(node), vpp.fib, vpp.drops)
      ensures if nodeAddress(node).None? then vpp.steering == old(vpp.steering)
              else var k := SteerKey(2, Prefix(nodeAddress(node).value, 128, true));
                   vpp.steering - {k} == old(vpp.steering) - {k}
    {
      var a := nodeAddress(node);
      if a.None? {
        return;
      }
      var best, policy := SelectCandidate(node, ByBehavior(DT6));
      SelectedIsInstallable(Cached(node), ByBehavior(DT6), vpp.fib);
      if policy.None? {
        return;
      }
      ClearDropRoute(NodeKey(a.value));
      LiftsOwnAddress(a.value, old(dropped), dropped);
      var r := vpp.AddSRv6Steering(Steer(NodeKey(a.value), policy.value.bsid));
    }

    ghost function Listed(node: string): seq<Prefix>
      reads this
    {
      if node in prefixes then prefixes[node] else []
    }

    /** The address that is steered: a node without prefixes is left alone. */
    ghost function Addressed(node: string): Option<IP6>
      reads this
    {
      if node in prefixes then nodeAddress(node) else None
    }

    /** Installs an endpoint's prefixes and then steers its own address. */
    method InstallNode(node: string) returns (ghost i: Installing)
      requires Valid()
      modifies this`cache, this`dynBsids, this`dropped, vpp`steering, vpp`policies, vpp`drops, vpp`writes
      ensures Valid() && Binds(node, old(Now()), Now())
      ensures LiftedFor(old(Listed(node)), old(Addressed(node)), old(dropped), dropped)
      ensures i.steering == vpp.steering && i.policies == vpp.policies
      ensures old(Calm()) ==>
                && Calm()
                && NodeInstalled(old(Listed(node)), old(Addressed(node)), Cached(node), vpp.fib, old(vpp.steering),
                                 old(vpp.policies), i.mid, i.midDrops, i.steering, i.policies)
      ensures vpp.reliable ==> NodeLifted(old(Addressed(node)), Cached(node), vpp.fib, vpp.drops)
    {
      ghost var mid, midDrops := vpp.steering, vpp.drops;
      if node in prefixes {
        InstallPrefixes(node, prefixes[node]);
        ghost var book := Now();
        mid, midDrops := vpp.steering, vpp.drops;
        SteerNodeIPViaSID(node);
        BindsTrans(node, old(Now()), book, Now());
        if old(Calm()) {
          PrefixesStable(node, Candidates(book.cache, node), Cached(node), dynBsids, prefixes[node], vpp.fib,
                         old(vpp.steering), old(vpp.policies), mid, vpp.policies, midDrops);
        }
      }
      i := Installing(mid, midDrops, vpp.steering, vpp.policies);
    }

    /** An SR Policy advertisement from BGP; slice holds the endpoint's candidates with it. */
    method AddPolicy(t: Tunnel)
      returns (ok: bool, ghost slice: seq<Tunnel>, ghost i: Installing, ghost reconciled: map<IP6, SrPolicy>)
      requires Valid()
      modifies this`cache, this`dynBsids, this`dropped, this`installed, this`log, this`pending
      modifies vpp`steering, vpp`policies, vpp`drops, vpp`writes
      ensures Valid() && Upserted(old(Cached(t.dst)), t, slice)
      ensures LiftedFor(Listed(t.dst), Addressed(t.dst), old(dropped), dropped)
      ensures Binds(t.dst, old(Now()).(cache := old(cache)[t.dst := slice]), Now())
      ensures ok ==> FollowsSelection(Cached(t.dst), PolicyKey(t.dst, t.color), vpp.fib, installed)
      ensures ok ==>
                Published(PolicyKey(t.dst, t.color), false, old(installed), installed, i.policies.Keys, reconciled.Keys,
                          old(log), log)
      ensures !ok ==> installed == old(installed) && log == old(log)
      ensures UniqueKeys(old(Cached(t.dst))) ==>
                Drained(old(pending), Superseded(old(Cached(t.dst)), t), vpp.reliable, reconciled.Keys, pending,
                        vpp.steering, vpp.policies)
      ensures old(Calm()) ==>
                && (ok <==> SelectedBsid(Cached(t.dst), ByColor(t.color), vpp.fib) != Some(ZERO_ADDRESS))
                && Advertised(Listed(t.dst), Addressed(t.dst), Cached(t.dst), vpp.fib, t.color,
                              Recorded(old(installed), PolicyKey(t.dst, t.color)), old(vpp.steering), old(vpp.policies),
                              i.mid, i.midDrops, i.steering, i.policies, vpp.steering, reconciled, vpp.policies)
    {
      var r, orphaned := Upsert(Candidates(cache, t.dst), t);
      slice := r;
      cache := cache[t.dst := r];
      ghost var through;
      ok, through, i, reconciled := Announce(t.dst, t.color, orphaned);
      if old(Calm()) {
        AdvertisementComposes(t.dst, through, Cached(t.dst), dynBsids, Listed(t.dst), Addressed(t.dst), vpp.fib,
                              t.color, Recorded(old(installed), PolicyKey(t.dst, t.color)), old(vpp.steering),
                              old(vpp.policies),
                              i.mid, i.midDrops, i.steering, i.policies, vpp.steering, reconciled, vpp.policies);
      }
    }

    /** Installs the endpoint's prefixes through its candidates, then reconciles the color. */
    method Announce(node: string, color: Uint32, orphaned: Option<IP6>)
      returns (ok: bool, ghost through: seq<Tunnel>, ghost i: Installing, ghost reconciled: map<IP6, SrPolicy>)
      requires Valid()
      modifies this`cache, this`dynBsids, this`dropped, this`installed, this`log, this`pending
      modifies vpp`steering, vpp`policies, vpp`drops, vpp`writes
      ensures Valid() && Binds(node, old(Now()), Now()) &&
              Drained(old(pending), orphaned, vpp.reliable, reconciled.Keys, pending, vpp.steering, vpp.policies)
      ensures LiftedFor(old(Listed(node)), old(Addressed(node)), old(dropped), dropped)
      ensures ok ==> FollowsSelection(Cached(node), PolicyKey(node, color), vpp.fib, installed)
      ensures ok ==> Published(PolicyKey(node, color), false, old(installed), installed, i.policies.Keys,
                               reconciled.Keys, old(log), log)
      ensures !ok ==> installed == old(installed) && log == old(log)
      ensures old(Calm()) ==>
                && (ok <==> SelectedBsid(Cached(node), ByColor(color), vpp.fib) != Some(ZERO_ADDRESS))
                && Announced(node, through, Cached(node), dynBsids, old(Listed(node)), old(Addressed(node)), vpp.fib,
                             color, Recorded(old(installed), PolicyKey(node, color)), old(vpp.steering),
                             old(vpp.policies),
                             i.mid, i.midDrops, i.steering, i.policies, vpp.steering, reconciled, vpp.policies)
    {
      i := InstallNode(node);
      through := Cached(node);
      ok, reconciled := Finish(node, color, false, orphaned, old(Now()));
    }

    /** An ordinary prefix of a node was learned. */
    method AddPrefix(node: string, prefix: Prefix) returns (ghost i: Installing)
      requires Valid()
      modifies this`cache, this`prefixes, this`dynBsids, this`dropped, this`pending
      modifies vpp`steering, vpp`policies, vpp`drops, vpp`writes
      ensures Valid() && Binds(node, old(Now()), Now())
      ensures LiftedFor(Listed(node), nodeAddress(node), old(dropped), dropped)
      ensures node in old(cache) ==>
                Drained(old(pending), None, vpp.reliable, i.policies.Keys, pending, vpp.steering, vpp.policies)
      ensures node !in old(cache) ==>
                pending == old(pending) && vpp.steering == old(vpp.steering) && vpp.policies == old(vpp.policies)
      ensures prefixes == old(prefixes)[node := Added(old(Listed(node)), prefix)]
      ensures old(Calm()) ==>
                && NodeInstalled(Listed(node), nodeAddress(node), Cached(node), vpp.fib, old(vpp.steering),
                                 old(vpp.policies), i.mid, i.midDrops, i.steering, i.policies)
                && vpp.steering == i.steering && Freed(vpp.steering, i.policies, vpp.policies)
      ensures old(Calm()) && NoDangling(old(vpp.steering), old(vpp.policies)) ==>
                (NoDangling(vpp.steering, vpp.policies) <==>
                   NodeBacked(Listed(node), nodeAddress(node), Cached(node), vpp.fib, old(vpp.policies)))
    {
      var list := if node in prefixes then prefixes[node] else [];
      prefixes := prefixes[node := Added(list, prefix)];
      if node !in cache {
        i := Installing(vpp.steering, vpp.drops, vpp.steering, vpp.policies);
        NothingToInstall(prefixes[node], nodeAddress(node), vpp.fib, vpp.steering, vpp.policies, vpp.drops);
        return;
      }
      i := Relearn(node);
    }

    /** Installs the endpoint's prefixes, then the deferred cleanup. */
    method Relearn(node: string) returns (ghost i: Installing)
      requires Valid()
      modifies this`cache, this`dynBsids, this`dropped, this`pending, vpp`steering, vpp`policies, vpp`drops, vpp`writes
      ensures LiftedFor(Listed(node), Addressed(node), old(dropped), dropped)
      ensures Valid() && Binds(node, old(Now()), Now()) &&
              Drained(old(pending), None, vpp.reliable, i.policies.Keys, pending, vpp.steering, vpp.policies)
      ensures old(Calm()) ==>
                && NodeInstalled(Listed(node), Addressed(node), Cached(node), vpp.fib, old(vpp.steering),
                                 old(vpp.policies), i.mid, i.midDrops, i.steering, i.policies)
                && vpp.steering == i.steering && Freed(vpp.steering, i.policies, vpp.policies)
      ensures old(Calm()) && NoDangling(old(vpp.steering), old(vpp.policies)) ==>
                (NoDangling(vpp.steering, vpp.policies) <==>
                   NodeBacked(Listed(node), Addressed(node), Cached(node), vpp.fib, old(vpp.policies)))
    {
      i := InstallNode(node);
      DrainPendingBsidCleanup(None);
      if old(Calm()) && NoDangling(old(vpp.steering), old(vpp.policies)) {
        FreeingKeepsDangling(vpp.steering, i.policies, vpp.policies);
        NodeSteeringDanglesIff(Listed(node), Addressed(node), Cached(node), vpp.fib, old(vpp.steering),
                               old(vpp.policies), i.mid, i.midDrops, i.steering, i.policies);
      }
    }

    /** An ordinary prefix was withdrawn: its steering goes, in every table. */
    method DelPrefixSteering(node: string, prefix: Prefix)
      requires Valid()
      modifies this`prefixes, vpp`steering, vpp`writes
      ensures Valid()
      ensures Unsteered(prefix, old(vpp.steering), vpp.steering)
      ensures vpp.reliable ==> forall k :: k in vpp.steering ==> k.prefix != prefix
      ensures prefixes - {node} == old(prefixes) - {node}
      ensures if node in old(prefixes) && Remove(old(prefixes)[node], prefix) != []
              then node in prefixes && prefixes[node] == Remove(old(prefixes)[node], prefix)
              else node !in prefixes
    {
      var list := vpp.ListSRv6Steering();
      var steering := if list.Some? then list.value else [];
      for i := 0 to |steering|
        invariant Valid()
        invariant prefixes == old(prefixes)
        invariant forall k :: k in vpp.steering ==> k in old(vpp.steering) && vpp.steering[k] == old(vpp.steering)[k]
        invariant forall k :: k in old(vpp.steering) && k.prefix != prefix ==> k in vpp.steering
        invariant vpp.reliable ==>
                    forall st :: st in steering[..i] && st.key.prefix == prefix ==> st.key !in vpp.steering
      {
        assert steering[..i + 1] == steering[..i] + [steering[i]];
        if steering[i].key.prefix == prefix {
          var r := vpp.DelSRv6Steering(steering[i]);
        }
      }
      assert steering[..|steering|] == steering;
      if vpp.reliable {
        forall k | k in vpp.steering ensures k.prefix != prefix {
          assert Steer(k, old(vpp.steering)[k]) in steering;
        }
      }
      if node in prefixes {
        var remaining := Remove(prefixes[node], prefix);
        prefixes := if remaining == [] then prefixes - {node} else prefixes[node := remaining];
      }
    }

    static function Added(list: seq<Prefix>, p: Prefix): (r: seq<Prefix>)
      ensures forall q :: q in r <==> q in list || q == p
      ensures multiset(r)[p] == if p in list then multiset(list)[p] else 1
    {
      if p in list then list else list + [p]
    }

    static function Remove(list: seq<Prefix>, p: Prefix): (r: seq<Prefix>)
      ensures forall q :: q in r <==> q in list && q != p
    {
      if list == [] then [] else (if list[0] == p then [] else [list[0]]) + Remove(list[1..], p)
    }
  }
}
