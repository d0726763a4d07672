/**
  The reconciler of SRv6-native (DSR) ClusterIP services on the client side: per service one
  SR policy with a weighted segment list per remote backend node, and one steering entry
  that sends the VIP into it. A reconcile drives what is installed to what is desired,
  from whatever earlier failures left.
 */
module ProviderDsr {
  import opened Srv6Types
  import opened Srv6Vpp
  import opened DsrBsid
  import opened DsrWeights
  import opened DsrServices
  import opened DsrTracking

  class Reconciler {
    const vpp: Vpp
    const pool: seq<Byte>
    const ones: nat
    /** This node's own address; its backends are delivered locally. */
    const self: Option<string>

    var prefixes: NodePrefixes
    /** The End.DT6 SID currently selected for each node that has one. */
    var sids: map<string, IP6>
    /** BSIDs of the cached BGP candidates. */
    var learned: set<IP6>
    var desired: map<IP6, seq<IP6>>
    var services: Services

    constructor (vpp: Vpp, pool: seq<Byte>, ones: nat, self: Option<string>)
      requires |pool| == IP6_LEN && ones <= 8 * IP6_LEN
      ensures this.vpp == vpp && this.pool == pool && this.ones == ones && this.self == self
      ensures prefixes == map[] && sids == map[] && learned == {} && desired == map[] && services == map[]
      ensures Valid()
    {
      this.vpp, this.pool, this.ones, this.self := vpp, pool, ones, self;
      prefixes, sids, learned, desired, services := map[], map[], {}, map[], map[];
    }

    /** Holds between any two operations, whatever calls failed. */
    ghost predicate Valid()
      reads this
    {
      && |pool| == IP6_LEN && ones <= 8 * IP6_LEN
      && (forall v :: v in desired ==> |desired[v]| < 0x1_0000_0000)
      && AllShaped(services)
    }

    ghost function Seen(): Moment
      reads vpp
    {
      Moment(vpp.policies, vpp.steering)
    }

    ghost function Bsids(): Source
      reads this
    {
      Source(pool, ones, learned)
    }

    ghost function Wanted(): Plan
      reads this
    {
      Plan(prefixes, self, sids, desired)
    }

    // ----- Choosing a BSID -----

    /** The addresses a derivation must avoid; a failed listing counts as an empty one. */
    method TakenBsids(except: IP6) returns (taken: set<IP6>)
      ensures learned <= taken <= learned + vpp.policies.Keys
      ensures vpp.reliable ==>
                taken == learned + (vpp.policies.Keys - if except in services then {services[except].bsid} else {})
    {
      taken := learned;
      var list := vpp.ListSRv6Policies();
      if list.Some? {
        taken := taken + set p | p in list.value && !(except in services && services[except].bsid == p.bsid) :: p.bsid;
      }
    }

    /** The BSID of an entry that already steers the VIP, from before a restart. */
    method AdoptExistingBsid(vip: IP6) returns (r: Option<IP6>)
      ensures r.Some? ==> exists k :: k in vpp.steering && k.prefix == VipPrefix(vip) && vpp.steering[k] == r.value
      ensures r.None? && vpp.reliable ==> forall k :: k in vpp.steering ==> k.prefix != VipPrefix(vip)
    {
      var list := vpp.ListSRv6Steering();
      if list.None? {
        return None;
      }
      for i := 0 to |list.value|
        invariant forall j :: 0 <= j < i ==> list.value[j].key.prefix != VipPrefix(vip)
      {
        if list.value[i].key.prefix == VipPrefix(vip) {
          return Some(list.value[i].bsid);
        }
      }
      forall k | k in vpp.steering ensures k.prefix != VipPrefix(vip) {
        assert Steer(k, vpp.steering[k]) in list.value;
      }
      r := None;
    }

    /** The BSID of a service: its own, an adopted one, or a free derived one. */
    method ChooseBsid(vip: IP6) returns (r: Option<IP6>)
      requires Valid()
      ensures vip in services ==> r == Some(services[vip].bsid)
      ensures vpp.reliable && r.Some? ==> Obtained(services, Seen(), vip, r.value)
      ensures vpp.reliable && vip !in services && (r.None? || r.value == ZERO_ADDRESS) ==> Denied(Bsids(), vip, Seen())
      ensures vpp.reliable && vip !in services && (forall k :: k in vpp.steering ==> k.prefix != VipPrefix(vip)) ==>
                r == Chosen(Bsids(), vip, Seen()) && (r.Some? ==> r.value !in learned)
    {
      if vip in services {
        return Some(services[vip].bsid);
      }
      r := AdoptExistingBsid(vip);
      if r.Some? {
        return;
      }
      var taken := TakenBsids(vip);
      assert vpp.reliable ==> taken == learned + vpp.policies.Keys;
      r := DsrBsidForVip(pool, ones, ToBytes(vip, IP6_LEN), taken);
      DerivationFailsIffAllTaken(Derived(pool, ones, ToBytes(vip, IP6_LEN)), taken);
    }

    // ----- One service -----

    /** Withdraws a service. It is forgotten only when both deletes report success; a
        part that failed stays recorded for the next reconcile. */
    method RemoveService(vip: IP6)
      requires Valid()
      modifies this`services, vpp`steering, vpp`policies, vpp`writes
      ensures Valid() && OthersSame(vip, old(services), services)
      ensures vip !in old(services) ==>
                services == old(services) && vpp.writes == old(vpp.writes) && Seen() == old(Seen())
      ensures if vip in services then vip in old(services) && services[vip].bsid == old(services)[vip].bsid
              else services == old(services) - {vip}
      ensures vip in old(services) && old(services)[vip].steer.Some? &&
              (vip in services ==> services[vip].steer.None?) ==>
                VipKey(vip) !in vpp.steering
      ensures vpp.reliable ==> Get(services, vip) == LeftOf(old(Get(services, vip)), old(Seen()))
      ensures vpp.reliable && vip in old(services) ==> Seen() == Removed(vip, old(services)[vip], old(Seen()))
    {
      if vip !in services {
        return;
      }
      var st := services[vip];
      assert Shaped(vip, st);
      var failed := false;
      if st.steer.Some? {
        var r := vpp.DelSRv6Steering(st.steer.value);
        if r.Ok? {
          st := st.(steer := None);
        } else {
          failed := true;
        }
      }
      if st.policy.Some? {
        var r := vpp.DelSRv6Policy(st.policy.value.bsid);
        if r.Ok? {
          st := st.(policy := None);
        } else {
          failed := true;
        }
      }
      services := if failed then services[vip := st] else services - {vip};
      if vpp.reliable {
        assert Seen() == Removed(vip, old(services)[vip], old(Seen()));
      }
    }

    /** Writes the policy and the steering of a service and records them. */
    method Install(vip: IP6, bsid: IP6, ls: seq<SidList>) returns (ok: bool)
      requires Valid() && AllSingle(ls)
      modifies this`services, vpp`steering, vpp`policies, vpp`writes
      ensures Valid()
      ensures
        var policy := SrPolicy(bsid, false, true, 0, ls);
        if ok then
          && services == old(services)[vip := Service(bsid, Some(policy), Some(Steer(VipKey(vip), bsid)))]
          && Seen() == Installed(vip, policy, old(Seen()))
        else services == old(services) && FailedInstall(vip, old(Get(services, vip)), policy, old(Seen()), Seen())
      ensures vpp.reliable ==> (ok <==> ls != [] && bsid != ZERO_ADDRESS)
      ensures vpp.reliable && !ok ==>
                vpp.steering == old(vpp.steering) && vpp.policies - {bsid} == old(vpp.policies) - {bsid}
      ensures bsid == ZERO_ADDRESS && ZERO_ADDRESS !in old(vpp.policies) ==> Seen() == old(Seen())
    {
      var policy := SrPolicy(bsid, false, true, 0, ls);
      ok := vpp.AddModSRv6Policy(policy);
      if !ok {
        return;
      }
      var steer := Steer(VipKey(vip), bsid);
      if vip in services && services[vip].steer.Some? {
        assert Shaped(vip, services[vip]);
        var r := vpp.DelSRv6Steering(services[vip].steer.value);
      }
      var r := vpp.AddSRv6Steering(steer);
      if !r.Ok? {
        return false;
      }
      services := services[vip := Service(bsid, Some(policy), Some(steer))];
    }

    /** Programs the lists, unless the record says they are installed. When calls succeed
        the VIP ends tracked, unless it is skipped or no BSID can be had for it. */
    method ProgramLists(vip: IP6, ls: seq<SidList>, ghost w: map<string, Uint32>, ghost vips: set<IP6>)
      returns (ok: bool)
      requires Valid() && w != map[] && ls != [] && ListPerNode(ls, Usable(w, sids), w, sids)
      modifies this`services, vpp`steering, vpp`policies, vpp`writes
      ensures Valid() && OthersSame(vip, old(services), services)
      ensures vip in old(services) && Carries(old(services)[vip], w, sids) ==>
                services == old(services) && vpp.writes == old(vpp.writes) && Seen() == old(Seen())
      ensures vpp.reliable ==>
                && Outcome(Bsids(), vip, old(Get(services, vip)), old(Seen()), Get(services, vip), w, sids)
                && OnlyOwn(vip, old(Get(services, vip)), old(Seen()), Seen()) && AddsOne(old(Seen()), Seen())
                && if Get(services, vip) == old(Get(services, vip)) then Untouched(old(Seen()), Seen())
                   else PutIn(vip, old(Get(services, vip)), old(Seen()), Get(services, vip), Seen())
      ensures vpp.reliable && vip in services ==> ok
      ensures vpp.reliable && vip in services && !(vip in old(services) && Carries(old(services)[vip], w, sids)) ==>
                Carries(services[vip], w, sids) && Tracked(vip, services[vip], Seen())
      ensures vpp.reliable && Get(services, vip) != old(Get(services, vip)) ==> Delivered(vip, w, sids, Seen())
      ensures vpp.reliable && vip in vips && Consistent(old(services), vips, old(Seen())) ==>
                Consistent(services, vips, Seen())
    {
      if vip in services && services[vip].steer.Some? && services[vip].policy.Some? {
        assert Shaped(vip, services[vip]);
        var same := SameSidLists(services[vip].policy.value.sidLists, ls);
        ListPerNodeUnique(ls, services[vip].policy.value.sidLists, w, sids);
        if same {
          return true;
        }
      }
      ok := InstallLists(vip, ls, vips);
      if vpp.reliable && vip in services {
        TrackedIsDelivered(vip, services[vip], w, sids, Seen());
      }
    }

    /** Chooses a BSID and installs; without one nothing is done. */
    method InstallLists(vip: IP6, ls: seq<SidList>, ghost vips: set<IP6>) returns (ok: bool)
      requires Valid() && ls != [] && AllSingle(ls)
      modifies this`services, vpp`steering, vpp`policies, vpp`writes
      ensures Valid() && OthersSame(vip, old(services), services)
      ensures vpp.reliable ==>
                && OnlyOwn(vip, old(Get(services, vip)), old(Seen()), Seen()) && AddsOne(old(Seen()), Seen())
                && if vip in services then PutIn(vip, old(Get(services, vip)), old(Seen()), Get(services, vip), Seen())
                   else Untouched(old(Seen()), Seen())
      ensures vpp.reliable && vip in services ==>
                services[vip].policy.Some? && services[vip].policy.value.sidLists == ls &&
                Tracked(vip, services[vip], Seen())
      ensures vpp.reliable && vip in services ==> ok
      ensures vpp.reliable && vip !in services ==> vip !in old(services) && Denied(Bsids(), vip, old(Seen()))
      ensures vpp.reliable && vip in vips && Consistent(old(services), vips, old(Seen())) ==>
                Consistent(services, vips, Seen())
    {
      var bsid := ChooseBsid(vip);
      if bsid.None? {
        return true;
      }
      assert vip in services ==> Shaped(vip, services[vip]);
      ok := Install(vip, bsid.value, ls);
      ghost var policy := SrPolicy(bsid.value, false, true, 0, ls);
      if vpp.reliable {
        InstallTouchesOwn(vip, old(Get(services, vip)), policy, old(Seen()), Seen(), ok);
        if vip in vips && Consistent(old(services), vips, old(Seen())) {
          KeepConsistent(old(services), vips, old(Seen()), vip, policy, ok);
        }
      }
    }

    static lemma InstallTouchesOwn(vip: IP6, st: Option<Service>, policy: SrPolicy, m: Moment, m': Moment, ok: bool)
      requires if ok then m' == Installed(vip, policy, m)
               else m'.steering == m.steering && m'.policies - {policy.bsid} == m.policies - {policy.bsid}
      requires ok || policy.bsid == ZERO_ADDRESS
      ensures OnlyOwn(vip, st, m, m') && AddsOne(m, m')
    {
      if !ok {
        forall b | b != policy.bsid ensures b in m'.policies <==> b in m.policies {
          assert b in m'.policies - {policy.bsid} <==> b in m.policies - {policy.bsid};
        }
      }
      assert m'.policies.Keys <= m.policies.Keys + {policy.bsid};
    }

    static lemma KeepConsistent(services: Services, vips: set<IP6>, m: Moment, vip: IP6, policy: SrPolicy, ok: bool)
      requires Consistent(services, vips, m) && vip in vips && (ok <==> policy.bsid != ZERO_ADDRESS)
      requires Obtained(services, m, vip, policy.bsid)
      ensures ok ==>
                Consistent(services[vip := Service(policy.bsid, Some(policy), Some(Steer(VipKey(vip), policy.bsid)))],
                           vips, Installed(vip, policy, m))
    {
      if ok {
        InstallStaysConsistent(services, vips, m, vip, policy);
      }
    }

    /** Programs one desired VIP; w are the weights it found. A VIP that is settled however
        its backends are placed is left alone. */
    method ProgramService(vip: IP6, ghost vips: set<IP6>) returns (ok: bool, ghost w: map<string, Uint32>)
      requires Valid() && vip in desired
      modifies this`services, vpp`steering, vpp`policies, vpp`writes
      ensures Valid() && OthersSame(vip, old(services), services) && Weighs(Wanted(), vip, w)
      ensures SettledAnyway(Wanted(), vip, old(Get(services, vip))) ==>
                services == old(services) && vpp.writes == old(vpp.writes)
      ensures vpp.reliable ==>
                && Outcome(Bsids(), vip, old(Get(services, vip)), old(Seen()), Get(services, vip), w, sids)
                && OnlyOwn(vip, old(Get(services, vip)), old(Seen()), Seen()) && AddsOne(old(Seen()), Seen())
      ensures vpp.reliable ==>
                if w == map[] then TakenOut(vip, old(Get(services, vip)), old(Seen()), Seen())
                else if Get(services, vip) == old(Get(services, vip)) then Untouched(old(Seen()), Seen())
                else PutIn(vip, old(Get(services, vip)), old(Seen()), Get(services, vip), Seen())
      ensures w == map[] || Usable(w, sids) == {} || (vpp.reliable && vip in services) ==> ok
      ensures vpp.reliable && w != map[] && vip in services ==>
                (Tracked(vip, services[vip], Seen()) <==>
                   Get(services, vip) != old(Get(services, vip)) || Tracked(vip, services[vip], old(Seen())))
      ensures vpp.reliable && w != map[] && Get(services, vip) != old(Get(services, vip)) ==>
                Delivered(vip, w, sids, Seen())
      ensures vpp.reliable && vip in vips && Consistent(old(services), vips, old(Seen())) ==>
                Consistent(services, vips, Seen())
    {
      var weights;
      ghost var at;
      weights, at := ComputeWeights(prefixes, self, desired[vip]);
      w := weights;
      assert Weighs(Wanted(), vip, w);
      if weights == map[] {
        assert Usable(w, sids) == {};
        RemoveVip(vip, vips);
        return true, w;
      }
      var ls := BuildLists(weights, sids);
      if |ls| == 0 {
        return true, w;
      }
      ok := ProgramLists(vip, ls, w, vips);
    }

    /** Removes a service; a consistent state stays consistent. */
    method RemoveVip(vip: IP6, ghost vips: set<IP6>)
      requires Valid()
      modifies this`services, vpp`steering, vpp`policies, vpp`writes
      ensures Valid() && OthersSame(vip, old(services), services)
      ensures vip !in old(services) ==> services == old(services) && vpp.writes == old(vpp.writes)
      ensures vpp.reliable ==>
                && Get(services, vip) == LeftOf(old(Get(services, vip)), old(Seen()))
                && TakenOut(vip, old(Get(services, vip)), old(Seen()), Seen())
                && OnlyOwn(vip, old(Get(services, vip)), old(Seen()), Seen())
                && vpp.policies.Keys <= old(vpp.policies).Keys
      ensures vpp.reliable && Consistent(old(services), vips, old(Seen())) ==> Consistent(services, vips, Seen())
    {
      RemoveService(vip);
      if vpp.reliable && vip in old(services) {
        RemovalTouchesOwn(vip, old(services)[vip], old(Seen()));
        if Consistent(old(services), vips, old(Seen())) {
          RemovalStaysConsistent(old(services), vips, old(Seen()), vip);
          assert services == old(services) - {vip};
        }
      }
    }

    static lemma RemovalTouchesOwn(vip: IP6, st: Service, m: Moment)
      ensures OnlyOwn(vip, Some(st), m, Removed(vip, st, m)) && Removed(vip, st, m).policies.Keys <= m.policies.Keys
    {
    }

    // ----- All services -----

    /** Every recorded VIP is desired, every desired one settled. */
    ghost predicate AllSettled()
      reads this
    {
      services.Keys <= desired.Keys && SettledOn(Wanted(), desired.Keys, services)
    }

    /** Settled however the backends are placed. */
    ghost predicate AllSettledAnyway()
      reads this
    {
      services.Keys <= desired.Keys && SettledOnAnyway(Wanted(), desired.Keys, services)
    }

    /** Drives what is installed to what is desired, in any order. From any state, when
        calls succeed, every VIP comes out as its turn says; from an ample one, all end
        settled. A reconcile of a settled state writes nothing. */
    method ReconcileServices(ghost vips: set<IP6>) returns (ghost trace: Trace)
      requires Valid()
      modifies this`services, vpp`steering, vpp`policies, vpp`writes
      ensures Valid()
      ensures vpp.reliable ==>
                && Ran(Bsids(), Wanted(), old(services), old(Seen()), trace, services, Seen())
                && Visited(trace) == desired.Keys + old(services).Keys
      ensures vpp.reliable ==> forall v :: v in desired ==>
                Programmed(Bsids(), Wanted(), v, old(Get(services, v)), At(trace, v), Get(services, v))
      ensures vpp.reliable ==> forall v :: v in old(services) && v !in desired ==>
                Get(services, v) == LeftOf(old(Get(services, v)), At(trace, v))
      ensures vpp.reliable && Ample(Bsids(), Wanted(), old(services), old(Seen())) ==> AllSettled()
      ensures vpp.reliable && desired.Keys <= vips && Consistent(old(services), vips, old(Seen())) ==>
                Consistent(services, vips, Seen())
      ensures vpp.reliable && Undisputed(desired.Keys + old(services).Keys, {}, old(services), old(Seen())) ==>
                forall v :: v in services && services[v].steer.Some? && services[v].policy.Some? ==>
                  (Tracked(v, services[v], Seen()) <==>
                     Get(services, v) != old(Get(services, v)) || Tracked(v, services[v], old(Seen())))
      ensures forall v :: v in services && Settled(Wanted(), v, Get(services, v)) && Tracked(v, services[v], Seen()) ==>
                DeliveredSomehow(Wanted(), v, Seen())
      ensures old(AllSettledAnyway()) ==> services == old(services) && vpp.writes == old(vpp.writes)
    {
      trace := ProgramAll(vips);
      trace := RemoveUndesired(vips, old(services), old(Seen()), trace);
      if vpp.reliable {
        AllTurns(Bsids(), Wanted(), old(services), old(Seen()), trace, services, Seen());
        if Undisputed(Visited(trace), {}, old(services), old(Seen())) {
          EndsTracked(Bsids(), Wanted(), old(services), old(Seen()), trace, services, Seen(), Visited(trace));
        }
      }
      AllDelivered();
    }

    lemma AllDelivered()
      requires Valid()
      ensures forall v :: v in services && Settled(Wanted(), v, Get(services, v)) && Tracked(v, services[v], Seen()) ==>
                DeliveredSomehow(Wanted(), v, Seen())
    {
      forall v | v in services && Settled(Wanted(), v, Get(services, v)) && Tracked(v, services[v], Seen())
        ensures DeliveredSomehow(Wanted(), v, Seen())
      {
        SettledIsDelivered(Wanted(), v, services[v], Seen());
      }
    }

    static lemma AllTurns(src: Source, plan: Plan, services0: Services, m0: Moment, trace: Trace, services: Services,
                          m: Moment)
      requires SourceOk(src) && AllShaped(services0) && Ran(src, plan, services0, m0, trace, services, m)
      requires Visited(trace) == plan.desired.Keys + services0.Keys
      ensures forall v :: v in plan.desired ==>
                Programmed(src, plan, v, Get(services0, v), At(trace, v), Get(services, v))
      ensures forall v :: v in services0 && v !in plan.desired ==>
                Get(services, v) == LeftOf(Get(services0, v), At(trace, v))
      ensures Ample(src, plan, services0, m0) ==>
                services.Keys <= plan.desired.Keys && SettledOn(plan, plan.desired.Keys, services)
    {
      forall v | v in plan.desired
        ensures Programmed(src, plan, v, Get(services0, v), At(trace, v), Get(services, v))
        ensures Ample(src, plan, services0, m0) ==> Settled(plan, v, Get(services, v))
      {
        TurnOutcome(src, plan, services0, m0, trace, services, m, v);
        if Ample(src, plan, services0, m0) { RanSettles(src, plan, services0, m0, trace, services, m, v); }
      }
      forall v | v in services0 && v !in plan.desired
        ensures Get(services, v) == LeftOf(Get(services0, v), At(trace, v))
      {
        TurnOutcome(src, plan, services0, m0, trace, services, m, v);
      }
      if Ample(src, plan, services0, m0) {
        forall v | v in services ensures v in plan.desired {
          if v in Visited(trace) {
            RanSettles(src, plan, services0, m0, trace, services, m, v);
          } else {
            TurnOutcome(src, plan, services0, m0, trace, services, m, v);
          }
        }
      }
    }

    method ProgramAll(ghost vips: set<IP6>) returns (ghost trace: Trace)
      requires Valid()
      modifies this`services, vpp`steering, vpp`policies, vpp`writes
      ensures Valid()
      ensures vpp.reliable ==>
                Ran(Bsids(), Wanted(), old(services), old(Seen()), trace, services, Seen()) &&
                Visited(trace) == desired.Keys
      ensures vpp.reliable && desired.Keys <= vips && Consistent(old(services), vips, old(Seen())) ==>
                Consistent(services, vips, Seen())
      ensures SettledOnAnyway(Wanted(), desired.Keys, old(services)) ==>
                services == old(services) && vpp.writes == old(vpp.writes)
    {
      ghost var src, plan, services0, m0 := Bsids(), Wanted(), services, Seen();
      ghost var good := vpp.reliable && desired.Keys <= vips && Consistent(services, vips, m0);
      ghost var calm := SettledOnAnyway(plan, desired.Keys, services);
      trace := Start;
      ghost var done: set<IP6> := {};
      var todo := desired.Keys;
      while todo != {}
        invariant Valid() && Bsids() == src && Wanted() == plan
        invariant done !! todo && done + todo == plan.desired.Keys
        invariant vpp.reliable ==> Ran(src, plan, services0, m0, trace, services, Seen()) && Visited(trace) == done
        invariant good ==> Consistent(services, vips, Seen())
        invariant calm ==> services == services0 && vpp.writes == old(vpp.writes)
      {
        var v :| v in todo;
        trace := ProgramNext(v, vips, services0, m0, trace, done);
        todo, done := todo - {v}, done + {v};
      }
    }

    /** Gives the next VIP its turn. */
    method ProgramNext(v: IP6, ghost vips: set<IP6>, ghost services0: Services, ghost m0: Moment, ghost trace: Trace,
                       ghost done: set<IP6>)
      returns (ghost trace': Trace)
      requires Valid() && v in desired && v !in done
      requires vpp.reliable ==> Ran(Bsids(), Wanted(), services0, m0, trace, services, Seen()) && Visited(trace) == done
      modifies this`services, vpp`steering, vpp`policies, vpp`writes
      ensures Valid() && OthersSame(v, old(services), services)
      ensures vpp.reliable ==>
                && Ran(Bsids(), Wanted(), services0, m0, trace', services, Seen())
                && Visited(trace') == done + {v}
      ensures vpp.reliable && v in vips && Consistent(old(services), vips, old(Seen())) ==>
                Consistent(services, vips, Seen())
      ensures SettledAnyway(Wanted(), v, old(Get(services, v))) ==>
                services == old(services) && vpp.writes == old(vpp.writes)
    {
      ghost var w;
      var ok;
      ok, w := ProgramService(v, vips);
      ghost var t := Turn(v, Some(w), old(services), old(Seen()));
      trace' := Then(trace, t);
    }

    method RemoveUndesired(ghost vips: set<IP6>, ghost services0: Services, ghost m0: Moment, ghost trace: Trace)
      returns (ghost trace': Trace)
      requires Valid()
      requires vpp.reliable ==>
                 Ran(Bsids(), Wanted(), services0, m0, trace, services, Seen()) && Visited(trace) == desired.Keys
      modifies this`services, vpp`steering, vpp`policies, vpp`writes
      ensures Valid()
      ensures vpp.reliable ==>
                && Ran(Bsids(), Wanted(), services0, m0, trace', services, Seen())
                && Visited(trace') == desired.Keys + services0.Keys
      ensures vpp.reliable && Consistent(old(services), vips, old(Seen())) ==> Consistent(services, vips, Seen())
      ensures old(services).Keys <= desired.Keys ==> services == old(services) && vpp.writes == old(vpp.writes)
    {
      if vpp.reliable {
        UndesiredKeys(Bsids(), Wanted(), services0, m0, trace, services, Seen());
      }
      trace' := RemoveEach(services.Keys - desired.Keys, vips, services0, m0, trace);
    }

    method RemoveEach(undesired: set<IP6>, ghost vips: set<IP6>, ghost services0: Services, ghost m0: Moment,
                      ghost trace: Trace)
      returns (ghost trace': Trace)
      requires Valid() && undesired !! desired.Keys
      requires vpp.reliable ==>
                 Ran(Bsids(), Wanted(), services0, m0, trace, services, Seen()) && Visited(trace) == desired.Keys
      modifies this`services, vpp`steering, vpp`policies, vpp`writes
      ensures Valid()
      ensures vpp.reliable ==>
                && Ran(Bsids(), Wanted(), services0, m0, trace', services, Seen())
                && Visited(trace') == desired.Keys + undesired
      ensures vpp.reliable && Consistent(old(services), vips, old(Seen())) ==> Consistent(services, vips, Seen())
      ensures undesired == {} ==> services == old(services) && vpp.writes == old(vpp.writes)
    {
      ghost var src, plan := Bsids(), Wanted();
      ghost var good := vpp.reliable && Consistent(services, vips, Seen());
      ghost var done := desired.Keys;
      trace' := trace;
      var todo := undesired;
      while todo != {}
        invariant Valid() && Bsids() == src && Wanted() == plan
        invariant done !! todo && todo !! plan.desired.Keys && done + todo == plan.desired.Keys + undesired
        invariant vpp.reliable ==> Ran(src, plan, services0, m0, trace', services, Seen()) && Visited(trace') == done
        invariant good ==> Consistent(services, vips, Seen())
        invariant undesired == {} ==> services == old(services) && vpp.writes == old(vpp.writes)
      {
        var v :| v in todo;
        trace' := RemoveNext(v, vips, services0, m0, trace', done);
        todo, done := todo - {v}, done + {v};
      }
    }

    static lemma UndesiredKeys(src: Source, plan: Plan, services0: Services, m0: Moment, trace: Trace,
                               services: Services, m: Moment)
      requires SourceOk(src) && Ran(src, plan, services0, m0, trace, services, m) && Visited(trace) == plan.desired.Keys
      ensures services.Keys - plan.desired.Keys == services0.Keys - plan.desired.Keys
    {
      forall v | v !in plan.desired ensures v in services <==> v in services0 {
        TurnOutcome(src, plan, services0, m0, trace, services, m, v);
      }
    }

    method RemoveNext(v: IP6, ghost vips: set<IP6>, ghost services0: Services, ghost m0: Moment, ghost trace: Trace,
                      ghost done: set<IP6>)
      returns (ghost trace': Trace)
      requires Valid() && v !in desired && v !in done
      requires vpp.reliable ==> Ran(Bsids(), Wanted(), services0, m0, trace, services, Seen()) && Visited(trace) == done
      modifies this`services, vpp`steering, vpp`policies, vpp`writes
      ensures Valid()
      ensures vpp.reliable ==>
                && Ran(Bsids(), Wanted(), services0, m0, trace', services, Seen())
                && Visited(trace') == done + {v}
      ensures vpp.reliable && Consistent(old(services), vips, old(Seen())) ==> Consistent(services, vips, Seen())
    {
      RemoveVip(v, vips);
      ghost var t := Turn(v, None, old(services), old(Seen()));
      trace' := Then(trace, t);
    }
  }
}
