/**
  What VPP holds at the end of a DSR reconcile. As long as no two VIPs lay claim to one BSID
  and every claimed BSID has its policy, no VIP's turn undoes another's, from whatever state
  the reconcile starts.
 */
module DsrTracking {
  import opened Srv6Types
  import opened Srv6Vpp
  import opened DsrServices

  /** A record with both of its parts. */
  predicate Whole(st: Service) {
    st.steer.Some? && st.policy.Some?
  }

  /** The BSIDs a VIP holds, or may take in its turn without deriving one: that of its record,
      or those that entries of its prefix lead to. */
  function Claims(v: IP6, visited: set<IP6>, services: Services, m: Moment): set<IP6> {
    if v in visited then (if v in services && Whole(services[v]) then {services[v].bsid} else {})
    else if v in services then {services[v].bsid}
    else LedTo(VipPrefix(v), m.steering)
  }

  /** The BSIDs that the entries of a prefix lead to. */
  function LedTo(p: Prefix, steering: map<SteerKey, IP6>): set<IP6> {
    set k | k in steering && k.prefix == p :: steering[k]
  }

  /** Every claimed BSID has its policy, and no two VIPs claim the same. */
  ghost predicate Undisputed(all: set<IP6>, visited: set<IP6>, services: Services, m: Moment) {
    && services.Keys <= all && AllShaped(services)
    && (forall v :: v in all ==> Claims(v, visited, services, m) <= m.policies.Keys - {ZERO_ADDRESS})
    && (forall u, v :: u in all && v in all && u != v ==>
          Claims(u, visited, services, m) !! Claims(v, visited, services, m))
  }

  /** The turn of one VIP leaves the claims of another as they were. */
  lemma ClaimsKept(src: Source, plan: Plan, t: Turn, services': Services, m': Moment, visited: set<IP6>, v: IP6)
    requires SourceOk(src) && TurnTaken(src, plan, t, services', m') && v != t.v
    ensures Claims(v, visited + {t.v}, services', m') == Claims(v, visited, t.services, t.m)
  {
    SteeringKept(src, plan, t, services', m');
    assert Get(services', v) == Get(t.services, v);
    var p := VipPrefix(v);
    assert forall k: SteerKey :: k.prefix == p ==> k != VipKey(t.v);
    forall b | b in LedTo(p, t.m.steering) ensures b in LedTo(p, m'.steering) {
      var k :| k in t.m.steering && k.prefix == p && t.m.steering[k] == b;
      assert k in m'.steering && m'.steering[k] == b;
    }
    forall b | b in LedTo(p, m'.steering) ensures b in LedTo(p, t.m.steering) {
      var k :| k in m'.steering && k.prefix == p && m'.steering[k] == b;
      assert k in t.m.steering && t.m.steering[k] == b;
    }
    assert LedTo(p, m'.steering) == LedTo(p, t.m.steering);
  }

  lemma SteeringKept(src: Source, plan: Plan, t: Turn, services': Services, m': Moment)
    requires SourceOk(src) && TurnTaken(src, plan, t, services', m')
    ensures forall k :: k != VipKey(t.v) ==>
              (k in m'.steering <==> k in t.m.steering) && (k in t.m.steering ==> m'.steering[k] == t.m.steering[k])
  {
    forall k | k != VipKey(t.v)
      ensures (k in m'.steering <==> k in t.m.steering) && (k in t.m.steering ==> m'.steering[k] == t.m.steering[k])
    {
      assert k in m'.steering - {VipKey(t.v)} <==> k in t.m.steering - {VipKey(t.v)};
    }
  }

  /** What a VIP holds after its turn it claimed before, or had no policy. */
  lemma OwnClaim(src: Source, plan: Plan, t: Turn, services': Services, m': Moment, all: set<IP6>, visited: set<IP6>)
    requires SourceOk(src) && TurnTaken(src, plan, t, services', m')
    requires Undisputed(all, visited, t.services, t.m) && t.v in all && t.v !in visited
    ensures var now := Claims(t.v, visited + {t.v}, services', m');
            && now <= m'.policies.Keys - {ZERO_ADDRESS}
            && forall b :: b in now ==> b in Claims(t.v, visited, t.services, t.m) || b !in t.m.policies
  {
    var st, st' := Get(t.services, t.v), Get(services', t.v);
    if st'.None? || !Whole(st'.value) { return; }
    var b := st'.value.bsid;
    if t.w.None? || t.w.value == map[] {
      assert false;
    } else if st' == st {
      assert b in Claims(t.v, visited, t.services, t.m);
      assert b in t.m.policies - {ZERO_ADDRESS} && b in m'.policies - {ZERO_ADDRESS};
    } else {
      assert Took(t.v, st, t.m, b);
    }
  }

  /** The policy under a BSID that another VIP claims stays as it is. */
  lemma PolicyKept(src: Source, plan: Plan, t: Turn, services': Services, m': Moment, all: set<IP6>, visited: set<IP6>,
                   v: IP6, b: IP6)
    requires SourceOk(src) && TurnTaken(src, plan, t, services', m') && v in all && v != t.v
    requires Undisputed(all, visited, t.services, t.m) && t.v in all && t.v !in visited
    requires b in Claims(v, visited, t.services, t.m)
    ensures b in m'.policies && m'.policies[b] == t.m.policies[b]
  {
    assert b in t.m.policies && b != ZERO_ADDRESS;
    assert b !in Claims(t.v, visited, t.services, t.m);
    if t.w.Some? && t.w.value != map[] && Get(services', t.v) == Get(t.services, t.v) {
      assert b in t.m.policies - {ZERO_ADDRESS} &&
             (t.m.policies - {ZERO_ADDRESS})[b] == (m'.policies - {ZERO_ADDRESS})[b];
    }
  }

  lemma UndisputedStep(src: Source, plan: Plan, t: Turn, services': Services, m': Moment, all: set<IP6>,
                       visited: set<IP6>)
    requires SourceOk(src) && TurnTaken(src, plan, t, services', m')
    requires Undisputed(all, visited, t.services, t.m) && t.v in all && t.v !in visited
    ensures Undisputed(all, visited + {t.v}, services', m')
  {
    var visited' := visited + {t.v};
    forall v | v in services' ensures v in all && Shaped(v, services'[v]) {
      assert v != t.v ==> Get(services', v) == Get(t.services, v);
    }
    OwnClaim(src, plan, t, services', m', all, visited);
    forall v | v in all && v != t.v
      ensures Claims(v, visited', services', m') ==
                Claims(v, visited, t.services, t.m) <= m'.policies.Keys - {ZERO_ADDRESS}
      ensures Claims(v, visited', services', m') !! Claims(t.v, visited', services', m')
    {
      ClaimsKept(src, plan, t, services', m', visited, v);
      forall b | b in Claims(v, visited, t.services, t.m) ensures b in m'.policies {
        PolicyKept(src, plan, t, services', m', all, visited, v, b);
      }
    }
  }

  /** Another VIP's record is in VPP after the turn exactly if it was before. */
  lemma TrackedKept(src: Source, plan: Plan, t: Turn, services': Services, m': Moment, all: set<IP6>, visited: set<IP6>,
                    v: IP6)
    requires SourceOk(src) && TurnTaken(src, plan, t, services', m') && v in all && v != t.v
    requires Undisputed(all, visited, t.services, t.m) && t.v in all && t.v !in visited
    requires v in t.services && (v in visited ==> Whole(t.services[v]))
    ensures Tracked(v, t.services[v], m') <==> Tracked(v, t.services[v], t.m)
  {
    PolicyKept(src, plan, t, services', m', all, visited, v, t.services[v].bsid);
    SteeringKept(src, plan, t, services', m');
    assert VipKey(v) != VipKey(t.v);
  }

  /** The VIP's own record is in VPP after its turn exactly if it changed or was there before. */
  lemma OwnTracked(src: Source, plan: Plan, t: Turn, services': Services, m': Moment, all: set<IP6>, visited: set<IP6>)
    requires SourceOk(src) && TurnTaken(src, plan, t, services', m')
    requires Undisputed(all, visited, t.services, t.m) && t.v in all && t.v !in visited
    requires t.v in services' && Whole(services'[t.v])
    ensures Tracked(t.v, services'[t.v], m') <==>
            Get(services', t.v) != Get(t.services, t.v) || Tracked(t.v, services'[t.v], t.m)
  {
    var st, st' := Get(t.services, t.v), Get(services', t.v);
    if t.w.None? || t.w.value == map[] {
      assert false;
    } else if st' == st {
      var b := st'.value.bsid;
      assert b in Claims(t.v, visited, t.services, t.m);
      assert b in t.m.policies - {ZERO_ADDRESS} &&
             (t.m.policies - {ZERO_ADDRESS})[b] == (m'.policies - {ZERO_ADDRESS})[b];
    }
  }

  /** Where claims are undisputed before a reconcile, a record that has both parts afterwards is
      in VPP exactly if the reconcile changed it or it was in VPP before. */
  lemma {:induction false} EndsTracked(src: Source, plan: Plan, services0: Services, m0: Moment, trace: Trace,
                                       services: Services, m: Moment, all: set<IP6>)
    requires SourceOk(src) && Ran(src, plan, services0, m0, trace, services, m)
    requires Undisputed(all, {}, services0, m0) && Visited(trace) <= all
    ensures Undisputed(all, Visited(trace), services, m)
    ensures forall v :: v in services && Whole(services[v]) ==>
              (Tracked(v, services[v], m) <==> Get(services, v) != Get(services0, v) || Tracked(v, services[v], m0))
  {
    match trace
    case Start =>
    case Then(before, t) =>
      EndsTracked(src, plan, services0, m0, before, t.services, t.m, all);
      UndisputedStep(src, plan, t, services, m, all, Visited(before));
      forall v | v in services && Whole(services[v])
        ensures Tracked(v, services[v], m) <==> Get(services, v) != Get(services0, v) || Tracked(v, services[v], m0)
      {
        if v == t.v {
          OwnTracked(src, plan, t, services, m, all, Visited(before));
          TurnOutcome(src, plan, services0, m0, before, t.services, t.m, v);
        } else {
          assert Get(services, v) == Get(t.services, v);
          TrackedKept(src, plan, t, services, m, all, Visited(before), v);
        }
      }
  }
}
