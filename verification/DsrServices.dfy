/**
  SRv6-native (DSR) ClusterIP services as values: what is recorded for a VIP, when it is
  settled, where its BSID comes from, and what programming, failing and removing it do.
 */
module DsrServices {
  import opened Srv6Types
  import opened Srv6Vpp
  import opened DsrBsid
  import opened DsrWeights

  function VipPrefix(vip: IP6): Prefix {
    Prefix(vip, 128, true)
  }

  function VipKey(vip: IP6): SteerKey {
    SteerKey(0, VipPrefix(vip))
  }

  /** What is installed for one VIP; a part is None once it has been removed. */
  datatype Service = Service(bsid: IP6, policy: Option<SrPolicy>, steer: Option<Steer>)

  type Services = map<IP6, Service>

  /** What VPP holds at one moment. */
  datatype Moment = Moment(policies: map<IP6, SrPolicy>, steering: map<SteerKey, IP6>)

  function Get(services: Services, v: IP6): Option<Service> {
    if v in services then Some(services[v]) else None
  }

  function ToBytes(n: nat, len: nat): (r: seq<Byte>)
    ensures |r| == len
  {
    if len == 0 then [] else ToBytes(n / 256, len - 1) + [n % 256]
  }

  /** Number of values of so many bytes. */
  function Values(len: nat): nat {
    if len == 0 then 1 else 256 * Values(len - 1)
  }

  /** The bytes of a number are its own, and every number of so many bytes has them. */
  lemma {:induction false} BytesRoundTrip(n: nat, len: nat)
    requires n < Values(len)
    ensures FromBytes(ToBytes(n, len)) == n
  {
    if len > 0 {
      BytesRoundTrip(n / 256, len - 1);
      assert ToBytes(n, len)[..len - 1] == ToBytes(n / 256, len - 1);
    }
  }

  /** An address is the number of its sixteen bytes. */
  lemma AddressRoundTrip(n: nat)
    requires n < 0x1_0000_0000_0000_0000_0000_0000_0000_0000
    ensures FromBytes(ToBytes(n, IP6_LEN)) == n
  {
    assert Values(4) == 0x1_0000_0000;
    assert Values(8) == 0x1_0000_0000 * Values(4);
    assert Values(12) == 0x1_0000_0000 * Values(8);
    assert Values(16) == 0x1_0000_0000 * Values(12);
    BytesRoundTrip(n, 16);
  }

  // ----- Records -----

  /** The parts of a record belong to its VIP and its BSID, which is not the zero address; the
      policy encapsulates, in the main table, towards single segments. */
  ghost predicate Shaped(v: IP6, st: Service) {
    && st.bsid != ZERO_ADDRESS
    && (st.steer.Some? ==> st.steer.value == Steer(VipKey(v), st.bsid))
    && (st.policy.Some? ==>
          var p := st.policy.value;
          p == SrPolicy(st.bsid, false, true, 0, p.sidLists) && AllSingle(p.sidLists))
  }

  ghost predicate AllShaped(services: Services) {
    forall v :: v in services ==> Shaped(v, services[v])
  }

  /** A fully installed service: its policy and its steering are in VPP. */
  ghost predicate Tracked(v: IP6, st: Service, m: Moment) {
    && st.steer == Some(Steer(VipKey(v), st.bsid))
    && st.policy.Some? && st.policy.value.bsid == st.bsid
    && st.bsid in m.policies && m.policies[st.bsid] == st.policy.value
    && VipKey(v) in m.steering && m.steering[VipKey(v)] == st.bsid
  }

  /** Every recorded part is in VPP. */
  ghost predicate Present(st: Service, m: Moment) {
    && (st.steer.Some? ==> st.steer.value.key in m.steering)
    && (st.policy.Some? ==> st.policy.value.bsid in m.policies)
  }

  /** What removing a service leaves of its record: the parts VPP did not have. */
  function LeftOf(st: Option<Service>, m: Moment): (r: Option<Service>)
    ensures r.None? <==> st.None? || Present(st.value, m)
  {
    if st.None? then None
    else
      var steer := if st.value.steer.Some? && st.value.steer.value.key in m.steering then None else st.value.steer;
      var policy := if st.value.policy.Some? && st.value.policy.value.bsid in m.policies then None else st.value.policy;
      if steer.None? && policy.None? then None else Some(st.value.(steer := steer, policy := policy))
  }

  /** The records of all other VIPs are the same. */
  ghost predicate OthersSame(vip: IP6, before: Services, after: Services) {
    forall v :: v != vip ==> Get(after, v) == Get(before, v)
  }

  /** The service is installed with one segment list per usable node. */
  ghost predicate Carries(st: Service, w: map<string, Uint32>, sids: map<string, IP6>) {
    st.policy.Some? && st.steer.Some? && ListPerNode(st.policy.value.sidLists, Usable(w, sids), w, sids)
  }

  /** No remote backend means nothing installed, and usable remote nodes mean one segment
      list for each of them. */
  ghost predicate SettledFor(st: Option<Service>, w: map<string, Uint32>, sids: map<string, IP6>) {
    && (w == map[] ==> st.None?)
    && (Usable(w, sids) != {} ==> st.Some? && Carries(st.value, w, sids))
  }

  /** What the reconciler is given: where nodes are and what services should be there. */
  datatype Plan = Plan(prefixes: NodePrefixes, self: Option<string>, sids: map<string, IP6>,
                       desired: map<IP6, seq<IP6>>)

  /** These are the weights of the VIP's backends, each on some node that owns it. */
  ghost predicate Weighs(plan: Plan, v: IP6, w: map<string, Uint32>) {
    v in plan.desired && exists at :: Placed(plan.prefixes, plan.desired[v], at) && WeightsOf(w, at, plan.self)
  }

  ghost predicate Settled(plan: Plan, v: IP6, st: Option<Service>) {
    exists w :: Weighs(plan, v, w) && SettledFor(st, w, plan.sids)
  }

  /** Settled however the backends are placed. */
  ghost predicate SettledAnyway(plan: Plan, v: IP6, st: Option<Service>) {
    forall w :: Weighs(plan, v, w) ==> SettledFor(st, w, plan.sids)
  }

  /** In VPP the VIP goes into a policy that encapsulates it towards exactly one single-segment
      list per usable node. */
  ghost predicate Delivered(v: IP6, w: map<string, Uint32>, sids: map<string, IP6>, m: Moment) {
    var key := SteerKey(0, Prefix(v, 128, true));
    && key in m.steering && m.steering[key] in m.policies
    && var p := m.policies[m.steering[key]];
       p == SrPolicy(m.steering[key], false, true, 0, p.sidLists) && OnePerNode(p.sidLists, w, sids)
  }

  /** So it is for some placement of the backends, as far as a node of it is usable. */
  ghost predicate DeliveredSomehow(plan: Plan, v: IP6, m: Moment) {
    exists w :: Weighs(plan, v, w) && w != map[] && (Usable(w, plan.sids) != {} ==> Delivered(v, w, plan.sids, m))
  }

  lemma TrackedIsDelivered(v: IP6, st: Service, w: map<string, Uint32>, sids: map<string, IP6>, m: Moment)
    requires Shaped(v, st) && Tracked(v, st, m) && Carries(st, w, sids)
    ensures Delivered(v, w, sids, m)
  {
    var order := InSomeOrder(st.policy.value.sidLists, Usable(w, sids), w, sids);
  }

  lemma SettledIsDelivered(plan: Plan, v: IP6, st: Service, m: Moment)
    requires Shaped(v, st) && Tracked(v, st, m) && Settled(plan, v, Some(st))
    ensures DeliveredSomehow(plan, v, m)
  {
    var w :| Weighs(plan, v, w) && SettledFor(Some(st), w, plan.sids);
    if Usable(w, plan.sids) != {} { TrackedIsDelivered(v, st, w, plan.sids, m); }
  }

  /** When nodes do not overlap there is one way to place the backends. */
  lemma SettledOneWay(plan: Plan, v: IP6, st: Option<Service>)
    requires DisjointNodes(plan.prefixes) && Settled(plan, v, st)
    ensures SettledAnyway(plan, v, st)
  {
    var w :| Weighs(plan, v, w) && SettledFor(st, w, plan.sids);
    var at :| Placed(plan.prefixes, plan.desired[v], at) && WeightsOf(w, at, plan.self);
    forall w' | Weighs(plan, v, w') ensures w' == w {
      var at' :| Placed(plan.prefixes, plan.desired[v], at') && WeightsOf(w', at', plan.self);
      PlacementIsUnique(plan.prefixes, plan.desired[v], at, at');
      WeightsUnique(w, w', at, plan.self);
    }
  }

  // ----- BSIDs -----

  /** Where BSIDs come from: the pool, and what BGP candidates use. */
  datatype Source = Source(pool: seq<Byte>, ones: nat, learned: set<IP6>)

  ghost predicate SourceOk(src: Source) {
    |src.pool| == IP6_LEN && src.ones <= 8 * IP6_LEN
  }

  /** The first free address derived from the VIP. */
  ghost function Chosen(src: Source, vip: IP6, m: Moment): Option<IP6>
    requires SourceOk(src)
  {
    var r := Probe(Derived(src.pool, src.ones, ToBytes(vip, IP6_LEN)), src.learned + m.policies.Keys, MAX_TRIES);
    if r.Some? then Some(FromBytes(r.value)) else None
  }

  /** No usable BSID for an unrecorded VIP: an entry that already steers it says zero, or no
      entry does and all derived addresses are taken or the free one is zero. */
  ghost predicate Denied(src: Source, vip: IP6, m: Moment)
    requires SourceOk(src)
  {
    || (exists k :: k in m.steering && k.prefix == VipPrefix(vip) && m.steering[k] == ZERO_ADDRESS)
    || ((forall k :: k in m.steering ==> k.prefix != VipPrefix(vip)) &&
        (Chosen(src, vip, m).None? || Chosen(src, vip, m) == Some(ZERO_ADDRESS)))
  }

  /** With fewer than 256 addresses in use and a pool that is not all zero, an unrecorded
      VIP is not denied unless an entry steers it to zero. */
  lemma NotDenied(src: Source, vip: IP6, m: Moment)
    requires SourceOk(src) && NonzeroPool(src.pool, src.ones) && |src.learned| + |m.policies| < 256
    requires forall k :: k in m.steering && k.prefix == VipPrefix(vip) ==> m.steering[k] != ZERO_ADDRESS
    ensures !Denied(src, vip, m)
  {
    TakenCount(src.learned, m.policies);
    RoomForOneMore(Derived(src.pool, src.ones, ToBytes(vip, IP6_LEN)), src.learned + m.policies.Keys);
    DerivedIsNonzero(src.pool, src.ones, ToBytes(vip, IP6_LEN), src.learned + m.policies.Keys);
  }

  lemma TakenCount(learned: set<IP6>, policies: map<IP6, SrPolicy>)
    ensures |learned + policies.Keys| <= |learned| + |policies|
  {
    UnionCount(learned, policies.Keys);
    assert |policies.Keys| == |policies|;
  }

  lemma UnionCount<T>(a: set<T>, b: set<T>)
    ensures |a + b| <= |a| + |b|
  {
    assert a + b == a + (b - a);
    SubsetCount(b - a, b);
  }

  /** A BSID whose policy is not in VPP, as after a replacement that failed halfway, can be
      handed to another VIP although a record still names it. */
  lemma LostBsidIsHandedOut(src: Source, vip: IP6, m: Moment, b: IP6)
    requires SourceOk(src) && b !in src.learned + m.policies.Keys
    requires var bs := Derived(src.pool, src.ones, ToBytes(vip, IP6_LEN));
             && FromBytes(bs) in src.learned + m.policies.Keys
             && FromBytes(WithLast(bs, Plus(bs[IP6_LEN - 1], 1))) == b
    ensures Chosen(src, vip, m) == Some(b)
  {
    var bs := Derived(src.pool, src.ones, ToBytes(vip, IP6_LEN));
    assert Probe(bs, src.learned + m.policies.Keys, MAX_TRIES) ==
           Probe(WithLast(bs, Plus(bs[IP6_LEN - 1], 1)), src.learned + m.policies.Keys, MAX_TRIES - 1);
  }

  // ----- One VIP -----

  /** What programming a VIP makes of its record when calls succeed, given its weights. */
  ghost predicate Outcome(src: Source, v: IP6, st: Option<Service>, m: Moment, st': Option<Service>,
                          w: map<string, Uint32>, sids: map<string, IP6>)
    requires SourceOk(src)
  {
    if w == map[] then st' == LeftOf(st, m)
    else if Usable(w, sids) == {} || (st.Some? && Carries(st.value, w, sids)) then st' == st
    else
      || (st'.Some? && Shaped(v, st'.value) && Carries(st'.value, w, sids))
      || (st.None? && st'.None? && Denied(src, v, m))
  }

  ghost predicate Programmed(src: Source, plan: Plan, v: IP6, st: Option<Service>, m: Moment, st': Option<Service>)
    requires SourceOk(src)
  {
    exists w :: Weighs(plan, v, w) && Outcome(src, v, st, m, st', w, plan.sids)
  }

  /** A programmed VIP is settled, or unrecorded and denied a BSID, or has no remote backend
      but a record with a part that VPP did not have. */
  lemma ProgrammedOrWhyNot(src: Source, plan: Plan, v: IP6, st: Option<Service>, m: Moment, st': Option<Service>)
    requires SourceOk(src) && Programmed(src, plan, v, st, m, st')
    ensures || Settled(plan, v, st')
            || (st'.None? && st.None? && Denied(src, v, m))
            || (st'.Some? && st.Some? && !Present(st.value, m) && st' == LeftOf(st, m))
  {
    var w :| Weighs(plan, v, w) && Outcome(src, v, st, m, st', w, plan.sids);
    if w == map[] {
      assert Usable(w, plan.sids) == {};
    }
  }

  /** A VIP that always has a remote backend. */
  ghost predicate Needed(plan: Plan, v: IP6) {
    v in plan.desired && forall w :: Weighs(plan, v, w) ==> w != map[]
  }

  lemma ProgrammedSettles(src: Source, plan: Plan, v: IP6, st: Option<Service>, m: Moment, st': Option<Service>)
    requires SourceOk(src) && Programmed(src, plan, v, st, m, st')
    requires !Denied(src, v, m) && (st.Some? && !Needed(plan, v) ==> Present(st.value, m))
    ensures Settled(plan, v, st')
  {
    var w :| Weighs(plan, v, w) && Outcome(src, v, st, m, st', w, plan.sids);
    assert w == map[] ==> Usable(w, plan.sids) == {};
    assert SettledFor(st', w, plan.sids);
  }

  /** What a failed installation can leave: the record as it was; the replacement of the
      policy partway; or the policy in place, with the VIP still steered as before or, when
      its old entry was already deleted, not steered at all. */
  ghost predicate FailedInstall(v: IP6, st: Option<Service>, policy: SrPolicy, m: Moment, m': Moment) {
    || (m'.steering == m.steering && PartialReplace(m.policies, policy, m'.policies))
    || (m'.policies == m.policies[policy.bsid := policy] &&
        (m'.steering == m.steering ||
         (st.Some? && st.value.steer.Some? && m'.steering == m.steering - {st.value.steer.value.key})))
  }

  /** After a failed update the record still carries the old lists. When the backends go
      back to what they were, the reconciler takes the service for installed and skips it,
      although the VIP is no longer steered. */
  lemma SkippedThoughUnsteered(src: Source, v: IP6, st: Service, policy: SrPolicy, m: Moment, m': Moment,
                               w: map<string, Uint32>, sids: map<string, IP6>)
    requires SourceOk(src) && w != map[] && Carries(st, w, sids) && Shaped(v, st)
    requires m' == Moment(m.policies[policy.bsid := policy], m.steering - {VipKey(v)})
    ensures FailedInstall(v, Some(st), policy, m, m')
    ensures Outcome(src, v, Some(st), m', Some(st), w, sids) && SettledFor(Some(st), w, sids) && !Tracked(v, st, m')
  {
  }

  // ----- VPP and the records agree -----

  /** A VIP is steered in the main table only, through a BSID no other entry uses. */
  ghost predicate Private(v: IP6, steering: map<SteerKey, IP6>) {
    && (forall k :: k in steering && k.prefix == VipPrefix(v) ==> k == VipKey(v))
    && (VipKey(v) in steering ==>
          forall k :: k in steering && steering[k] == steering[VipKey(v)] ==> k == VipKey(v))
  }

  /** The record and VPP agree, services do not share a BSID, nothing dangles. */
  ghost predicate Consistent(services: Services, vips: set<IP6>, m: Moment) {
    && services.Keys <= vips
    && (forall v :: v in services ==> Tracked(v, services[v], m))
    && (forall v :: v in vips ==> Private(v, m.steering))
    && (forall k :: k in m.steering ==> m.steering[k] in m.policies)
    && ZERO_ADDRESS !in m.policies
  }

  lemma ServicesHaveDistinctBsids(services: Services, vips: set<IP6>, m: Moment, u: IP6, v: IP6)
    requires Consistent(services, vips, m)
    requires u in services && v in services && services[u].bsid == services[v].bsid
    ensures u == v
  {
    assert Tracked(u, services[u], m) && Tracked(v, services[v], m);
    assert VipKey(u) == VipKey(v);
  }

  /** VPP without the parts of a service. */
  function Removed(vip: IP6, st: Service, m: Moment): Moment {
    Moment(if st.policy.Some? then m.policies - {st.bsid} else m.policies,
           if st.steer.Some? then m.steering - {VipKey(vip)} else m.steering)
  }

  /** VPP with a policy and the VIP steered into it. */
  function Installed(vip: IP6, policy: SrPolicy, m: Moment): Moment {
    Moment(m.policies[policy.bsid := policy], m.steering[VipKey(vip) := policy.bsid])
  }

  lemma RemovalStaysConsistent(services: Services, vips: set<IP6>, m: Moment, vip: IP6)
    requires Consistent(services, vips, m) && vip in services
    ensures Present(services[vip], m) && Consistent(services - {vip}, vips, Removed(vip, services[vip], m))
  {
    var b := services[vip].bsid;
    assert Tracked(vip, services[vip], m) && Private(vip, m.steering);
    var services', m' := services - {vip}, Removed(vip, services[vip], m);
    forall v | v in services' ensures Tracked(v, services'[v], m') {
      assert Tracked(v, services[v], m);
      if services[v].bsid == b {
        ServicesHaveDistinctBsids(services, vips, m, v, vip);
      }
    }
    forall v | v in vips ensures Private(v, m'.steering) {
      assert Private(v, m.steering);
    }
  }

  /** How a BSID for the VIP was come by in a consistent state. */
  ghost predicate Obtained(services: Services, m: Moment, vip: IP6, b: IP6) {
    if vip in services then b == services[vip].bsid
    else
      || (exists k :: k in m.steering && k.prefix == VipPrefix(vip) && m.steering[k] == b)
      || (b !in m.policies && forall k :: k in m.steering ==> k.prefix != VipPrefix(vip))
  }

  /** Such a BSID is used by no entry of another VIP. */
  lemma ObtainedIsOwn(services: Services, vips: set<IP6>, m: Moment, vip: IP6, b: IP6)
    requires Consistent(services, vips, m) && vip in vips && Obtained(services, m, vip, b)
    ensures forall k :: k in m.steering && m.steering[k] == b ==> k == VipKey(vip)
  {
    assert Private(vip, m.steering);
    assert vip in services ==> Tracked(vip, services[vip], m);
  }

  lemma SteeredStaysPrivate(v: IP6, vip: IP6, b: IP6, steering: map<SteerKey, IP6>)
    requires Private(v, steering) && forall k :: k in steering && steering[k] == b ==> k == VipKey(vip)
    ensures Private(v, steering[VipKey(vip) := b])
  {
  }

  lemma InstallStaysConsistent(services: Services, vips: set<IP6>, m: Moment, vip: IP6, policy: SrPolicy)
    requires Consistent(services, vips, m) && vip in vips && policy.bsid != ZERO_ADDRESS &&
             Obtained(services, m, vip, policy.bsid)
    ensures
      var st := Service(policy.bsid, Some(policy), Some(Steer(VipKey(vip), policy.bsid)));
      Consistent(services[vip := st], vips, Installed(vip, policy, m))
  {
    var b, m' := policy.bsid, Installed(vip, policy, m);
    ObtainedIsOwn(services, vips, m, vip, b);
    forall v | v in services && v != vip ensures Tracked(v, services[v], m') {
      assert Tracked(v, services[v], m);
    }
    forall v | v in vips ensures Private(v, m'.steering) {
      SteeredStaysPrivate(v, vip, b, m.steering);
    }
  }

  // ----- Whole reconciles -----

  ghost predicate SettledOn(plan: Plan, vs: set<IP6>, services: Services) {
    forall v :: v in vs ==> Settled(plan, v, Get(services, v))
  }

  ghost predicate SettledOnAnyway(plan: Plan, vs: set<IP6>, services: Services) {
    forall v :: v in vs ==> SettledAnyway(plan, v, Get(services, v))
  }

  /** No two records name the same BSID. */
  ghost predicate DistinctBsids(services: Services) {
    forall u, v :: u in services && v in services && services[u].bsid == services[v].bsid ==> u == v
  }

  /** What a caller can check before a reconcile so that every VIP ends settled: there is
      room in the pool, no entry steers a VIP to zero, records do not share a BSID, and
      what is recorded for VIPs that may go is in VPP. */
  ghost predicate Ample(src: Source, plan: Plan, services: Services, m: Moment) {
    && SourceOk(src) && NonzeroPool(src.pool, src.ones) && |src.learned| + |m.policies| + |plan.desired| <= 256
    && (forall v, k :: v in plan.desired && k in m.steering && k.prefix == VipPrefix(v) ==>
          m.steering[k] != ZERO_ADDRESS)
    && DistinctBsids(services)
    && (forall v :: v in services && !Needed(plan, v) ==> Present(services[v], m))
  }

  /** In a consistent state only the room is left to check. */
  lemma ConsistentIsAmple(src: Source, plan: Plan, services: Services, vips: set<IP6>, m: Moment)
    requires Consistent(services, vips, m)
    requires SourceOk(src) && NonzeroPool(src.pool, src.ones) && |src.learned| + |m.policies| + |plan.desired| <= 256
    ensures Ample(src, plan, services, m)
  {
    forall u, v | u in services && v in services && services[u].bsid == services[v].bsid ensures u == v {
      ServicesHaveDistinctBsids(services, vips, m, u, v);
    }
    forall v | v in services ensures Present(services[v], m) {
      assert Tracked(v, services[v], m);
    }
  }

  /** What programming or removing one VIP may change in VPP: its own entry, and no policy
      less but the one recorded for it, or one under the zero address. */
  ghost predicate OnlyOwn(v: IP6, st: Option<Service>, m: Moment, m': Moment) {
    && m'.steering - {VipKey(v)} == m.steering - {VipKey(v)}
    && (forall b :: b in m.policies && b !in m'.policies ==> b == ZERO_ADDRESS || (st.Some? && st.value.bsid == b))
  }

  /** At most one BSID more has a policy. */
  ghost predicate AddsOne(m: Moment, m': Moment) {
    m'.policies.Keys <= m.policies.Keys || exists b :: m'.policies.Keys <= m.policies.Keys + {b}
  }

  lemma AddsOneCount(m: Moment, m': Moment)
    requires AddsOne(m, m')
    ensures |m'.policies| <= |m.policies| + 1
  {
    if m'.policies.Keys <= m.policies.Keys {
      SubsetCount(m'.policies.Keys, m.policies.Keys);
    } else {
      var b :| m'.policies.Keys <= m.policies.Keys + {b};
      SubsetCount(m'.policies.Keys, m.policies.Keys + {b});
      UnionCount(m.policies.Keys, {b});
    }
    assert |m'.policies| == |m'.policies.Keys| && |m.policies| == |m.policies.Keys|;
  }

  /** What removing a service does to VPP. */
  ghost predicate TakenOut(v: IP6, st: Option<Service>, m: Moment, m': Moment) {
    m' == if st.Some? then Removed(v, st.value, m) else m
  }

  /** A VIP's own BSID, one that an entry of its prefix leads to, or one without a policy. */
  ghost predicate Took(v: IP6, st: Option<Service>, m: Moment, b: IP6) {
    if st.Some? then b == st.value.bsid
    else (exists k :: k in m.steering && k.prefix == VipPrefix(v) && m.steering[k] == b) || b !in m.policies
  }

  /** Nothing but that a policy under the zero address may go. */
  ghost predicate Untouched(m: Moment, m': Moment) {
    m'.steering == m.steering && m'.policies - {ZERO_ADDRESS} == m.policies - {ZERO_ADDRESS}
  }

  /** The VIP has its new policy and steering, under a nonzero BSID it took. */
  ghost predicate PutIn(v: IP6, st: Option<Service>, m: Moment, st': Option<Service>, m': Moment) {
    && st'.Some? && st'.value.policy.Some? && st'.value.policy.value.bsid == st'.value.bsid != ZERO_ADDRESS
    && m' == Installed(v, st'.value.policy.value, m) && Took(v, st, m, st'.value.bsid)
  }

  /** One VIP's turn in a reconcile: the state it found and, if it was programmed, the
      weights it found; otherwise it was removed. */
  datatype Turn = Turn(v: IP6, w: Option<map<string, Uint32>>, services: Services, m: Moment)

  ghost predicate TurnTaken(src: Source, plan: Plan, t: Turn, services': Services, m': Moment)
    requires SourceOk(src)
  {
    && OthersSame(t.v, t.services, services')
    && OnlyOwn(t.v, Get(t.services, t.v), t.m, m')
    && if t.w.Some? then
         && AddsOne(t.m, m') && Weighs(plan, t.v, t.w.value)
         && Outcome(src, t.v, Get(t.services, t.v), t.m, Get(services', t.v), t.w.value, plan.sids)
         && if t.w.value == map[] then TakenOut(t.v, Get(t.services, t.v), t.m, m')
            else if Get(services', t.v) == Get(t.services, t.v) then Untouched(t.m, m')
            else PutIn(t.v, Get(t.services, t.v), t.m, Get(services', t.v), m')
       else
         && TakenOut(t.v, Get(t.services, t.v), t.m, m')
         && m'.policies.Keys <= t.m.policies.Keys && t.v !in plan.desired
         && Get(services', t.v) == LeftOf(Get(t.services, t.v), t.m)
  }

  /** The turns of a reconcile, the last one outermost. */
  datatype Trace = Start | Then(before: Trace, turn: Turn)

  /** The VIPs that have had a turn. */
  function Visited(trace: Trace): set<IP6> {
    match trace
    case Start => {}
    case Then(before, t) => Visited(before) + {t.v}
  }

  /** The turns lead from one state to another, each VIP having at most one. */
  ghost predicate Ran(src: Source, plan: Plan, services0: Services, m0: Moment, trace: Trace, services: Services,
                      m: Moment)
    requires SourceOk(src)
  {
    match trace
    case Start => services == services0 && m == m0
    case Then(before, t) =>
      && t.v !in Visited(before)
      && TurnTaken(src, plan, t, services, m)
      && Ran(src, plan, services0, m0, before, t.services, t.m)
  }

  /** What VPP held when the VIP's turn came. */
  function At(trace: Trace, v: IP6): Moment
    requires v in Visited(trace)
  {
    if trace.turn.v == v then trace.turn.m else At(trace.before, v)
  }

  /** Every turn found the record its VIP started with and left the one it ends with. */
  lemma {:induction false} TurnOutcome(src: Source, plan: Plan, services0: Services, m0: Moment, trace: Trace,
                                       services: Services, m: Moment, v: IP6)
    requires SourceOk(src) && Ran(src, plan, services0, m0, trace, services, m)
    ensures v !in Visited(trace) ==> Get(services, v) == Get(services0, v)
    ensures v in Visited(trace) && v in plan.desired ==>
              Programmed(src, plan, v, Get(services0, v), At(trace, v), Get(services, v))
    ensures v in Visited(trace) && v !in plan.desired ==> Get(services, v) == LeftOf(Get(services0, v), At(trace, v))
  {
    if trace.Then? {
      TurnOutcome(src, plan, services0, m0, trace.before, trace.turn.services, trace.turn.m, v);
    }
  }

  /** A VIP is as before: its record, the entries that steer it, and its policy. */
  ghost predicate AsBefore(v: IP6, services0: Services, m0: Moment, services: Services, m: Moment) {
    && Get(services, v) == Get(services0, v)
    && (forall k: SteerKey :: k.prefix == VipPrefix(v) ==>
          (k in m.steering <==> k in m0.steering) && (k in m.steering ==> m.steering[k] == m0.steering[k]))
    && (v in services0 && services0[v].bsid in m0.policies ==> services0[v].bsid in m.policies)
  }

  lemma AsBeforeStep(u: IP6, v: IP6, services0: Services, m0: Moment, services: Services, m: Moment,
                     services': Services, m': Moment)
    requires DistinctBsids(services0) && AllShaped(services0) && u != v
    requires AsBefore(u, services0, m0, services, m) && Get(services, v) == Get(services0, v)
    requires OthersSame(v, services, services') && OnlyOwn(v, Get(services, v), m, m')
    ensures AsBefore(u, services0, m0, services', m')
  {
    forall k: SteerKey | k.prefix == VipPrefix(u)
      ensures (k in m'.steering <==> k in m.steering) && (k in m'.steering ==> m'.steering[k] == m.steering[k])
    {
      assert k in m.steering - {VipKey(v)} <==> k in m.steering;
      assert k in m'.steering - {VipKey(v)} <==> k in m'.steering;
    }
    if u in services0 {
      assert Shaped(u, services0[u]);
    }
  }

  /** A VIP without a turn is as before. */
  lemma {:induction false} WaitingIsAsBefore(src: Source, plan: Plan, services0: Services, m0: Moment, trace: Trace,
                                             services: Services, m: Moment, u: IP6)
    requires SourceOk(src) && Ran(src, plan, services0, m0, trace, services, m)
    requires DistinctBsids(services0) && AllShaped(services0) && u !in Visited(trace)
    ensures AsBefore(u, services0, m0, services, m)
  {
    if trace.Then? {
      var t, front := trace.turn, trace.before;
      WaitingIsAsBefore(src, plan, services0, m0, front, t.services, t.m, u);
      TurnOutcome(src, plan, services0, m0, front, t.services, t.m, t.v);
      AsBeforeStep(u, t.v, services0, m0, t.services, t.m, services, m);
    }
  }

  /** Every programmed VIP added at most one policy. */
  lemma {:induction false} PoliciesAdded(src: Source, plan: Plan, services0: Services, m0: Moment, trace: Trace,
                                         services: Services, m: Moment)
    requires SourceOk(src) && Ran(src, plan, services0, m0, trace, services, m)
    ensures |m.policies| <= |m0.policies| + |Visited(trace) * plan.desired.Keys|
  {
    if trace.Then? {
      var t, front := trace.turn, trace.before;
      PoliciesAdded(src, plan, services0, m0, front, t.services, t.m);
      OneTurnMore(front, t, plan);
      if t.w.Some? {
        AddsOneCount(t.m, m);
      } else {
        SubsetCount(m.policies.Keys, t.m.policies.Keys);
        assert |m.policies| == |m.policies.Keys| && |t.m.policies| == |t.m.policies.Keys|;
      }
    }
  }

  lemma OneTurnMore(front: Trace, t: Turn, plan: Plan)
    requires t.v !in Visited(front)
    ensures |Visited(Then(front, t)) * plan.desired.Keys| ==
            |Visited(front) * plan.desired.Keys| + if t.v in plan.desired then 1 else 0
  {
    assert Visited(Then(front, t)) * plan.desired.Keys ==
           Visited(front) * plan.desired.Keys + if t.v in plan.desired then {t.v} else {};
  }

  /** A VIP whose turn comes can be programmed, or removed, as it could before. */
  lemma AsBeforeIsAmple(v: IP6, src: Source, plan: Plan, services0: Services, m0: Moment,
                        services: Services, m: Moment, n: nat)
    requires Ample(src, plan, services0, m0) && AllShaped(services0)
    requires AsBefore(v, services0, m0, services, m) && |m.policies| <= |m0.policies| + n
    ensures v in services && !Needed(plan, v) ==> Present(services[v], m)
    ensures v in plan.desired && n < |plan.desired| ==> !Denied(src, v, m)
  {
    if v in services && !Needed(plan, v) {
      assert services[v] == services0[v] && Shaped(v, services0[v]) && Present(services0[v], m0);
      assert VipKey(v).prefix == VipPrefix(v);
    }
    if v in plan.desired && n < |plan.desired| {
      NotDenied(src, v, m);
    }
  }

  /** From an ample state every turn settles its VIP or removes it. */
  lemma {:induction false} RanSettles(src: Source, plan: Plan, services0: Services, m0: Moment, trace: Trace,
                                      services: Services, m: Moment, v: IP6)
    requires SourceOk(src) && Ran(src, plan, services0, m0, trace, services, m)
    requires Ample(src, plan, services0, m0) && AllShaped(services0) && v in Visited(trace)
    ensures if v in plan.desired then Settled(plan, v, Get(services, v)) else v !in services
  {
    var t, front := trace.turn, trace.before;
    if v != t.v {
      RanSettles(src, plan, services0, m0, front, t.services, t.m, v);
      assert Get(services, v) == Get(t.services, v);
    } else {
      WaitingIsAsBefore(src, plan, services0, m0, front, t.services, t.m, v);
      PoliciesAdded(src, plan, services0, m0, front, t.services, t.m);
      if v in plan.desired {
        RoomLeft(front, plan, v);
      }
      AsBeforeIsAmple(v, src, plan, services0, m0, t.services, t.m, |Visited(front) * plan.desired.Keys|);
      if v in plan.desired {
        ProgrammedSettles(src, plan, v, Get(t.services, v), t.m, Get(services, v));
      }
    }
  }

  lemma RoomLeft(trace: Trace, plan: Plan, v: IP6)
    requires v !in Visited(trace) && v in plan.desired
    ensures |Visited(trace) * plan.desired.Keys| < |plan.desired|
  {
    var some := Visited(trace) * plan.desired.Keys;
    SubsetCount(some + {v}, plan.desired.Keys);
    assert |plan.desired.Keys| == |plan.desired|;
  }
}
