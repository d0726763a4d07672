/**
  The node-local half of DSR services: each VIP is bound on the loopback of its local
  backend pods, allowed through their reverse-path check, and delivered to them by one
  route. Everything a VIP owns is collected in its view; the reconciler works on one
  view at a time, so what holds of every view is what holds of the node.
 */
module CniDsr {
  import opened Srv6Types
  import Environment
  import CountingCompare

  type PodKey = string

  /** A local pod: its IPv6 container addresses, and None for what it does not have. */
  datatype Pod = Pod(netns: string, ips: seq<IP6>, tun: Option<Uint32>, rpfVrf: Option<Uint32>)

  datatype Path = Path(swIf: Uint32, gw: IP6)

  /** The record of one VIP. */
  datatype VipState = VipState(delivery: Option<seq<Path>>, boundPods: set<IP6>)

  /** All that concerns one VIP: the record, the installed route, the pods that have
      it on their loopback and the pods allowed to send from it. */
  datatype View = View(record: Option<VipState>, route: Option<seq<Path>>, lo: set<PodKey>, rpf: set<PodKey>) {
    function Bound(): set<IP6> {
      if record.Some? then record.value.boundPods else {}
    }

    function Delivery(): Option<seq<Path>> {
      if record.Some? then record.value.delivery else None
    }
  }

  function Get<V>(m: map<IP6, V>, v: IP6): Option<V> {
    if v in m then Some(m[v]) else None
  }

  function Members(m: map<IP6, set<PodKey>>, v: IP6): set<PodKey> {
    if v in m then m[v] else {}
  }

  // ----- Specification -----

  type Pods = map<PodKey, Pod>

  /** No two live pods share an address. */
  ghost predicate DistinctAddresses(pods: Pods) {
    forall j, k, ip :: j in pods && k in pods && ip in pods[j].ips && ip in pods[k].ips ==> j == k
  }

  /** One of the pod's addresses is among these. */
  ghost predicate HasOneOf(pods: Pods, k: PodKey, ips: set<IP6>) {
    k in pods && exists ip :: ip in pods[k].ips && ip in ips
  }

  /** Every pod carrying the VIP is recorded under one of its addresses. */
  ghost predicate Covered(pods: Pods, lo: set<PodKey>, rpf: set<PodKey>, bound: set<IP6>) {
    && (forall k :: k in lo ==> HasOneOf(pods, k, bound) && pods[k].netns != "")
    && (forall k :: k in rpf ==> HasOneOf(pods, k, bound) && pods[k].rpfVrf.Some?)
  }

  /** The record is the truth about the route, and covers every pod still carrying the VIP. */
  ghost predicate Accounted(pods: Pods, w: View) {
    w.Delivery() == w.route && Covered(pods, w.lo, w.rpf, w.Bound())
  }

  ghost predicate Carries(pods: Pods, lo: set<PodKey>, rpf: set<PodKey>, k: PodKey)
    requires k in pods
  {
    (pods[k].netns != "" ==> k in lo) && (pods[k].rpfVrf.Some? ==> k in rpf)
  }

  /** A pod is deliverable when it has a tun interface. */
  ghost predicate LocalAt(pods: Pods, ip: IP6, k: PodKey) {
    k in pods && ip in pods[k].ips && pods[k].tun.Some?
  }

  ghost function PathTo(pods: Pods, ip: IP6): seq<Path> {
    if exists k :: LocalAt(pods, ip, k) then
      var k :| LocalAt(pods, ip, k);
      [Path(pods[k].tun.value, ip)]
    else
      []
  }

  /** One path per local backend. */
  ghost function Paths(pods: Pods, backends: seq<IP6>): seq<Path> {
    if backends == [] then []
    else Paths(pods, backends[..|backends| - 1]) + PathTo(pods, backends[|backends| - 1])
  }

  ghost function LocalBackends(pods: Pods, backends: seq<IP6>): set<IP6> {
    set ip | ip in backends && exists k :: LocalAt(pods, ip, k)
  }

  lemma {:induction false} NoPathIffNoLocal(pods: Pods, backends: seq<IP6>)
    ensures Paths(pods, backends) == [] <==> LocalBackends(pods, backends) == {}
  {
    if backends != [] {
      var n := |backends| - 1;
      NoPathIffNoLocal(pods, backends[..n]);
      var last := backends[n];
      assert backends == backends[..n] + [last];
      if PathTo(pods, last) == [] {
        assert LocalBackends(pods, backends) == LocalBackends(pods, backends[..n]);
      } else {
        assert last in LocalBackends(pods, backends);
      }
    }
  }

  lemma PathToIs(pods: Pods, ip: IP6, k: PodKey)
    requires DistinctAddresses(pods) && k in pods && ip in pods[k].ips
    ensures PathTo(pods, ip) == if pods[k].tun.Some? then [Path(pods[k].tun.value, ip)] else []
  {
    if pods[k].tun.Some? {
      assert LocalAt(pods, ip, k);
    }
  }

  /** The record and the route of a VIP with these backends are exactly as desired. */
  ghost predicate Settled(pods: Pods, backends: seq<IP6>, w: View) {
    && (w.record.None? <==> LocalBackends(pods, backends) == {})
    && w.Bound() == LocalBackends(pods, backends)
    && (w.route.None? <==> LocalBackends(pods, backends) == {})
    && (w.route.Some? ==> multiset(w.route.value) == multiset(Paths(pods, backends)))
  }

  /** A pod carries the VIP if it backs it, unless it is also known under an address
      that no longer backs it: cleaning that address up comes last and takes the binding
      away again. Every other pod carries nothing. */
  ghost predicate PodsSettled(pods: Pods, local: set<IP6>, known: set<IP6>, lo: set<PodKey>, rpf: set<PodKey>) {
    forall k :: k in pods ==>
      if HasOneOf(pods, k, local) && !HasOneOf(pods, k, known - local)
      then Carries(pods, lo, rpf, k) else k !in lo && k !in rpf
  }

  /** The pods carrying the VIP are exactly its local backends. */
  ghost predicate PodsExact(pods: Pods, local: set<IP6>, lo: set<PodKey>, rpf: set<PodKey>) {
    forall k :: k in pods ==>
      if HasOneOf(pods, k, local) then Carries(pods, lo, rpf, k) else k !in lo && k !in rpf
  }

  /** Where each pod is known under one address only, one pass is exact; otherwise it is
      exact if and only if no pod able to carry the VIP has both a backing and a stale address. */
  lemma ExactIffNoStaleAddress(pods: Pods, local: set<IP6>, known: set<IP6>, lo: set<PodKey>, rpf: set<PodKey>)
    requires PodsSettled(pods, local, known, lo, rpf)
    ensures PodsExact(pods, local, lo, rpf) <==>
            forall k :: HasOneOf(pods, k, local) && HasOneOf(pods, k, known - local) ==>
                pods[k].netns == "" && pods[k].rpfVrf.None?
  {
  }

  /** A pod with two addresses, the second of which backs the VIP no longer: binding the pod
      for the first comes before cleaning up the second, so one pass leaves it without the
      VIP that it backs. */
  lemma StaleAddressUnbinds(k: PodKey)
    ensures var pods := map[k := Pod("ns", [1, 2], Some(5), Some(6))];
            PodsSettled(pods, {1}, {2}, {}, {}) && !PodsExact(pods, {1}, {}, {})
  {
    var pods := map[k := Pod("ns", [1, 2], Some(5), Some(6))];
    assert 1 in pods[k].ips && 2 in pods[k].ips && 2 in {2} - {1};
    assert k in pods && HasOneOf(pods, k, {1}) && HasOneOf(pods, k, {2} - {1});
  }

  /** Once the record is settled the next pass is exact, whatever was stale before. */
  lemma SecondPassIsExact(pods: Pods, local: set<IP6>, lo: set<PodKey>, rpf: set<PodKey>)
    requires PodsSettled(pods, local, local, lo, rpf)
    ensures PodsExact(pods, local, lo, rpf)
  {
    assert local - local == {};
  }

  // ----- What one step does to the pods carrying one VIP -----

  ghost predicate OthersKept(vip: IP6, before: map<IP6, set<PodKey>>, after: map<IP6, set<PodKey>>) {
    forall v :: v != vip ==> Members(after, v) == Members(before, v)
  }

  /** Only pods that can carry a binding or an allowance do. */
  ghost predicate Possible(pods: Pods, lo: set<PodKey>, rpf: set<PodKey>) {
    && (forall k :: k in lo ==> k in pods && pods[k].netns != "")
    && (forall k :: k in rpf ==> k in pods && pods[k].rpfVrf.Some?)
  }

  ghost predicate GrownBy(pods: Pods, local: set<IP6>, before: set<PodKey>, after: set<PodKey>) {
    before <= after && forall k :: k in after && k !in before ==> HasOneOf(pods, k, local)
  }

  ghost predicate Unbound(pods: Pods, ips: set<IP6>, before: set<PodKey>, after: set<PodKey>) {
    after <= before && forall k :: k in before && k !in after ==> HasOneOf(pods, k, ips)
  }

  ghost predicate Released(pods: Pods, ips: set<IP6>, lo: set<PodKey>, rpf: set<PodKey>) {
    forall k :: HasOneOf(pods, k, ips) ==> k !in lo && k !in rpf
  }

  ghost predicate AllCarry(pods: Pods, local: set<IP6>, lo: set<PodKey>, rpf: set<PodKey>) {
    forall k :: HasOneOf(pods, k, local) ==> (pods[k].netns != "" ==> k in lo) && (pods[k].rpfVrf.Some? ==> k in rpf)
  }

  /** What binding these local backends has done so far. */
  ghost predicate Binding(reliable: bool, pods: Pods, local: set<IP6>, lo: set<PodKey>, rpf: set<PodKey>,
                          lo': set<PodKey>, rpf': set<PodKey>) {
    && GrownBy(pods, local, lo, lo') && GrownBy(pods, local, rpf, rpf')
    && (Possible(pods, lo, rpf) ==> Possible(pods, lo', rpf'))
    && (reliable ==> AllCarry(pods, local, lo', rpf'))
  }

  lemma LocalStep(pods: Pods, backends: seq<IP6>, i: nat, r: Option<PodKey>)
    requires i < |backends| && DistinctAddresses(pods)
    requires r.Some? ==> r.value in pods && backends[i] in pods[r.value].ips
    requires r.None? ==> forall k :: k in pods ==> backends[i] !in pods[k].ips
    ensures var found := r.Some? && pods[r.value].tun.Some?;
            && LocalBackends(pods, backends[..i + 1]) ==
                 LocalBackends(pods, backends[..i]) + (if found then {backends[i]} else {})
            && Paths(pods, backends[..i + 1]) ==
                 Paths(pods, backends[..i]) + (if found then [Path(pods[r.value].tun.value, backends[i])] else [])
  {
    var ip := backends[i];
    assert backends[..i + 1] == backends[..i] + [ip] && backends[..i + 1][..i] == backends[..i];
    if r.Some? {
      PathToIs(pods, ip, r.value);
      assert pods[r.value].tun.Some? ==> LocalAt(pods, ip, r.value);
    }
  }

  ghost predicate SameRecord(a: View, b: View) {
    a.record == b.record && a.route == b.route
  }

  /** Binding the local backends and then cleaning up the others leaves every carrier recorded. */
  lemma ReboundCovered(pods: Pods, known: set<IP6>, local: set<IP6>, bound: set<IP6>,
                       lo0: set<PodKey>, rpf0: set<PodKey>, lo: set<PodKey>, rpf: set<PodKey>,
                       lo1: set<PodKey>, rpf1: set<PodKey>)
    requires Covered(pods, lo0, rpf0, known)
    requires GrownBy(pods, local, lo0, lo) && GrownBy(pods, local, rpf0, rpf) && Possible(pods, lo, rpf)
    requires lo1 <= lo && rpf1 <= rpf && Released(pods, known + local - bound, lo1, rpf1)
    ensures Covered(pods, lo1, rpf1, bound)
  {
    forall k | k in lo1 + rpf1 ensures HasOneOf(pods, k, bound) {
      assert HasOneOf(pods, k, known) || HasOneOf(pods, k, local);
      var ip :| ip in pods[k].ips && ip in known + local;
    }
  }

  lemma ReboundSettled(pods: Pods, known: set<IP6>, local: set<IP6>,
                       lo: set<PodKey>, rpf: set<PodKey>, lo1: set<PodKey>, rpf1: set<PodKey>)
    requires AllCarry(pods, local, lo, rpf)
    requires Unbound(pods, known - local, lo, lo1) && Unbound(pods, known - local, rpf, rpf1)
    requires Released(pods, known - local, lo1, rpf1) && Covered(pods, lo1, rpf1, local)
    ensures PodsSettled(pods, local, known, lo1, rpf1)
  {
  }

  // ----- The whole node -----

  /** The record and the route are as desired. */
  ghost predicate Recorded(pods: Pods, desired: map<IP6, seq<IP6>>, v: IP6, w: View) {
    if v in desired then Settled(pods, desired[v], w) else w.record.None?
  }

  /** What one reconcile with no failure makes of a VIP. */
  ghost predicate Reached(pods: Pods, desired: map<IP6, seq<IP6>>, v: IP6, before: View, after: View) {
    if v in desired then
      Settled(pods, desired[v], after) &&
      PodsSettled(pods, LocalBackends(pods, desired[v]), before.Bound(), after.lo, after.rpf)
    else
      after == View(None, None, {}, {})
  }

  lemma NothingLeft(pods: Pods, w: View)
    requires Accounted(pods, w) && w.record.None?
    ensures w == View(None, None, {}, {})
  {
    assert forall k :: !HasOneOf(pods, k, {});
    assert w.lo == {} && w.rpf == {};
  }

  /** What one reconcile does to a VIP: all stays accounted for whatever fails, a record
      that was as desired is not touched, and without failures it becomes as desired. */
  ghost predicate Progress(reliable: bool, pods: Pods, desired: map<IP6, seq<IP6>>, v: IP6, before: View, after: View) {
    && Accounted(pods, after)
    && (Recorded(pods, desired, v, before) ==> SameRecord(before, after))
    && (reliable ==> Reached(pods, desired, v, before, after))
  }

  /** Address allocation: a new pod's addresses are in no live pod. */
  predicate Fresh(pods: Pods, k: PodKey, pod: Pod) {
    k !in pods && forall j :: j in pods ==> forall ip :: ip in pod.ips ==> ip !in pods[j].ips
  }

  /** No pod has one of the addresses. */
  ghost predicate NotHeld(ips: seq<IP6>, pods: Pods) {
    forall j, ip :: j in pods && ip in ips ==> ip !in pods[j].ips
  }

  /** Any pod that is known already, or a new one whose addresses no other pod holds:
      whoever held them has been torn down by then. */
  predicate Addable(pods: Pods, k: PodKey, pod: Pod) {
    k in pods || Fresh(pods, k, pod)
  }

  /** A known pod that is added again keeps its namespace and its addresses, whatever the
      request says; it gets a new interface and a new reverse-path table if it lost its VRFs. */
  function AddedPod(pods: Pods, k: PodKey, pod: Pod, renewed: bool): Pod {
    if k !in pods then pod
    else if renewed then pods[k].(tun := pod.tun, rpfVrf := pod.rpfVrf)
    else pods[k]
  }

  lemma PodJoins(pods: Pods, k: PodKey, pod: Pod, w: View)
    requires Accounted(pods, w) && k !in pods
    ensures Accounted(pods[k := pod], w)
  {
    forall j, ips | HasOneOf(pods, j, ips) ensures HasOneOf(pods[k := pod], j, ips) {
      var ip :| ip in pods[j].ips && ip in ips;
      assert ip in pods[k := pod][j].ips;
    }
  }

  /** A new reverse-path table is empty: nothing the pod is still able to carry is forgotten. */
  lemma PodRenewed(pods: Pods, k: PodKey, pod: Pod, before: View, after: View)
    requires Accounted(pods, before) && SameRecord(before, after) && k in pods
    requires after.lo == before.lo && after.rpf == before.rpf - {k}
    ensures Accounted(pods[k := AddedPod(pods, k, pod, true)], after)
  {
    var next := pods[k := AddedPod(pods, k, pod, true)];
    forall j | HasOneOf(pods, j, before.Bound()) ensures HasOneOf(next, j, after.Bound()) {
      var ip :| ip in pods[j].ips && ip in before.Bound();
      assert ip in next[j].ips;
    }
  }

  lemma PodLeaves(pods: Pods, k: PodKey, before: View, after: View)
    requires Accounted(pods, before) && SameRecord(before, after)
    requires after.lo == before.lo - {k} && after.rpf == before.rpf - {k}
    ensures Accounted(pods - {k}, after)
  {
    forall j | j != k && HasOneOf(pods, j, before.Bound()) ensures HasOneOf(pods - {k}, j, after.Bound()) {
      var ip :| ip in pods[j].ips && ip in before.Bound();
      assert ip in (pods - {k})[j].ips;
    }
  }

  // ----- The node: VPP and the pods' network namespaces -----

  class Node {
    /** Every call succeeds. */
    const reliable: bool
    var routes: map<IP6, seq<Path>>
    var lo: map<IP6, set<PodKey>>
    var rpf: map<IP6, set<PodKey>>

    /** Replaces the paths of the VIP in one step. */
    method RouteAdd(vip: IP6, paths: seq<Path>) returns (ok: bool)
      modifies this`routes
      ensures reliable ==> ok
      ensures routes == if ok then old(routes)[vip := paths] else old(routes)
    {
      ok := Environment.Attempt(reliable);
      if ok { routes := routes[vip := paths]; }
    }

    method RouteDel(vip: IP6) returns (ok: bool)
      modifies this`routes
      ensures reliable ==> ok
      ensures routes == if ok then old(routes) - {vip} else old(routes)
    {
      ok := Environment.Attempt(reliable);
      if ok { routes := routes - {vip}; }
    }

    method SetLo(vip: IP6, k: PodKey, add: bool) returns (ok: bool)
      modifies this`lo
      ensures reliable ==> ok
      ensures lo == if ok then old(Updated(lo, vip, k, add)) else old(lo)
    {
      ok := Environment.Attempt(reliable);
      if ok { lo := Updated(lo, vip, k, add); }
    }

    method SetRpf(vip: IP6, k: PodKey, add: bool) returns (ok: bool)
      modifies this`rpf
      ensures reliable ==> ok
      ensures rpf == if ok then old(Updated(rpf, vip, k, add)) else old(rpf)
    {
      ok := Environment.Attempt(reliable);
      if ok { rpf := Updated(rpf, vip, k, add); }
    }

    /** The pod gets an empty reverse-path table in place of the one it lost. */
    method TableRenewed(k: PodKey)
      modifies this`rpf
      ensures forall v :: Members(rpf, v) == old(Members(rpf, v)) - {k}
    {
      rpf := map v | v in rpf :: rpf[v] - {k};
    }

    /** A pod that goes away takes its namespace and its reverse-path table with it. */
    method PodGone(k: PodKey)
      modifies this`lo, this`rpf
      ensures forall v :: Members(lo, v) == old(Members(lo, v)) - {k}
      ensures forall v :: Members(rpf, v) == old(Members(rpf, v)) - {k}
    {
      lo := map v | v in lo :: lo[v] - {k};
      rpf := map v | v in rpf :: rpf[v] - {k};
    }
  }

  function Updated(m: map<IP6, set<PodKey>>, vip: IP6, k: PodKey, add: bool): map<IP6, set<PodKey>> {
    m[vip := if add then Members(m, vip) + {k} else Members(m, vip) - {k}]
  }

  method SamePaths(a: seq<Path>, b: seq<Path>) returns (same: bool)
    ensures same <==> multiset(a) == multiset(b)
  {
    same := CountingCompare.SameElements(a, b);
  }

  class Server {
    const node: Node
    var pods: Pods
    var desired: map<IP6, seq<IP6>>
    var vips: map<IP6, VipState>

    constructor (node: Node)
      ensures this.node == node && pods == map[] && desired == map[] && vips == map[]
    {
      this.node := node;
      pods, desired, vips := map[], map[], map[];
    }

    ghost function At(v: IP6): View
      reads this`vips, node
    {
      View(Get(vips, v), Get(node.routes, v), Members(node.lo, v), Members(node.rpf, v))
    }

    /** No cleanup is forgotten, for any VIP. */
    ghost predicate Valid()
      reads this`pods, this`vips, node
    {
      DistinctAddresses(pods) && forall v :: Accounted(pods, At(v))
    }

    /** Every record and every route is as desired. */
    ghost predicate AsDesired()
      reads this, node
    {
      forall v :: Recorded(pods, desired, v, At(v))
    }

    method FindLocalPodByIP(ip: IP6) returns (r: Option<PodKey>)
      ensures r.Some? ==> r.value in pods && ip in pods[r.value].ips
      ensures r.None? ==> forall k :: k in pods ==> ip !in pods[k].ips
    {
      var todo := pods.Keys;
      while todo != {}
        invariant todo <= pods.Keys
        invariant forall k :: k in pods && k !in todo ==> ip !in pods[k].ips
      {
        var k :| k in todo;
        if ip in pods[k].ips { return Some(k); }
        todo := todo - {k};
      }
      r := None;
    }

    /** Adds or removes the VIP on the pod's loopback; already so is a success. */
    method BindVip(k: PodKey, vip: IP6, add: bool) returns (ok: bool)
      requires k in pods
      modifies node`lo
      ensures node.reliable ==> ok
      ensures forall v :: v != vip ==> Members(node.lo, v) == old(Members(node.lo, v))
      ensures !ok ==> Members(node.lo, vip) == old(Members(node.lo, vip))
      ensures ok ==> Members(node.lo, vip) ==
                       if pods[k].netns == "" then old(Members(node.lo, vip))
                       else if add then old(Members(node.lo, vip)) + {k} else old(Members(node.lo, vip)) - {k}
    {
      if pods[k].netns == "" { return true; }
      ok := Environment.Attempt(node.reliable);
      if !ok { return; }
      var present := k in Members(node.lo, vip);
      if add == present { return; }
      ok := node.SetLo(vip, k, add);
    }

    /** Adds or removes the VIP's route in the pod's reverse-path table, if it has one. */
    method RpfRoute(k: PodKey, vip: IP6, add: bool) returns (ok: bool)
      requires k in pods
      modifies node`rpf
      ensures node.reliable ==> ok
      ensures forall v :: v != vip ==> Members(node.rpf, v) == old(Members(node.rpf, v))
      ensures !ok ==> Members(node.rpf, vip) == old(Members(node.rpf, vip))
      ensures ok ==> Members(node.rpf, vip) ==
                       if pods[k].rpfVrf.None? || pods[k].ips == [] then old(Members(node.rpf, vip))
                       else if add then old(Members(node.rpf, vip)) + {k} else old(Members(node.rpf, vip)) - {k}
    {
      if pods[k].rpfVrf.None? { return true; }
      if pods[k].ips == [] { return true; }
      ok := node.SetRpf(vip, k, add);
    }

    /** True once the pod is gone or both removals succeeded. */
    method CleanupPod(ip: IP6, vip: IP6) returns (done: bool)
      requires DistinctAddresses(pods)
      requires Possible(pods, Members(node.lo, vip), Members(node.rpf, vip))
      modifies node`lo, node`rpf
      ensures node.reliable ==> done
      ensures OthersKept(vip, old(node.lo), node.lo) && OthersKept(vip, old(node.rpf), node.rpf)
      ensures Unbound(pods, {ip}, old(Members(node.lo, vip)), Members(node.lo, vip))
      ensures Unbound(pods, {ip}, old(Members(node.rpf, vip)), Members(node.rpf, vip))
      ensures done ==> forall k :: k in pods && ip in pods[k].ips ==>
                k !in Members(node.lo, vip) && k !in Members(node.rpf, vip)
    {
      var r := FindLocalPodByIP(ip);
      if r.None? { return true; }
      var unbound := BindVip(r.value, vip, false);
      var disallowed := RpfRoute(r.value, vip, false);
      done := unbound && disallowed;
    }

    method BindPod(k: PodKey, ip: IP6, vip: IP6, ghost local: set<IP6>, ghost lo: set<PodKey>, ghost rpf: set<PodKey>)
      requires DistinctAddresses(pods) && k in pods && ip in pods[k].ips
      requires Binding(node.reliable, pods, local, lo, rpf, Members(node.lo, vip), Members(node.rpf, vip))
      modifies node`lo, node`rpf
      ensures OthersKept(vip, old(node.lo), node.lo) && OthersKept(vip, old(node.rpf), node.rpf)
      ensures Binding(node.reliable, pods, local + {ip}, lo, rpf, Members(node.lo, vip), Members(node.rpf, vip))
    {
      var bound := BindVip(k, vip, true);
      var allowed := RpfRoute(k, vip, true);
    }

    /** Binds every local backend, whatever fails on the way. */
    method BindBackends(vip: IP6, backends: seq<IP6>) returns (local: set<IP6>, paths: seq<Path>)
      requires DistinctAddresses(pods)
      modifies node`lo, node`rpf
      ensures local == LocalBackends(pods, backends) && paths == Paths(pods, backends)
      ensures OthersKept(vip, old(node.lo), node.lo) && OthersKept(vip, old(node.rpf), node.rpf)
      ensures Binding(node.reliable, pods, local, old(Members(node.lo, vip)), old(Members(node.rpf, vip)),
                      Members(node.lo, vip), Members(node.rpf, vip))
    {
      local, paths := {}, [];
      ghost var lo, rpf := Members(node.lo, vip), Members(node.rpf, vip);
      for i := 0 to |backends|
        invariant local == LocalBackends(pods, backends[..i]) && paths == Paths(pods, backends[..i])
        invariant OthersKept(vip, old(node.lo), node.lo) && OthersKept(vip, old(node.rpf), node.rpf)
        invariant Binding(node.reliable, pods, local, lo, rpf, Members(node.lo, vip), Members(node.rpf, vip))
      {
        var r := FindLocalPodByIP(backends[i]);
        LocalStep(pods, backends, i, r);
        if r.None? || pods[r.value].tun.None? { continue; }
        BindPod(r.value, backends[i], vip, local, lo, rpf);
        local := local + {backends[i]};
        paths := paths + [Path(pods[r.value].tun.value, backends[i])];
      }
      assert backends[..|backends|] == backends;
    }

    /** Cleans up the recorded pods that no longer back the VIP, in any order. */
    method Unbind(vip: IP6, bound: set<IP6>, keep: set<IP6>) returns (left: set<IP6>)
      requires DistinctAddresses(pods)
      requires Possible(pods, Members(node.lo, vip), Members(node.rpf, vip))
      modifies node`lo, node`rpf
      ensures bound * keep <= left <= bound
      ensures node.reliable ==> left == bound * keep
      ensures OthersKept(vip, old(node.lo), node.lo) && OthersKept(vip, old(node.rpf), node.rpf)
      ensures Unbound(pods, bound - keep, old(Members(node.lo, vip)), Members(node.lo, vip))
      ensures Unbound(pods, bound - keep, old(Members(node.rpf, vip)), Members(node.rpf, vip))
      ensures Released(pods, bound - left, Members(node.lo, vip), Members(node.rpf, vip))
    {
      left := bound;
      var todo := bound - keep;
      while todo != {}
        invariant todo <= bound - keep && bound * keep + todo <= left <= bound
        invariant node.reliable ==> left == bound * keep + todo
        invariant OthersKept(vip, old(node.lo), node.lo) && OthersKept(vip, old(node.rpf), node.rpf)
        invariant Unbound(pods, bound - keep, old(Members(node.lo, vip)), Members(node.lo, vip))
        invariant Unbound(pods, bound - keep, old(Members(node.rpf, vip)), Members(node.rpf, vip))
        invariant Released(pods, bound - left, Members(node.lo, vip), Members(node.rpf, vip))
      {
        var ip :| ip in todo;
        todo := todo - {ip};
        var done := CleanupPod(ip, vip);
        if done { left := left - {ip}; }
      }
    }

    /** Brings the route to the given paths; what it returns is what is installed. */
    method UpdateDeliveryRoute(vip: IP6, prev: Option<seq<Path>>, paths: seq<Path>) returns (now: Option<seq<Path>>)
      requires Get(node.routes, vip) == prev
      modifies node`routes
      ensures Get(node.routes, vip) == now
      ensures forall v :: v != vip ==> Get(node.routes, v) == old(Get(node.routes, v))
      ensures prev.Some? && paths != [] && multiset(prev.value) == multiset(paths) ==> now == prev
      ensures prev.None? && paths == [] ==> now == prev
      ensures node.reliable ==> (now.None? <==> paths == [])
      ensures node.reliable && paths != [] ==> multiset(now.value) == multiset(paths)
    {
      if paths == [] {
        if prev.Some? {
          var ok := node.RouteDel(vip);
          if !ok { return prev; }
        }
        return None;
      }
      if prev.Some? {
        var same := SamePaths(prev.value, paths);
        if same { return prev; }
      }
      var ok := node.RouteAdd(vip, paths);
      now := if ok then Some(paths) else prev;
    }

    /** Binds the local backends, then cleans up the recorded pods that are none. */
    method Rebind(vip: IP6, known: set<IP6>, backends: seq<IP6>) returns (bound: set<IP6>, paths: seq<Path>)
      requires DistinctAddresses(pods) && Covered(pods, Members(node.lo, vip), Members(node.rpf, vip), known)
      modifies node`lo, node`rpf
      ensures paths == Paths(pods, backends) && LocalBackends(pods, backends) <= bound
      ensures node.reliable || known == LocalBackends(pods, backends) ==> bound == LocalBackends(pods, backends)
      ensures OthersKept(vip, old(node.lo), node.lo) && OthersKept(vip, old(node.rpf), node.rpf)
      ensures Covered(pods, Members(node.lo, vip), Members(node.rpf, vip), bound)
      ensures node.reliable ==>
                PodsSettled(pods, LocalBackends(pods, backends), known, Members(node.lo, vip), Members(node.rpf, vip))
    {
      ghost var lo0, rpf0 := Members(node.lo, vip), Members(node.rpf, vip);
      var local;
      local, paths := BindBackends(vip, backends);
      ghost var lo, rpf := Members(node.lo, vip), Members(node.rpf, vip);
      bound := Unbind(vip, known + local, local);
      assert known + local - local == known - local;
      ReboundCovered(pods, known, local, bound, lo0, rpf0, lo, rpf, Members(node.lo, vip), Members(node.rpf, vip));
      if node.reliable {
        assert bound == local;
        ReboundSettled(pods, known, local, lo, rpf, Members(node.lo, vip), Members(node.rpf, vip));
      }
    }

    /** Drops the record once the route is gone and no cleanup is pending. */
    method Record(vip: IP6, delivery: Option<seq<Path>>, bound: set<IP6>)
      modifies this`vips
      ensures forall v :: v != vip ==> Get(vips, v) == old(Get(vips, v))
      ensures Get(vips, vip) == if delivery.None? && bound == {} then None else Some(VipState(delivery, bound))
    {
      if delivery.None? && bound == {} {
        vips := vips - {vip};
      } else {
        vips := vips[vip := VipState(delivery, bound)];
      }
    }

    method ProgramVip(vip: IP6, backends: seq<IP6>)
      requires DistinctAddresses(pods) && Accounted(pods, At(vip))
      modifies this`vips, node`routes, node`lo, node`rpf
      ensures Accounted(pods, At(vip))
      ensures forall v :: v != vip ==> At(v) == old(At(v))
      ensures node.reliable ==> Settled(pods, backends, At(vip))
      ensures node.reliable ==>
                PodsSettled(pods, LocalBackends(pods, backends), old(At(vip).Bound()), At(vip).lo, At(vip).rpf)
      ensures old(Settled(pods, backends, At(vip))) ==> SameRecord(old(At(vip)), At(vip))
    {
      var prev := Get(vips, vip);
      var bound, paths := Rebind(vip, if prev.Some? then prev.value.boundPods else {}, backends);
      var delivery := UpdateDeliveryRoute(vip, if prev.Some? then prev.value.delivery else None, paths);
      Record(vip, delivery, bound);
      NoPathIffNoLocal(pods, backends);
    }

    /** Removes all of a VIP that is no longer desired, keeping what could not be removed. */
    method TeardownVip(vip: IP6)
      requires DistinctAddresses(pods) && Accounted(pods, At(vip))
      modifies this`vips, node`routes, node`lo, node`rpf
      ensures Accounted(pods, At(vip))
      ensures forall v :: v != vip ==> At(v) == old(At(v))
      ensures node.reliable ==> At(vip) == View(None, None, {}, {})
      ensures old(At(vip)).record.None? ==> At(vip) == old(At(vip))
    {
      if vip !in vips { return; }
      var st := vips[vip];
      ghost var lo, rpf := Members(node.lo, vip), Members(node.rpf, vip);
      var delivery := UpdateDeliveryRoute(vip, st.delivery, []);
      var bound := Unbind(vip, st.boundPods, {});
      ReboundCovered(pods, st.boundPods, {}, bound, lo, rpf, lo, rpf, Members(node.lo, vip), Members(node.rpf, vip));
      Record(vip, delivery, bound);
    }

    /** Brings one VIP to what is desired of it. */
    method ReconcileVip(vip: IP6)
      requires DistinctAddresses(pods) && Accounted(pods, At(vip))
      modifies this`vips, node`routes, node`lo, node`rpf
      ensures forall v :: v != vip ==> At(v) == old(At(v))
      ensures Progress(node.reliable, pods, desired, vip, old(At(vip)), At(vip))
    {
      if vip in desired {
        ProgramVip(vip, desired[vip]);
      } else {
        TeardownVip(vip);
      }
    }

    method ReconcileEach(vs: set<IP6>)
      requires DistinctAddresses(pods) && forall v :: v in vs ==> Accounted(pods, At(v))
      modifies this`vips, node`routes, node`lo, node`rpf
      ensures forall v :: v !in vs ==> At(v) == old(At(v))
      ensures forall v :: v in vs ==> Progress(node.reliable, pods, desired, v, old(At(v)), At(v))
    {
      var todo := vs;
      while todo != {}
        invariant todo <= vs
        invariant forall v :: v !in vs || v in todo ==> At(v) == old(At(v))
        invariant forall v :: v in vs && v !in todo ==> Progress(node.reliable, pods, desired, v, old(At(v)), At(v))
      {
        var v :| v in todo;
        todo := todo - {v};
        ReconcileVip(v);
      }
    }

    /** Programs every desired VIP, then tears down the others, each in any order. */
    method Reconcile()
      requires Valid()
      modifies this`vips, node`routes, node`lo, node`rpf
      ensures Valid()
      ensures forall v :: Progress(node.reliable, pods, desired, v, old(At(v)), At(v))
    {
      ReconcileEach(desired.Keys);
      var rest := vips.Keys - desired.Keys;
      ReconcileEach(rest);
      forall v ensures Progress(node.reliable, pods, desired, v, old(At(v)), At(v)) {
        if v !in desired.Keys && v !in rest {
          assert At(v) == old(At(v)) && Accounted(pods, At(v)) && At(v).record.None?;
          NothingLeft(pods, At(v));
        }
      }
    }

    method ServiceAdded(vip: IP6, backends: seq<IP6>)
      requires Valid()
      modifies this`desired, this`vips, node`routes, node`lo, node`rpf
      ensures Valid() && desired == old(desired)[vip := backends]
      ensures node.reliable ==> forall v :: Recorded(pods, desired, v, At(v))
    {
      desired := desired[vip := backends];
      Reconcile();
    }

    method ServiceDeleted(vip: IP6)
      requires Valid()
      modifies this`desired, this`vips, node`routes, node`lo, node`rpf
      ensures Valid() && desired == old(desired) - {vip}
      ensures node.reliable ==> forall v :: Recorded(pods, desired, v, At(v))
    {
      desired := desired - {vip};
      Reconcile();
    }

    /** A new pod starts with a clean namespace; one that is added again stays as it is, but
        for the interface and the reverse-path table if these had to be made anew. */
    method PodAdded(k: PodKey, pod: Pod, renewed: bool)
      requires Valid() && Addable(pods, k, pod)
      modifies this`pods, this`vips, node`routes, node`lo, node`rpf
      ensures Valid() && k in pods && pods == old(pods)[k := pods[k]]
      ensures pods[k] == if k !in old(pods) then pod
                         else if !renewed then old(pods)[k]
                         else Pod(old(pods)[k].netns, old(pods)[k].ips, pod.tun, pod.rpfVrf)
      ensures node.reliable ==> forall v :: Recorded(pods, desired, v, At(v))
    {
      ghost var before := pods;
      if k in pods && !renewed {
        assert pods[k := AddedPod(pods, k, pod, renewed)] == pods;
      } else if k in pods {
        pods := pods[k := AddedPod(pods, k, pod, renewed)];
        node.TableRenewed(k);
        forall v ensures Accounted(pods, At(v)) {
          PodRenewed(before, k, pod, old(At(v)), At(v));
        }
      } else {
        pods := pods[k := pod];
        forall v ensures Accounted(pods, At(v)) {
          assert At(v) == old(At(v));
          PodJoins(before, k, pod, At(v));
        }
      }
      Reconcile();
    }

    method PodRemoved(k: PodKey)
      requires Valid()
      modifies this`pods, this`vips, node`routes, node`lo, node`rpf
      ensures Valid() && pods == old(pods) - {k}
      ensures node.reliable ==> forall v :: Recorded(pods, desired, v, At(v))
    {
      ghost var before := pods;
      pods := pods - {k};
      node.PodGone(k);
      forall v ensures Accounted(pods, At(v)) {
        PodLeaves(before, k, old(At(v)), At(v));
      }
      Reconcile();
    }
  }

  datatype Operation =
    | AddService(vip: IP6, backends: seq<IP6>)
    | DelService(vip: IP6)
    | AddPod(key: PodKey, pod: Pod, renewed: bool)
    | DelPod(key: PodKey)
    | Tick

  /** What is desired after an operation. */
  function Desire(desired: map<IP6, seq<IP6>>, op: Operation): map<IP6, seq<IP6>> {
    match op
    case AddService(vip, backends) => desired[vip := backends]
    case DelService(vip) => desired - {vip}
    case _ => desired
  }

  /** The pods after an operation. */
  function Join(pods: Pods, op: Operation): Pods {
    match op
    case AddPod(k, pod, renewed) => if Addable(pods, k, pod) then pods[k := AddedPod(pods, k, pod, renewed)] else pods
    case DelPod(k) => pods - {k}
    case _ => pods
  }

  function DesiredAfter(ops: seq<Operation>): map<IP6, seq<IP6>> {
    if ops == [] then map[] else Desire(DesiredAfter(ops[..|ops| - 1]), ops[|ops| - 1])
  }

  function PodsAfter(ops: seq<Operation>): Pods {
    if ops == [] then map[] else Join(PodsAfter(ops[..|ops| - 1]), ops[|ops| - 1])
  }

  method Execute(s: Server, op: Operation)
    requires s.Valid()
    modifies s, s.node
    ensures s.Valid() && s.desired == Desire(old(s.desired), op) && s.pods == Join(old(s.pods), op)
    ensures s.node.reliable && (old(s.AsDesired()) || (op.AddPod? ==> Addable(old(s.pods), op.key, op.pod))) ==>
              s.AsDesired()
    ensures op.AddPod? && (op.key in old(s.pods) || NotHeld(op.pod.ips, old(s.pods))) ==> op.key in s.pods
  {
    match op {
      case AddService(vip, backends) => s.ServiceAdded(vip, backends);
      case DelService(vip) => s.ServiceDeleted(vip);
      case AddPod(k, pod, renewed) => if Addable(s.pods, k, pod) { s.PodAdded(k, pod, renewed); }
      case DelPod(k) => s.PodRemoved(k);
      case Tick => s.Reconcile();
    }
  }

  /** After every run of service, pod and retry events, with any call failing, each VIP's
      record is the route really installed, and every live pod still carrying a VIP is
      recorded for cleanup; if no call failed, records and routes are those of the services
      and pods that the events leave. */
  method Run(ops: seq<Operation>, node: Node) returns (s: Server)
    requires node.routes == map[] && node.lo == map[] && node.rpf == map[]
    modifies node
    ensures fresh(s) && s.node == node && s.desired == DesiredAfter(ops) && s.pods == PodsAfter(ops)
    ensures forall v :: Accounted(s.pods, s.At(v))
    ensures node.reliable ==> forall v :: Recorded(PodsAfter(ops), DesiredAfter(ops), v, s.At(v))
  {
    s := new Server(node);
    for i := 0 to |ops|
      invariant fresh(s) && s.node == node && s.Valid() && (node.reliable ==> s.AsDesired())
      invariant s.desired == DesiredAfter(ops[..i]) && s.pods == PodsAfter(ops[..i])
    {
      Execute(s, ops[i]);
      assert ops[..i + 1][..i] == ops[..i];
    }
    assert ops[..|ops|] == ops;
  }
}
