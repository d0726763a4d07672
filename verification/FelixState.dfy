/**
  What Felix tells the agent to enforce, as a value: named IP sets, policies and profiles,
  and the endpoints they apply to. Folding messages over it one by one is the reference
  that the two-phase synchronisation has to agree with.
 */
module FelixState {
  import opened Srv6Types
  import IpSet
  import opened Picking

  datatype PolicyId = PolicyId(kind: string, name: string, namespace: string)

  /** IP sets, policies and profiles by name; a policy has one instance per network. */
  datatype Name =
    | IpsetName(id: string)
    | PolicyName(policy: PolicyId, network: string)
    | ProfileName(profile: string)

  const DEFAULT_NETWORK := ""

  /** A rule, the IP sets it mentions, and the network it is annotated with. */
  datatype Rule = Rule(body: string, ipsets: seq<string>, network: string)

  datatype Object =
    | Ipset(kind: IpSet.Kind, members: set<string>)
    | Rules(inbound: seq<Rule>, outbound: seq<Rule>)

  datatype EndpointId = EndpointId(orchestrator: string, workload: string, endpoint: string, network: string)

  datatype Endpoint = Endpoint(profiles: seq<string>, ingress: seq<PolicyId>, egress: seq<PolicyId>)

  datatype Content = Content(objects: map<Name, Object>, endpoints: map<EndpointId, Endpoint>)

  const EMPTY := Content(map[], map[])

  datatype ProtoPolicy = ProtoPolicy(untracked: bool, preDnat: bool, inbound: seq<Rule>, outbound: seq<Rule>)

  datatype Message =
    | ConfigUpdate
    | InSync
    | IpsetUpdate(id: string, kind: IpSet.Kind, members: seq<string>)
    | IpsetDelta(id: string, added: seq<string>, removed: seq<string>)
    | IpsetRemove(id: string)
    | PolicyUpdate(policy: PolicyId, proto: ProtoPolicy)
    | PolicyRemove(policy: PolicyId)
    | ProfileUpdate(profile: string, inbound: seq<Rule>, outbound: seq<Rule>)
    | ProfileRemove(profile: string)
    | EndpointUpdate(ids: seq<EndpointId>, endpoint: Endpoint)
    | EndpointRemove(endpointId: EndpointId)

  function InNetwork(rules: seq<Rule>, network: string): seq<Rule> {
    if rules == [] then []
    else
      var n := |rules| - 1;
      InNetwork(rules[..n], network) + (if rules[n].network == network then [rules[n]] else [])
  }

  /** The instance of a policy in one network; unsupported policies become empty ones. */
  function Instance(p: ProtoPolicy, network: string): Object {
    if p.untracked || (p.preDnat && (p.outbound != [] || p.inbound != [])) then Rules([], [])
    else Rules(InNetwork(p.inbound, network), InNetwork(p.outbound, network))
  }

  /** The rules that are annotated with the network: those at exactly these places, in order. */
  ghost predicate OfNetwork(all: seq<Rule>, network: string, r: seq<Rule>) {
    exists at: seq<nat> :: PickedAt(all, at, r) && Annotated(all, network, at)
  }

  ghost predicate Annotated(all: seq<Rule>, network: string, at: seq<nat>) {
    forall i: nat :: i in at <==> i < |all| && all[i].network == network
  }

  ghost predicate Unsupported(p: ProtoPolicy) {
    p.untracked || (p.preDnat && |p.inbound| + |p.outbound| > 0)
  }

  /** What a policy means in a network: its inbound rules of that network are the inbound rules
      and its outbound rules of that network the outbound ones. */
  ghost predicate InstanceOf(p: ProtoPolicy, network: string, o: Object) {
    && o.Rules?
    && (Unsupported(p) ==> o.inbound == [] && o.outbound == [])
    && (!Unsupported(p) ==> OfNetwork(p.inbound, network, o.inbound) && OfNetwork(p.outbound, network, o.outbound))
  }

  lemma {:induction false} InNetworkPicks(rules: seq<Rule>, network: string) returns (at: seq<nat>)
    ensures PickedAt(rules, at, InNetwork(rules, network)) && Annotated(rules, network, at)
  {
    at := [];
    if rules != [] {
      var n := |rules| - 1;
      at := InNetworkPicks(rules[..n], network);
      PickNext(rules, n, at, InNetwork(rules[..n], network));
      assert rules[..n + 1] == rules;
      if rules[n].network == network { at := at + [n]; }
    }
  }

  lemma InstanceIsThat(p: ProtoPolicy, network: string)
    ensures InstanceOf(p, network, Instance(p, network))
  {
    var at := InNetworkPicks(p.inbound, network);
    var at' := InNetworkPicks(p.outbound, network);
  }

  /** An instance has no rules exactly if the policy is untracked, or is applied before DNAT
      and has rules, or has no rule of the network. */
  lemma EmptyInstanceIff(p: ProtoPolicy, network: string, o: Object)
    requires InstanceOf(p, network, o)
    ensures o.inbound == [] && o.outbound == [] <==>
            || p.untracked || (p.preDnat && (p.inbound != [] || p.outbound != []))
            || forall r :: r in p.inbound || r in p.outbound ==> r.network != network
  {
    if !Unsupported(p) {
      NoneOfNetwork(p.inbound, network, o.inbound);
      NoneOfNetwork(p.outbound, network, o.outbound);
    }
  }

  lemma NoneOfNetwork(all: seq<Rule>, network: string, r: seq<Rule>)
    requires OfNetwork(all, network, r)
    ensures r == [] <==> forall x :: x in all ==> x.network != network
  {
    var at: seq<nat> :| PickedAt(all, at, r) && Annotated(all, network, at);
    if r != [] {
      assert at[0] in at && all[at[0]] in all;
    } else {
      forall x | x in all ensures x.network != network {
        var i: nat :| i < |all| && all[i] == x;
        assert i !in at;
      }
    }
  }

  function Elements(s: seq<string>): set<string> {
    set x | x in s
  }

  // ----- The reference: one message at a time -----

  function Instances(policy: PolicyId, networks: set<string>): set<Name> {
    set n | n in networks + {DEFAULT_NETWORK} :: PolicyName(policy, n)
  }

  /** The instances of a policy in these networks, over what is there already. */
  function WithPolicy(m: map<Name, Object>, policy: PolicyId, p: ProtoPolicy, networks: set<string>): map<Name, Object>
  {
    m + map n | n in networks :: PolicyName(policy, n) := Instance(p, n)
  }

  lemma WithPolicyAdd(m: map<Name, Object>, policy: PolicyId, p: ProtoPolicy, ns: set<string>, n: string)
    ensures WithPolicy(m, policy, p, ns + {n}) == WithPolicy(m, policy, p, ns)[PolicyName(policy, n) := Instance(p, n)]
  {
  }

  lemma WithPolicyFirst(m: map<Name, Object>, policy: PolicyId, p: ProtoPolicy, n: string)
    ensures WithPolicy(m, policy, p, {}) == m
    ensures WithPolicy(m, policy, p, {} + {n}) == WithPolicy(m, policy, p, {n})
  {
    assert {} + {n} == {n};
  }

  function WithEndpoints(m: map<EndpointId, Endpoint>, ids: seq<EndpointId>, e: Endpoint): map<EndpointId, Endpoint> {
    m + map i | i in ids :: e
  }

  lemma WithEndpointsAdd(m: map<EndpointId, Endpoint>, ids: seq<EndpointId>, k: nat, e: Endpoint)
    requires k < |ids|
    ensures WithEndpoints(m, ids[..k + 1], e) == WithEndpoints(m, ids[..k], e)[ids[k] := e]
  {
    assert ids[..k + 1] == ids[..k] + [ids[k]];
  }

  predicate SameWorkload(a: EndpointId, b: EndpointId) {
    a.orchestrator == b.orchestrator && a.workload == b.workload
  }

  function Step(c: Content, m: Message, networks: set<string>): Content {
    match m
    case ConfigUpdate => c
    case InSync => c
    case IpsetUpdate(id, kind, members) =>
      c.(objects := c.objects[IpsetName(id) := Ipset(kind, Elements(members))])
    case IpsetDelta(id, added, removed) =>
      if IpsetName(id) in c.objects && c.objects[IpsetName(id)].Ipset? then
        var s := c.objects[IpsetName(id)];
        c.(objects := c.objects[IpsetName(id) := s.(members := s.members + Elements(added) - Elements(removed))])
      else c
    case IpsetRemove(id) => c.(objects := c.objects - {IpsetName(id)})
    case PolicyUpdate(policy, p) => c.(objects := WithPolicy(c.objects, policy, p, networks + {DEFAULT_NETWORK}))
    case PolicyRemove(policy) => c.(objects := c.objects - Instances(policy, networks))
    case ProfileUpdate(profile, i, o) => c.(objects := c.objects[ProfileName(profile) := Rules(i, o)])
    case ProfileRemove(profile) => c.(objects := c.objects - {ProfileName(profile)})
    case EndpointUpdate(ids, e) =>
      c.(endpoints := WithEndpoints(c.endpoints, ids, e))
    case EndpointRemove(id) =>
      if id in c.endpoints
      then c.(endpoints := map i | i in c.endpoints && i != id && !SameWorkload(i, id) :: c.endpoints[i])
      else c
  }

  function Fold(c: Content, ms: seq<Message>, networks: set<string>): Content {
    if ms == [] then c else Step(Fold(c, ms[..|ms| - 1], networks), ms[|ms| - 1], networks)
  }

  ghost predicate IsAbout(m: Message, policy: PolicyId) {
    (m.PolicyUpdate? || m.PolicyRemove?) && m.policy == policy
  }

  /** However many messages follow an update of a policy, as long as none is about that policy
      its instance in each network is what the update means there. */
  lemma {:induction false} LastUpdateStands(c: Content, ms: seq<Message>, k: nat, networks: set<string>, n: string)
    requires k < |ms| && ms[k].PolicyUpdate? && (n in networks || n == "")
    requires forall i :: k < i < |ms| ==> !IsAbout(ms[i], ms[k].policy)
    ensures
      var m, name := Fold(c, ms, networks).objects, PolicyName(ms[k].policy, n);
      name in m && InstanceOf(ms[k].proto, n, m[name])
  {
    var last := |ms| - 1;
    if k == last {
      InstanceIsThat(ms[k].proto, n);
    } else {
      LastUpdateStands(c, ms[..last], k, networks, n);
      assert !IsAbout(ms[last], ms[k].policy);
    }
  }

  /** A policy is there in all networks or in none. */
  ghost predicate Complete(c: Content, networks: set<string>) {
    forall p, n :: n in networks + {DEFAULT_NETWORK} && PolicyName(p, n) in c.objects ==>
      Instances(p, networks) <= c.objects.Keys
  }

  /** IP set names name IP sets, the others rules. */
  ghost predicate WellKinded(c: Content) {
    forall n :: n in c.objects ==> (n.IpsetName? <==> c.objects[n].Ipset?)
  }

  ghost predicate Good(c: Content, networks: set<string>) {
    Complete(c, networks) && WellKinded(c)
  }

  lemma StepGood(c: Content, m: Message, networks: set<string>)
    requires Good(c, networks)
    ensures Good(Step(c, m, networks), networks)
  {
    var d := Step(c, m, networks);
    forall p, n | n in networks + {DEFAULT_NETWORK} && PolicyName(p, n) in d.objects
      ensures Instances(p, networks) <= d.objects.Keys
    {
      if PolicyName(p, n) in c.objects {
        assert Instances(p, networks) <= c.objects.Keys;
      }
      assert PolicyName(p, n) in Instances(p, networks);
    }
  }

  lemma {:induction false} FoldAppend(c: Content, a: seq<Message>, b: seq<Message>, networks: set<string>)
    ensures Fold(c, a + b, networks) == Fold(Fold(c, a, networks), b, networks)
  {
    if b == [] {
      assert a + b == a;
    } else {
      var n := |b| - 1;
      FoldAppend(c, a, b[..n], networks);
      assert (a + b)[..|a + b| - 1] == a + b[..n] && (a + b)[|a + b| - 1] == b[n];
    }
  }

  /** Where InSync comes among the messages makes no difference. */
  lemma InSyncAnywhere(c: Content, a: seq<Message>, b: seq<Message>, networks: set<string>)
    ensures Fold(c, a + [InSync] + b, networks) == Fold(c, a + b, networks)
  {
    FoldAppend(c, a + [InSync], b, networks);
    FoldAppend(c, a, b, networks);
    assert (a + [InSync])[..|a|] == a;
  }

  // ----- Leftovers of an earlier connection -----

  function At(m: map<Name, Object>, n: Name): Option<Object> {
    if n in m then Some(m[n]) else None
  }

  /** The message says what is under the name, whatever was there. */
  predicate Decides(m: Message, n: Name, networks: set<string>) {
    match m
    case IpsetUpdate(id, _, _) => n == IpsetName(id)
    case IpsetRemove(id) => n == IpsetName(id)
    case PolicyUpdate(policy, _) => n in Instances(policy, networks)
    case PolicyRemove(policy) => n in Instances(policy, networks)
    case ProfileUpdate(profile, _, _) => n == ProfileName(profile)
    case ProfileRemove(profile) => n == ProfileName(profile)
    case _ => false
  }

  /** One of the messages rewrites or removes the name. */
  predicate Decided(ms: seq<Message>, n: Name, networks: set<string>) {
    ms != [] && (Decides(ms[|ms| - 1], n, networks) || Decided(ms[..|ms| - 1], n, networks))
  }

  lemma StepAt(c: Content, d: Content, m: Message, n: Name, networks: set<string>)
    ensures Decides(m, n, networks) || At(c.objects, n) == At(d.objects, n) ==>
              At(Step(c, m, networks).objects, n) == At(Step(d, m, networks).objects, n)
    ensures !Decides(m, n, networks) ==> (n in Step(c, m, networks).objects <==> n in c.objects)
  {
    if m.PolicyUpdate? {
      PolicyAt(c.objects, m.policy, m.proto, n, networks);
      PolicyAt(d.objects, m.policy, m.proto, n, networks);
    }
  }

  lemma PolicyAt(m: map<Name, Object>, policy: PolicyId, p: ProtoPolicy, n: Name, networks: set<string>)
    ensures At(WithPolicy(m, policy, p, networks + {DEFAULT_NETWORK}), n) ==
            if n in Instances(policy, networks) then Some(Instance(p, n.network)) else At(m, n)
  {
  }

  /** A name that is decided ends the same from anywhere; one that is not stays there if it
      was left over, and is not there otherwise. */
  lemma {:induction false} LeftoverName(left: Content, ms: seq<Message>, n: Name, networks: set<string>)
    ensures Decided(ms, n, networks) ==>
              At(Fold(left, ms, networks).objects, n) == At(Fold(EMPTY, ms, networks).objects, n)
    ensures !Decided(ms, n, networks) ==>
              (n in Fold(left, ms, networks).objects <==> n in left.objects) && n !in Fold(EMPTY, ms, networks).objects
  {
    if ms != [] {
      var k := |ms| - 1;
      LeftoverName(left, ms[..k], n, networks);
      StepAt(Fold(left, ms[..k], networks), Fold(EMPTY, ms[..k], networks), ms[k], n, networks);
      StepAt(Fold(EMPTY, ms[..k], networks), Fold(left, ms[..k], networks), ms[k], n, networks);
    }
  }

  /** The message updates the endpoint or removes its workload. */
  predicate Replaces(m: Message, i: EndpointId) {
    match m
    case EndpointUpdate(ids, _) => i in ids
    case EndpointRemove(id) => i == id || SameWorkload(i, id)
    case _ => false
  }

  predicate Replaced(ms: seq<Message>, i: EndpointId) {
    ms != [] && (Replaces(ms[|ms| - 1], i) || Replaced(ms[..|ms| - 1], i))
  }

  /** Only endpoints that these messages have announced are removed by them. */
  predicate Announced(ms: seq<Message>, networks: set<string>) {
    ms == [] ||
    (Announced(ms[..|ms| - 1], networks) &&
     (ms[|ms| - 1].EndpointRemove? ==> ms[|ms| - 1].endpointId in Fold(EMPTY, ms[..|ms| - 1], networks).endpoints))
  }

  /** An endpoint that is not replaced stays if it was left over; the others are the same. */
  ghost predicate LeftoverEndpoint(left: Content, ms: seq<Message>, i: EndpointId, networks: set<string>) {
    var after, anew := Fold(left, ms, networks).endpoints, Fold(EMPTY, ms, networks).endpoints;
    && (i in anew ==> i in after && after[i] == anew[i])
    && (i in after && i !in anew <==> i in left.endpoints && !Replaced(ms, i))
  }

  lemma {:induction false} LeftoverEndpoints(left: Content, ms: seq<Message>, i: EndpointId, networks: set<string>)
    requires Announced(ms, networks)
    ensures LeftoverEndpoint(left, ms, i, networks)
  {
    if ms != [] {
      var k := |ms| - 1;
      LeftoverEndpoints(left, ms[..k], i, networks);
      if ms[k].EndpointRemove? {
        LeftoverEndpoints(left, ms[..k], ms[k].endpointId, networks);
      }
    }
  }

  /** Starting from leftovers a sequence of messages ends where it ends starting from
      nothing if and only if every leftover name is rewritten or removed by the messages and
      every leftover endpoint updated or removed with its workload. */
  lemma LeftoversMatter(left: Content, ms: seq<Message>, networks: set<string>)
    requires Announced(ms, networks)
    ensures Fold(left, ms, networks) == Fold(EMPTY, ms, networks) <==>
            && (forall n :: n in left.objects ==> Decided(ms, n, networks))
            && (forall i :: i in left.endpoints ==> Replaced(ms, i))
  {
    LeftoverObjectsMatter(left, ms, networks);
    LeftoverEndpointsMatter(left, ms, networks);
  }

  /** For IP sets, policies and profiles this holds of any messages. */
  lemma LeftoverObjectsMatter(left: Content, ms: seq<Message>, networks: set<string>)
    ensures Fold(left, ms, networks).objects == Fold(EMPTY, ms, networks).objects <==>
            forall n :: n in left.objects ==> Decided(ms, n, networks)
  {
    var after, anew := Fold(left, ms, networks).objects, Fold(EMPTY, ms, networks).objects;
    if forall n :: n in left.objects ==> Decided(ms, n, networks) {
      forall n ensures At(after, n) == At(anew, n) {
        LeftoverName(left, ms, n, networks);
      }
      SameEverywhere(after, anew);
    } else {
      var n :| n in left.objects && !Decided(ms, n, networks);
      LeftoverName(left, ms, n, networks);
    }
  }

  lemma SameEverywhere(a: map<Name, Object>, b: map<Name, Object>)
    requires forall n :: At(a, n) == At(b, n)
    ensures a == b
  {
    forall n ensures (n in a <==> n in b) && (n in a ==> a[n] == b[n]) {
      assert At(a, n) == At(b, n);
    }
  }

  lemma LeftoverEndpointsMatter(left: Content, ms: seq<Message>, networks: set<string>)
    requires Announced(ms, networks)
    ensures Fold(left, ms, networks).endpoints == Fold(EMPTY, ms, networks).endpoints <==>
            forall i :: i in left.endpoints ==> Replaced(ms, i)
  {
    var after, anew := Fold(left, ms, networks).endpoints, Fold(EMPTY, ms, networks).endpoints;
    if forall i :: i in left.endpoints ==> Replaced(ms, i) {
      forall i ensures (i in after <==> i in anew) && (i in anew ==> after[i] == anew[i]) {
        LeftoverEndpoints(left, ms, i, networks);
      }
    } else {
      var i :| i in left.endpoints && !Replaced(ms, i);
      LeftoverEndpoints(left, ms, i, networks);
    }
  }

  /** After the message the two states agree about the endpoint: the message updates it, or
      removes its workload from both, or from one only while the other does not have it, or
      does not touch it and they agreed before. A removal touches the workload in a state
      that has the endpoint it names. */
  predicate StillAgreed(a: map<EndpointId, Endpoint>, b: map<EndpointId, Endpoint>, m: Message, i: EndpointId,
                        before: bool)
  {
    match m
    case EndpointUpdate(ids, _) => i in ids || before
    case EndpointRemove(id) =>
      if i != id && !SameWorkload(i, id) then before
      else if id in a && id in b then true
      else if id in a then i !in b
      else if id in b then i !in a
      else before
    case _ => before
  }

  /** Over leftovers and over nothing the messages agree about the endpoint; before any
      message they do unless it is left over. */
  predicate Agreed(left: Content, ms: seq<Message>, i: EndpointId, networks: set<string>) {
    if ms == [] then i !in left.endpoints
    else
      var k := |ms| - 1;
      StillAgreed(Fold(left, ms[..k], networks).endpoints, Fold(EMPTY, ms[..k], networks).endpoints, ms[k], i,
                  Agreed(left, ms[..k], i, networks))
  }

  ghost predicate Alike(a: map<EndpointId, Endpoint>, b: map<EndpointId, Endpoint>, i: EndpointId) {
    i in a <==> i in b
  }

  ghost predicate SameWhereBoth(a: map<EndpointId, Endpoint>, b: map<EndpointId, Endpoint>, i: EndpointId) {
    i in a && i in b ==> a[i] == b[i]
  }

  lemma StillAgreedIff(c: Content, d: Content, m: Message, i: EndpointId, networks: set<string>)
    requires SameWhereBoth(c.endpoints, d.endpoints, i)
    ensures var e, f := Step(c, m, networks).endpoints, Step(d, m, networks).endpoints;
            && SameWhereBoth(e, f, i)
            && (Alike(e, f, i) <==> StillAgreed(c.endpoints, d.endpoints, m, i, Alike(c.endpoints, d.endpoints, i)))
  {
  }

  lemma {:induction false} AgreedIff(left: Content, ms: seq<Message>, i: EndpointId, networks: set<string>)
    ensures var a, b := Fold(left, ms, networks).endpoints, Fold(EMPTY, ms, networks).endpoints;
            SameWhereBoth(a, b, i) && (Agreed(left, ms, i, networks) <==> Alike(a, b, i))
  {
    if ms != [] {
      var k := |ms| - 1;
      AgreedIff(left, ms[..k], i, networks);
      StillAgreedIff(Fold(left, ms[..k], networks), Fold(EMPTY, ms[..k], networks), ms[k], i, networks);
    }
  }

  /** For any messages: starting from leftovers they end where they end starting from nothing
      if and only if every leftover name is rewritten or removed and every endpoint agreed on. */
  lemma LeftoversMatterAnyway(left: Content, ms: seq<Message>, networks: set<string>)
    ensures Fold(left, ms, networks) == Fold(EMPTY, ms, networks) <==>
            && (forall n :: n in left.objects ==> Decided(ms, n, networks))
            && (forall i :: Agreed(left, ms, i, networks))
  {
    LeftoverObjectsMatter(left, ms, networks);
    var a, b := Fold(left, ms, networks).endpoints, Fold(EMPTY, ms, networks).endpoints;
    if forall i :: Agreed(left, ms, i, networks) {
      forall i ensures (i in a <==> i in b) && (i in b ==> a[i] == b[i]) {
        AgreedIff(left, ms, i, networks);
      }
    } else {
      var i :| !Agreed(left, ms, i, networks);
      AgreedIff(left, ms, i, networks);
    }
  }

  /** Removing an endpoint that was not announced, but left over, takes an announced endpoint
      of the same workload with it. */
  lemma UnannouncedRemovalReachesFurther(a: EndpointId, b: EndpointId, e: Endpoint, networks: set<string>)
    requires a != b && SameWorkload(b, a)
    ensures var left := Content(map[], map[a := e]);
            var ms := [EndpointUpdate([b], e), EndpointRemove(a)];
            && !Announced(ms, networks) && Replaced(ms, a)
            && b in Fold(EMPTY, ms, networks).endpoints && b !in Fold(left, ms, networks).endpoints
  {
    var left := Content(map[], map[a := e]);
    var ms := [EndpointUpdate([b], e), EndpointRemove(a)];
    assert ms[..1] == [EndpointUpdate([b], e)] && ms[..1][..0] == [];
    assert b in [b] && a !in [b];
    assert Fold(EMPTY, ms[..1], networks).endpoints == WithEndpoints(map[], [b], e);
    assert Fold(left, ms[..1], networks).endpoints == WithEndpoints(map[a := e], [b], e);
  }

  /** An IP set left over from a connection lost while syncing is configured by the next
      connection even if that one never mentions it. */
  lemma LeftoverIsConfigured(networks: set<string>)
    ensures var left := Content(map[IpsetName("stale") := Ipset(IpSet.IP, {"10.0.0.1"})], map[]);
            Fold(left, [ConfigUpdate, InSync], networks) != Fold(EMPTY, [ConfigUpdate, InSync], networks)
  {
    var left := Content(map[IpsetName("stale") := Ipset(IpSet.IP, {"10.0.0.1"})], map[]);
    assert [ConfigUpdate, InSync][..1] == [ConfigUpdate];
    assert Fold(left, [ConfigUpdate], networks) == left && Fold(EMPTY, [ConfigUpdate], networks) == EMPTY;
    assert IpsetName("stale") in left.objects && IpsetName("stale") !in EMPTY.objects;
  }
}
