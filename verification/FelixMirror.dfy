/**
  How VPP mirrors the configured state: IP sets by the values their members denote,
  policies and profiles by their rules, each under an id of its own; and which messages
  are admitted, as a property of the messages alone.
 */
module FelixMirror {
  import opened Srv6Types
  import IpSet
  import opened FelixState

  datatype Phase = Disconnected | Connected | Syncing | Synced

  type Ids = map<Name, nat>

  // ----- Names and ids -----

  /** Each name has its id and each id its name. */
  ghost predicate Inverse(ids: Ids, owner: map<nat, Name>) {
    && (forall n :: n in ids ==> ids[n] in owner && owner[ids[n]] == n)
    && (forall i :: i in owner ==> owner[i] in ids && ids[owner[i]] == i)
  }

  /** Exactly these names have an id, each its own, and nothing else is there. */
  ghost predicate Linked(names: set<Name>, ids: Ids, there: set<nat>) {
    ids.Keys == names && exists owner :: Inverse(ids, owner) && owner.Keys == there
  }

  /** VPP has exactly these objects, each under its own id. */
  ghost predicate Mirrored<V>(objects: map<Name, V>, ids: Ids, vpp: map<nat, V>) {
    Linked(objects.Keys, ids, vpp.Keys) && forall n :: n in ids ==> vpp[ids[n]] == objects[n]
  }

  lemma LinkedCreate(names: set<Name>, ids: Ids, there: set<nat>, n: Name, id: nat)
    requires Linked(names, ids, there) && n !in names && id !in there
    ensures Linked(names + {n}, ids[n := id], there + {id})
  {
    var owner :| Inverse(ids, owner) && owner.Keys == there;
    assert Inverse(ids[n := id], owner[id := n]);
  }

  lemma LinkedDelete(names: set<Name>, ids: Ids, there: set<nat>, n: Name)
    requires Linked(names, ids, there) && n in names
    ensures ids[n] in there && Linked(names - {n}, ids - {n}, there - {ids[n]})
  {
    var owner :| Inverse(ids, owner) && owner.Keys == there;
    assert Inverse(ids - {n}, owner - {ids[n]});
  }

  lemma MirroredCreate<V>(objects: map<Name, V>, ids: Ids, vpp: map<nat, V>, n: Name, o: V, id: nat)
    requires Mirrored(objects, ids, vpp) && n !in objects && id !in vpp
    ensures Mirrored(objects[n := o], ids[n := id], vpp[id := o])
  {
    LinkedCreate(objects.Keys, ids, vpp.Keys, n, id);
    assert objects[n := o].Keys == objects.Keys + {n} && vpp[id := o].Keys == vpp.Keys + {id};
  }

  /** Changing one object keeps the mirror exactly if VPP got the new object. */
  lemma MirroredUpdate<V>(objects: map<Name, V>, ids: Ids, vpp: map<nat, V>, n: Name, o: V, o': V)
    requires Mirrored(objects, ids, vpp) && n in objects
    ensures Mirrored(objects[n := o], ids, vpp[ids[n] := o']) <==> o == o'
  {
    assert objects[n := o].Keys == objects.Keys && vpp[ids[n] := o'].Keys == vpp.Keys;
  }

  lemma MirroredDelete<V>(objects: map<Name, V>, ids: Ids, vpp: map<nat, V>, n: Name)
    requires Mirrored(objects, ids, vpp) && n in objects
    ensures Mirrored(objects - {n}, ids - {n}, vpp - {ids[n]})
  {
    LinkedDelete(objects.Keys, ids, vpp.Keys, n);
    assert (objects - {n}).Keys == objects.Keys - {n} && (vpp - {ids[n]}).Keys == vpp.Keys - {ids[n]};
  }

  // ----- What of the state is where in VPP -----

  function SetNames(m: map<Name, Object>): set<Name> {
    set n | n in m && m[n].Ipset?
  }

  function RuleNames(m: map<Name, Object>): set<Name> {
    set n | n in m && m[n].Rules?
  }

  /** The values the members of each IP set denote. */
  function SetValues(parse: IpSet.Parser, m: map<Name, Object>): map<Name, set<IpSet.Value>> {
    map n | n in m && m[n].Ipset? :: IpSet.Denoted(parse, m[n].kind, m[n].members)
  }

  function RuleObjects(m: map<Name, Object>): map<Name, Object> {
    map n | n in m && m[n].Rules? :: m[n]
  }

  /** Entering or changing one object leaves the other kind alone. */
  lemma Entered(parse: IpSet.Parser, m: map<Name, Object>, n: Name, o: Object)
    requires n in m ==> (m[n].Ipset? <==> o.Ipset?)
    ensures o.Ipset? ==>
              && SetValues(parse, m[n := o]) == SetValues(parse, m)[n := IpSet.Denoted(parse, o.kind, o.members)]
              && RuleObjects(m[n := o]) == RuleObjects(m)
    ensures o.Rules? ==>
              RuleObjects(m[n := o]) == RuleObjects(m)[n := o] && SetValues(parse, m[n := o]) == SetValues(parse, m)
  {
  }

  lemma Gone(parse: IpSet.Parser, m: map<Name, Object>, n: Name)
    ensures SetValues(parse, m - {n}) == SetValues(parse, m) - {n} && RuleObjects(m - {n}) == RuleObjects(m) - {n}
  {
  }

  /** The server and VPP at one moment. */
  datatype Snapshot = Snapshot(phase: Phase, pending: Content, configured: Content, setIds: Ids, ruleIds: Ids,
                               sets: map<nat, set<IpSet.Value>>, rules: map<nat, Object>) {
    function Current(): Content {
      if phase.Synced? then configured else pending
    }

    /** VPP has objects for exactly what is configured. */
    ghost predicate Wired() {
      && Linked(SetNames(configured.objects), setIds, sets.Keys)
      && Linked(RuleNames(configured.objects), ruleIds, rules.Keys)
    }

    /** Every object in VPP has its id recorded under one name, and every id its object; a
        configured name may have none. */
    ghost predicate Tied() {
      Linked(setIds.Keys, setIds, sets.Keys) && Linked(ruleIds.Keys, ruleIds, rules.Keys)
    }

    /** VPP has exactly what is configured. */
    ghost predicate InVpp(parse: IpSet.Parser) {
      && Mirrored(SetValues(parse, configured.objects), setIds, sets)
      && Mirrored(RuleObjects(configured.objects), ruleIds, rules)
    }
  }

  lemma InVppIsWired(s: Snapshot, parse: IpSet.Parser)
    requires s.InVpp(parse)
    ensures s.Wired()
  {
    assert SetValues(parse, s.configured.objects).Keys == SetNames(s.configured.objects);
    assert RuleObjects(s.configured.objects).Keys == RuleNames(s.configured.objects);
  }

  // ----- One object changes -----

  function WithObject(c: Content, n: Name, o: Object): Content {
    c.(objects := c.objects[n := o])
  }

  function WithoutObject(c: Content, n: Name): Content {
    c.(objects := c.objects - {n})
  }

  /** A set is created, or its values in VPP changed, along with the record. */
  function SetWritten(a: Snapshot, n: Name, o: Object, id: nat, values: set<IpSet.Value>): Snapshot {
    a.(configured := WithObject(a.configured, n, o), setIds := a.setIds[n := id], sets := a.sets[id := values])
  }

  ghost predicate SetWritable(a: Snapshot, n: Name, o: Object, id: nat) {
    && o.Ipset? && (n in a.configured.objects ==> a.configured.objects[n].Ipset?)
    && if n in a.configured.objects then n in a.setIds && id == a.setIds[n] else id !in a.sets
  }

  lemma SetStaysWired(a: Snapshot, n: Name, o: Object, id: nat, values: set<IpSet.Value>)
    requires SetWritable(a, n, o, id) && a.Wired()
    ensures SetWritten(a, n, o, id, values).Wired()
  {
    var m := a.configured.objects;
    assert SetNames(m[n := o]) == SetNames(m) + {n} && RuleNames(m[n := o]) == RuleNames(m);
    assert a.sets[id := values].Keys == a.sets.Keys + {id};
    if n in m {
      assert a.setIds[n := id] == a.setIds && a.sets.Keys + {id} == a.sets.Keys && SetNames(m) + {n} == SetNames(m);
    } else {
      LinkedCreate(SetNames(m), a.setIds, a.sets.Keys, n, id);
    }
  }

  /** VPP goes on mirroring the record exactly if it got the values the members denote. */
  lemma SetStaysMirrored(a: Snapshot, n: Name, o: Object, id: nat, values: set<IpSet.Value>, parse: IpSet.Parser)
    requires SetWritable(a, n, o, id) && a.InVpp(parse)
    ensures SetWritten(a, n, o, id, values).InVpp(parse) <==> values == IpSet.Denoted(parse, o.kind, o.members)
  {
    var m, d := a.configured.objects, IpSet.Denoted(parse, o.kind, o.members);
    Entered(parse, m, n, o);
    if n in m {
      assert a.setIds[n := id] == a.setIds;
      MirroredUpdate(SetValues(parse, m), a.setIds, a.sets, n, d, values);
    } else {
      MirroredCreateIff(SetValues(parse, m), a.setIds, a.sets, n, d, id, values);
    }
  }

  lemma MirroredCreateIff<V>(objects: map<Name, V>, ids: Ids, vpp: map<nat, V>, n: Name, o: V, id: nat, o': V)
    requires Mirrored(objects, ids, vpp) && n !in objects && id !in vpp
    ensures Mirrored(objects[n := o], ids[n := id], vpp[id := o']) <==> o == o'
  {
    MirroredCreate(objects, ids, vpp, n, o', id);
    var ids' := ids[n := id];
    assert ids'[n] == id;
  }

  function RulesWritten(a: Snapshot, n: Name, o: Object, id: nat): Snapshot {
    a.(configured := WithObject(a.configured, n, o), ruleIds := a.ruleIds[n := id], rules := a.rules[id := o])
  }

  ghost predicate RulesWritable(a: Snapshot, n: Name, o: Object, id: nat) {
    && o.Rules? && (n in a.configured.objects ==> a.configured.objects[n].Rules?)
    && if n in a.configured.objects then n in a.ruleIds && id == a.ruleIds[n] else id !in a.rules
  }

  lemma RulesStayWired(a: Snapshot, n: Name, o: Object, id: nat)
    requires RulesWritable(a, n, o, id) && a.Wired()
    ensures RulesWritten(a, n, o, id).Wired()
  {
    var m := a.configured.objects;
    assert RuleNames(m[n := o]) == RuleNames(m) + {n} && SetNames(m[n := o]) == SetNames(m);
    assert a.rules[id := o].Keys == a.rules.Keys + {id};
    if n in m {
      assert a.ruleIds[n := id] == a.ruleIds && a.rules.Keys + {id} == a.rules.Keys &&
             RuleNames(m) + {n} == RuleNames(m);
    } else {
      LinkedCreate(RuleNames(m), a.ruleIds, a.rules.Keys, n, id);
    }
  }

  lemma RulesStayMirrored(a: Snapshot, n: Name, o: Object, id: nat, parse: IpSet.Parser)
    requires RulesWritable(a, n, o, id) && a.InVpp(parse)
    ensures RulesWritten(a, n, o, id).InVpp(parse)
  {
    var m := a.configured.objects;
    Entered(parse, m, n, o);
    if n in m {
      assert a.ruleIds[n := id] == a.ruleIds;
      MirroredUpdate(RuleObjects(m), a.ruleIds, a.rules, n, o, o);
    } else {
      MirroredCreate(RuleObjects(m), a.ruleIds, a.rules, n, o, id);
    }
  }

  lemma SetDropped(a: Snapshot, n: Name, parse: IpSet.Parser)
    requires n in a.configured.objects && a.configured.objects[n].Ipset? && n in a.setIds
    ensures var b := a.(configured := WithoutObject(a.configured, n), setIds := a.setIds - {n},
                        sets := a.sets - {a.setIds[n]});
            (a.Wired() ==> b.Wired()) && (a.InVpp(parse) ==> b.InVpp(parse))
  {
    var m := a.configured.objects;
    Gone(parse, m, n);
    assert SetNames(m - {n}) == SetNames(m) - {n} && RuleNames(m - {n}) == RuleNames(m);
    assert (a.sets - {a.setIds[n]}).Keys == a.sets.Keys - {a.setIds[n]} && RuleObjects(m) - {n} == RuleObjects(m);
    if a.Wired() { LinkedDelete(SetNames(m), a.setIds, a.sets.Keys, n); }
    if a.InVpp(parse) { MirroredDelete(SetValues(parse, m), a.setIds, a.sets, n); }
  }

  lemma RulesDropped(a: Snapshot, n: Name, parse: IpSet.Parser)
    requires n in a.configured.objects && a.configured.objects[n].Rules? && n in a.ruleIds
    ensures var b := a.(configured := WithoutObject(a.configured, n), ruleIds := a.ruleIds - {n},
                        rules := a.rules - {a.ruleIds[n]});
            (a.Wired() ==> b.Wired()) && (a.InVpp(parse) ==> b.InVpp(parse))
  {
    var m := a.configured.objects;
    Gone(parse, m, n);
    assert RuleNames(m - {n}) == RuleNames(m) - {n} && SetNames(m - {n}) == SetNames(m);
    assert (a.rules - {a.ruleIds[n]}).Keys == a.rules.Keys - {a.ruleIds[n]} &&
           SetValues(parse, m) - {n} == SetValues(parse, m);
    if a.Wired() { LinkedDelete(RuleNames(m), a.ruleIds, a.rules.Keys, n); }
    if a.InVpp(parse) { MirroredDelete(RuleObjects(m), a.ruleIds, a.rules, n); }
  }

  // ----- Which messages succeed -----

  /** What decides about messages besides the state. */
  datatype Env = Env(networks: set<string>, parse: IpSet.Parser, interfaces: set<EndpointId>)

  /** The IP sets that rules mention. */
  function Mentioned(rules: seq<Rule>): set<Name> {
    set i, j | 0 <= i < |rules| && 0 <= j < |rules[i].ipsets| :: IpsetName(rules[i].ipsets[j])
  }

  function Needs(o: Object): set<Name> {
    match o
    case Ipset(_, _) => {}
    case Rules(i, out) => Mentioned(i) + Mentioned(out)
  }

  /** The policies of its network and the profiles that an endpoint mentions. */
  function EndpointNeeds(e: Endpoint, network: string): set<Name> {
    (set p | p in e.ingress :: PolicyName(p, network)) +
    (set p | p in e.egress :: PolicyName(p, network)) +
    (set p | p in e.profiles :: ProfileName(p))
  }

  /** Every IP set that an inbound or outbound rule mentions is among these. */
  ghost predicate SetsThere(o: Object, names: set<Name>) {
    o.Rules? ==> forall r, x :: (r in o.inbound || r in o.outbound) && x in r.ipsets ==> IpsetName(x) in names
  }

  lemma NeedsIff(o: Object, names: set<Name>)
    ensures Needs(o) <= names <==> SetsThere(o, names)
  {
    if o.Rules? {
      if Needs(o) <= names {
        forall r, x | (r in o.inbound || r in o.outbound) && x in r.ipsets ensures IpsetName(x) in names {
          MentionedIs(o.inbound, r, x);
          MentionedIs(o.outbound, r, x);
        }
      }
      if SetsThere(o, names) {
        forall n | n in Needs(o) ensures n in names {
          var rules := if n in Mentioned(o.inbound) then o.inbound else o.outbound;
          var i, j :| 0 <= i < |rules| && 0 <= j < |rules[i].ipsets| && n == IpsetName(rules[i].ipsets[j]);
          assert rules[i] in rules && rules[i].ipsets[j] in rules[i].ipsets;
        }
      }
    }
  }

  lemma MentionedIs(rules: seq<Rule>, r: Rule, x: string)
    ensures r in rules && x in r.ipsets ==> IpsetName(x) in Mentioned(rules)
  {
    if r in rules && x in r.ipsets {
      var i :| 0 <= i < |rules| && rules[i] == r;
      var j :| 0 <= j < |r.ipsets| && r.ipsets[j] == x;
      assert IpsetName(rules[i].ipsets[j]) in Mentioned(rules);
    }
  }

  /** The policies of the network and the profiles that the endpoint mentions are among these. */
  ghost predicate MentionsThere(e: Endpoint, network: string, names: set<Name>) {
    && (forall p :: p in e.ingress || p in e.egress ==> PolicyName(p, network) in names)
    && (forall p :: p in e.profiles ==> ProfileName(p) in names)
  }

  lemma EndpointNeedsIff(e: Endpoint, network: string, names: set<Name>)
    ensures EndpointNeeds(e, network) <= names <==> MentionsThere(e, network, names)
  {
    if EndpointNeeds(e, network) <= names {
      forall p | p in e.ingress || p in e.egress ensures PolicyName(p, network) in names {
        assert PolicyName(p, network) in EndpointNeeds(e, network);
      }
      forall p | p in e.profiles ensures ProfileName(p) in names {
        assert ProfileName(p) in EndpointNeeds(e, network);
      }
    }
  }

  /** The IP sets that the policy mentions in any network are there. */
  ghost predicate PolicyResolved(p: ProtoPolicy, networks: set<string>, there: map<Name, Object>) {
    forall n :: n in networks + {DEFAULT_NETWORK} ==> Needs(Instance(p, n)) <= there.Keys
  }

  /** Every IP set that a rule mentions is there. */
  ghost predicate RulesResolved(c: Content) {
    forall n :: n in c.objects ==> Needs(c.objects[n]) <= c.objects.Keys
  }

  ghost predicate EndpointsResolved(c: Content, interfaces: set<EndpointId>) {
    forall i :: i in c.endpoints && i in interfaces ==> EndpointNeeds(c.endpoints[i], i.network) <= c.objects.Keys
  }

  /** The messages that do not fail when VPP does not: members parse, kinds agree, a delta
      has its set, and once synced whatever is mentioned is there. */
  ghost predicate Accepts(env: Env, synced: bool, c: Content, m: Message) {
    match m
    case IpsetUpdate(id, kind, members) =>
      IpSet.AllParse(env.parse, kind, members) &&
      (IpsetName(id) in c.objects && c.objects[IpsetName(id)].Ipset? ==> c.objects[IpsetName(id)].kind == kind)
    case IpsetDelta(id, added, removed) =>
      IpsetName(id) in c.objects && c.objects[IpsetName(id)].Ipset? &&
      IpSet.AllParse(env.parse, c.objects[IpsetName(id)].kind, added) &&
      IpSet.AllParse(env.parse, c.objects[IpsetName(id)].kind, removed)
    case PolicyUpdate(_, p) => synced ==> PolicyResolved(p, env.networks, c.objects)
    case ProfileUpdate(_, i, o) => synced ==> Needs(Rules(i, o)) <= c.objects.Keys
    case EndpointUpdate(ids, e) =>
      synced ==> forall i :: i in ids && i in env.interfaces ==> EndpointNeeds(e, i.network) <= c.objects.Keys
    case _ => true
  }

  /** When VPP does not fail, a message succeeds exactly if it is in phase and accepted. */
  ghost predicate Admits(env: Env, phase: Phase, c: Content, m: Message) {
    match m
    case ConfigUpdate => phase.Connected?
    case InSync => phase.Syncing? && RulesResolved(c) && EndpointsResolved(c, env.interfaces)
    case _ => (phase.Syncing? || phase.Synced?) && Accepts(env, phase.Synced?, c, m)
  }

  /** The phase after a message that was admitted. */
  function Next(phase: Phase, m: Message): Phase {
    match m
    case ConfigUpdate => Syncing
    case InSync => Synced
    case _ => phase
  }

  function PhaseAfter(phase: Phase, ms: seq<Message>): Phase {
    if ms == [] then phase else Next(PhaseAfter(phase, ms[..|ms| - 1]), ms[|ms| - 1])
  }

  /** Every message is admitted where the ones before it lead. */
  ghost predicate Admissible(env: Env, phase: Phase, c: Content, ms: seq<Message>) {
    ms == [] ||
    var front := ms[..|ms| - 1];
    && Admissible(env, phase, c, front)
    && Admits(env, PhaseAfter(phase, front), Fold(c, front, env.networks), ms[|ms| - 1])
  }

  lemma AdmissibleSoFar(env: Env, phase: Phase, c: Content, ms: seq<Message>, i: nat)
    requires i < |ms| && Admissible(env, phase, c, ms)
    ensures Admissible(env, phase, c, ms[..i])
    ensures Admits(env, PhaseAfter(phase, ms[..i]), Fold(c, ms[..i], env.networks), ms[i])
    decreases |ms|
  {
    var n := |ms| - 1;
    if i < n {
      AdmissibleSoFar(env, phase, c, ms[..n], i);
      assert ms[..n][..i] == ms[..i];
    }
  }

  // ----- Which messages VPP can follow -----

  /** The values VPP is told to drop are denoted by no member that stays, or come back with
      the new members. */
  ghost predicate Faithful(parse: IpSet.Parser, c: Content, m: Message) {
    match m
    case IpsetUpdate(id, kind, members) =>
      IpsetName(id) in c.objects && c.objects[IpsetName(id)].Ipset? ==>
        IpSet.Recovered(parse, kind, c.objects[IpsetName(id)].members, Elements(members))
    case IpsetDelta(id, added, removed) =>
      IpsetName(id) in c.objects && c.objects[IpsetName(id)].Ipset? ==>
        var s := c.objects[IpsetName(id)];
        IpSet.NoneDenotes(parse, s.kind, s.members + Elements(added) - Elements(removed), removed)
    case _ => true
  }

  /** Of these messages, those that come once synced are faithful. */
  ghost predicate AllFaithful(env: Env, phase: Phase, c: Content, ms: seq<Message>) {
    ms == [] ||
    var front := ms[..|ms| - 1];
    && AllFaithful(env, phase, c, front)
    && (PhaseAfter(phase, front).Synced? ==> Faithful(env.parse, Fold(c, front, env.networks), ms[|ms| - 1]))
  }

  lemma FaithfulSoFar(env: Env, phase: Phase, c: Content, ms: seq<Message>, i: nat)
    requires i < |ms| && AllFaithful(env, phase, c, ms)
    ensures AllFaithful(env, phase, c, ms[..i])
    ensures PhaseAfter(phase, ms[..i]).Synced? ==> Faithful(env.parse, Fold(c, ms[..i], env.networks), ms[i])
    decreases |ms|
  {
    var n := |ms| - 1;
    if i < n {
      FaithfulSoFar(env, phase, c, ms[..n], i);
      assert ms[..n][..i] == ms[..i];
    }
  }

  /** Where no two member strings denote the same value every message is faithful. */
  lemma OneNamePerValue(parse: IpSet.Parser, c: Content, m: Message)
    requires forall kind, a, b :: parse(kind, a).Some? && parse(kind, a) == parse(kind, b) ==> a == b
    requires m.IpsetDelta? && IpsetName(m.id) in c.objects && c.objects[IpsetName(m.id)].Ipset? ==>
               var s := c.objects[IpsetName(m.id)];
               forall x :: x in s.members + Elements(m.added) ==> parse(s.kind, x).Some?
    ensures Faithful(parse, c, m)
  {
    if m.IpsetDelta? && IpsetName(m.id) in c.objects && c.objects[IpsetName(m.id)].Ipset? {
      var s := c.objects[IpsetName(m.id)];
      var stay := s.members + Elements(m.added) - Elements(m.removed);
      forall a, b | a in stay && b in m.removed ensures parse(s.kind, a) != parse(s.kind, b) {
        assert a in s.members + Elements(m.added) && b in Elements(m.removed);
      }
    }
  }

  /** A delta that removes one of two spellings of an address is not faithful: VPP loses the
      address though the other spelling is still a member. */
  lemma AliasDeltaIsUnfaithful(parse: IpSet.Parser, v: IpSet.Value)
    requires parse(IpSet.IP, "10.0.0.1") == Some(v) == parse(IpSet.IP, "::ffff:10.0.0.1")
    ensures var c := Content(map[IpsetName("s") := Ipset(IpSet.IP, {"10.0.0.1", "::ffff:10.0.0.1"})], map[]);
            !Faithful(parse, c, IpsetDelta("s", [], ["::ffff:10.0.0.1"]))
  {
    var members: set<string> := {"10.0.0.1", "::ffff:10.0.0.1"};
    assert |"10.0.0.1"| != |"::ffff:10.0.0.1"|;
    assert "10.0.0.1" in members + Elements([]) - Elements(["::ffff:10.0.0.1"]);
    assert "::ffff:10.0.0.1" in ["::ffff:10.0.0.1"];
  }
}
