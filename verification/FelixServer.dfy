/**
  The server that receives Felix's messages. While syncing they go to a pending state that
  VPP does not see; InSync replaces the configured state by it, deleting all VPP objects
  and creating them anew; from then on each message changes both the configured state and
  VPP. An error ends the connection.
 */
module FelixServer {
  import opened Srv6Types
  import Environment
  import IpSet
  import opened FelixState
  import opened FelixMirror

  /** Policies and profiles in VPP. */
  class Vpp {
    /** Every call succeeds that can. */
    const reliable: bool
    var rules: map<nat, Object>

    method Create(o: Object) returns (ok: bool, id: nat)
      modifies this
      ensures reliable ==> ok
      ensures ok ==> id !in old(rules) && rules == old(rules)[id := o]
      ensures !ok ==> rules == old(rules)
    {
      id := Environment.FreeId(rules.Keys);
      ok := Environment.Attempt(reliable);
      if ok { rules := rules[id := o]; }
    }

    method Update(id: nat, o: Object) returns (ok: bool)
      modifies this
      ensures reliable && id in old(rules) ==> ok
      ensures ok ==> id in old(rules) && rules == old(rules)[id := o]
      ensures !ok ==> rules == old(rules)
    {
      ok := Environment.Attempt(reliable);
      ok := ok && id in rules;
      if ok { rules := rules[id := o]; }
    }

    method Delete(id: nat) returns (ok: bool)
      modifies this
      ensures reliable && id in old(rules) ==> ok
      ensures ok ==> id in old(rules)
      ensures rules == if ok then old(rules) - {id} else old(rules)
    {
      ok := Environment.Attempt(reliable);
      ok := ok && id in rules;
      if ok { rules := rules - {id}; }
    }
  }

  class Server {
    const vpp: Vpp
    const sets: IpSet.Vpp
    const networks: set<string>
    const parse: IpSet.Parser

    var phase: Phase
    var pending: Content
    var configured: Content
    /** The VPP ids of the configured IP sets, and of the policies and profiles. */
    var setIds: Ids
    var ruleIds: Ids
    /** The endpoints whose interfaces are known. */
    var interfaces: set<EndpointId>

    constructor (vpp: Vpp, sets: IpSet.Vpp, networks: set<string>, parse: IpSet.Parser)
      ensures this.vpp == vpp && this.sets == sets && this.networks == networks && this.parse == parse
      ensures phase == Disconnected && pending == EMPTY && configured == EMPTY && setIds == map[] && ruleIds == map[] &&
              Valid()
    {
      this.vpp, this.sets, this.networks, this.parse := vpp, sets, networks, parse;
      phase, pending, configured, setIds, ruleIds, interfaces := Disconnected, EMPTY, EMPTY, map[], map[], {};
    }

    ghost predicate Valid()
      reads this`phase, this`pending, this`configured
    {
      Sound(parse, pending, networks) && (phase.Synced? ==> Sound(parse, configured, networks))
    }

    /** The state that messages change. */
    ghost function Current(): Content
      reads this`phase, this`pending, this`configured
    {
      if phase.Synced? then configured else pending
    }

    ghost function Now(): Snapshot
      reads this`phase, this`pending, this`configured, this`setIds, this`ruleIds, vpp`rules, sets`sets
    {
      Snapshot(phase, pending, configured, setIds, ruleIds, sets.sets, vpp.rules)
    }

    /** No call to VPP fails that can succeed, and its objects are those configured. */
    ghost predicate Smooth()
      reads this`phase, this`pending, this`configured, this`setIds, this`ruleIds, vpp`rules, sets`sets
    {
      vpp.reliable && sets.reliable && Now().Wired()
    }

    /** No call to VPP fails that can succeed, and none of its objects is lost track of. */
    ghost predicate Calm()
      reads this`phase, this`pending, this`configured, this`setIds, this`ruleIds, vpp`rules, sets`sets
    {
      vpp.reliable && sets.reliable && Now().Tied()
    }

    /** Between messages: once synced, VPP's objects are those configured. */
    ghost predicate Ready()
      reads this`phase, this`pending, this`configured, this`setIds, this`ruleIds, vpp`rules, sets`sets
    {
      Calm() && (phase.Synced? ==> Now().Wired())
    }

    ghost function Around(): Env
      reads this`interfaces
    {
      Env(networks, parse, interfaces)
    }

    // ----- IP sets -----

    /** The IP set object of a record. */
    method AsSet(o: Object, id: Option<nat>) returns (s: IpSet.IPSet)
      requires o.Ipset? && MembersParse(parse, o)
      ensures fresh(s) && s.parse == parse && s.kind == o.kind && s.id == id
      ensures s.members.Keys == o.members && IpSet.Parsed(parse, o.kind, s.members)
    {
      var members := map x | x in o.members :: parse(o.kind, x).value;
      s := new IpSet.IPSet(parse, o.kind, members);
      s.id := id;
    }

    method Enter(n: Name, o: Object)
      modifies this`pending, this`configured
      ensures Current() == WithObject(old(Current()), n, o)
      ensures if phase.Synced? then pending == old(pending) else configured == old(configured)
    {
      if phase.Synced? {
        configured := configured.(objects := configured.objects[n := o]);
      } else {
        pending := pending.(objects := pending.objects[n := o]);
      }
    }

    /** The object under a name in the state that messages change. */
    method Lookup(n: Name) returns (o: Option<Object>)
      ensures o.Some? <==> n in Current().objects
      ensures o.Some? ==> o.value == Current().objects[n]
    {
      var m := if phase.Synced? then configured.objects else pending.objects;
      o := if n in m then Some(m[n]) else None;
    }

    /** A full set replaces the members by difference, if the kinds agree. */
    method ReplaceSet(n: Name, o: Object, next: IpSet.IPSet) returns (ok: bool)
      requires phase.Syncing? || phase.Synced?
      requires n in Current().objects && Current().objects[n] == o && o.Ipset? && MembersParse(parse, o)
      requires next.parse == parse && IpSet.Parsed(parse, next.kind, next.members)
      modifies this`pending, this`configured, sets
      ensures phase.Syncing? ==>
                (ok <==> next.kind == o.kind) && sets.sets == old(sets.sets) && configured == old(configured)
      ensures phase.Synced? ==> pending == old(pending)
      ensures ok ==> next.kind == o.kind && Current() == WithObject(old(Current()), n, Ipset(o.kind, next.members.Keys))
      ensures !ok && phase.Syncing? ==> pending == old(pending)
      ensures phase.Synced? && ok ==>
                n in setIds && setIds[n] in old(sets.sets) && setIds[n] in sets.sets &&
                sets.sets == old(sets.sets)[setIds[n] := sets.sets[setIds[n]]]
      ensures phase.Synced? && ok && old(sets.sets)[setIds[n]] == IpSet.Denoted(parse, o.kind, o.members) ==>
                (sets.sets[setIds[n]] == IpSet.Denoted(parse, o.kind, next.members.Keys) <==>
                   IpSet.Recovered(parse, o.kind, o.members, next.members.Keys))
      ensures phase.Synced? && sets.reliable && n in setIds && setIds[n] in old(sets.sets) ==>
                (ok <==> next.kind == o.kind)
      ensures sets.sets.Keys == old(sets.sets).Keys
    {
      if phase.Synced? && (n !in setIds || setIds[n] !in sets.sets) { return false; }
      var s := AsSet(o, if phase.Synced? then Some(setIds[n]) else None);
      IpSet.ValuesAreDenoted(parse, o.kind, s.members);
      IpSet.ValuesAreDenoted(parse, next.kind, next.members);
      ok := s.ReplaceMembers(next, phase.Synced?, sets);
      Enter(n, o.(members := s.members.Keys));
      assert !ok && phase.Syncing? ==> pending.objects == old(pending).objects;
    }

    /** Enters a new set; once synced it is created and filled in VPP first. */
    method CreateSet(n: Name, next: IpSet.IPSet) returns (ok: bool)
      requires (phase.Syncing? || phase.Synced?) && IpSet.Parsed(parse, next.kind, next.members)
      modifies this`pending, this`configured, this`setIds, sets, next
      ensures phase.Syncing? ==>
                ok && sets.sets == old(sets.sets) && configured == old(configured) && setIds == old(setIds)
      ensures phase.Synced? ==> pending == old(pending) && (sets.reliable ==> ok)
      ensures ok ==> Current() == WithObject(old(Current()), n, Ipset(next.kind, old(next.members).Keys))
      ensures phase.Synced? && ok ==>
                && n in setIds && setIds == old(setIds)[n := setIds[n]] && setIds[n] !in old(sets.sets)
                && sets.sets == old(sets.sets)[setIds[n] := IpSet.Denoted(parse, next.kind, old(next.members).Keys)]
    {
      IpSet.ValuesAreDenoted(parse, next.kind, next.members);
      ok := true;
      if phase.Synced? {
        ok := next.Create(sets);
        if !ok { return; }
        setIds := setIds[n := next.id.value];
      }
      Enter(n, Ipset(next.kind, next.members.Keys));
    }

    method IpsetUpdated(id: string, kind: IpSet.Kind, members: seq<string>) returns (ok: bool)
      requires (phase.Syncing? || phase.Synced?) && Sound(parse, Current(), networks)
      modifies this`pending, this`configured, this`setIds, sets
      ensures Outcome(ok, IpsetUpdate(id, kind, members), networks, parse, old(Now()), Now())
      ensures !ok && phase.Syncing? ==> pending == old(pending)
      ensures phase.Syncing? || old(Smooth()) ==>
                (ok <==> Accepts(Around(), phase.Synced?, old(Current()), IpsetUpdate(id, kind, members)))
      ensures old(Smooth()) ==> Now().Tied()
    {
      var parsed := IpSet.ParseArray(parse, kind, members);
      if parsed.None? { return false; }
      var n := IpsetName(id);
      var next := new IpSet.IPSet(parse, kind, parsed.value);
      var existing := Lookup(n);
      ghost var o := Ipset(kind, Elements(members));
      if existing.Some? {
        ok := ReplaceSet(n, existing.value, next);
      } else {
        ok := CreateSet(n, next);
      }
      if ok && phase.Synced? {
        var i := setIds[n];
        assert Now() == SetWritten(old(Now()), n, o, i, sets.sets[i]);
        SetOutcome(old(Now()), n, o, i, sets.sets[i], parse);
      }
    }

    /** Adds members to a set, then removes members. */
    method ChangeSet(n: Name, o: Object, added: seq<string>, removed: seq<string>) returns (ok: bool)
      requires phase.Syncing? || phase.Synced?
      requires n in Current().objects && Current().objects[n] == o && o.Ipset? && MembersParse(parse, o)
      modifies this`pending, this`configured, sets
      ensures phase.Syncing? ==> sets.sets == old(sets.sets) && configured == old(configured)
      ensures phase.Synced? ==> pending == old(pending)
      ensures ok ==> IpSet.AllParse(parse, o.kind, added) && IpSet.AllParse(parse, o.kind, removed)
      ensures ok ==>
                Current() ==
                WithObject(old(Current()), n, Ipset(o.kind, o.members + Elements(added) - Elements(removed)))
      ensures !ok ==>
                || Current() == old(Current())
                || (IpSet.AllParse(parse, o.kind, added) &&
                    Current() == WithObject(old(Current()), n, Ipset(o.kind, o.members + Elements(added))))
      ensures phase.Synced? && ok ==>
                n in setIds && setIds[n] in old(sets.sets) && setIds[n] in sets.sets &&
                sets.sets == old(sets.sets)[setIds[n] := sets.sets[setIds[n]]]
      ensures phase.Synced? && ok && old(sets.sets)[setIds[n]] == IpSet.Denoted(parse, o.kind, o.members) ==>
                var members := o.members + Elements(added) - Elements(removed);
                (sets.sets[setIds[n]] == IpSet.Denoted(parse, o.kind, members) <==>
                   IpSet.NoneDenotes(parse, o.kind, members, removed))
      ensures (phase.Synced? ==> sets.reliable && n in setIds && setIds[n] in old(sets.sets)) ==>
                (ok <==> IpSet.AllParse(parse, o.kind, added) && IpSet.AllParse(parse, o.kind, removed))
      ensures sets.sets.Keys == old(sets.sets).Keys
    {
      if phase.Synced? && (n !in setIds || setIds[n] !in sets.sets) { return false; }
      var s := AsSet(o, if phase.Synced? then Some(setIds[n]) else None);
      IpSet.ValuesAreDenoted(parse, o.kind, s.members);
      ok := s.AddMembers(added, phase.Synced?, sets);
      if !ok { return; }
      ok := s.RemoveMembers(removed, phase.Synced?, sets);
      IpSet.ValuesAreDenoted(parse, o.kind, s.members);
      assert s.members.Keys == if ok then o.members + Elements(added) - Elements(removed)
                               else o.members + Elements(added);
      Enter(n, o.(members := s.members.Keys));
    }

    /** A delta adds first and then removes. */
    method IpsetChanged(id: string, added: seq<string>, removed: seq<string>) returns (ok: bool)
      requires (phase.Syncing? || phase.Synced?) && Sound(parse, Current(), networks)
      modifies this`pending, this`configured, sets
      ensures Outcome(ok, IpsetDelta(id, added, removed), networks, parse, old(Now()), Now())
      ensures phase.Syncing? ==> Sound(parse, pending, networks)
      ensures phase.Syncing? || old(Smooth()) ==>
                (ok <==> Accepts(Around(), phase.Synced?, old(Current()), IpsetDelta(id, added, removed)))
      ensures old(Smooth()) ==> Now().Tied()
    {
      var n := IpsetName(id);
      var existing := Lookup(n);
      if existing.None? { return false; }
      ghost var o := existing.value;
      ok := ChangeSet(n, existing.value, added, removed);
      SameNamesSound(parse, old(Current()), n, o.members + Elements(added), networks);
      if ok {
        ghost var o' := Ipset(o.kind, o.members + Elements(added) - Elements(removed));
        SameNamesSound(parse, old(Current()), n, o'.members, networks);
        if phase.Synced? {
          var i := setIds[n];
          assert Now() == SetWritten(old(Now()), n, o', i, sets.sets[i]);
          SetOutcome(old(Now()), n, o', i, sets.sets[i], parse);
        }
      }
    }

    /** Removes an IP set; one that is not there is none of its business. */
    method IpsetRemoved(id: string) returns (ok: bool)
      requires (phase.Syncing? || phase.Synced?) && WellKinded(Current())
      modifies this`pending, this`configured, this`setIds, sets
      ensures Outcome(ok, IpsetRemove(id), networks, parse, old(Now()), Now())
      ensures phase.Syncing? || old(Smooth()) ==> ok
      ensures old(Smooth()) ==> Now().Tied()
    {
      var n := IpsetName(id);
      var existing := Lookup(n);
      if existing.None? {
        assert Current().objects - {n} == Current().objects;
        return true;
      }
      if phase.Syncing? {
        pending := pending.(objects := pending.objects - {n});
        return true;
      }
      if n !in setIds { return false; }
      ok := sets.Delete(setIds[n]);
      if !ok { return; }
      SetDropped(old(Now()), n, parse);
      configured, setIds := configured.(objects := configured.objects - {n}), setIds - {n};
    }

    // ----- Policies and profiles -----

    /** Creates rules in VPP; the IP sets they mention must be there. */
    method CreateRules(n: Name, o: Object) returns (ok: bool)
      modifies this`ruleIds, vpp
      ensures ok ==>
                && Needs(o) <= setIds.Keys && n in ruleIds && ruleIds == old(ruleIds)[n := ruleIds[n]]
                && ruleIds[n] !in old(vpp.rules) && vpp.rules == old(vpp.rules)[ruleIds[n] := o]
      ensures !ok ==> ruleIds == old(ruleIds) && vpp.rules == old(vpp.rules)
      ensures vpp.reliable && Needs(o) <= setIds.Keys ==> ok
      ensures (ok ==> SetsThere(o, setIds.Keys)) && (vpp.reliable && SetsThere(o, setIds.Keys) ==> ok)
    {
      NeedsIff(o, setIds.Keys);
      if !(Needs(o) <= setIds.Keys) { return false; }
      var id;
      ok, id := vpp.Create(o);
      if ok { ruleIds := ruleIds[n := id]; }
    }

    method UpdateRules(n: Name, o: Object) returns (ok: bool)
      modifies vpp
      ensures ok ==> Needs(o) <= setIds.Keys && n in ruleIds && vpp.rules == old(vpp.rules)[ruleIds[n] := o]
      ensures !ok ==> vpp.rules == old(vpp.rules)
      ensures vpp.reliable && n in ruleIds && ruleIds[n] in old(vpp.rules) && Needs(o) <= setIds.Keys ==> ok
      ensures ok ==> SetsThere(o, setIds.Keys)
    {
      NeedsIff(o, setIds.Keys);
      if !(Needs(o) <= setIds.Keys) || n !in ruleIds { return false; }
      ok := vpp.Update(ruleIds[n], o);
    }

    /** Enters rules under a name, new or not. */
    method PutRules(n: Name, o: Object) returns (ok: bool)
      requires (phase.Syncing? || phase.Synced?) && o.Rules? && (n in Current().objects ==> Current().objects[n].Rules?)
      modifies this`pending, this`configured, this`ruleIds, vpp
      ensures if phase.Synced? then pending == old(pending)
              else ok && configured == old(configured) && ruleIds == old(ruleIds) && vpp.rules == old(vpp.rules)
      ensures ok ==> Current() == WithObject(old(Current()), n, o)
      ensures phase.Synced? && ok ==> Needs(o) <= setIds.Keys
      ensures phase.Synced? && ok ==> Kept(old(Now()), Now(), parse)
      ensures phase.Synced? && old(Smooth()) && Needs(o) <= setIds.Keys ==> ok
      ensures !ok ==> ruleIds == old(ruleIds) && vpp.rules == old(vpp.rules)
    {
      if phase.Syncing? {
        pending := pending.(objects := pending.objects[n := o]);
        return true;
      }
      if n in configured.objects {
        ok := UpdateRules(n, o);
        if !ok { return; }
        assert ruleIds == ruleIds[n := ruleIds[n]];
        configured := configured.(objects := configured.objects[n := o]);
      } else {
        ok := CreateRules(n, o);
        // a policy is entered before it is created, and stays if that fails
        configured := configured.(objects := configured.objects[n := o]);
        if !ok { return; }
      }
      RulesOutcome(old(Now()), n, o, ruleIds[n], parse);
    }

    /** Removes the rules under a name; a name that is not there is none of its business. */
    method DropRules(n: Name) returns (ok: bool)
      requires (phase.Syncing? || phase.Synced?) && (n in Current().objects ==> Current().objects[n].Rules?)
      modifies this`pending, this`configured, this`ruleIds, vpp
      ensures if phase.Synced? then pending == old(pending)
              else ok && configured == old(configured) && ruleIds == old(ruleIds) && vpp.rules == old(vpp.rules)
      ensures ok ==> Current() == WithoutObject(old(Current()), n)
      ensures ok ==> Kept(old(Now()), Now(), parse)
      ensures phase.Syncing? || old(Smooth()) ==> ok
    {
      if phase.Syncing? {
        pending := pending.(objects := pending.objects - {n});
        return true;
      }
      if n !in configured.objects {
        assert configured.objects - {n} == configured.objects;
        return true;
      }
      if n !in ruleIds { return false; }
      ok := vpp.Delete(ruleIds[n]);
      if !ok { return; }
      RulesDropped(old(Now()), n, parse);
      configured, ruleIds := configured.(objects := configured.objects - {n}), ruleIds - {n};
    }

    /** Enters the instance of a policy in one more network. */
    method PutInstance(policy: PolicyId, p: ProtoPolicy, n: string, ghost c: Content, ghost done: set<string>)
      returns (ok: bool)
      requires (phase.Syncing? || phase.Synced?) && WellKinded(c)
      requires Current() == c.(objects := WithPolicy(c.objects, policy, p, done))
      modifies this`pending, this`configured, this`ruleIds, vpp
      ensures if phase.Synced? then pending == old(pending)
              else ok && configured == old(configured) && ruleIds == old(ruleIds) && vpp.rules == old(vpp.rules)
      ensures ok ==> Current() == c.(objects := WithPolicy(c.objects, policy, p, done + {n}))
      ensures phase.Synced? && ok ==> Resolved(p, n, setIds.Keys)
      ensures phase.Synced? && ok ==> Kept(old(Now()), Now(), parse)
      ensures phase.Synced? && old(Smooth()) && Resolved(p, n, setIds.Keys) ==> ok
      ensures !ok ==> ruleIds == old(ruleIds) && vpp.rules == old(vpp.rules)
    {
      WithPolicyAdd(c.objects, policy, p, done, n);
      var o := FromProtoPolicy(p, n);
      ok := PutRules(PolicyName(policy, n), o);
    }

    /** A policy goes to the default network and then to the others, in any order. */
    method PolicyUpdated(policy: PolicyId, p: ProtoPolicy) returns (ok: bool)
      requires (phase.Syncing? || phase.Synced?) && WellKinded(Current())
      modifies this`pending, this`configured, this`ruleIds, vpp
      ensures Outcome(ok, PolicyUpdate(policy, p), networks, parse, old(Now()), Now())
      ensures phase.Syncing? ==> ok
      ensures phase.Synced? && old(Smooth()) ==> (ok <==> PolicyResolved(p, networks, old(Current()).objects))
      ensures old(Smooth()) ==> Now().Tied()
      ensures ok ==> PolicyIsThere(policy, p, networks, Current().objects)
      ensures ok && phase.Synced? && old(Now().InVpp(parse)) ==>
                PolicyInVpp(policy, p, networks, ruleIds, vpp.rules)
    {
      ghost var c, there := Current(), setIds.Keys;
      PolicyMembersParse(parse, c, policy, p, networks + {DEFAULT_NETWORK});
      if phase.Synced? && Smooth() {
        assert there == SetNames(c.objects);
        PolicyNeeds(c, p, networks);
        assert PolicyResolved(p, networks, c.objects) <==> InstancesResolved(p, networks + {DEFAULT_NETWORK}, there);
      }
      ok := PutInstances(policy, p);
      if ok {
        PolicyPut(policy, p, networks, c.objects);
        if phase.Synced? && old(Now().InVpp(parse)) { PolicyReachesVpp(policy, p, networks, Now(), parse); }
      }
    }

    method PutInstances(policy: PolicyId, p: ProtoPolicy) returns (ok: bool)
      requires (phase.Syncing? || phase.Synced?) && WellKinded(Current())
      modifies this`pending, this`configured, this`ruleIds, vpp
      ensures if phase.Synced? then pending == old(pending)
              else ok && configured == old(configured) && ruleIds == old(ruleIds) && vpp.rules == old(vpp.rules)
      ensures ok ==>
                Current() ==
                old(Current()).(objects := WithPolicy(old(Current()).objects, policy, p, networks + {DEFAULT_NETWORK}))
      ensures phase.Synced? && ok ==> Kept(old(Now()), Now(), parse)
      ensures phase.Synced? && ok ==> InstancesResolved(p, networks + {DEFAULT_NETWORK}, setIds.Keys)
      ensures phase.Synced? && old(Smooth()) && InstancesResolved(p, networks + {DEFAULT_NETWORK}, setIds.Keys) ==> ok
      ensures old(Smooth()) ==> Now().Tied()
    {
      ghost var c := Current();
      WithPolicyFirst(c.objects, policy, p, DEFAULT_NETWORK);
      InstancesResolvedAdd(p, networks, DEFAULT_NETWORK, setIds.Keys);
      ok := PutInstance(policy, p, DEFAULT_NETWORK, c, {});
      if !ok { return; }
      ok := UpdateElsewhere(policy, p, c);
    }

    method UpdateElsewhere(policy: PolicyId, p: ProtoPolicy, ghost c: Content) returns (ok: bool)
      requires (phase.Syncing? || phase.Synced?) && WellKinded(c)
      requires Current() == c.(objects := WithPolicy(c.objects, policy, p, {DEFAULT_NETWORK}))
      requires phase.Synced? ==> Resolved(p, DEFAULT_NETWORK, setIds.Keys)
      modifies this`pending, this`configured, this`ruleIds, vpp
      ensures if phase.Synced? then pending == old(pending)
              else ok && configured == old(configured) && ruleIds == old(ruleIds) && vpp.rules == old(vpp.rules)
      ensures ok ==> Current() == c.(objects := WithPolicy(c.objects, policy, p, networks + {DEFAULT_NETWORK}))
      ensures phase.Synced? && ok ==> Kept(old(Now()), Now(), parse)
      ensures phase.Synced? && ok ==> InstancesResolved(p, networks + {DEFAULT_NETWORK}, setIds.Keys)
      ensures phase.Synced? && old(Smooth()) && InstancesResolved(p, networks + {DEFAULT_NETWORK}, setIds.Keys) ==> ok
      ensures old(Smooth()) ==> Now().Tied()
    {
      var todo := networks;
      ghost var done := {DEFAULT_NETWORK};
      while todo != {}
        invariant done + todo == networks + {DEFAULT_NETWORK} && todo <= networks
        invariant Current() == c.(objects := WithPolicy(c.objects, policy, p, done))
        invariant if phase.Synced? then pending == old(pending)
                  else configured == old(configured) && ruleIds == old(ruleIds) && vpp.rules == old(vpp.rules)
        invariant phase.Synced? ==> Kept(old(Now()), Now(), parse)
        invariant phase.Synced? ==> InstancesResolved(p, done, setIds.Keys)
      {
        var n :| n in todo;
        InstancesResolvedAdd(p, done, n, setIds.Keys);
        ok := PutInstance(policy, p, n, c, done);
        if !ok { return; }
        done, todo := done + {n}, todo - {n};
      }
      assert done == networks + {DEFAULT_NETWORK};
      ok := true;
    }

    /** Removes the instance of a policy in one more network. */
    method DropInstance(policy: PolicyId, n: string, ghost c: Content, ghost ns: set<string>) returns (ok: bool)
      requires (phase.Syncing? || phase.Synced?) && WellKinded(c)
      requires Current() == c.(objects := c.objects - Instances(policy, ns))
      modifies this`pending, this`configured, this`ruleIds, vpp
      ensures if phase.Synced? then pending == old(pending)
              else ok && configured == old(configured) && ruleIds == old(ruleIds) && vpp.rules == old(vpp.rules)
      ensures ok ==> Current() == c.(objects := c.objects - Instances(policy, ns + {n}))
      ensures ok ==> Kept(old(Now()), Now(), parse)
      ensures phase.Syncing? || old(Smooth()) ==> ok
    {
      assert c.objects - Instances(policy, ns + {n}) == c.objects - Instances(policy, ns) - {PolicyName(policy, n)};
      ok := DropRules(PolicyName(policy, n));
    }

    /** Removes the instances of a policy, the default network's first. It would stop at a
        network that has none; policies being there in all networks or in none, it does not. */
    method PolicyRemoved(policy: PolicyId) returns (ok: bool)
      requires (phase.Syncing? || phase.Synced?) && Good(Current(), networks)
      modifies this`pending, this`configured, this`ruleIds, vpp
      ensures Outcome(ok, PolicyRemove(policy), networks, parse, old(Now()), Now())
      ensures phase.Syncing? || old(Smooth()) ==> ok
      ensures old(Smooth()) ==> Now().Tied()
    {
      ok := DropInstances(policy);
    }

    method DropInstances(policy: PolicyId) returns (ok: bool)
      requires (phase.Syncing? || phase.Synced?) && Good(Current(), networks)
      modifies this`pending, this`configured, this`ruleIds, vpp
      ensures if phase.Synced? then pending == old(pending)
              else ok && configured == old(configured) && ruleIds == old(ruleIds) && vpp.rules == old(vpp.rules)
      ensures ok ==> Current() == old(Current()).(objects := old(Current()).objects - Instances(policy, networks))
      ensures ok ==> Kept(old(Now()), Now(), parse)
      ensures phase.Syncing? || old(Smooth()) ==> ok
    {
      ghost var c := Current();
      var existing := Lookup(PolicyName(policy, DEFAULT_NETWORK));
      if existing.None? {
        NoInstances(c, policy, networks);
        return true;
      }
      ok := DropRules(PolicyName(policy, DEFAULT_NETWORK));
      if !ok { return; }
      assert Instances(policy, {}) == {PolicyName(policy, DEFAULT_NETWORK)};
      ok := RemoveElsewhere(policy, c);
    }

    method RemoveElsewhere(policy: PolicyId, ghost c: Content) returns (ok: bool)
      requires (phase.Syncing? || phase.Synced?) && WellKinded(c) && Instances(policy, networks) <= c.objects.Keys
      requires Current() == c.(objects := c.objects - Instances(policy, {}))
      modifies this`pending, this`configured, this`ruleIds, vpp
      ensures if phase.Synced? then pending == old(pending)
              else ok && configured == old(configured) && ruleIds == old(ruleIds) && vpp.rules == old(vpp.rules)
      ensures ok ==> Current() == c.(objects := c.objects - Instances(policy, networks))
      ensures ok ==> Kept(old(Now()), Now(), parse)
      ensures phase.Syncing? || old(Smooth()) ==> ok
    {
      var todo := networks - {DEFAULT_NETWORK};
      ghost var ns: set<string> := {};
      while todo != {}
        invariant todo <= networks - {DEFAULT_NETWORK} && ns !! todo && ns + todo == networks - {DEFAULT_NETWORK}
        invariant Current() == c.(objects := c.objects - Instances(policy, ns))
        invariant if phase.Synced? then pending == old(pending)
                  else configured == old(configured) && ruleIds == old(ruleIds) && vpp.rules == old(vpp.rules)
        invariant Kept(old(Now()), Now(), parse)
      {
        var n :| n in todo;
        assert PolicyName(policy, n) in Instances(policy, networks) && PolicyName(policy, n) !in Instances(policy, ns);
        var existing := Lookup(PolicyName(policy, n));
        if existing.None? { return true; }
        ok := DropInstance(policy, n, c, ns);
        if !ok { return; }
        ns, todo := ns + {n}, todo - {n};
      }
      assert Instances(policy, ns) == Instances(policy, networks);
      ok := true;
    }

    method ProfileUpdated(profile: string, inbound: seq<Rule>, outbound: seq<Rule>) returns (ok: bool)
      requires (phase.Syncing? || phase.Synced?) && WellKinded(Current())
      modifies this`pending, this`configured, this`ruleIds, vpp
      ensures Outcome(ok, ProfileUpdate(profile, inbound, outbound), networks, parse, old(Now()), Now())
      ensures phase.Syncing? ==> ok
      ensures phase.Synced? && old(Smooth()) ==>
                (ok <==> Needs(Rules(inbound, outbound)) <= old(Current()).objects.Keys)
      ensures old(Smooth()) ==> Now().Tied()
    {
      ghost var o := Rules(inbound, outbound);
      NeedsSets(Current(), o);
      ok := PutRules(ProfileName(profile), Rules(inbound, outbound));
    }

    method ProfileRemoved(profile: string) returns (ok: bool)
      requires (phase.Syncing? || phase.Synced?) && WellKinded(Current())
      modifies this`pending, this`configured, this`ruleIds, vpp
      ensures Outcome(ok, ProfileRemove(profile), networks, parse, old(Now()), Now())
      ensures phase.Syncing? || old(Smooth()) ==> ok
      ensures old(Smooth()) ==> Now().Tied()
    {
      ok := DropRules(ProfileName(profile));
    }

    // ----- Endpoints -----

    /** Enters an endpoint; once synced it is configured too if its interface is known. */
    method PutEndpoint(i: EndpointId, e: Endpoint) returns (ok: bool)
      requires phase.Syncing? || phase.Synced?
      modifies this`pending, this`configured
      ensures ok ==> Current() == old(Current()).(endpoints := old(Current()).endpoints[i := e])
      ensures if phase.Synced? then pending == old(pending) else ok && configured == old(configured)
      ensures configured.objects == old(configured).objects
      ensures !ok ==> configured.endpoints == if i in old(configured).endpoints then old(configured).endpoints
                                              else old(configured).endpoints[i := e]
      ensures phase.Synced? && ok && i in interfaces ==> EndpointNeeds(e, i.network) <= ruleIds.Keys
      ensures vpp.reliable && (i in interfaces ==> EndpointNeeds(e, i.network) <= ruleIds.Keys) ==> ok
      ensures phase.Synced? && vpp.reliable && i in interfaces ==> (ok <==> MentionsThere(e, i.network, ruleIds.Keys))
    {
      EndpointNeedsIff(e, i.network, ruleIds.Keys);
      if phase.Syncing? {
        pending := pending.(endpoints := pending.endpoints[i := e]);
        return true;
      }
      ok := true;
      if i in interfaces {
        ok := Environment.Attempt(vpp.reliable);
        ok := ok && EndpointNeeds(e, i.network) <= ruleIds.Keys;
      }
      // a new endpoint is entered before it is configured, and stays if that fails
      if ok || i !in configured.endpoints {
        configured := configured.(endpoints := configured.endpoints[i := e]);
      }
    }

    method EndpointUpdated(es: seq<EndpointId>, e: Endpoint) returns (ok: bool)
      requires (phase.Syncing? || phase.Synced?) && WellKinded(Current())
      modifies this`pending, this`configured
      ensures Outcome(ok, EndpointUpdate(es, e), networks, parse, old(Now()), Now())
      ensures phase.Syncing? ==> ok
      ensures phase.Synced? && old(Smooth()) ==>
                (ok <==> Accepts(Around(), true, old(Current()), EndpointUpdate(es, e)))
      ensures old(Smooth()) ==> Now().Tied()
    {
      EndpointsAccepted(Around(), Current(), es, e);
      ok := PutEndpoints(es, e);
    }

    method PutEndpoints(es: seq<EndpointId>, e: Endpoint) returns (ok: bool)
      requires phase.Syncing? || phase.Synced?
      modifies this`pending, this`configured
      ensures if phase.Synced? then pending == old(pending) else ok && configured == old(configured)
      ensures configured.objects == old(configured).objects
      ensures ok ==> Current() == old(Current()).(endpoints := WithEndpoints(old(Current()).endpoints, es, e))
      ensures phase.Synced? && ok ==>
                forall j :: 0 <= j < |es| && es[j] in interfaces ==> EndpointNeeds(e, es[j].network) <= ruleIds.Keys
      ensures vpp.reliable &&
              (forall j :: 0 <= j < |es| && es[j] in interfaces ==>
                 EndpointNeeds(e, es[j].network) <= ruleIds.Keys) ==>
                ok
    {
      ghost var c := Current();
      for k := 0 to |es|
        invariant Current() == c.(endpoints := WithEndpoints(c.endpoints, es[..k], e))
        invariant if phase.Synced? then pending == old(pending) else configured == old(configured)
        invariant configured.objects == old(configured).objects
        invariant phase.Synced? ==>
                    forall j :: 0 <= j < k && es[j] in interfaces ==> EndpointNeeds(e, es[j].network) <= ruleIds.Keys
      {
        ok := PutEndpoint(es[k], e);
        if !ok { return; }
        WithEndpointsAdd(c.endpoints, es, k, e);
      }
      assert es[..|es|] == es;
      ok := true;
    }

    /** Removes an endpoint and with it every endpoint of the same workload. */
    method EndpointRemoved(id: EndpointId)
      requires phase.Syncing? || phase.Synced?
      modifies this`pending, this`configured
      ensures Outcome(true, EndpointRemove(id), networks, parse, old(Now()), Now())
      ensures old(Smooth()) ==> Now().Tied()
      ensures forall i :: i in Current().endpoints <==>
                && i in old(Current()).endpoints
                && !(id in old(Current()).endpoints && i.orchestrator == id.orchestrator && i.workload == id.workload)
    {
      var m := if phase.Synced? then configured.endpoints else pending.endpoints;
      if id !in m { return; }
      ghost var was := m;
      m := m - {id};
      var todo := m.Keys;
      while todo != {}
        invariant todo <= m.Keys
        invariant m == map i | i in was && i != id && (i in todo || !SameWorkload(i, id)) :: was[i]
      {
        var i :| i in todo;
        if SameWorkload(i, id) { m := m - {i}; }
        todo := todo - {i};
      }
      if phase.Synced? {
        configured := configured.(endpoints := m);
      } else {
        pending := pending.(endpoints := m);
      }
    }

    // ----- Synchronisation -----

    /** Deletes every configured object in VPP, in any order; failures are only logged. */
    method DeleteAll()
      modifies vpp, sets
      ensures old(Calm()) ==> vpp.rules == map[] && sets.sets == map[]
    {
      DeleteRules();
      DeleteSets();
    }

    method DeleteRules()
      modifies vpp
      ensures vpp.reliable && (exists names :: Linked(names, ruleIds, old(vpp.rules).Keys)) ==> vpp.rules == map[]
    {
      var todo := ruleIds.Keys;
      ghost var left := ruleIds;
      ghost var linked := vpp.reliable && exists names :: Linked(names, ruleIds, vpp.rules.Keys);
      while todo != {}
        invariant left.Keys == todo <= ruleIds.Keys && forall n :: n in todo ==> left[n] == ruleIds[n]
        invariant linked ==> Linked(left.Keys, left, vpp.rules.Keys)
      {
        var n :| n in todo;
        ghost var before := vpp.rules;
        var ok := vpp.Delete(ruleIds[n]);
        if linked {
          LinkedDelete(left.Keys, left, before.Keys, n);
          assert vpp.rules.Keys == before.Keys - {ruleIds[n]};
        }
        todo := todo - {n};
        left := left - {n};
      }
      assert linked ==> vpp.rules.Keys == {};
    }

    method DeleteSets()
      modifies sets
      ensures sets.reliable && (exists names :: Linked(names, setIds, old(sets.sets).Keys)) ==> sets.sets == map[]
    {
      var todo := setIds.Keys;
      ghost var left := setIds;
      ghost var linked := sets.reliable && exists names :: Linked(names, setIds, sets.sets.Keys);
      while todo != {}
        invariant left.Keys == todo <= setIds.Keys && forall n :: n in todo ==> left[n] == setIds[n]
        invariant linked ==> Linked(left.Keys, left, sets.sets.Keys)
      {
        var n :| n in todo;
        ghost var before := sets.sets;
        var ok := sets.Delete(setIds[n]);
        if linked {
          LinkedDelete(left.Keys, left, before.Keys, n);
          assert sets.sets.Keys == before.Keys - {setIds[n]};
        }
        todo := todo - {n};
        left := left - {n};
      }
      assert linked ==> sets.sets.Keys == {};
    }

    /** Creates the configured IP sets in VPP, in any order. */
    method CreateSets() returns (ok: bool)
      requires setIds == map[] && AllMembersParse(parse, configured)
      modifies this`setIds, sets
      ensures ok ==> setIds.Keys == SetNames(configured.objects)
      ensures ok && old(sets.sets) == map[] ==> Mirrored(SetValues(parse, configured.objects), setIds, sets.sets)
      ensures sets.reliable ==> ok
      ensures old(sets.sets) == map[] && ok ==> Linked(setIds.Keys, setIds, sets.sets.Keys)
    {
      var todo := SetNames(configured.objects);
      ghost var values := SetValues(parse, configured.objects);
      while todo != {}
        invariant todo <= values.Keys && setIds.Keys == values.Keys - todo
        invariant old(sets.sets) == map[] ==> Mirrored(values - todo, setIds, sets.sets)
      {
        var n :| n in todo;
        ok := CreateConfigured(n, values, todo);
        if !ok { return; }
        todo := todo - {n};
      }
      assert values - todo == values;
      ok := true;
    }

    method CreateConfigured(n: Name, ghost values: map<Name, set<IpSet.Value>>, ghost todo: set<Name>)
      returns (ok: bool)
      requires n in configured.objects && configured.objects[n].Ipset? && MembersParse(parse, configured.objects[n])
      requires values == SetValues(parse, configured.objects) && n in todo && n !in setIds
      modifies this`setIds, sets
      ensures ok ==> setIds.Keys == old(setIds).Keys + {n}
      ensures ok && Mirrored(values - todo, old(setIds), old(sets.sets)) ==>
                Mirrored(values - (todo - {n}), setIds, sets.sets)
      ensures sets.reliable ==> ok
    {
      var s := AsSet(configured.objects[n], None);
      IpSet.ValuesAreDenoted(parse, s.kind, s.members);
      ok := s.Create(sets);
      if !ok { return; }
      setIds := setIds[n := s.id.value];
      if Mirrored(values - todo, old(setIds), old(sets.sets)) {
        MirroredCreate(values - todo, old(setIds), old(sets.sets), n, values[n], s.id.value);
        assert values - (todo - {n}) == (values - todo)[n := values[n]];
      }
    }

    /** Creates the configured rules of these names in VPP, in any order. */
    method CreateThese(names: set<Name>) returns (ok: bool)
      requires names <= RuleNames(configured.objects) && names !! ruleIds.Keys
      modifies this`ruleIds, vpp
      ensures ok ==> ruleIds.Keys == old(ruleIds).Keys + names
      ensures ok && Mirrored(Only(configured.objects, old(ruleIds).Keys), old(ruleIds), old(vpp.rules)) ==>
                Mirrored(Only(configured.objects, ruleIds.Keys), ruleIds, vpp.rules)
      ensures ok ==> NeedsMet(configured.objects, names, setIds.Keys)
      ensures vpp.reliable && NeedsMet(configured.objects, names, setIds.Keys) ==> ok
      ensures Linked(old(ruleIds).Keys, old(ruleIds), old(vpp.rules).Keys) ==>
                Linked(ruleIds.Keys, ruleIds, vpp.rules.Keys)
    {
      var todo := names;
      while todo != {}
        invariant todo <= names && ruleIds.Keys == old(ruleIds).Keys + (names - todo)
        invariant Mirrored(Only(configured.objects, old(ruleIds).Keys), old(ruleIds), old(vpp.rules)) ==>
                    Mirrored(Only(configured.objects, ruleIds.Keys), ruleIds, vpp.rules)
        invariant NeedsMet(configured.objects, names - todo, setIds.Keys)
        invariant Linked(old(ruleIds).Keys, old(ruleIds), old(vpp.rules).Keys) ==>
                    Linked(ruleIds.Keys, ruleIds, vpp.rules.Keys)
      {
        var n :| n in todo;
        ok := CreateOne(n);
        if !ok { return; }
        todo := todo - {n};
      }
      assert names - todo == names;
      ok := true;
    }

    method CreateOne(n: Name) returns (ok: bool)
      requires n in configured.objects && n !in ruleIds
      modifies this`ruleIds, vpp
      ensures ok ==> ruleIds.Keys == old(ruleIds).Keys + {n} && Needs(configured.objects[n]) <= setIds.Keys
      ensures ok && Mirrored(Only(configured.objects, old(ruleIds).Keys), old(ruleIds), old(vpp.rules)) ==>
                Mirrored(Only(configured.objects, ruleIds.Keys), ruleIds, vpp.rules)
      ensures vpp.reliable && Needs(configured.objects[n]) <= setIds.Keys ==> ok
      ensures Linked(old(ruleIds).Keys, old(ruleIds), old(vpp.rules).Keys) ==>
                Linked(ruleIds.Keys, ruleIds, vpp.rules.Keys)
    {
      ok := CreateRules(n, configured.objects[n]);
      if !ok { return; }
      if Linked(old(ruleIds).Keys, old(ruleIds), old(vpp.rules).Keys) {
        LinkedCreate(old(ruleIds).Keys, old(ruleIds), old(vpp.rules).Keys, n, ruleIds[n]);
        assert vpp.rules.Keys == old(vpp.rules).Keys + {ruleIds[n]};
      }
      ghost var there := Only(configured.objects, old(ruleIds).Keys);
      if Mirrored(there, old(ruleIds), old(vpp.rules)) {
        MirroredCreate(there, old(ruleIds), old(vpp.rules), n, configured.objects[n], ruleIds[n]);
        assert Only(configured.objects, ruleIds.Keys) == there[n := configured.objects[n]];
      }
    }

    /** Profiles, then policies. */
    method CreateAllRules() returns (ok: bool)
      requires ruleIds == map[] && WellKinded(configured)
      modifies this`ruleIds, vpp
      ensures ok ==> ruleIds.Keys == RuleNames(configured.objects)
      ensures ok && old(vpp.rules) == map[] ==> Mirrored(RuleObjects(configured.objects), ruleIds, vpp.rules)
      ensures ok ==> NeedsMet(configured.objects, RuleNames(configured.objects), setIds.Keys)
      ensures vpp.reliable && NeedsMet(configured.objects, RuleNames(configured.objects), setIds.Keys) ==> ok
      ensures old(vpp.rules) == map[] ==> Linked(ruleIds.Keys, ruleIds, vpp.rules.Keys)
    {
      var profiles, policies := Profiles(configured.objects), Policies(configured.objects);
      RulesByKind(configured);
      NeedsMetUnion(configured.objects, profiles, policies, setIds.Keys);
      assert Only(configured.objects, {}) == map[] && ruleIds.Keys == {};
      ok := CreateThese(profiles);
      if !ok { return; }
      assert ruleIds.Keys == profiles;
      ok := CreateThese(policies);
      assert ok ==> ruleIds.Keys == profiles + policies;
    }

    method ConfigureEndpoints() returns (ok: bool)
      requires ruleIds.Keys == RuleNames(configured.objects) && WellKinded(configured)
      ensures ok ==> EndpointsResolved(configured, interfaces)
      ensures vpp.reliable && EndpointsResolved(configured, interfaces) ==> ok
    {
      forall e: Endpoint, network: string
        ensures EndpointNeeds(e, network) <= ruleIds.Keys <==> EndpointNeeds(e, network) <= configured.objects.Keys
      {
        EndpointNeedsRules(configured, e, network);
      }
      var todo := configured.endpoints.Keys;
      while todo != {}
        invariant todo <= configured.endpoints.Keys
        invariant forall i :: i in configured.endpoints && i !in todo && i in interfaces ==>
                    EndpointNeeds(configured.endpoints[i], i.network) <= ruleIds.Keys
      {
        var i :| i in todo;
        if i in interfaces {
          ok := Environment.Attempt(vpp.reliable);
          if !ok || !(EndpointNeeds(configured.endpoints[i], i.network) <= ruleIds.Keys) { return false; }
        }
        todo := todo - {i};
      }
      ok := true;
    }

    /** Replaces what is configured by what is pending, in the record at once and in VPP by
        deleting everything and creating it anew. */
    method ApplyPending() returns (ok: bool)
      requires Sound(parse, pending, networks)
      modifies this`pending, this`configured, this`setIds, this`ruleIds, vpp, sets
      ensures configured == old(pending) && pending == EMPTY
      ensures old(Calm()) ==>
                && (ok <==> RulesResolved(old(pending)) && EndpointsResolved(old(pending), interfaces))
                && (ok ==> Now().InVpp(parse)) && Calm()
    {
      DeleteAll();
      configured, pending, setIds, ruleIds := pending, EMPTY, map[], map[];
      ok := CreateAll();
      if !ok { return; }
      ok := ConfigureEndpoints();
    }

    /** IP sets first, so that rules find them, then profiles and policies. */
    method CreateAll() returns (ok: bool)
      requires setIds == map[] && ruleIds == map[] && WellKinded(configured) && AllMembersParse(parse, configured)
      modifies this`setIds, this`ruleIds, vpp, sets
      ensures ok ==> ruleIds.Keys == RuleNames(configured.objects)
      ensures ok && old(sets.sets) == map[] && old(vpp.rules) == map[] ==> Now().InVpp(parse)
      ensures ok ==> RulesResolved(configured)
      ensures vpp.reliable && sets.reliable && RulesResolved(configured) ==> ok
      ensures vpp.reliable && sets.reliable && old(sets.sets) == map[] && old(vpp.rules) == map[] ==> Now().Tied()
    {
      RulesNeedSets(configured);
      ok := CreateSets();
      if !ok { return; }
      ok := CreateAllRules();
    }

    // ----- Messages -----

    /** One message: control messages move the phase on, the others change the state of the
        phase. */
    method Handle(m: Message) returns (ok: bool)
      requires Valid()
      modifies this`phase, this`pending, this`configured, this`setIds, this`ruleIds, vpp, sets
      ensures Sound(parse, pending, networks) && (ok ==> Valid())
      ensures ok ==> Follows(m, old(phase)) && phase == Next(old(phase), m)
      ensures ok ==> Current() == Step(old(Current()), m, networks)
      ensures ok && phase.Synced? ==> pending == if old(phase).Synced? then old(pending) else EMPTY
      ensures old(Ready()) ==> (ok <==> Admits(Around(), old(phase), old(Current()), m)) && Calm() && (ok ==> Ready())
      ensures ok && old(phase).Synced? && old(Now().InVpp(parse)) ==>
                (Now().InVpp(parse) <==> Faithful(parse, old(Current()), m))
      ensures ok && old(Ready()) && !old(phase).Synced? && (old(Now().InVpp(parse)) || phase.Synced?) ==>
                Now().InVpp(parse)
    {
      match m {
        case ConfigUpdate =>
          if !phase.Connected? { return false; }
          phase := Syncing;
          ok := Environment.Attempt(vpp.reliable);
        case InSync =>
          if !phase.Syncing? { return false; }
          phase := Synced;
          ok := ApplyPending();
          if ok && old(Calm()) { InVppIsWired(Now(), parse); }
        case _ =>
          if !phase.Syncing? && !phase.Synced? { return false; }
          StepGood(Current(), m, networks);
          ok := Dispatch(m);
      }
    }

    method Dispatch(m: Message) returns (ok: bool)
      requires !m.ConfigUpdate? && !m.InSync? && (phase.Syncing? || phase.Synced?) && Sound(parse, Current(), networks)
      modifies this`pending, this`configured, this`setIds, this`ruleIds, vpp, sets
      ensures Outcome(ok, m, networks, parse, old(Now()), Now())
      ensures !ok && phase.Syncing? ==> Sound(parse, pending, networks)
      ensures phase.Syncing? || old(Smooth()) ==> (ok <==> Accepts(Around(), phase.Synced?, old(Current()), m))
      ensures old(Smooth()) ==> Now().Tied()
    {
      match m {
        case IpsetUpdate(id, kind, members) => ok := IpsetUpdated(id, kind, members);
        case IpsetDelta(id, added, removed) => ok := IpsetChanged(id, added, removed);
        case IpsetRemove(id) => ok := IpsetRemoved(id);
        case PolicyUpdate(policy, p) => ok := PolicyUpdated(policy, p);
        case PolicyRemove(policy) => ok := PolicyRemoved(policy);
        case ProfileUpdate(profile, i, o) => ok := ProfileUpdated(profile, i, o);
        case ProfileRemove(profile) => ok := ProfileRemoved(profile);
        case EndpointUpdate(es, e) => ok := EndpointUpdated(es, e);
        case EndpointRemove(e) =>
          EndpointRemoved(e);
          ok := true;
      }
    }

    /** A connection whose messages all succeed leaves configured, if InSync was among them,
        exactly what folding its messages gives, starting from what an earlier connection
        left pending. When VPP does not fail it succeeds exactly if its messages are
        admissible; VPP then has exactly what is configured if it was synced, or had before,
        and the messages that came once synced are faithful. Whether it succeeds or not, VPP
        has no object that is lost track of. */
    method Connection(ms: seq<Message>) returns (ok: bool)
      requires Sound(parse, pending, networks)
      modifies this`phase, this`pending, this`configured, this`setIds, this`ruleIds, vpp, sets
      ensures Sound(parse, pending, networks)
      ensures ok && phase.Synced? ==> configured == Fold(old(pending), ms, networks) && pending == EMPTY
      ensures ok && !phase.Synced? ==> pending == Fold(old(pending), ms, networks)
      ensures ok ==> phase == PhaseAfter(Connected, ms) && (phase.Synced? <==> InSync in ms)
      ensures old(Calm()) ==> (ok <==> Admissible(Around(), Connected, old(pending), ms)) && Calm()
      ensures old(Calm()) && ok && AllFaithful(Around(), Connected, old(pending), ms) &&
              (old(Now().InVpp(parse)) || phase.Synced?) ==>
                Now().InVpp(parse)
    {
      phase := Connected;
      ghost var env, c0, calm, mirrored := Around(), pending, Calm(), Now().InVpp(parse);
      ghost var faithful := calm && AllFaithful(env, Connected, c0, ms);
      for i := 0 to |ms|
        invariant Around() == env && Delivered(c0, ms, i)
        invariant calm ==> Ready() && Admissible(env, Connected, c0, ms[..i])
        invariant faithful && (mirrored || phase.Synced?) ==> Now().InVpp(parse)
      {
        if faithful { FaithfulSoFar(env, Connected, c0, ms, i); }
        ok := Deliver(c0, ms, i);
        if !ok {
          if calm && Admissible(env, Connected, c0, ms) { AdmissibleSoFar(env, Connected, c0, ms, i); }
          return;
        }
      }
      assert ms[..|ms|] == ms;
      ok := true;
    }

    /** One connection after another, whatever became of the ones before: each begins with what
        is pending then, which is nothing after one that succeeded and was synced. If VPP does
        not fail each succeeds exactly if its messages are admissible over that, and after a
        last one that was synced VPP has exactly what is configured. */
    method Connections(list: seq<seq<Message>>) returns (oks: seq<bool>, ghost starts: seq<Content>)
      requires Sound(parse, pending, networks)
      modifies this`phase, this`pending, this`configured, this`setIds, this`ruleIds, vpp, sets
      ensures Sound(parse, pending, networks) && Chained(list, oks, starts)
      ensures starts[0] == old(pending) && starts[|list|] == pending
      ensures old(Calm()) ==>
                Calm() && forall i :: 0 <= i < |list| ==>
                  (oks[i] <==> Admissible(Around(), Connected, starts[i], list[i]))
      ensures list != [] && oks[|list| - 1] && InSync in list[|list| - 1] ==>
                && configured == Fold(starts[|list| - 1], list[|list| - 1], networks)
                && (old(Calm()) && AllFaithful(Around(), Connected, starts[|list| - 1], list[|list| - 1]) ==>
                      Now().InVpp(parse))
    {
      oks, starts := [], [pending];
      ghost var calm, env := Calm(), Around();
      for n := 0 to |list|
        invariant Sound(parse, pending, networks) && (calm ==> Calm()) && Around() == env
        invariant Chained(list[..n], oks, starts) && starts[0] == old(pending) && starts[n] == pending
        invariant calm ==> forall i :: 0 <= i < n ==> (oks[i] <==> Admissible(env, Connected, starts[i], list[i]))
        invariant n > 0 && oks[n - 1] && InSync in list[n - 1] ==>
                    && configured == Fold(starts[n - 1], list[n - 1], networks)
                    && (calm && AllFaithful(env, Connected, starts[n - 1], list[n - 1]) ==> Now().InVpp(parse))
      {
        var ok := Connection(list[n]);
        oks, starts := oks + [ok], starts + [pending];
      }
      assert list[..|list|] == list;
    }

    /** What each of the connections begins with follows from the one before if that succeeded. */
    ghost predicate Chained(list: seq<seq<Message>>, oks: seq<bool>, starts: seq<Content>) {
      && |oks| == |list| && |starts| == |list| + 1
      && forall i :: 0 <= i < |list| && oks[i] ==>
           starts[i + 1] == if InSync in list[i] then EMPTY else Fold(starts[i], list[i], networks)
    }

    /** The first i messages have been handled. */
    ghost predicate Delivered(c0: Content, ms: seq<Message>, i: nat)
      reads this`phase, this`pending, this`configured
    {
      && i <= |ms| && Valid() && Current() == Fold(c0, ms[..i], networks) && phase == PhaseAfter(Connected, ms[..i])
      && !phase.Disconnected? && (phase.Synced? ==> pending == EMPTY) && (phase.Synced? <==> InSync in ms[..i])
    }

    method Deliver(ghost c0: Content, ms: seq<Message>, i: nat) returns (ok: bool)
      requires i < |ms| && Delivered(c0, ms, i)
      modifies this`phase, this`pending, this`configured, this`setIds, this`ruleIds, vpp, sets
      ensures Sound(parse, pending, networks) && (ok ==> Delivered(c0, ms, i + 1))
      ensures
        var admitted := Admits(Around(), PhaseAfter(Connected, ms[..i]), Fold(c0, ms[..i], networks), ms[i]);
        old(Ready()) ==>
          && (ok <==> admitted) && Calm() && (ok ==> Ready())
          && (Admissible(Around(), Connected, c0, ms[..i]) && ok ==> Admissible(Around(), Connected, c0, ms[..i + 1]))
      ensures ok && old(Ready()) &&
              (if old(phase).Synced? then old(Now().InVpp(parse)) && Faithful(parse, Fold(c0, ms[..i], networks), ms[i])
               else old(Now().InVpp(parse)) || phase.Synced?) ==>
                Now().InVpp(parse)
    {
      assert ms[..i + 1][..i] == ms[..i];
      assert ms[..i + 1] == ms[..i] + [ms[i]];
      ok := Handle(ms[i]);
    }
  }

  /** The rules of the network, inbound and outbound. */
  method FromProtoPolicy(p: ProtoPolicy, network: string) returns (o: Object)
    ensures o == Instance(p, network) && InstanceOf(p, network, o)
  {
    InstanceIsThat(p, network);
    if p.untracked { return Rules([], []); }
    if p.preDnat && |p.outbound| > 0 { return Rules([], []); }
    if p.preDnat && |p.inbound| > 0 { return Rules([], []); }
    var inbound := RulesInNetwork(p.inbound, network);
    var outbound := RulesInNetwork(p.outbound, network);
    o := Rules(inbound, outbound);
  }

  method RulesInNetwork(rules: seq<Rule>, network: string) returns (r: seq<Rule>)
    ensures r == InNetwork(rules, network)
  {
    r := [];
    for i := 0 to |rules|
      invariant r == InNetwork(rules[..i], network)
    {
      assert rules[..i + 1][..i] == rules[..i];
      if rules[i].network == network { r := r + [rules[i]]; }
    }
    assert rules[..|rules|] == rules;
  }

  function Only<V>(m: map<Name, V>, names: set<Name>): map<Name, V> {
    map n | n in m && n in names :: m[n]
  }

  /** The phases a message may come in. */
  ghost predicate Follows(m: Message, before: Phase) {
    if m.ConfigUpdate? then before.Connected?
    else if m.InSync? then before.Syncing?
    else before.Syncing? || before.Synced?
  }

  /** Whatever the objects of these names mention is there. */
  ghost predicate NeedsMet(m: map<Name, Object>, names: set<Name>, there: set<Name>) {
    forall n :: n in names && n in m ==> Needs(m[n]) <= there
  }

  lemma NeedsMetUnion(m: map<Name, Object>, a: set<Name>, b: set<Name>, there: set<Name>)
    ensures NeedsMet(m, a + b, there) <==> NeedsMet(m, a, there) && NeedsMet(m, b, there)
  {
    if NeedsMet(m, a + b, there) {
      forall n | (n in a || n in b) && n in m ensures Needs(m[n]) <= there {
        assert n in a + b;
      }
    }
  }

  function Profiles(m: map<Name, Object>): set<Name> {
    set n | n in m && n.ProfileName?
  }

  function Policies(m: map<Name, Object>): set<Name> {
    set n | n in m && n.PolicyName?
  }

  lemma RulesByKind(c: Content)
    requires WellKinded(c)
    ensures Profiles(c.objects) + Policies(c.objects) == RuleNames(c.objects) &&
            Profiles(c.objects) !! Policies(c.objects)
    ensures Only(c.objects, RuleNames(c.objects)) == RuleObjects(c.objects)
  {
  }

  lemma RulesNeedSets(c: Content)
    requires WellKinded(c)
    ensures RulesResolved(c) <==> NeedsMet(c.objects, RuleNames(c.objects), SetNames(c.objects))
  {
    forall n | n in c.objects
      ensures Needs(c.objects[n]) <= SetNames(c.objects) <==> Needs(c.objects[n]) <= c.objects.Keys
    {
      NeedsSets(c, c.objects[n]);
    }
  }

  /** Rules mention IP sets only. */
  lemma NeedsSets(c: Content, o: Object)
    requires WellKinded(c)
    ensures Needs(o) <= SetNames(c.objects) <==> Needs(o) <= c.objects.Keys
  {
    assert forall x :: x in Needs(o) ==> x.IpsetName?;
  }

  /** The IP sets that the policy mentions in these networks are there. */
  ghost predicate InstancesResolved(p: ProtoPolicy, ns: set<string>, there: set<Name>) {
    forall n :: n in ns ==> Resolved(p, n, there)
  }

  ghost predicate Resolved(p: ProtoPolicy, n: string, there: set<Name>) {
    Needs(Instance(p, n)) <= there
  }

  lemma InstancesResolvedAdd(p: ProtoPolicy, ns: set<string>, n: string, there: set<Name>)
    ensures InstancesResolved(p, ns + {n}, there) <==> InstancesResolved(p, ns, there) && Resolved(p, n, there)
  {
    assert n in ns + {n};
    if InstancesResolved(p, ns + {n}, there) {
      forall k | k in ns ensures Resolved(p, k, there) {
        assert k in ns + {n};
      }
    }
  }

  lemma PolicyNeeds(c: Content, p: ProtoPolicy, networks: set<string>)
    requires WellKinded(c)
    ensures PolicyResolved(p, networks, c.objects) <==>
            InstancesResolved(p, networks + {DEFAULT_NETWORK}, SetNames(c.objects))
  {
    forall n ensures Needs(Instance(p, n)) <= SetNames(c.objects) <==> Needs(Instance(p, n)) <= c.objects.Keys {
      NeedsSets(c, Instance(p, n));
    }
  }

  /** Endpoints mention policies and profiles only. */
  lemma EndpointNeedsRules(c: Content, e: Endpoint, network: string)
    requires WellKinded(c)
    ensures EndpointNeeds(e, network) <= RuleNames(c.objects) <==> EndpointNeeds(e, network) <= c.objects.Keys
  {
    assert forall x :: x in EndpointNeeds(e, network) ==> !x.IpsetName?;
  }

  lemma EndpointsAccepted(env: Env, c: Content, es: seq<EndpointId>, e: Endpoint)
    requires WellKinded(c)
    ensures Accepts(env, true, c, EndpointUpdate(es, e)) <==>
            forall j :: 0 <= j < |es| && es[j] in env.interfaces ==>
              EndpointNeeds(e, es[j].network) <= RuleNames(c.objects)
  {
    forall i: EndpointId
      ensures EndpointNeeds(e, i.network) <= RuleNames(c.objects) <==> EndpointNeeds(e, i.network) <= c.objects.Keys
    {
      EndpointNeedsRules(c, e, i.network);
    }
  }

  lemma PolicyMembersParse(parse: IpSet.Parser, c: Content, policy: PolicyId, p: ProtoPolicy, ns: set<string>)
    ensures AllMembersParse(parse, c) ==> AllMembersParse(parse, c.(objects := WithPolicy(c.objects, policy, p, ns)))
  {
  }

  lemma NoInstances(c: Content, policy: PolicyId, networks: set<string>)
    requires Complete(c, networks) && PolicyName(policy, DEFAULT_NETWORK) !in c.objects
    ensures c.objects - Instances(policy, networks) == c.objects
  {
    assert PolicyName(policy, DEFAULT_NETWORK) in Instances(policy, networks);
    assert forall n :: n in networks + {DEFAULT_NETWORK} ==> PolicyName(policy, n) !in c.objects;
  }

  lemma RulesOutcome(a: Snapshot, n: Name, o: Object, id: nat, parse: IpSet.Parser)
    requires RulesWritable(a, n, o, id)
    ensures a.Wired() ==> RulesWritten(a, n, o, id).Wired()
    ensures a.InVpp(parse) ==> RulesWritten(a, n, o, id).InVpp(parse)
  {
    if a.Wired() { RulesStayWired(a, n, o, id); }
    if a.InVpp(parse) { RulesStayMirrored(a, n, o, id, parse); }
  }

  lemma SameNamesSound(parse: IpSet.Parser, c: Content, n: Name, members: set<string>, networks: set<string>)
    requires Sound(parse, c, networks) && n in c.objects && n.IpsetName?
    ensures var o := Ipset(c.objects[n].kind, members);
            Good(WithObject(c, n, o), networks) &&
            (MembersParse(parse, o) ==> AllMembersParse(parse, WithObject(c, n, o)))
  {
  }

  lemma SetOutcome(a: Snapshot, n: Name, o: Object, id: nat, values: set<IpSet.Value>, parse: IpSet.Parser)
    requires SetWritable(a, n, o, id)
    ensures a.Wired() ==> SetWritten(a, n, o, id, values).Wired()
    ensures a.InVpp(parse) ==>
              (SetWritten(a, n, o, id, values).InVpp(parse) <==> values == IpSet.Denoted(parse, o.kind, o.members))
    ensures a.InVpp(parse) && n in a.configured.objects ==>
              id in a.sets &&
              a.sets[id] == IpSet.Denoted(parse, a.configured.objects[n].kind, a.configured.objects[n].members)
  {
    if a.Wired() { SetStaysWired(a, n, o, id, values); }
    if a.InVpp(parse) {
      SetStaysMirrored(a, n, o, id, values, parse);
      assert n in a.configured.objects ==> n in SetValues(parse, a.configured.objects);
    }
  }

  /** VPP goes on being wired to the configured state, and mirroring it. */
  /** In every network the instance of the policy is what the policy means there. */
  ghost predicate PolicyIsThere(policy: PolicyId, p: ProtoPolicy, networks: set<string>, m: map<Name, Object>) {
    forall n :: n in networks || n == "" ==>
      PolicyName(policy, n) in m && InstanceOf(p, n, m[PolicyName(policy, n)])
  }

  /** And VPP has that. */
  ghost predicate PolicyInVpp(policy: PolicyId, p: ProtoPolicy, networks: set<string>, ids: Ids,
                              rules: map<nat, Object>) {
    forall n :: n in networks || n == "" ==>
      && PolicyName(policy, n) in ids && ids[PolicyName(policy, n)] in rules
      && InstanceOf(p, n, rules[ids[PolicyName(policy, n)]])
  }

  lemma PolicyPut(policy: PolicyId, p: ProtoPolicy, networks: set<string>, m: map<Name, Object>)
    ensures PolicyIsThere(policy, p, networks, WithPolicy(m, policy, p, networks + {DEFAULT_NETWORK}))
  {
    forall n ensures InstanceOf(p, n, Instance(p, n)) {
      InstanceIsThat(p, n);
    }
  }

  lemma PolicyReachesVpp(policy: PolicyId, p: ProtoPolicy, networks: set<string>, s: Snapshot, parse: IpSet.Parser)
    requires PolicyIsThere(policy, p, networks, s.configured.objects) && s.InVpp(parse)
    ensures PolicyInVpp(policy, p, networks, s.ruleIds, s.rules)
  {
    forall n | n in networks || n == ""
      ensures PolicyName(policy, n) in RuleObjects(s.configured.objects)
    {
      assert InstanceOf(p, n, s.configured.objects[PolicyName(policy, n)]);
    }
  }

  ghost predicate Kept(a: Snapshot, b: Snapshot, parse: IpSet.Parser) {
    (a.Wired() ==> b.Wired()) && (a.InVpp(parse) ==> b.InVpp(parse))
  }

  /** VPP is not touched, nor is the configured state. */
  ghost predicate Unsynced(a: Snapshot, b: Snapshot) {
    && b.phase == a.phase && b.configured == a.configured
    && b.setIds == a.setIds && b.ruleIds == a.ruleIds && b.sets == a.sets && b.rules == a.rules
  }

  /** A handler that succeeds has taken the state that messages change one step further and
      VPP along with it, so that VPP goes on mirroring the record exactly if the message is
      faithful; the other state, and while syncing VPP, are as they were. */
  ghost predicate Outcome(ok: bool, m: Message, networks: set<string>, parse: IpSet.Parser, a: Snapshot, b: Snapshot) {
    && b.phase == a.phase
    && (if a.phase.Synced? then b.pending == a.pending else Unsynced(a, b))
    && (ok ==> b.Current() == Step(a.Current(), m, networks))
    && (ok && AllMembersParse(parse, a.Current()) ==> AllMembersParse(parse, b.Current()))
    && (ok && a.Wired() ==> b.Wired())
    && (ok && a.phase.Synced? && a.InVpp(parse) ==> (b.InVpp(parse) <==> Faithful(parse, a.Current(), m)))
  }

  /** Member strings of a set parse. */
  ghost predicate MembersParse(parse: IpSet.Parser, o: Object) {
    o.Ipset? ==> forall x :: x in o.members ==> parse(o.kind, x).Some?
  }

  ghost predicate AllMembersParse(parse: IpSet.Parser, c: Content) {
    forall n :: n in c.objects ==> MembersParse(parse, c.objects[n])
  }

  ghost predicate Sound(parse: IpSet.Parser, c: Content, networks: set<string>) {
    Good(c, networks) && AllMembersParse(parse, c)
  }
}
