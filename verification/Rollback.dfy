/**
  Rolling back a failed pod creation. Every resource an attempt creates is pushed on a
  stack as the call that removes it; on failure the calls run newest first. A table with
  routes in it stays, so restoring the tables depends on that order.
 */
module Rollback {
  import opened Srv6Types
  import Environment

  datatype Family = V4 | V6

  const FAMILIES: seq<Family> := [V4, V6]

  datatype Vrf = Vrf(id: nat, family: Family)

  const MAIN_TABLE := 0
  const POD_VRF_INDEX := 2

  datatype Dst = Default | MulticastDefault | Net(address: nat)

  /** What a creation adds to VPP, and what a cleanup call removes. */
  datatype Resource =
    | Table(vrf: Vrf)
    | Route(table: Vrf, dst: Dst)
    | Interface(swIf: nat)
    | Urpf(checked: nat, family: Family)

  datatype Setting = Present | ViaTable(id: nat) | ViaInterface(swIf: nat, gw: Option<nat>)

  type Config = map<Resource, Setting>

  /** Routes are in tables that exist, and reverse-path checks on interfaces that exist. */
  ghost predicate WellFormed(c: Config) {
    && (forall r :: r in c && r.Route? ==> r.table.id == MAIN_TABLE || Table(r.table) in c)
    && (forall r :: r in c && r.Urpf? ==> Interface(r.checked) in c)
  }

  /** The table of a route exists, and the interface of a check. */
  ghost predicate HasPlace(r: Resource, c: Config) {
    && (r.Route? ==> r.table.id == MAIN_TABLE || Table(r.table) in c)
    && (r.Urpf? ==> Interface(r.checked) in c)
  }

  predicate HasRoutes(c: Config, v: Vrf) {
    exists r :: r in c && r.Route? && r.table == v
  }

  function Elements(calls: seq<Resource>): set<Resource> {
    set r | r in calls
  }

  /** Whatever is in a table to be deleted is removed by a later call. */
  ghost predicate Ordered(calls: seq<Resource>, c: Config) {
    forall i, r :: 0 <= i < |calls| && calls[i].Table? && r in c && r.Route? && r.table == calls[i].vrf ==>
      r in calls[i + 1..]
  }

  class Vpp {
    /** Every call that creates something succeeds. */
    const reliable: bool
    /** The inverse calls succeed. */
    const undoes: bool
    var config: Config

    method Add(r: Resource, s: Setting) returns (ok: bool)
      requires WellFormed(config) && !r.Table?
      modifies this
      ensures WellFormed(config)
      ensures config == if ok then old(config)[r := s] else old(config)
      ensures reliable && HasPlace(r, old(config)) ==> ok
    {
      if r.Route? && r.table.id != MAIN_TABLE && Table(r.table) !in config { return false; }
      if r.Urpf? && Interface(r.checked) !in config { return false; }
      ok := Environment.Attempt(reliable);
      if ok { config := config[r := s]; }
    }

    /** A new table gets an id not in use. */
    method AllocateVrf(f: Family) returns (ok: bool, v: Vrf)
      requires WellFormed(config)
      modifies this
      ensures WellFormed(config) && v.family == f
      ensures ok ==> v.id != MAIN_TABLE && Table(v) !in old(config) && config == old(config)[Table(v) := Present]
      ensures !ok ==> config == old(config)
      ensures reliable ==> ok
    {
      var id := Environment.FreeId({MAIN_TABLE} + set r | r in config && r.Table? && r.vrf.family == f :: r.vrf.id);
      v := Vrf(id, f);
      ok := Environment.Attempt(reliable);
      if ok { config := config[Table(v) := Present]; }
    }

    /** A new interface gets an index not in use. */
    method CreateInterface() returns (ok: bool, swIf: nat)
      requires WellFormed(config)
      modifies this
      ensures WellFormed(config)
      ensures ok ==> Interface(swIf) !in old(config) && config == old(config)[Interface(swIf) := Present]
      ensures !ok ==> config == old(config)
      ensures reliable ==> ok
    {
      swIf := Environment.FreeId(set r | r in config && r.Interface? :: r.swIf);
      ok := Environment.Attempt(reliable);
      if ok { config := config[Interface(swIf) := Present]; }
    }

    /** Removes a resource if the call succeeds; a table that still has routes stays. */
    method Remove(r: Resource)
      modifies this
      ensures config == old(config) || config == old(config) - {r}
      ensures undoes && (r.Table? ==> !HasRoutes(old(config), r.vrf)) ==> config == old(config) - {r}
    {
      var ok := *;
      if !ok && !undoes { return; }
      if r.Table? && HasRoutes(config, r.vrf) { return; }
      config := config - {r};
    }
  }

  class CleanupStack {
    var calls: seq<Resource>

    constructor ()
      ensures calls == []
    {
      calls := [];
    }

    method Push(r: Resource)
      modifies this
      ensures calls == old(calls) + [r]
    {
      calls := calls + [r];
    }

    /** Runs the calls newest first. Whatever fails, nothing else is touched; if none fails
        all of it is gone, tables included. */
    method Execute(vpp: Vpp)
      modifies vpp
      ensures OnlyRemoves(Elements(calls), old(vpp.config), vpp.config)
      ensures vpp.undoes && Ordered(calls, old(vpp.config)) ==> vpp.config == old(vpp.config) - Elements(calls)
    {
      var i := |calls|;
      while i > 0
        invariant 0 <= i <= |calls|
        invariant OnlyRemoves(Elements(calls), old(vpp.config), vpp.config)
        invariant vpp.undoes && Ordered(calls, old(vpp.config)) ==> vpp.config == old(vpp.config) - Elements(calls[i..])
      {
        i := i - 1;
        vpp.Remove(calls[i]);
        assert calls[i..] == [calls[i]] + calls[i + 1..];
        assert calls[i] in Elements(calls);
      }
      assert calls[0..] == calls;
    }
  }

  ghost predicate OnlyRemoves(rs: set<Resource>, before: Config, after: Config) {
    && (forall r :: r in after ==> r in before && after[r] == before[r])
    && (forall r :: r in before && r !in rs ==> r in after)
  }

  // ----- Creating a pod -----

  datatype Address = Address(family: Family, value: nat)

  /** The main-table routes of a pod's addresses. */
  function MainRoutes(addresses: seq<Address>): set<Resource> {
    set a | a in addresses :: Route(Vrf(MAIN_TABLE, a.family), Net(a.value))
  }

  /** Off the stack nothing has changed since the attempt began, and of what is on the
      stack only main-table routes can have been there before. */
  ghost predicate Tracking(before: Config, c: Config, calls: seq<Resource>, mine: set<Resource>) {
    && WellFormed(c) && Ordered(calls, c)
    && (forall r :: r !in calls ==> (r in c <==> r in before) && (r in c ==> c[r] == before[r]))
    && (forall r :: r in calls ==> r in c && (r in before ==> r in mine))
  }

  lemma Pushed(before: Config, c: Config, calls: seq<Resource>, mine: set<Resource>, r: Resource, s: Setting)
    requires Tracking(before, c, calls, mine) && WellFormed(c[r := s])
    requires r in before ==> r in mine
    requires r.Table? ==> !HasRoutes(c, r.vrf)
    ensures Tracking(before, c[r := s], calls + [r], mine)
  {
    var calls', c' := calls + [r], c[r := s];
    forall i, q | 0 <= i < |calls'| && calls'[i].Table? && q in c' && q.Route? && q.table == calls'[i].vrf
      ensures q in calls'[i + 1..]
    {
      if i < |calls| {
        assert calls'[i + 1..] == calls[i + 1..] + [r];
      }
    }
  }

  /** Rolling back leaves the configuration as it was, less what was overwritten. */
  lemma RolledBack(before: Config, c: Config, calls: seq<Resource>, mine: set<Resource>)
    requires Tracking(before, c, calls, mine)
    ensures c - Elements(calls) == before - Elements(calls)
    ensures c - Elements(calls) == before <==> forall r :: r in calls ==> r !in before
    ensures (forall r :: r in mine ==> r !in before) ==> c - Elements(calls) == before
  {
    var c' := c - Elements(calls);
    assert c' == before - Elements(calls);
    if c' == before {
      forall r | r in calls ensures r !in before {
        assert r in Elements(calls);
      }
    }
  }

  /** The attempt overwrites the main-table route of another pod that has the same address;
      rolling back then removes the route altogether. */
  lemma OverwrittenRouteIsLost(address: nat, other: nat, own: nat)
    requires other != own
    ensures var route := Route(Vrf(MAIN_TABLE, V6), Net(address));
            var before := map[route := ViaInterface(other, None)];
            var c := before[route := ViaInterface(own, None)];
            && Tracking(before, c, [route], MainRoutes([Address(V6, address)]))
            && c - Elements([route]) == map[] && c - Elements([route]) != before
  {
    var route := Route(Vrf(MAIN_TABLE, V6), Net(address));
    assert Address(V6, address) in [Address(V6, address)];
    assert route in [route] && route in Elements([route]);
    var before := map[route := ViaInterface(other, None)];
    assert route in before;
  }

  // ----- What a pod consists of -----

  /** Default routes lead to the common pod table; the reverse-path checks look into the
      pod's reverse-path tables; routes to an address lead to its interface, those in a
      reverse-path table by way of an address of the pod. */
  ghost predicate Right(addresses: seq<Address>, tun: Option<nat>, rpfVrfs: map<Family, Vrf>, r: Resource, s: Setting) {
    match r
    case Table(_) => s == Present
    case Interface(_) => s == Present
    case Urpf(_, f) => f in rpfVrfs && s == ViaTable(rpfVrfs[f].id)
    case Route(t, dst) =>
      if !dst.Net? then s == ViaTable(2)
      else if t !in rpfVrfs.Values then tun.Some? && s == ViaInterface(tun.value, None)
      else s.ViaInterface? && tun == Some(s.swIf) && s.gw.Some? && Address(t.family, s.gw.value) in addresses
  }

  ghost predicate Aimed(c: Config, made: set<Resource>, addresses: seq<Address>, tun: Option<nat>,
                        rpfVrfs: map<Family, Vrf>) {
    forall r :: r in made ==> r in c && Right(addresses, tun, rpfVrfs, r, c[r])
  }

  /** The route of one of the first n addresses: in the main table, or in the pod's own. */
  ghost predicate IsPodRoute(r: Resource, addresses: seq<Address>, n: nat, inPodVrf: bool, vrfs: map<Family, Vrf>)
    requires n <= |addresses|
  {
    exists j :: 0 <= j < n && RoutesTo(r, addresses[j], inPodVrf, vrfs)
  }

  ghost predicate RoutesTo(r: Resource, a: Address, inPodVrf: bool, vrfs: map<Family, Vrf>) {
    && r.Route? && r.dst == Net(a.value)
    && if inPodVrf then a.family in vrfs && r.table == vrfs[a.family] else r.table == Vrf(0, a.family)
  }

  /** A reverse-path route of one of the first n addresses: to itself or a source it may spoof. */
  ghost predicate IsRpfRoute(r: Resource, addresses: seq<Address>, n: nat, spoofed: seq<nat>, rpfVrfs: map<Family, Vrf>)
    requires n <= |addresses|
  {
    exists j :: 0 <= j < n && Allows(r, addresses[j], spoofed, rpfVrfs)
  }

  ghost predicate Allows(r: Resource, a: Address, spoofed: seq<nat>, rpfVrfs: map<Family, Vrf>) {
    && r.Route? && a.family in rpfVrfs && r.table == rpfVrfs[a.family]
    && r.dst.Net? && (r.dst.address == a.value || r.dst.address in spoofed)
  }

  ghost predicate RoutesAdded(m0: set<Resource>, m1: set<Resource>, addresses: seq<Address>, n: nat, inPodVrf: bool,
                              vrfs: map<Family, Vrf>)
    requires n <= |addresses|
  {
    forall r :: r in m1 <==> r in m0 || IsPodRoute(r, addresses, n, inPodVrf, vrfs)
  }

  ghost predicate RouteAdded(m0: set<Resource>, m1: set<Resource>, a: Address, inPodVrf: bool, vrfs: map<Family, Vrf>) {
    forall r :: r in m1 <==> r in m0 || RoutesTo(r, a, inPodVrf, vrfs)
  }

  lemma RoutesAddedNext(m0: set<Resource>, m1: set<Resource>, m2: set<Resource>, addresses: seq<Address>, i: nat,
                        inPodVrf: bool, vrfs: map<Family, Vrf>)
    requires i < |addresses| && RoutesAdded(m0, m1, addresses, i, inPodVrf, vrfs)
    requires RouteAdded(m1, m2, addresses[i], inPodVrf, vrfs)
    ensures RoutesAdded(m0, m2, addresses, i + 1, inPodVrf, vrfs)
  {
  }

  ghost predicate RpfAdded(m0: set<Resource>, m1: set<Resource>, addresses: seq<Address>, n: nat, spoofed: seq<nat>,
                           rpfVrfs: map<Family, Vrf>)
    requires n <= |addresses|
  {
    forall r :: r in m1 <==> r in m0 || IsRpfRoute(r, addresses, n, spoofed, rpfVrfs)
  }

  ghost predicate RpfOfAdded(m0: set<Resource>, m1: set<Resource>, a: Address, spoofed: seq<nat>,
                             rpfVrfs: map<Family, Vrf>) {
    forall r :: r in m1 <==> r in m0 || Allows(r, a, spoofed, rpfVrfs)
  }

  lemma RpfAddedNext(m0: set<Resource>, m1: set<Resource>, m2: set<Resource>, addresses: seq<Address>, i: nat,
                     spoofed: seq<nat>, rpfVrfs: map<Family, Vrf>)
    requires i < |addresses| && RpfAdded(m0, m1, addresses, i, spoofed, rpfVrfs)
    requires RpfOfAdded(m1, m2, addresses[i], spoofed, rpfVrfs)
    ensures RpfAdded(m0, m2, addresses, i + 1, spoofed, rpfVrfs)
  {
  }

  lemma RpfOfAddedNext(m0: set<Resource>, m1: set<Resource>, a: Address, spoofed: seq<nat>, j: nat,
                       rpfVrfs: map<Family, Vrf>)
    requires j < |spoofed| && a.family in rpfVrfs && RpfOfAdded(m0, m1, a, spoofed[..j], rpfVrfs)
    ensures RpfOfAdded(m0, m1 + {Route(rpfVrfs[a.family], Net(spoofed[j]))}, a, spoofed[..j + 1], rpfVrfs)
  {
    assert spoofed[..j + 1] == spoofed[..j] + [spoofed[j]];
  }

  /** Tables, and default routes in the first n of them. */
  ghost predicate DefaultsAdded(m0: set<Resource>, m1: set<Resource>, m: map<Family, Vrf>, n: nat)
    requires n <= |FAMILIES| && V4 in m && V6 in m
  {
    forall r :: r in m1 <==>
      || r in m0 || (r.Table? && r.vrf in m.Values)
      || (IsDefault(r) && exists j :: 0 <= j < n && r.table == m[FAMILIES[j]])
  }

  lemma DefaultsAddedNext(m0: set<Resource>, m1: set<Resource>, m: map<Family, Vrf>, i: nat)
    requires i < |FAMILIES| && V4 in m && V6 in m && DefaultsAdded(m0, m1, m, i)
    ensures
      var v := m[FAMILIES[i]];
      DefaultsAdded(m0, m1 + {Route(v, Default), Route(v, MulticastDefault)}, m, i + 1)
  {
  }

  lemma DefaultsAddedAll(m0: set<Resource>, m1: set<Resource>, m: map<Family, Vrf>)
    requires V4 in m && V6 in m && DefaultsAdded(m0, m1, m, |FAMILIES|)
    ensures forall r :: r in m1 <==> r in m0 || IsVrfPart(r, m)
  {
    BothFamilies(m);
  }

  /** Everything a pod consists of, and nothing else. */
  ghost predicate Needed(r: Resource, addresses: seq<Address>, spoofed: seq<nat>, inPodVrf: bool, swIf: nat,
                         vrfs: map<Family, Vrf>, rpfVrfs: map<Family, Vrf>) {
    match r
    case Table(v) => v in vrfs.Values || v in rpfVrfs.Values
    case Interface(i) => i == swIf
    case Urpf(i, _) => i == swIf
    case Route(t, dst) =>
      if !dst.Net? then t in vrfs.Values
      else IsPodRoute(r, addresses, |addresses|, inPodVrf, vrfs) ||
           IsRpfRoute(r, addresses, |addresses|, spoofed, rpfVrfs)
  }

  ghost predicate NewTable(v: Vrf, f: Family, before: Config) {
    v.family == f && v.id != 0 && Table(v) !in before
  }

  /** Tables, checks and routes of the strict reverse-path check. */
  ghost predicate ChecksAdded(m0: set<Resource>, m1: set<Resource>, addresses: seq<Address>, spoofed: seq<nat>,
                              swIf: nat, rpfVrfs: map<Family, Vrf>) {
    forall r :: r in m1 <==>
      || r in m0 || (r.Table? && r.vrf in rpfVrfs.Values) || (r.Urpf? && r.checked == swIf)
      || IsRpfRoute(r, addresses, |addresses|, spoofed, rpfVrfs)
  }

  ghost predicate Begun(made: set<Resource>, swIf: nat, vrfs: map<Family, Vrf>) {
    forall r :: r in made <==> IsVrfPart(r, vrfs) || r == Interface(swIf)
  }

  ghost predicate NoChecks(made: set<Resource>) {
    forall r :: r in made ==> !r.Urpf?
  }

  lemma AllOfIt(m2: set<Resource>, m3: set<Resource>, m4: set<Resource>, addresses: seq<Address>, spoofed: seq<nat>,
                inPodVrf: bool, swIf: nat, vrfs: map<Family, Vrf>, rpfVrfs: map<Family, Vrf>)
    requires Begun(m2, swIf, vrfs)
    requires RoutesAdded(m2, m3, addresses, |addresses|, inPodVrf, vrfs)
    requires ChecksAdded(m3, m4, addresses, spoofed, swIf, rpfVrfs) && NoneIn(rpfVrfs, m3)
    ensures forall r :: r in m4 <==> Needed(r, addresses, spoofed, inPodVrf, swIf, vrfs, rpfVrfs)
    ensures vrfs.Values !! rpfVrfs.Values
  {
    forall v | v in vrfs.Values ensures v !in rpfVrfs.Values {
      assert Table(v) in m3;
    }
  }

  /** One table per family, none of which was there. */
  ghost predicate NewTables(m: map<Family, Vrf>, before: Config) {
    V4 in m && V6 in m && forall f :: f in m ==> NewTable(m[f], f, before)
  }

  /** Neither the tables nor any route in them are among these. */
  ghost predicate NoneIn(m: map<Family, Vrf>, made: set<Resource>) {
    forall r :: r in made ==> (r.Route? ==> r.table !in m.Values) && (r.Table? ==> r.vrf !in m.Values)
  }

  lemma OneTableMore(m: map<Family, Vrf>, f: Family, v: Vrf)
    requires f !in m
    ensures m[f := v].Values == m.Values + {v}
  {
    assert f in m[f := v];
    forall x | x in m.Values ensures x in m[f := v].Values {
      var g :| g in m && m[g] == x;
      assert m[f := v][g] == x;
    }
  }

  class PodCreation {
    const vpp: Vpp
    const stack: CleanupStack
    const addresses: seq<Address>
    const spoofed: seq<nat>
    /** Routes go to the pod's own table instead of the main one. */
    const inPodVrf: bool
    var vrfs: map<Family, Vrf>
    var rpfVrfs: map<Family, Vrf>
    ghost const before: Config
    /** What the attempt has created so far, and the interface among it. */
    ghost var made: set<Resource>
    ghost var tun: Option<nat>

    /** The main-table routes that may be overwritten. */
    ghost function Mine(): set<Resource> {
      if inPodVrf then {} else MainRoutes(addresses)
    }

    ghost predicate Tracked()
      reads this, vpp, stack
    {
      && WellFormed(before)
      && Tracking(before, vpp.config, stack.calls, Mine())
      && (forall r :: r in made <==> r in stack.calls)
      && Aimed(vpp.config, made, addresses, tun, rpfVrfs)
      && (forall f :: f in vrfs ==> Table(vrfs[f]) in made)
      && (forall f :: f in rpfVrfs ==> Table(rpfVrfs[f]) in made)
    }

    constructor (vpp: Vpp, addresses: seq<Address>, spoofed: seq<nat>, inPodVrf: bool)
      requires WellFormed(vpp.config)
      ensures this.vpp == vpp && this.addresses == addresses && this.spoofed == spoofed && this.inPodVrf == inPodVrf
      ensures fresh(stack) && stack.calls == [] && made == {} && tun == None && vrfs == map[] && rpfVrfs == map[]
      ensures before == vpp.config && Tracked()
    {
      this.vpp, this.addresses, this.spoofed, this.inPodVrf := vpp, addresses, spoofed, inPodVrf;
      vrfs, rpfVrfs, made, tun := map[], map[], {}, None;
      stack := new CleanupStack();
      before := vpp.config;
    }

    /** A route or check in something the attempt created itself was not there before. */
    lemma OwnIsNew(r: Resource)
      requires Tracked()
      requires (r.Route? && Table(r.table) in made) || (r.Urpf? && Interface(r.checked) in made)
      ensures r in before ==> r in Mine()
    {
    }

    /** Adds a resource and pushes its inverse. */
    method AddPushed(r: Resource, s: Setting) returns (ok: bool)
      requires Tracked() && !r.Table? && (r in before ==> r in Mine()) && Right(addresses, tun, rpfVrfs, r, s)
      modifies this`made, vpp, stack
      ensures Tracked() && made == if ok then old(made) + {r} else old(made)
      ensures ok ==> vpp.config == old(vpp.config)[r := s]
      ensures vpp.reliable && HasPlace(r, old(vpp.config)) ==> ok
    {
      ok := vpp.Add(r, s);
      if ok {
        Pushed(before, old(vpp.config), stack.calls, Mine(), r, s);
        stack.Push(r);
        made := made + {r};
      }
    }

    method AllocatePushed(f: Family) returns (ok: bool, v: Vrf)
      requires Tracked()
      modifies this`made, vpp, stack
      ensures Tracked() && made == if ok then old(made) + {Table(v)} else old(made)
      ensures ok ==> v.family == f && v.id != 0 && Table(v) !in before && Table(v) !in old(made)
      ensures ok ==> forall r :: r in old(made) && r.Route? ==> r.table != v
      ensures vpp.reliable ==> ok
    {
      ok, v := vpp.AllocateVrf(f);
      if ok {
        Pushed(before, old(vpp.config), stack.calls, Mine(), Table(v), Present);
        stack.Push(Table(v));
        made := made + {Table(v)};
      }
    }

    /** One new table per address family. */
    method AllocateBoth() returns (ok: bool, m: map<Family, Vrf>)
      requires Tracked()
      modifies this`made, vpp, stack
      ensures Tracked() && NoneIn(m, old(made)) && (ok ==> NewTables(m, before))
      ensures forall r :: r in made <==> r in old(made) || (r.Table? && r.vrf in m.Values)
      ensures vpp.reliable ==> ok
    {
      m := map[];
      for i := 0 to |FAMILIES|
        invariant Tracked() && old(made) <= made && NoneIn(m, old(made))
        invariant forall f :: f in m <==> exists j :: 0 <= j < i && FAMILIES[j] == f
        invariant forall f :: f in m ==> NewTable(m[f], f, before)
        invariant forall r :: r in made <==> r in old(made) || (r.Table? && r.vrf in m.Values)
      {
        var v;
        ghost var was, sofar := m, made;
        ok, v := AllocatePushed(FAMILIES[i]);
        if !ok { return; }
        m := m[FAMILIES[i] := v];
        OneTableMore(was, FAMILIES[i], v);
      }
      ok := true;
      assert FAMILIES[0] == V4 && FAMILIES[1] == V6;
    }

    method AddDefaults(v: Vrf) returns (ok: bool)
      requires Tracked() && Table(v) in made
      modifies this`made, vpp, stack
      ensures Tracked() && old(made) <= made
      ensures ok ==> made == old(made) + {Route(v, Default), Route(v, MulticastDefault)}
      ensures vpp.reliable ==> ok
    {
      OwnIsNew(Route(v, Default));
      ok := AddPushed(Route(v, Default), ViaTable(POD_VRF_INDEX));
      if !ok { return; }
      OwnIsNew(Route(v, MulticastDefault));
      ok := AddPushed(Route(v, MulticastDefault), ViaTable(POD_VRF_INDEX));
    }

    method CreatePodVrf() returns (ok: bool)
      requires Tracked() && vrfs == map[]
      modifies this`vrfs, this`made, vpp, stack
      ensures Tracked() && (ok ==> NewTables(vrfs, before))
      ensures ok ==> forall r :: r in made <==> r in old(made) || IsVrfPart(r, vrfs)
      ensures vpp.reliable ==> ok
    {
      var m;
      ok, m := AllocateBoth();
      vrfs := m;
      if !ok { return; }
      for i := 0 to |FAMILIES|
        invariant Tracked() && vrfs == m && DefaultsAdded(old(made), made, m, i)
      {
        DefaultsAddedNext(old(made), made, m, i);
        ok := AddDefaults(m[FAMILIES[i]]);
        if !ok { return; }
      }
      ok := true;
      DefaultsAddedAll(old(made), made, m);
    }

    /** Stands for the interface driver: it creates and pushes the inverse. */
    method CreateTun() returns (ok: bool, swIf: nat)
      requires Tracked() && tun == None
      modifies this`made, this`tun, vpp, stack
      ensures Tracked() && (ok ==> tun == Some(swIf) && Interface(swIf) !in before)
      ensures made == if ok then old(made) + {Interface(swIf)} else old(made)
      ensures vpp.reliable ==> ok
    {
      ok, swIf := vpp.CreateInterface();
      if ok {
        Pushed(before, old(vpp.config), stack.calls, Mine(), Interface(swIf), Present);
        stack.Push(Interface(swIf));
        made, tun := made + {Interface(swIf)}, Some(swIf);
      }
    }

    method RouteAddress(a: Address, swIf: nat) returns (ok: bool)
      requires Tracked() && V4 in vrfs && V6 in vrfs && rpfVrfs == map[] && a in addresses && tun == Some(swIf)
      modifies this`made, vpp, stack
      ensures Tracked()
      ensures ok ==> RouteAdded(old(made), made, a, inPodVrf, vrfs)
      ensures vpp.reliable ==> ok
    {
      assert a.family.V4? || a.family.V6?;
      var table := Vrf(MAIN_TABLE, a.family);
      if inPodVrf {
        table := vrfs[a.family];
        OwnIsNew(Route(table, Net(a.value)));
      }
      ok := AddPushed(Route(table, Net(a.value)), ViaInterface(swIf, None));
    }

    method RoutePodInterface(swIf: nat) returns (ok: bool)
      requires Tracked() && V4 in vrfs && V6 in vrfs && rpfVrfs == map[] && tun == Some(swIf)
      modifies this`made, vpp, stack
      ensures Tracked()
      ensures ok ==> RoutesAdded(old(made), made, addresses, |addresses|, inPodVrf, vrfs)
      ensures vpp.reliable ==> ok
    {
      for i := 0 to |addresses|
        invariant Tracked() && RoutesAdded(old(made), made, addresses, i, inPodVrf, vrfs)
      {
        ghost var sofar := made;
        ok := RouteAddress(addresses[i], swIf);
        if !ok { return; }
        RoutesAddedNext(old(made), sofar, made, addresses, i, inPodVrf, vrfs);
      }
      ok := true;
    }

    method AddRpfRoute(a: Address, dst: nat, swIf: nat) returns (ok: bool)
      requires Tracked() && a in addresses && a.family in rpfVrfs && rpfVrfs[a.family].family == a.family
      requires tun == Some(swIf)
      modifies this`made, vpp, stack
      ensures Tracked()
      ensures made == if ok then old(made) + {Route(rpfVrfs[a.family], Net(dst))} else old(made)
      ensures vpp.reliable ==> ok
    {
      var v := rpfVrfs[a.family];
      OwnIsNew(Route(v, Net(dst)));
      ok := AddPushed(Route(v, Net(dst)), ViaInterface(swIf, Some(a.value)));
    }

    /** The reverse-path routes of one address. */
    method AddRpfRoutesOf(a: Address, swIf: nat) returns (ok: bool)
      requires Tracked() && a in addresses && a.family in rpfVrfs && rpfVrfs[a.family].family == a.family
      requires tun == Some(swIf)
      modifies this`made, vpp, stack
      ensures Tracked()
      ensures ok ==> RpfOfAdded(old(made), made, a, spoofed, rpfVrfs)
      ensures vpp.reliable ==> ok
    {
      ok := AddRpfRoute(a, a.value, swIf);
      if !ok { return; }
      for j := 0 to |spoofed|
        invariant Tracked() && RpfOfAdded(old(made), made, a, spoofed[..j], rpfVrfs)
      {
        RpfOfAddedNext(old(made), made, a, spoofed, j, rpfVrfs);
        ok := AddRpfRoute(a, spoofed[j], swIf);
        if !ok { return; }
      }
      assert spoofed[..|spoofed|] == spoofed;
      ok := true;
    }

    method AddRpfRoutes(swIf: nat) returns (ok: bool)
      requires Tracked() && tun == Some(swIf) && NewTables(rpfVrfs, before)
      modifies this`made, vpp, stack
      ensures Tracked()
      ensures ok ==> RpfAdded(old(made), made, addresses, |addresses|, spoofed, rpfVrfs)
      ensures vpp.reliable ==> ok
    {
      for i := 0 to |addresses|
        invariant Tracked() && RpfAdded(old(made), made, addresses, i, spoofed, rpfVrfs)
      {
        assert addresses[i].family.V4? || addresses[i].family.V6?;
        ghost var sofar := made;
        ok := AddRpfRoutesOf(addresses[i], swIf);
        if !ok { return; }
        RpfAddedNext(old(made), sofar, made, addresses, i, spoofed, rpfVrfs);
      }
      ok := true;
    }

    /** Points the reverse-path check of each family at the pod's own table. */
    method SetChecks(swIf: nat) returns (ok: bool)
      requires Tracked() && Interface(swIf) in made && V4 in rpfVrfs && V6 in rpfVrfs
      modifies this`made, vpp, stack
      ensures Tracked()
      ensures ok ==> forall r :: r in made <==> r in old(made) || (r.Urpf? && r.checked == swIf)
      ensures vpp.reliable ==> ok
    {
      for i := 0 to |FAMILIES|
        invariant Tracked() && Interface(swIf) in made
        invariant forall r :: r in made <==>
                    r in old(made) || exists j :: 0 <= j < i && r == Urpf(swIf, FAMILIES[j])
      {
        OwnIsNew(Urpf(swIf, FAMILIES[i]));
        ok := AddPushed(Urpf(swIf, FAMILIES[i]), ViaTable(rpfVrfs[FAMILIES[i]].id));
        if !ok { return; }
      }
      ok := true;
      assert FAMILIES[0] == V4 && FAMILIES[1] == V6;
    }

    /** New tables for the reverse-path check; nothing made so far is in them. */
    method CreatePodRpfVrf() returns (ok: bool)
      requires Tracked() && rpfVrfs == map[] && NoChecks(made)
      modifies this`rpfVrfs, this`made, vpp, stack
      ensures Tracked() && NoneIn(rpfVrfs, old(made)) && (ok ==> NewTables(rpfVrfs, before))
      ensures forall r :: r in made <==> r in old(made) || (r.Table? && r.vrf in rpfVrfs.Values)
      ensures vpp.reliable ==> ok
    {
      var m;
      ok, m := AllocateBoth();
      rpfVrfs := m;
    }

    method ActivateStrictRpf(swIf: nat) returns (ok: bool)
      requires Tracked() && Interface(swIf) in made && tun == Some(swIf)
      requires rpfVrfs == map[] && NoChecks(made)
      modifies this`rpfVrfs, this`made, vpp, stack
      ensures Tracked() && NoneIn(rpfVrfs, old(made)) && (ok ==> NewTables(rpfVrfs, before))
      ensures ok ==> ChecksAdded(old(made), made, addresses, spoofed, swIf, rpfVrfs)
      ensures vpp.reliable ==> ok
    {
      ok := CreatePodRpfVrf();
      if !ok { return; }
      ok := AddRpfRoutes(swIf);
      if !ok { return; }
      ok := SetChecks(swIf);
    }

    /** The pod's tables and its interface. */
    method Begin() returns (ok: bool, swIf: nat)
      requires Tracked() && made == {} && tun == None && vrfs == map[]
      modifies this`vrfs, this`made, this`tun, vpp, stack
      ensures Tracked() && (ok ==> tun == Some(swIf) && Interface(swIf) !in before && NewTables(vrfs, before))
      ensures ok ==> Begun(made, swIf, vrfs)
      ensures vpp.reliable ==> ok
    {
      swIf := 0;
      ok := CreatePodVrf();
      if !ok { return; }
      ok, swIf := CreateTun();
    }

    /** On success exactly what an L3 pod needs is created. */
    method Realize() returns (ok: bool, swIf: nat)
      requires Tracked() && made == {} && tun == None && vrfs == map[] && rpfVrfs == map[]
      modifies this`vrfs, this`rpfVrfs, this`made, this`tun, vpp, stack
      ensures Tracked()
      ensures ok ==> tun == Some(swIf) && Interface(swIf) !in before
      ensures ok ==> NewTables(vrfs, before) && NewTables(rpfVrfs, before) && vrfs.Values !! rpfVrfs.Values
      ensures ok ==> forall r :: r in made <==> Needed(r, addresses, spoofed, inPodVrf, swIf, vrfs, rpfVrfs)
      ensures vpp.reliable ==> ok
    {
      ok, swIf := Begin();
      if !ok { return; }
      ghost var m2 := made;
      ok := RoutePodInterface(swIf);
      if !ok { return; }
      ghost var m3 := made;
      ok := ActivateStrictRpf(swIf);
      if ok { AllOfIt(m2, m3, made, addresses, spoofed, inPodVrf, swIf, vrfs, rpfVrfs); }
    }
  }

  ghost predicate IsDefault(r: Resource) {
    r.Route? && !r.dst.Net?
  }

  /** A table of the pod, or a default route in it. */
  ghost predicate IsVrfPart(r: Resource, vrfs: map<Family, Vrf>) {
    (r.Table? && r.vrf in vrfs.Values) || (IsDefault(r) && r.table in vrfs.Values)
  }

  lemma BothFamilies(m: map<Family, Vrf>)
    requires V4 in m && V6 in m
    ensures forall v :: v in m.Values <==> exists j :: 0 <= j < |FAMILIES| && v == m[FAMILIES[j]]
  {
    assert FAMILIES[0] == V4 && FAMILIES[1] == V6;
    forall v | v in m.Values ensures exists j :: 0 <= j < |FAMILIES| && v == m[FAMILIES[j]] {
      var f :| f in m && m[f] == v;
      assert f == FAMILIES[0] || f == FAMILIES[1];
    }
  }

  /** The pod is configured with exactly what it needs, in tables and on an interface of its own,
      and leads where it should; everything else is as before. */
  ghost predicate UpAndChecked(before: Config, c: Config, addresses: seq<Address>, spoofed: seq<nat>, inPodVrf: bool,
                               swIf: nat, vrfs: map<Family, Vrf>, rpfVrfs: map<Family, Vrf>) {
    && Interface(swIf) !in before
    && NewTables(vrfs, before) && NewTables(rpfVrfs, before) && vrfs.Values !! rpfVrfs.Values
    && forall r ::
         if Needed(r, addresses, spoofed, inPodVrf, swIf, vrfs, rpfVrfs)
         then r in c && Right(addresses, Some(swIf), rpfVrfs, r, c[r])
         else (r in c <==> r in before) && (r in c ==> c[r] == before[r])
  }

  /** A creation that fails anywhere, or whose binding cannot be published, is rolled back:
      if the inverse calls succeed VPP is as before, except that a main-table route of the
      pod's addresses that was overwritten is gone. Whatever fails, nothing that was there
      before changes except those routes. */
  method CreatePod(vpp: Vpp, addresses: seq<Address>, spoofed: seq<nat>, inPodVrf: bool, published: bool)
    returns (ok: bool, ghost overwritten: set<Resource>)
    requires WellFormed(vpp.config)
    modifies vpp
    ensures overwritten <= MainRoutes(addresses) * old(vpp.config).Keys && (inPodVrf ==> overwritten == {})
    ensures forall r :: r in old(vpp.config) && (inPodVrf || r !in MainRoutes(addresses)) ==>
              r in vpp.config && vpp.config[r] == old(vpp.config)[r]
    ensures vpp.reliable && published ==> ok
    ensures ok ==> published
    ensures ok ==> exists swIf, vrfs, rpfVrfs ::
              && UpAndChecked(old(vpp.config), vpp.config, addresses, spoofed, inPodVrf, swIf, vrfs, rpfVrfs)
              && Reached(vpp.config, addresses, inPodVrf, swIf, vrfs)
    ensures !ok && vpp.undoes ==> vpp.config == old(vpp.config) - overwritten
    ensures !ok && vpp.undoes ==> (vpp.config == old(vpp.config) <==> overwritten == {})
  {
    var pod := new PodCreation(vpp, addresses, spoofed, inPodVrf);
    var swIf;
    ok, swIf := pod.Realize();
    ok := ok && published;
    overwritten := Elements(pod.stack.calls) * old(vpp.config).Keys;
    if ok {
      assert UpAndChecked(pod.before, vpp.config, addresses, spoofed, inPodVrf, swIf, pod.vrfs, pod.rpfVrfs);
      UpIsReached(pod.before, vpp.config, addresses, spoofed, inPodVrf, swIf, pod.vrfs, pod.rpfVrfs);
    } else {
      RolledBack(pod.before, vpp.config, pod.stack.calls, pod.Mine());
      pod.stack.Execute(vpp);
      Remainder(old(vpp.config), pod.stack.calls);
    }
  }

  /** Every address of the pod is routed to the interface: in the main table, unless the pod
      has its routes in these tables of its own. */
  ghost predicate Reached(c: Config, addresses: seq<Address>, inPodVrf: bool, swIf: nat, own: map<Family, Vrf>) {
    forall a :: a in addresses ==>
      && (inPodVrf ==> a.family in own && own[a.family].family == a.family && own[a.family].id != 0)
      && RoutedVia(c, Route(if inPodVrf then own[a.family] else Vrf(0, a.family), Net(a.value)), swIf)
  }

  ghost predicate RoutedVia(c: Config, r: Resource, swIf: nat) {
    Interface(swIf) in c && r in c && c[r] == ViaInterface(swIf, None)
  }

  lemma UpIsReached(before: Config, c: Config, addresses: seq<Address>, spoofed: seq<nat>, inPodVrf: bool, swIf: nat,
                    vrfs: map<Family, Vrf>, rpfVrfs: map<Family, Vrf>)
    requires UpAndChecked(before, c, addresses, spoofed, inPodVrf, swIf, vrfs, rpfVrfs)
    ensures Reached(c, addresses, inPodVrf, swIf, vrfs)
  {
    assert Needed(Interface(swIf), addresses, spoofed, inPodVrf, swIf, vrfs, rpfVrfs);
    forall a | a in addresses
      ensures inPodVrf ==> a.family in vrfs
      ensures RoutedVia(c, Route(if inPodVrf then vrfs[a.family] else Vrf(0, a.family), Net(a.value)), swIf)
    {
      assert a.family.V4? || a.family.V6?;
      var r := Route(if inPodVrf then vrfs[a.family] else Vrf(0, a.family), Net(a.value));
      var j :| 0 <= j < |addresses| && addresses[j] == a;
      assert RoutesTo(r, addresses[j], inPodVrf, vrfs);
      assert Needed(r, addresses, spoofed, inPodVrf, swIf, vrfs, rpfVrfs);
      assert r.table !in rpfVrfs.Values;
    }
  }

  lemma Remainder(c: Config, calls: seq<Resource>)
    ensures c - Elements(calls) == c - Elements(calls) * c.Keys
    ensures c - Elements(calls) == c <==> Elements(calls) * c.Keys == {}
  {
    assert c - Elements(calls) == c - Elements(calls) * c.Keys;
    if c - Elements(calls) == c {
      forall r | r in c ensures r !in Elements(calls) {
        assert r in c - Elements(calls);
      }
    }
  }
}
