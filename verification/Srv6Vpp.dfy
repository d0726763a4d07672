/**
  VPP as the SRv6 provider sees it: a table of SR policies, a steering table, the
  drop routes and the FIB used for SID reachability. Every call may fail; a failed
  elementary call changes nothing. The composite calls of vpplink (replace a policy,
  add a policy with several segment lists) are built from the elementary ones.
 */
module Srv6Vpp {
  import opened Srv6Types
  import Environment
  import opened CandidateSelection

  /** AlreadyGone stands for the replies VPP gives when the object is absent. */
  datatype Reply = Ok | AlreadyGone | Failed

  datatype Steer = Steer(key: SteerKey, bsid: IP6)

  /** The dump lists every steering entry, in some order. */
  ghost predicate ListsSteering(list: seq<Steer>, steering: map<SteerKey, IP6>) {
    && (forall st :: st in list ==> st.key in steering && steering[st.key] == st.bsid)
    && (forall k :: k in steering ==> Steer(k, steering[k]) in list)
  }

  /** The dump names every policy by its BSID; VPP may normalize the other fields. */
  ghost predicate ListsPolicies(list: seq<SrPolicy>, policies: map<IP6, SrPolicy>) {
    && (forall p :: p in list ==> p.bsid in policies)
    && (forall b :: b in policies ==> exists p :: p in list && p.bsid == b)
  }

  /** What a failed replacement may leave under the BSID: nothing, the old policy,
      or the new one with only its first lists. */
  ghost predicate PartialReplace(before: map<IP6, SrPolicy>, p: SrPolicy, after: map<IP6, SrPolicy>) {
    && after - {p.bsid} == before - {p.bsid}
    && (p.bsid in after ==>
          || (p.bsid in before && after[p.bsid] == before[p.bsid])
          || (exists n :: 0 < n < |p.sidLists| && after[p.bsid] == p.(sidLists := p.sidLists[..n])))
  }

  class Vpp {
    var policies: map<IP6, SrPolicy>
    var steering: map<SteerKey, IP6>
    var drops: set<SteerKey>
    /** Number of state-changing calls issued so far. */
    var writes: nat
    /** What a lookup of a SID in the main table answers. */
    var fib: Fib
    /** When set, no call fails unless VPP's own rules reject it. */
    const reliable: bool

    constructor (reliable: bool, fib: Fib)
      ensures policies == map[] && steering == map[] && drops == {} && writes == 0
      ensures this.reliable == reliable && this.fib == fib
    {
      policies, steering, drops, writes := map[], map[], {}, 0;
      this.reliable := reliable;
      this.fib := fib;
    }

    // ----- Elementary calls -----

    method SrPolicyAdd(p: SrPolicy, first: SidList) returns (ok: bool)
      modifies this`policies, this`writes
      ensures ok ==> p.bsid !in old(policies) && policies == old(policies)[p.bsid := p.(sidLists := [first])]
      ensures !ok ==> policies == old(policies)
      ensures reliable && p.bsid !in old(policies) ==> ok
      ensures writes > old(writes)
    {
      writes := writes + 1;
      ok := Environment.Attempt(reliable);
      ok := ok && p.bsid !in policies;
      if ok {
        policies := policies[p.bsid := p.(sidLists := [first])];
      }
    }

    method SrPolicyModAdd(bsid: IP6, list: SidList) returns (ok: bool)
      modifies this`policies, this`writes
      ensures ok ==> bsid in old(policies)
      ensures ok ==>
                var p := old(policies)[bsid]; policies == old(policies)[bsid := p.(sidLists := p.sidLists + [list])]
      ensures !ok ==> policies == old(policies)
      ensures reliable && bsid in old(policies) ==> ok
      ensures writes > old(writes)
    {
      writes := writes + 1;
      ok := Environment.Attempt(reliable);
      ok := ok && bsid in policies;
      if ok {
        var p := policies[bsid];
        policies := policies[bsid := p.(sidLists := p.sidLists + [list])];
      }
    }

    method DelSRv6Policy(bsid: IP6) returns (r: Reply)
      modifies this`policies, this`writes
      ensures r.Ok? ==> policies == old(policies) - {bsid}
      ensures r.AlreadyGone? ==> bsid !in old(policies)
      ensures !r.Ok? ==> policies == old(policies)
      ensures reliable ==> !r.Failed? && (r.Ok? <==> bsid in old(policies))
      ensures writes > old(writes)
    {
      writes := writes + 1;
      var ok := Environment.Attempt(reliable);
      if !ok {
        return Failed;
      }
      if bsid !in policies {
        return AlreadyGone;
      }
      policies := policies - {bsid};
      r := Ok;
    }

    method ListSRv6Policies() returns (r: Option<seq<SrPolicy>>)
      ensures r.Some? ==> ListsPolicies(r.value, policies)
      ensures reliable ==> r.Some?
    {
      var ok := Environment.Attempt(reliable);
      if !ok {
        return None;
      }
      var todo := policies.Keys;
      var list: seq<SrPolicy> := [];
      while todo != {}
        invariant todo <= policies.Keys
        invariant forall p :: p in list ==> p.bsid in policies
        invariant forall b :: b in policies ==> b in todo || exists p :: p in list && p.bsid == b
      {
        var b :| b in todo;
        var dumped: SrPolicy := *;
        dumped := dumped.(bsid := b);
        ghost var before := list;
        list := list + [dumped];
        assert dumped in list && forall p :: p in before ==> p in list;
        todo := todo - {b};
      }
      r := Some(list);
    }

    method AddSRv6Steering(st: Steer) returns (r: Reply)
      modifies this`steering, this`writes
      ensures r.Ok? ==> steering == old(steering)[st.key := st.bsid]
      ensures !r.Ok? ==> steering == old(steering)
      ensures reliable ==> r.Ok?
      ensures writes > old(writes)
    {
      writes := writes + 1;
      var ok := Environment.Attempt(reliable);
      if !ok {
        return Failed;
      }
      steering := steering[st.key := st.bsid];
      r := Ok;
    }

    method DelSRv6Steering(st: Steer) returns (r: Reply)
      modifies this`steering, this`writes
      ensures r.Ok? ==> steering == old(steering) - {st.key}
      ensures r.AlreadyGone? ==> st.key !in old(steering)
      ensures !r.Ok? ==> steering == old(steering)
      ensures reliable ==> !r.Failed? && (r.Ok? <==> st.key in old(steering))
      ensures writes > old(writes)
    {
      writes := writes + 1;
      var ok := Environment.Attempt(reliable);
      if !ok {
        return Failed;
      }
      if st.key !in steering {
        return AlreadyGone;
      }
      steering := steering - {st.key};
      r := Ok;
    }

    method ListSRv6Steering() returns (r: Option<seq<Steer>>)
      ensures r.Some? ==> ListsSteering(r.value, steering)
      ensures reliable ==> r.Some?
    {
      var ok := Environment.Attempt(reliable);
      if !ok {
        return None;
      }
      var todo := steering.Keys;
      var list: seq<Steer> := [];
      while todo != {}
        invariant todo <= steering.Keys
        invariant forall st :: st in list ==> st.key in steering && steering[st.key] == st.bsid
        invariant forall k :: k in steering ==> k in todo || Steer(k, steering[k]) in list
      {
        var k :| k in todo;
        list := list + [Steer(k, steering[k])];
        todo := todo - {k};
      }
      r := Some(list);
    }

    method DropRouteAdd(key: SteerKey) returns (r: Reply)
      modifies this`drops, this`writes
      ensures r.Ok? ==> drops == old(drops) + {key}
      ensures !r.Ok? ==> drops == old(drops)
      ensures reliable ==> r.Ok?
      ensures writes > old(writes)
    {
      writes := writes + 1;
      var ok := Environment.Attempt(reliable);
      if !ok {
        return Failed;
      }
      drops := drops + {key};
      r := Ok;
    }

    method DropRouteDel(key: SteerKey) returns (r: Reply)
      modifies this`drops, this`writes
      ensures r.Ok? ==> drops == old(drops) - {key}
      ensures r.AlreadyGone? ==> key !in old(drops)
      ensures !r.Ok? ==> drops == old(drops)
      ensures reliable ==> !r.Failed?
      ensures writes > old(writes)
    {
      writes := writes + 1;
      var ok := Environment.Attempt(reliable);
      if !ok {
        return Failed;
      }
      if key !in drops {
        return AlreadyGone;
      }
      drops := drops - {key};
      r := Ok;
    }

    // ----- vpplink's composite calls -----

    /** Adds a policy one list at a time; a failed list deletes the policy again. */
    method AddSRv6Policy(p: SrPolicy) returns (ok: bool)
      modifies this`policies, this`writes
      ensures ok ==> p.bsid !in old(policies) && policies == old(policies)[p.bsid := p]
      ensures !ok ==> PartialReplace(old(policies), p, policies)
      ensures reliable && p.bsid !in old(policies) ==> (ok <==> p.sidLists != [] && p.bsid != ZERO_ADDRESS)
      ensures p.sidLists == [] || p.bsid == ZERO_ADDRESS ==> !ok && policies == old(policies)
      ensures writes >= old(writes)
    {
      if |p.sidLists| == 0 || p.bsid == ZERO_ADDRESS {
        return false;
      }
      ok := SrPolicyAdd(p, p.sidLists[0]);
      if !ok {
        return;
      }
      var i := 1;
      assert p.sidLists[..1] == [p.sidLists[0]];
      while i < |p.sidLists|
        invariant 1 <= i <= |p.sidLists|
        invariant ok
        invariant policies == old(policies)[p.bsid := p.(sidLists := p.sidLists[..i])]
        invariant writes >= old(writes)
      {
        ok := SrPolicyModAdd(p.bsid, p.sidLists[i]);
        if !ok {
          var r := DelSRv6Policy(p.bsid);
          assert policies - {p.bsid} == old(policies) - {p.bsid};
          return;
        }
        assert p.sidLists[..i + 1] == p.sidLists[..i] + [p.sidLists[i]];
        i := i + 1;
      }
      assert p.sidLists[..i] == p.sidLists;
    }

    /** Replaces the policy under its BSID. Success installs exactly the given
        policy; failure leaves every other BSID alone and under this one nothing,
        the old policy or a leading part of the new one. */
    method AddModSRv6Policy(p: SrPolicy) returns (ok: bool)
      modifies this`policies, this`writes
      ensures ok ==> policies == old(policies)[p.bsid := p] && p.sidLists != [] && p.bsid != ZERO_ADDRESS
      ensures !ok ==> PartialReplace(old(policies), p, policies)
      ensures reliable ==> (ok <==> p.sidLists != [] && p.bsid != ZERO_ADDRESS)
      ensures p.bsid == ZERO_ADDRESS && p.bsid !in old(policies) ==> policies == old(policies)
      ensures writes >= old(writes)
    {
      var list := ListSRv6Policies();
      if list.None? {
        return false;
      }
      var defined := false;
      for i := 0 to |list.value|
        invariant !defined && forall j :: 0 <= j < i ==> list.value[j].bsid != p.bsid
      {
        if list.value[i].bsid == p.bsid {
          defined := true;
          break;
        }
      }
      if defined {
        var r := DelSRv6Policy(p.bsid);
        if !r.Ok? {
          return false;
        }
      }
      ghost var cleared := policies;
      assert cleared == old(policies) - {p.bsid};
      ok := AddSRv6Policy(p);
      if ok {
        assert policies == old(policies)[p.bsid := p];
      } else {
        assert policies - {p.bsid} == cleared - {p.bsid} == old(policies) - {p.bsid};
      }
    }
  }
}
