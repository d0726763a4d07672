/**
  The pod interface lifecycle service: it creates and destroys pod interfaces, publishes
  each one's binding before it answers, keeps what it published in memory and on disk,
  and after a restart continues from the disk copy or refuses to serve.
 */
module Lifecycle {
  import opened Srv6Types
  import Environment
  import opened IfBinding
  import opened LifecycleState
  import opened LifecycleReliable

  class Server {
    const plane: Plane
    /** Reading and writing the state file do not fail. */
    const diskReliable: bool
    const primaryInterface: string

    var namespaces: set<string>
    var pods: Specs
    var durable: Specs
    /** The last write of the state file succeeded. */
    var persisted: bool
    var notReady: bool
    /** The pods whose tuples are accounted for; during a rescan also those still to be
        looked at, during an attempt not the one attempted. */
    ghost var stored: Specs
    /** Every state file the service has restarted from was in order at the time. */
    ghost var clean: bool

    constructor (plane: Plane, diskReliable: bool, primaryInterface: string)
      requires plane.Valid() && Linked(plane.table, plane.owners)
      ensures this.plane == plane && this.diskReliable == diskReliable && this.primaryInterface == primaryInterface
      ensures namespaces == {} && pods == map[] && durable == map[] && persisted && clean && !notReady
      ensures Valid()
    {
      this.plane, this.diskReliable, this.primaryInterface := plane, diskReliable, primaryInterface;
      namespaces, pods, durable, stored, persisted, clean, notReady := {}, map[], map[], map[], true, true, false;
    }

    /** The binding table is a partial bijection onto live handles. Without a VPP restart, or
        if only files in order were loaded, no identity is bound to the interface of another. */
    ghost predicate Sane()
      reads this`clean, plane
    {
      plane.Valid() && (clean || plane.restarts == 0 ==> Linked(plane.table, plane.owners))
    }

    /** What the server stores is the pods' own and, if only files in order were loaded, in
        the table or of a dead handle. */
    ghost predicate Valid()
      reads this, plane
    {
      && Sane()
      && StoredOk(stored, plane.Now(), clean) && DistinctAddresses(stored)
      && Covered(pods, stored)
    }

    /** On a data plane that does not fail no interface is ever left unbound. */
    ghost predicate Firm()
      reads this`pods, this`durable, plane
    {
      plane.reliable ==> Tight(pods, durable, plane.Now())
    }

    method Persist() returns (ok: bool)
      modifies this`durable, this`persisted
      ensures diskReliable ==> ok
      ensures persisted == ok && durable == if ok then pods else old(durable)
      ensures old(Firm()) ==> Firm()
    {
      persisted := *;
      persisted := persisted || diskReliable;
      if persisted { durable := pods; }
      ok := persisted;
    }

    /** Withdraws exactly what was published, best effort; no other binding is touched. */
    method Revoke(s: Spec) returns (r: Spec)
      requires Sane()
      modifies plane`table, plane`loose
      ensures Sane() && r == s.(published := None)
      ensures plane.table == old(plane.table) || plane.table == Revoked(s, old(plane.table))
      ensures plane.reliable ==> plane.table == Revoked(s, old(plane.table))
    {
      r := s.(published := None);
      if s.published.None? { return; }
      var p := s.published.value;
      var ok := plane.AttachmentDel(p.attachment, p.handle);
    }

    /** Publishes the identity against the current handle of the pod's interface. */
    method Publish(s: Spec) returns (ok: bool, r: Spec)
      requires Sane() && (clean || plane.restarts == 0 ==> Issued(s, plane.Now()))
      modifies plane`table, plane`loose
      ensures Sane() && Keeps(old(plane.Now()), plane.Now(), None)
      ensures !ok ==> r == s && plane.table == old(plane.table)
      ensures ok ==> Bound(r, plane.Now()) && r == s.(published := r.published)
      ensures ok ==> plane.table == old(plane.table)[s.attachment := r.published.value.handle]
      ensures ok ==> Accepts(plane.live, old(plane.table), s.attachment, r.published.value.handle)
      ensures plane.reliable && ValidAttachment(s.attachment) && s.tun.Some? && s.tun.value in plane.live ==>
                (ok <==>
                   Accepts(plane.live, old(plane.table), s.attachment, Handle(s.tun.value, plane.live[s.tun.value])))
    {
      r := s;
      if s.attachment == "" || s.tun.None? { return false, s; }
      var n := plane.IfIncarnation(s.tun.value);
      if n.None? { return false, s; }
      var h := Handle(s.tun.value, n.value);
      ok := plane.AttachmentAdd(s.attachment, h);
      if ok { r := s.(published := Some(Published(s.attachment, h))); }
    }

    /** None when the incarnation cannot be read. */
    method HandleStillLive(s: Spec) returns (r: Option<bool>)
      ensures r == Some(true) ==> OwnsLive(s, plane.live)
      ensures s.published.None? ==> r == Some(false)
      ensures plane.reliable ==> (OwnsLive(s, plane.live) <==> r == Some(true))
    {
      if s.published.None? { return Some(false); }
      var h := s.published.value.handle;
      if s.tun != Some(h.index) { return Some(false); }
      var n := plane.IfIncarnation(h.index);
      r := if n.None? then None else Some(n.value == h.incarnation);
    }

    /** Destroys the interface of a pod without VRFs if its published handle is still the
        live one; with no published handle it never does. */
    method DelOrphaned(s: Spec)
      requires Sane()
      modifies plane`live, plane`table, plane`loose
      ensures Sane() && Keeps(old(plane.Now()), plane.Now(), None)
      ensures s.published.None? ==> plane.live == old(plane.live) && plane.table == old(plane.table)
      ensures OnlyLess(old(plane.table), plane.table)
      ensures plane.live == old(plane.live) ||
              (OwnsLive(s, old(plane.live)) && plane.live == old(plane.live) - {s.tun.value})
      ensures plane.reliable && OwnsLive(s, old(plane.live)) ==> plane.live == old(plane.live) - {s.tun.value}
    {
      if s.tun.None? { return; }
      var alive := HandleStillLive(s);
      if alive != Some(true) { return; }
      var ok := plane.DeleteInterface(s.tun.value);
    }

    /** Withdraws the binding, then destroys interface and VRFs if the VRFs are seen. */
    method DelVppInterface(k: Key, s: Spec)
      requires Sane()
      modifies plane`live, plane`table, plane`loose, plane`vrfs
      ensures Sane() && TornPartly(k, s, old(plane.Now()), plane.Now())
      ensures plane.reliable ==> plane.Now() == TornDown(k, s, old(plane.Now()))
      ensures DestroysOther(s, old(plane.live), plane.live) ==> IndexReused(k, s, old(plane.Now()))
      ensures plane.reliable ==>
                (DestroysOther(s, old(plane.live), plane.live) <==> IndexReused(k, s, old(plane.Now())))
    {
      ghost var st := plane.Now();
      var r := Revoke(s);
      var seen := plane.VrfsExist(k);
      if !seen {
        DelOrphaned(r);
      } else {
        if r.tun.Some? {
          var ok := plane.DeleteInterface(r.tun.value);
        }
        var ok := Environment.Attempt(plane.reliable);
        if ok { plane.vrfs := plane.vrfs - {k}; }
      }
      TeardownDestroysOtherLifetimeIff(k, s, st);
    }

    /** Tears a pod down; those of m that were in order stay so, and of those that were bound
        at most the ones that have its index are not any more. */
    method Dismantle(k: Key, s: Spec, ghost m: Specs)
      requires Sane() && Named(k, s, plane.Now()) && StoredOk(m, plane.Now(), clean) && k !in m
      modifies plane`live, plane`table, plane`loose, plane`vrfs
      ensures Sane() && StoredOk(m, plane.Now(), clean)
      ensures NothingNew(old(plane.Now()), plane.Now()) && plane.vrfs - {k} == old(plane.vrfs) - {k}
      ensures TornPartly(k, s, old(plane.Now()), plane.Now())
      ensures BoundKeptBut(m, old(plane.Now()), plane.Now(), s.tun)
      ensures clean && SpecOk(k, s, old(plane.Now()), true) &&
              (k in old(plane.vrfs) ==> OwnsLive(s, old(plane.live))) ==>
                BoundKept(m, old(plane.Now()), plane.Now())
      ensures plane.reliable ==> plane.Now() == TornDown(k, s, old(plane.Now()))
      ensures DestroysOther(s, old(plane.live), plane.live) ==> IndexReused(k, s, old(plane.Now()))
      ensures plane.reliable ==>
                (DestroysOther(s, old(plane.live), plane.live) <==> IndexReused(k, s, old(plane.Now())))
    {
      ghost var st := plane.Now();
      DelVppInterface(k, s);
      StoredTorn(m, k, s, st, plane.Now(), clean);
    }

    /** Tears a pod down and takes it out of the map. */
    method Remove(k: Key)
      requires Sane() && k in pods && Named(k, pods[k], plane.Now()) && StoredOk(stored, plane.Now(), clean)
      modifies this`pods, this`stored, plane`live, plane`table, plane`loose, plane`vrfs
      ensures Sane() && StoredOk(stored, plane.Now(), clean) && NothingNew(old(plane.Now()), plane.Now())
      ensures pods == old(pods) - {k} && stored == old(stored) - {k}
      ensures TornPartly(k, old(pods)[k], old(plane.Now()), plane.Now())
      ensures plane.reliable ==> plane.Now() == TornDown(k, old(pods)[k], old(plane.Now()))
      ensures DestroysOther(old(pods)[k], old(plane.live), plane.live) ==>
                IndexReused(k, old(pods)[k], old(plane.Now()))
      ensures plane.reliable && IndexReused(k, old(pods)[k], old(plane.Now())) ==>
                DestroysOther(old(pods)[k], old(plane.live), plane.live)
      ensures old(Firm()) ==> Firm()
    {
      if plane.reliable && Firm() { TightTornDown(k, pods, durable, plane.Now()); }
      Dismantle(k, pods[k], stored - {k});
      pods, stored := pods - {k}, stored - {k};
    }

    /** Tears one stored pod down and forgets it. */
    method Evict(j: Key)
      requires Sane() && j in pods && Named(j, pods[j], plane.Now()) && StoredOk(stored, plane.Now(), clean)
      modifies this`pods, this`durable, this`persisted, this`stored, plane`live, plane`table, plane`loose, plane`vrfs
      ensures Sane() && StoredOk(stored, plane.Now(), clean)
      ensures pods == old(pods) - {j} && stored == old(stored) - {j}
      ensures TornPartly(j, old(pods)[j], old(plane.Now()), plane.Now())
      ensures OnDisk(diskReliable, persisted, pods, durable)
      ensures NothingNew(old(plane.Now()), plane.Now()) && (plane.reliable ==> Withdrawn(old(pods)[j], plane.table))
      ensures Copied(durable, old(durable), old(pods))
      ensures old(Firm()) ==> Firm()
    {
      Remove(j);
      var ok := Persist();
    }

    /** Some of the pods are evicted. */
    ghost predicate Evicting(gone: set<Key>, pods0: Specs, stored0: Specs, durable0: Specs, persisted0: bool,
                             st0: State)
      reads this, plane
    {
      && Sane() && StoredOk(stored, plane.Now(), clean) && pods == pods0 - gone && stored == stored0 - gone
      && Written(diskReliable, persisted, pods, durable, persisted0, pods0, durable0)
      && Copied(durable, durable0, pods0)
      && NothingNew(st0, plane.Now()) && (plane.reliable ==> AllWithdrawn(pods0, gone, plane.table))
      && SparesOthers(pods0, gone, st0, plane.Now())
    }

    method EvictNext(j: Key, ghost gone: set<Key>, ghost pods0: Specs, ghost stored0: Specs, ghost durable0: Specs,
                     ghost persisted0: bool, ghost st0: State)
      requires Evicting(gone, pods0, stored0, durable0, persisted0, st0)
      requires j in pods && Named(j, pods[j], plane.Now())
      modifies this`pods, this`durable, this`persisted, this`stored, plane`live, plane`table, plane`loose, plane`vrfs
      ensures Evicting(gone + {j}, pods0, stored0, durable0, persisted0, st0)
      ensures old(Firm()) ==> Firm()
    {
      ghost var st := plane.Now();
      Evict(j);
      OneMoreGone(pods0, stored0, gone, j, st0, st, plane.Now());
      SparesNext(pods0, gone, j, st0, st, plane.Now());
    }

    method EvictAll(victims: set<Key>)
      requires Sane() && StoredOk(stored, plane.Now(), clean)
      requires victims <= pods.Keys && forall j :: j in pods ==> Named(j, pods[j], plane.Now())
      modifies this`pods, this`durable, this`persisted, this`stored, plane`live, plane`table, plane`loose, plane`vrfs
      ensures Evicting(victims, old(pods), old(stored), old(durable), old(persisted), old(plane.Now()))
      ensures old(Firm()) ==> Firm()
    {
      ghost var gone: set<Key> := {};
      ghost var pods0, stored0, durable0, persisted0 := pods, stored, durable, persisted;
      ghost var st0, firm := plane.Now(), Firm();
      var todo := victims;
      while todo != {}
        invariant gone + todo == victims && gone !! todo
        invariant Evicting(gone, pods0, stored0, durable0, persisted0, st0) && (firm ==> Firm())
      {
        var j :| j in todo;
        EvictNext(j, gone, pods0, stored0, durable0, persisted0, st0);
        gone, todo := gone + {j}, todo - {j};
      }
      assert gone == victims;
    }

    /** Tears down every stored pod that has one of the addresses, in any order. */
    method RemoveConflicting(ips: set<IP6>)
      requires Sane() && StoredOk(stored, plane.Now(), clean) && DistinctAddresses(pods)
      requires forall j :: j in pods ==> Named(j, pods[j], plane.Now())
      modifies this`pods, this`durable, this`persisted, this`stored, plane`live, plane`table, plane`loose, plane`vrfs
      ensures Sane() && StoredOk(stored, plane.Now(), clean)
      ensures pods == Without(old(pods), ips) && stored == old(stored) - Holders(old(pods), ips)
      ensures NoneHas(old(pods), ips) ==>
                durable == old(durable) && persisted == old(persisted) && plane.Now() == old(plane.Now())
      ensures Written(diskReliable, persisted, pods, durable, old(persisted), old(pods), old(durable))
      ensures NothingNew(old(plane.Now()), plane.Now())
      ensures SparesOthers(old(pods), Holders(old(pods), ips), old(plane.Now()), plane.Now())
      ensures plane.reliable ==> AllWithdrawn(old(pods), Holders(old(pods), ips), plane.table)
      ensures Copied(durable, old(durable), old(pods))
      ensures old(Firm()) ==> Firm()
    {
      WithoutHolders(pods, ips);
      var victims := Conflicting(pods, ips);
      if victims != {} {
        EvictAll(victims);
      }
    }

    /** Undoes a realized interface whose binding could not be published. */
    method Rollback(k: Key, index: nat)
      requires Sane()
      modifies plane`live, plane`table, plane`loose, plane`vrfs
      ensures Sane() && (plane.vrfs == old(plane.vrfs) || plane.vrfs == old(plane.vrfs) - {k})
      ensures plane.live == old(plane.live) || plane.live == old(plane.live) - {index}
      ensures plane.table == old(plane.table) || plane.table == WithoutIndex(old(plane.table), index)
      ensures plane.undoes || plane.reliable ==> index !in plane.live && k !in plane.vrfs
    {
      var ok := plane.DeleteInterface(index, plane.undoes);
      ok := Environment.Attempt(plane.reliable || plane.undoes);
      if ok { plane.vrfs := plane.vrfs - {k}; }
    }

    /** Publishes the binding of a new interface, or undoes the interface. */
    method PublishOrUndo(k: Key, s: Spec, ghost a: State) returns (ok: bool, r: Spec)
      requires Sane() && s.published.None? && s.tun.Some? && TableOk(a.table, a.live)
      requires Realized(a, k, s.attachment, s.tun.value, plane.next, plane.Now())
      modifies plane`live, plane`vrfs, plane`table, plane`loose
      ensures Sane() && Started(k, s, r, ok, plane.next, a, plane.Now())
      ensures !ok && (plane.undoes || plane.reliable) ==> Undone(a, plane.Now())
      ensures plane.reliable && ValidAttachment(s.attachment) && s.attachment !in a.table ==> ok
    {
      var h := Handle(s.tun.value, plane.next);
      assert h !in plane.table.Values;
      ok, r := Publish(s);
      if !ok {
        Rollback(k, s.tun.value);
        assert WithoutIndex(a.table, s.tun.value) == a.table;
        assert a.live[s.tun.value := plane.next] - {s.tun.value} == a.live;
      }
    }

    /** Creates the interface and publishes its binding, undoing it if that fails. */
    method RealizeAndPublish(k: Key, s: Spec) returns (ok: bool, r: Spec)
      requires Sane() && s.published.None? && s.tun.None?
      modifies plane`live, plane`next, plane`owners, plane`vrfs, plane`table, plane`loose
      ensures Sane() && Started(k, s, r, ok, plane.next, old(plane.Now()), plane.Now())
      ensures !ok && (plane.undoes || plane.reliable) ==> Undone(old(plane.Now()), plane.Now())
      ensures plane.reliable && ValidAttachment(s.attachment) && s.attachment !in old(plane.table) ==> ok
    {
      r := s;
      // enough buffers
      ok := Environment.Attempt(plane.reliable);
      if !ok { return; }
      var index;
      ok, index := plane.Realize(k, s.attachment);
      r := s.(tun := index);
      if !ok { return; }
      ok, r := PublishOrUndo(k, r, old(plane.Now()));
    }

    /** Sends the stored tuple again if its handle is still the live one, and nothing else. */
    method Replay(k: Key, s: Spec) returns (ok: bool)
      requires Sane() && SpecOk(k, s, plane.Now(), clean) && k in plane.vrfs
      modifies plane`table, plane`loose
      ensures Sane() && plane.Now() == if ok then Rebound(s, old(plane.Now())) else old(plane.Now())
      ensures ok ==> Bound(s, plane.Now()) && Replayable(s, old(plane.Now()))
      ensures plane.reliable && ValidAttachment(s.attachment) ==> (ok <==> Replayable(s, old(plane.Now())))
    {
      var alive := HandleStillLive(s);
      if alive != Some(true) { return false; }
      var r;
      ok, r := Publish(s);
      assert ok ==> r == s;
    }

    /** A new interface for the pod; those of m stay as they are. */
    method Begin(k: Key, s: Spec, ghost m: Specs) returns (ok: bool, r: Spec)
      requires Sane() && s.ips != {} && s.published.None? && s.tun.None? && plane.pod(s.attachment) == k
      requires StoredOk(m, plane.Now(), clean) && k !in m
      modifies plane`live, plane`next, plane`owners, plane`vrfs, plane`table, plane`loose
      ensures Sane() && StoredOk(m, plane.Now(), clean)
      ensures Keeps(old(plane.Now()), plane.Now(), None)
      ensures AllStayAlive(old(plane.Now()), plane.Now()) && plane.vrfs - {k} == old(plane.vrfs) - {k}
      ensures SpecOk(k, r, plane.Now(), clean) && r.attachment == s.attachment && r.ips == s.ips
      ensures if ok then Bound(r, plane.Now()) && k in plane.vrfs else r.published.None?
      ensures r.tun.Some? ==> r.tun.value !in old(plane.live)
      ensures forall p :: Holds(plane.table, p) ==> Holds(old(plane.table), p) || Some(p) == r.published
      ensures !ok && plane.undoes ==> NothingNew(old(plane.Now()), plane.Now())
      ensures plane.reliable && Tight(pods, durable, old(plane.Now())) && k !in pods && k !in old(plane.vrfs) ==>
                Tight(pods, durable, plane.Now()) && Fits(k, r, durable, plane.Now())
      ensures plane.reliable && ValidAttachment(s.attachment) && s.attachment !in old(plane.table) ==> ok
    {
      ghost var st := plane.Now();
      ok, r := RealizeAndPublish(k, s);
      StartedKeeps(k, s, r, ok, plane.next, st, plane.Now());
      StartedIsOk(k, s, r, ok, plane.next, st, plane.Now(), clean);
      StoredKept(m, st, plane.Now(), k, s, clean);
      assert m - {k} == m;
      if plane.reliable && Tight(pods, durable, st) && k !in pods && k !in st.vrfs {
        TightStarted(pods, durable, k, s, r, ok, plane.next, st, plane.Now());
      }
    }

    /** Starts a new interface lifetime: whatever was published is withdrawn first, and
        pods that hold one of the addresses give way. */
    method NewLifetime(k: Key, s: Spec, ghost alone: bool) returns (ok: bool, r: Spec)
      requires Attempting(k, s) && (alone ==> NoneHas(pods, s.ips))
      modifies this`pods, this`durable, this`persisted, this`stored
      modifies plane`live, plane`next, plane`owners, plane`vrfs, plane`table, plane`loose
      ensures Sane() && StoredOk(stored, plane.Now(), clean) && k !in stored
      ensures pods == Without(old(pods), s.ips) && stored == old(stored) - Holders(old(pods), s.ips)
      ensures SpecOk(k, r, plane.Now(), clean) && r.attachment == s.attachment && r.ips == s.ips
      ensures if ok then Bound(r, plane.Now()) && k in plane.vrfs else r.published.None?
      ensures alone ==>
                Untouched(k, s, old(plane.Now()), plane.Now()) && durable == old(durable) && persisted == old(persisted)
      ensures NewAmong(k, s, r, old(pods), old(plane.Now()), plane.Now())
      ensures Written(diskReliable, persisted, pods, durable, old(persisted), old(pods), old(durable))
      ensures plane.reliable ==> Withdrawn(s, plane.table) || r.published == s.published
      ensures !ok && plane.undoes ==> NothingNew(old(plane.Now()), plane.Now())
      ensures !ok && alone ==> r.tun.None? || r.tun.value !in old(plane.live)
      ensures plane.reliable && ValidAttachment(s.attachment) && s.attachment !in Revoked(s, old(plane.table)) ==> ok
      ensures Copied(durable, old(durable), old(pods))
      ensures Grown(old(plane.Now()), plane.Now())
      ensures old(Firm()) && k !in old(plane.vrfs) && !Bound(s, old(plane.Now())) ==>
                Firm() && (plane.reliable ==> Fits(k, r, durable, plane.Now()))
    {
      r := ClearWay(k, s, alone);
      ghost var st := plane.Now();
      ghost var bare := r;
      ok, r := Begin(k, r, stored);
      StartsAmong(k, s, bare, r, old(pods), old(plane.Now()), st, plane.Now());
      if alone {
        KeepsTrans(old(plane.Now()), st, plane.Now(), s.published);
      }
    }

    /** Withdraws and forgets what the pod had, and removes the pods that are in its way. */
    method ClearWay(k: Key, s: Spec, ghost alone: bool) returns (r: Spec)
      requires Attempting(k, s) && (alone ==> NoneHas(pods, s.ips))
      modifies this`pods, this`durable, this`persisted, this`stored, plane`live, plane`vrfs, plane`table, plane`loose
      ensures Sane() && StoredOk(stored, plane.Now(), clean) && k !in stored && r == s.(published := None, tun := None)
      ensures pods == Without(old(pods), s.ips) && stored == old(stored) - Holders(old(pods), s.ips)
      ensures NothingNew(old(plane.Now()), plane.Now())
      ensures SparesOthers(old(pods)[k := s], InTheWay(old(pods), k, s.ips), old(plane.Now()), plane.Now())
      ensures alone ==>
                && plane.live == old(plane.live) && plane.vrfs == old(plane.vrfs)
                && Keeps(old(plane.Now()), plane.Now(), s.published)
                && durable == old(durable) && persisted == old(persisted)
      ensures Written(diskReliable, persisted, pods, durable, old(persisted), old(pods), old(durable))
      ensures plane.reliable ==> Withdrawn(s, plane.table)
      ensures plane.reliable && s.attachment !in Revoked(s, old(plane.table)) ==> s.attachment !in plane.table
      ensures Copied(durable, old(durable), old(pods))
      ensures old(Firm()) && k !in old(plane.vrfs) && !Bound(s, old(plane.Now())) ==> Firm()
    {
      AttemptNamed(k, s);
      r := Revoke(s);
      r := r.(tun := None);
      StoredKept(stored, old(plane.Now()), plane.Now(), k, s, clean);
      assert stored - {k} == stored;
      ghost var st, table := plane.Now(), plane.table;
      RemoveConflicting(s.ips);
      WayIsCleared(old(pods), k, s, old(plane.Now()), st, plane.Now());
      if s.attachment in plane.table {
        assert Holds(plane.table, Published(s.attachment, plane.table[s.attachment]));
        assert Holds(table, Published(s.attachment, plane.table[s.attachment]));
      }
    }

    /** The pod being attempted is set aside, every other one is stored. */
    ghost predicate Attempting(k: Key, s: Spec)
      reads this, plane
    {
      && Sane() && StoredOk(stored, plane.Now(), clean) && k !in stored
      && SpecOk(k, s, plane.Now(), clean) && DistinctAddresses(pods) && Covered(pods - {k}, stored)
      && (k in pods ==> pods[k] == s)
    }

    lemma AttemptNamed(k: Key, s: Spec)
      requires Attempting(k, s)
      ensures forall j :: j in pods ==> Named(j, pods[j], plane.Now())
    {
      forall j | j in pods ensures Named(j, pods[j], plane.Now()) {
        if j != k { assert j in pods - {k} && SpecOk(j, stored[j], plane.Now(), clean); }
      }
    }

    /** Sets a pod's interface up. Where the VRFs survived, the stored handle is verified
        and its exact tuple sent again, or the attempt fails; it is never moved to another
        handle. Otherwise a new lifetime starts. */
    method AddVppInterface(k: Key, s: Spec, ghost alone: bool) returns (o: Outcome, r: Spec)
      requires Attempting(k, s) && (alone ==> NoneHas(pods, s.ips))
      modifies this`pods, this`durable, this`persisted, this`stored
      modifies plane`live, plane`next, plane`owners, plane`vrfs, plane`table, plane`loose
      ensures Sane() && StoredOk(stored, plane.Now(), clean) && k !in stored
      ensures SpecOk(k, r, plane.Now(), clean) && r.attachment == s.attachment && r.ips == s.ips
      ensures o.NamespaceGone? <==> k.netns !in namespaces
      ensures NewAmong(k, s, r, old(pods), old(plane.Now()), plane.Now())
      ensures if o.Created? || o.Failed? then Opened(k, s.ips, pods, stored) && pods == Without(old(pods), s.ips)
              else r == s && pods == old(pods) && stored == old(stored)
      ensures alone ==> pods == old(pods) && stored == old(stored)
      ensures o.Replayed? ==> plane.Now() == Rebound(s, old(plane.Now())) && Replayable(s, old(plane.Now()))
      ensures o.Refused? || o.NamespaceGone? ==> plane.Now() == old(plane.Now())
      ensures o.Created? || o.Replayed? ==> Bound(r, plane.Now()) && k in plane.vrfs
      ensures o.Failed? ==> r.published.None?
      ensures plane.reliable && (o.Failed? || o.Refused?) ==> Unfit(r, plane.Now())
      ensures o.Failed? && plane.undoes ==> NothingNew(old(plane.Now()), plane.Now())
      ensures o.Failed? && alone ==> r.tun.None? || r.tun.value !in old(plane.live)
      ensures alone ==>
                Untouched(k, s, old(plane.Now()), plane.Now()) && durable == old(durable) && persisted == old(persisted)
      ensures plane.listing && k in old(plane.vrfs) ==> !o.Created? && !o.Failed?
      ensures Written(diskReliable, persisted, pods, durable, old(persisted), old(pods), old(durable))
      ensures plane.reliable && ValidAttachment(s.attachment) && old(Established(k, s, plane.Now(), namespaces)) ==>
                o.Replayed? && plane.Now() == old(plane.Now())
      ensures plane.reliable && Startable(k, s, old(plane.Now()), namespaces) ==> o.Created?
      ensures Copied(durable, old(durable), old(pods))
      ensures Grown(old(plane.Now()), plane.Now())
      ensures old(Firm()) && Placed(k, s, old(plane.Now())) ==>
                Firm() && (plane.reliable ==> Enters(o, k, r, durable, plane.Now()))
    {
      r := s;
      ReboundSame(s, plane.Now());
      StaysAmong(k, s, pods, plane.Now(), plane.Now());
      if k.netns !in namespaces { return NamespaceGone, s; }
      var seen := plane.VrfsExist(k);
      var ok;
      if seen {
        ok := Replay(k, s);
        if ok {
          ReboundKept(stored, old(plane.Now()), k, s, clean);
          StaysAmong(k, s, pods, old(plane.Now()), plane.Now());
        }
        if ok && plane.reliable && old(Firm()) { ReplayChangesNothing(k, s, old(plane.Now())); }
        return if ok then Replayed else Refused, s;
      }
      ok, r := NewLifetime(k, s, alone);
      AfterEviction(k, s, old(pods), old(stored));
      o := if ok then Created else Failed;
    }

    /** Sets the interface up; the pod is not in the map yet if its lifetime is new. */
    method Attempt(k: Key, s: Spec) returns (o: Outcome, r: Spec)
      requires Valid()
      requires if k in pods then s == pods[k] else s.published.None? && s.ips != {} && plane.pod(s.attachment) == k
      requires k !in pods ==> s.tun.None?
      modifies this`pods, this`durable, this`persisted, this`stored
      modifies plane`live, plane`next, plane`owners, plane`vrfs, plane`table, plane`loose
      ensures Valid() && Written(diskReliable, persisted, pods, durable, old(persisted), old(pods), old(durable))
      ensures SpecOk(k, r, plane.Now(), clean) && r.attachment == s.attachment && r.ips == s.ips
      ensures Attempted(k, s, r, old(pods), pods, old(plane.Now()), plane.Now())
      ensures if o.Created? || o.Failed? then
                k !in pods && NoneHas(pods, r.ips) && pods == Without(old(pods), s.ips)
              else r == s && pods == old(pods)
      ensures o.Replayed? ==> plane.Now() == Rebound(s, old(plane.Now()))
      ensures o.Refused? || o.NamespaceGone? ==> plane.Now() == old(plane.Now())
      ensures o.Created? || o.Replayed? ==> Established(k, r, plane.Now(), namespaces)
      ensures o.Failed? && plane.undoes ==> NothingNew(old(plane.Now()), plane.Now())
      ensures plane.reliable && ValidAttachment(s.attachment) && old(Established(k, s, plane.Now(), namespaces)) ==>
                o.Replayed? && plane.Now() == old(plane.Now())
      ensures plane.reliable && Startable(k, s, old(plane.Now()), namespaces) ==> o.Created?
      ensures Copied(durable, old(durable), old(pods))
      ensures Grown(old(plane.Now()), plane.Now())
      ensures old(Firm()) ==>
                Firm() && (plane.reliable ==> Enters(o, k, r, durable, plane.Now()))
    {
      PutAside(k, s);
      o, r := AddVppInterface(k, s, false);
      TakeBack(k, r);
    }

    /** The pod of an attempt is set aside. */
    ghost method PutAside(k: Key, s: Spec)
      requires Valid()
      requires if k in pods then s == pods[k] else s.published.None? && s.ips != {} && plane.pod(s.attachment) == k
      modifies this`stored
      ensures Attempting(k, s)
    {
      SetAside(k, s, pods, stored, plane.Now(), clean);
      stored := pods - {k};
    }

    ghost method TakeBack(k: Key, r: Spec)
      requires Sane() && StoredOk(stored, plane.Now(), clean) && Covered(pods - {k}, stored) && DistinctAddresses(pods)
      requires k in pods ==> pods[k] == r && SpecOk(k, r, plane.Now(), clean)
      modifies this`stored
      ensures Valid()
    {
      StoredWith(k, r, pods, stored, plane.Now(), clean);
      stored := pods;
    }

    /** Enters the pod in the map; m are the others that are stored. */
    method Enter(k: Key, r: Spec, ghost m: Specs)
      requires Sane() && SpecOk(k, r, plane.Now(), clean) && StoredOk(m, plane.Now(), clean)
      requires k !in m && Covered(pods - {k}, m) && DistinctAddresses(m) && NoneHas(m, r.ips)
      modifies this`pods, this`stored
      ensures Valid() && pods == old(pods)[k := r] && stored == m[k := r]
      ensures old(Firm()) && (plane.reliable ==> Placed(k, r, plane.Now()) && Fits(k, r, durable, plane.Now())) ==>
                Firm()
    {
      if plane.reliable && Firm() && Placed(k, r, plane.Now()) && Fits(k, r, durable, plane.Now()) {
        TightJoins(k, r, pods, durable, plane.Now());
      }
      OneMoreStored(k, r, pods, m, plane.Now(), clean);
      pods, stored := pods[k := r], m[k := r];
    }

    /** Enters the pod whose interface was set up in the map. */
    method Conclude(o: Outcome, k: Key, r: Spec)
      requires Valid() && SpecOk(k, r, plane.Now(), clean)
      requires if o.Created? then k !in pods && NoneHas(pods, r.ips) else k in pods && pods[k] == r
      modifies this`pods, this`stored
      ensures Valid() && pods == old(pods)[k := r]
      ensures old(Firm()) && (plane.reliable ==> Enters(o, k, r, durable, plane.Now())) ==> Firm()
    {
      if o.Created? {
        StoredCovered(pods, stored, plane.Now(), clean);
        Enter(k, r, pods);
      } else {
        PutBack(pods, k, r);
        pods := pods[k := r];
      }
    }

    /** Writes the map to disk, or takes the pod down again. */
    method Commit(k: Key) returns (ok: bool)
      requires Valid() && k in pods
      modifies this`pods, this`durable, this`persisted, this`stored, plane`live, plane`table, plane`loose, plane`vrfs
      ensures Valid()
      ensures persisted == ok && (diskReliable ==> ok)
      ensures ok ==> durable == pods == old(pods) && plane.Now() == old(plane.Now())
      ensures !ok ==> durable == old(durable) && pods == old(pods) - {k}
      ensures !ok ==> TornPartly(k, old(pods)[k], old(plane.Now()), plane.Now())
      ensures !ok && plane.reliable ==> plane.Now() == TornDown(k, old(pods)[k], old(plane.Now()))
      ensures old(Firm()) ==> Firm()
    {
      ok := Persist();
      if !ok { Remove(k); }
    }

    /** Enters the pod whose interface was set up, and writes the map. */
    method Finish(o: Outcome, k: Key, r: Spec, ghost s: Spec, ghost m: Specs, ghost st: State) returns (ok: bool)
      requires Valid() && SpecOk(k, r, plane.Now(), clean)
      requires Attempted(k, s, r, m, pods, st, plane.Now()) && (pods == Without(m, s.ips) || k in m)
      requires if o.Created? then k !in pods && NoneHas(pods, r.ips) else k in pods && pods[k] == r
      modifies this`pods, this`durable, this`persisted, this`stored, plane`live, plane`table, plane`loose, plane`vrfs
      ensures Valid() && persisted == ok && (diskReliable ==> ok)
      ensures if ok then durable == pods == old(pods)[k := r] && plane.Now() == old(plane.Now())
              else durable == old(durable) && k !in pods
      ensures OthersServed(k, s.ips, m, pods, st, plane.Now())
      ensures old(Firm()) && (plane.reliable ==> Enters(o, k, r, old(durable), old(plane.Now()))) ==> Firm()
    {
      ghost var st1 := plane.Now();
      IsServed(k, s, r, m, pods, st, st1);
      Conclude(o, k, r);
      ok := Commit(k);
      if !ok { UnservedAgain(k, s, r, m, old(pods), st, st1, plane.Now()); }
    }

    /** Serves an admitted request from the stored state of the pod, if there is one. */
    method Serve(k: Key, attachment: string, addresses: set<IP6>) returns (handle: Option<Handle>)
      requires Valid() && addresses != {} && plane.pod(attachment) == k
      requires k in pods ==> pods[k].attachment == attachment
      modifies this`pods, this`durable, this`persisted, this`stored
      modifies plane`live, plane`next, plane`owners, plane`vrfs, plane`table, plane`loose
      ensures Valid() && Written(diskReliable, persisted, pods, durable, old(persisted), old(pods), old(durable))
      ensures handle.Some? ==> Answered(k, attachment, handle.value, pods, durable, plane.Now(), namespaces)
      ensures handle.Some? ==> pods[k].ips == if k in old(pods) then old(pods)[k].ips else addresses
      ensures handle.None? ==> Unserved(k, old(pods), pods)
      ensures OthersServed(k, if k in old(pods) then old(pods)[k].ips else addresses, old(pods), pods,
                           old(plane.Now()), plane.Now())
      ensures handle.None? && diskReliable && plane.undoes ==> NothingNew(old(plane.Now()), plane.Now())
      ensures plane.reliable && diskReliable ==>
                Startable(k, SpecFor(k, attachment, addresses, old(pods)), old(plane.Now()), namespaces) ==>
                  handle.Some?
      ensures plane.reliable && diskReliable && ValidAttachment(attachment) &&
              k in old(pods) && old(Established(k, pods[k], plane.Now(), namespaces)) ==>
                handle == OwnHandle(old(pods)[k]) && pods == old(pods) && plane.Now() == old(plane.Now())
      ensures durable == pods || Copied(durable, old(durable), old(pods))
      ensures Grown(old(plane.Now()), plane.Now())
      ensures old(Firm()) ==> Firm()
    {
      var s := SpecFor(k, attachment, addresses, pods);
      PutBack(pods, k, s);
      var o, r := Attempt(k, s);
      if !o.Created? && !o.Replayed? {
        NotServed(k, s, r, old(pods), pods, old(plane.Now()), plane.Now());
        return None;
      }
      var ok := Finish(o, k, r, s, old(pods), old(plane.Now()));
      if !ok { return None; }
      handle := Some(r.published.value.handle);
    }

    /** Creates a pod's interface; it answers with a handle only once the binding of that
        handle is in the plugin's table, in the server's map and on disk. */
    method Create(q: Request) returns (reply: CreateReply)
      requires Valid() && plane.pod(q.attachment) == q.Key()
      modifies this`pods, this`durable, this`persisted, this`stored
      modifies plane`live, plane`next, plane`owners, plane`vrfs, plane`table, plane`loose
      ensures Valid() && Written(diskReliable, persisted, pods, durable, old(persisted), old(pods), old(durable))
      ensures reply.Interface? ==> Answered(q.Key(), q.attachment, reply.handle, pods, durable, plane.Now(), namespaces)
      ensures !reply.Interface? ==> Unserved(q.Key(), old(pods), pods)
      ensures
        var k := IfBinding.Key(q.netns, q.ifname);
        OthersServed(k, if k in old(pods) then old(pods)[k].ips else q.addresses, old(pods), pods, old(plane.Now()),
                     plane.Now())
      ensures !reply.Interface? && diskReliable && plane.undoes ==> NothingNew(old(plane.Now()), plane.Now())
      ensures !Admitted(q, notReady, primaryInterface, old(pods)) ==>
                !reply.Interface? && pods == old(pods) && durable == old(durable) && plane.Now() == old(plane.Now())
      ensures plane.reliable && diskReliable && Admitted(q, notReady, primaryInterface, old(pods)) &&
              Startable(q.Key(), SpecFor(q.Key(), q.attachment, q.addresses, old(pods)), old(plane.Now()),
                        namespaces) ==>
                reply.Interface?
      ensures plane.reliable && diskReliable && Admitted(q, notReady, primaryInterface, old(pods)) &&
              old(q.Key() in pods && Established(q.Key(), pods[q.Key()], plane.Now(), namespaces)) ==>
                && reply.Interface? && Some(reply.handle) == OwnHandle(old(pods)[q.Key()])
                && pods == old(pods) && plane.Now() == old(plane.Now())
      ensures durable == pods || Copied(durable, old(durable), old(pods))
      ensures Grown(old(plane.Now()), plane.Now())
      ensures old(Firm()) ==> Firm()
      ensures reply.Interface? ==>
                var k := IfBinding.Key(q.netns, q.ifname);
                k in pods && pods[k].attachment == q.attachment && pods[k].tun == Some(reply.handle.index) &&
                pods[k].ips == if k in old(pods) then old(pods)[k].ips else q.addresses
      ensures reply.NotReady? <==> notReady
      ensures reply.InvalidArgument? <==> !notReady && !Supported(q, primaryInterface)
      ensures reply.AlreadyExists? <==>
              && !notReady && Supported(q, primaryInterface)
              && q.Key() in old(pods) && old(pods)[q.Key()].attachment != q.attachment
    {
      WellFormedIff(q, primaryInterface);
      if notReady { return NotReady; }
      if !WellFormed(q, primaryInterface) { return InvalidArgument; }
      if q.Key() in pods && pods[q.Key()].attachment != q.attachment { return AlreadyExists; }
      var handle := Serve(q.Key(), q.attachment, q.addresses);
      reply := if handle.Some? then Interface(handle.value) else Internal;
    }

    /** Tears a pod down under the identity it was attached as. */
    method Delete(attachment: string, k: Key) returns (reply: DeleteReply)
      requires Valid()
      modifies this`pods, this`durable, this`persisted, this`stored, plane`live, plane`table, plane`loose, plane`vrfs
      ensures Valid()
      ensures reply.Deleted? <==> Deletable(attachment, k, primaryInterface, old(pods))
      ensures reply.Deleted? ==> pods == old(pods) - {k} && OnDisk(diskReliable, persisted, pods, durable)
      ensures reply.Deleted? ==> TornPartly(k, old(pods)[k], old(plane.Now()), plane.Now())
      ensures !persisted ==> durable == old(durable)
      ensures reply.Deleted? && plane.reliable ==> plane.Now() == TornDown(k, old(pods)[k], old(plane.Now()))
      ensures reply.Deleted? && DestroysOther(old(pods)[k], old(plane.live), plane.live) ==>
                IndexReused(k, old(pods)[k], old(plane.Now()))
      ensures reply.Deleted? && plane.reliable && IndexReused(k, old(pods)[k], old(plane.Now())) ==>
                DestroysOther(old(pods)[k], old(plane.live), plane.live)
      ensures !reply.Deleted? ==>
                pods == old(pods) && durable == old(durable) && persisted == old(persisted) &&
                plane.Now() == old(plane.Now())
      ensures old(Firm()) ==> Firm()
      ensures reply.DeleteInvalid? <==>
              !Printable(attachment) || k.netns == "" || k.ifname == "" || k.ifname != primaryInterface
      ensures !reply.DeleteInvalid? ==>
                (reply.Deleted? <==> k in old(pods) && old(pods)[k].attachment == attachment)
    {
      PrintableIff(attachment);
      if !ValidAttachment(attachment) || k.netns == "" || k.ifname == "" { return DeleteInvalid; }
      if k.ifname != primaryInterface { return DeleteInvalid; }
      if k !in pods || pods[k].attachment != attachment { return NotFound; }
      Remove(k);
      var ok := Persist();
      reply := Deleted;
    }

    /** What to do with one pod found on disk, from a fresh look at VPP. */
    method Decide(k: Key, s: Spec) returns (d: RescanDecision)
      ensures d.Replay? ==> k in plane.vrfs && OwnsLive(s, plane.live)
      ensures plane.reliable ==> (d.Replay? <==> s.attachment != "" && k in plane.vrfs && OwnsLive(s, plane.live))
      ensures plane.reliable && s.attachment != "" ==> (d.NewLifecycle? <==> k !in plane.vrfs)
      ensures plane.listing ==> (k in plane.vrfs ==> !d.NewLifecycle?)
    {
      var seen := plane.VrfsExist(k);
      var live := false;
      if seen {
        var alive := HandleStillLive(s);
        live := alive == Some(true);
      }
      d := PlanRescan(s.attachment != "", !seen, live);
    }

    /** Sets up a pod found on disk. Addresses being distinct, no other pod is in its way. */
    method Readd(k: Key, s: Spec) returns (o: Outcome, r: Spec)
      requires Attempting(k, s) && k !in pods && NoneHas(pods, s.ips)
      modifies this`pods, this`durable, this`persisted, this`stored
      modifies plane`live, plane`next, plane`owners, plane`vrfs, plane`table, plane`loose
      ensures Sane() && StoredOk(stored, plane.Now(), clean)
      ensures pods == old(pods) && stored == old(stored) && durable == old(durable)
      ensures SpecOk(k, r, plane.Now(), clean) && r.ips == s.ips
      ensures o.NamespaceGone? <==> k.netns !in namespaces
      ensures o.NamespaceGone? ==> plane.Now() == old(plane.Now())
      ensures !o.Created? && !o.Failed? ==> r == s
      ensures o.Created? || o.Replayed? ==> Bound(r, plane.Now())
      ensures plane.reliable && (o.Failed? || o.Refused?) ==> Unfit(r, plane.Now())
      ensures plane.listing && k in old(plane.vrfs) ==> r == s
      ensures LookedAt(k, s, true, old(plane.Now()), plane.Now()) && persisted == old(persisted)
      ensures Grown(old(plane.Now()), plane.Now())
      ensures old(Firm()) && k in durable && durable[k] == s ==>
                Firm() && (plane.reliable ==> Placed(k, r, plane.Now()) && Fits(k, r, durable, plane.Now()))
    {
      ghost var firm := plane.reliable && Firm() && k in durable && durable[k] == s;
      o, r := AddVppInterface(k, s, true);
      if firm { EnteredFits(o, k, r, s, durable, plane.Now()); }
    }

    /** Replays a pod found on disk or starts a new lifetime for it. */
    method Restore(k: Key, s: Spec) returns (o: Outcome, r: Spec)
      requires Valid() && k in stored && stored[k] == s && k !in pods
      modifies this`pods, this`durable, this`persisted, this`stored
      modifies plane`live, plane`next, plane`owners, plane`vrfs, plane`table, plane`loose
      ensures Valid() && durable == old(durable)
      ensures o.NamespaceGone? <==> k.netns !in namespaces
      ensures o.NamespaceGone? ==> pods == old(pods) && stored == old(stored) && plane.Now() == old(plane.Now())
      ensures !o.NamespaceGone? ==>
                pods == old(pods)[k := r] && stored == old(stored)[k := r] && r.ips == s.ips
      ensures o.Created? || o.Replayed? ==> Bound(r, plane.Now())
      ensures plane.reliable && (o.Failed? || o.Refused?) ==> Unfit(r, plane.Now())
      ensures plane.listing && k in old(plane.vrfs) ==> r == s
      ensures LookedAt(k, s, true, old(plane.Now()), plane.Now())
      ensures Grown(old(plane.Now()), plane.Now())
      ensures old(Firm()) && k in durable && durable[k] == s ==> Firm()
    {
      RestoreAttempts(k, s, pods, stored, plane.Now(), clean);
      ghost var was := stored;
      stored := stored - {k};
      o, r := Readd(k, s);
      if o.NamespaceGone? {
        stored := was;
        return;
      }
      PutBack(was, k, r);
      Enter(k, r, stored);
    }

    /** Keeps a pod found on disk as it is, and stops serving. */
    method FailClosed(k: Key, s: Spec)
      requires Valid() && k in stored && stored[k] == s && k !in pods
      modifies this`pods, this`stored, this`notReady
      ensures Valid() && notReady && pods == old(pods)[k := s] && stored == old(stored)
      ensures old(Firm()) && k in durable && durable[k] == s ==> Firm()
    {
      RestoreAttempts(k, s, pods, stored, plane.Now(), clean);
      PutBack(stored, k, s);
      Enter(k, s, stored - {k});
      notReady := true;
    }

    /** Reconciles one pod found on disk. */
    method RescanOne(k: Key, s: Spec)
      requires Valid() && k in stored && stored[k] == s && k !in pods
      modifies this`pods, this`durable, this`persisted, this`stored, this`notReady
      modifies plane`live, plane`next, plane`owners, plane`vrfs, plane`table, plane`loose
      ensures Valid() && durable == old(durable)
      ensures if k in pods then pods == old(pods)[k := pods[k]] && stored == old(stored)[k := pods[k]]
              else pods == old(pods) && stored == old(stored) - {k}
      ensures Reconciled(k, s, pods, namespaces, notReady, plane.Now())
      ensures old(notReady) ==> notReady
      ensures plane.reliable && notReady && !old(notReady) ==>
                k in pods && Unfit(pods[k], plane.Now())
      ensures BoundKeptBut(old(pods), old(plane.Now()), plane.Now(), s.tun)
      ensures (clean && plane.listing) || k in pods ==> BoundKept(old(pods), old(plane.Now()), plane.Now())
      ensures plane.listing && k in old(plane.vrfs) && k in pods ==> pods[k] == s
      ensures plane.vrfs - {k} == old(plane.vrfs) - {k}
      ensures LookedAt(k, s, k in pods, old(plane.Now()), plane.Now())
      ensures plane.reliable && k !in pods ==> k !in plane.vrfs && Withdrawn(s, plane.table)
      ensures Grown(old(plane.Now()), plane.Now())
      ensures old(Firm()) && k in durable && durable[k] == s ==> Firm()
    {
      var decision := Decide(k, s);
      if decision.FailClosed? {
        FailClosed(k, s);
        return;
      }
      var o, r := Restore(k, s);
      if o.NamespaceGone? {
        TearDownStored(k, s, decision);
      } else {
        StayBound(old(pods), old(plane.Now()), plane.Now(), k, s, clean);
        if !o.Created? && !o.Replayed? { notReady := true; }
      }
    }

    /** A pod whose namespace is gone is torn down and dropped. */
    method TearDownStored(k: Key, s: Spec, ghost d: RescanDecision)
      requires Valid() && k in stored && stored[k] == s && k !in pods
      requires d.Replay? ==> k in plane.vrfs && OwnsLive(s, plane.live)
      requires clean && plane.listing && !d.Replay? ==> k !in plane.vrfs
      modifies this`stored, plane`live, plane`vrfs, plane`table, plane`loose
      ensures Valid() && stored == old(stored) - {k}
      ensures BoundKeptBut(pods, old(plane.Now()), plane.Now(), s.tun)
      ensures clean && plane.listing ==> BoundKept(pods, old(plane.Now()), plane.Now())
      ensures plane.vrfs - {k} == old(plane.vrfs) - {k}
      ensures TornPartly(k, s, old(plane.Now()), plane.Now())
      ensures plane.reliable ==> k !in plane.vrfs && Withdrawn(s, plane.table)
      ensures old(Firm()) && k in durable && durable[k] == s ==> Firm()
    {
      if plane.reliable && Firm() && k in durable && durable[k] == s { TightDropped(k, pods, durable, plane.Now()); }
      Dismantle(k, s, stored - {k});
      stored := stored - {k};
      CoveredBound(pods, stored, old(plane.Now()), plane.Now(), s.tun);
    }

    /** Continues from the disk copy after a restart, one pod after another in any order.
        Without a readable copy nothing is touched and the service stays unready. */
    method Rescan() returns (loaded: bool)
      requires Sane() && pods == map[] && StoredOk(durable, plane.Now(), clean) && DistinctAddresses(durable)
      modifies this`pods, this`durable, this`persisted, this`stored, this`notReady
      modifies plane`live, plane`next, plane`owners, plane`vrfs, plane`table, plane`loose
      ensures Valid() && (old(notReady) ==> notReady)
      ensures !loaded ==>
                notReady && pods == map[] && durable == old(durable) && persisted == old(persisted) &&
                plane.Now() == old(plane.Now())
      ensures loaded ==> OnDisk(diskReliable, persisted, pods, durable) && (!persisted ==> durable == old(durable))
      ensures loaded ==>
                Reloaded(old(durable), pods, namespaces, notReady, plane.reliable && !old(notReady), old(plane.Now()),
                         plane.Now())
      ensures loaded ==>
                forall k :: k in old(durable) - pods.Keys ==> k.netns !in namespaces
      ensures loaded && clean && plane.listing ==>
                forall k :: k in old(durable) ==>
                  Reconciled(k, old(durable)[k], pods, namespaces, notReady, plane.Now())
      ensures loaded && clean && plane.listing ==>
                forall k :: k in pods && k in old(plane.vrfs) ==> pods[k] == old(durable)[k]
      ensures diskReliable ==> loaded
      ensures Grown(old(plane.Now()), plane.Now())
      ensures old(Firm()) ==> Firm()
    {
      stored := durable;
      loaded := *;
      loaded := loaded || diskReliable;
      if !loaded {
        notReady := true;
        return;
      }
      RescanAll(durable);
      var ok := Persist();
    }

    method RescanNext(k: Key, saved: Specs, ghost todo: set<Key>, ghost vrfs: set<Key>, ghost st: State)
      requires Valid() && k in todo && RescanSpares(saved, saved.Keys - todo, pods, st, plane.Now())
      requires Midway(saved, todo, pods, stored, namespaces, notReady, clean && plane.listing, plane.Now(), vrfs)
      modifies this`pods, this`durable, this`persisted, this`stored, this`notReady
      modifies plane`live, plane`next, plane`owners, plane`vrfs, plane`table, plane`loose
      ensures Valid() && durable == old(durable) && (old(notReady) ==> notReady)
      ensures Midway(saved, todo - {k}, pods, stored, namespaces, notReady, clean && plane.listing, plane.Now(), vrfs)
      ensures old(plane.reliable && Blamed(notReady, pods, plane.Now())) ==> Blamed(notReady, pods, plane.Now())
      ensures Grown(old(plane.Now()), plane.Now())
      ensures RescanSpares(saved, saved.Keys - (todo - {k}), pods, st, plane.Now())
      ensures old(Firm()) && saved == durable ==> Firm()
    {
      ghost var st1 := plane.Now();
      RescanOne(k, saved[k]);
      RescanStep(saved, todo, k, old(pods), old(stored), old(notReady), st1, pods, stored, notReady, plane.Now(),
                 namespaces, clean, plane.listing, plane.reliable, vrfs, st);
    }

    method RescanAll(saved: Specs)
      requires Valid() && pods == map[] && stored == saved
      modifies this`pods, this`durable, this`persisted, this`stored, this`notReady
      modifies plane`live, plane`next, plane`owners, plane`vrfs, plane`table, plane`loose
      ensures Valid() && durable == old(durable) && (old(notReady) ==> notReady)
      ensures Midway(saved, {}, pods, stored, namespaces, notReady, clean && plane.listing, plane.Now(),
                     old(plane.vrfs))
      ensures plane.reliable && !old(notReady) ==> Blamed(notReady, pods, plane.Now())
      ensures Grown(old(plane.Now()), plane.Now())
      ensures RescanSpares(saved, saved.Keys, pods, old(plane.Now()), plane.Now())
      ensures old(Firm()) && saved == durable ==> Firm()
    {
      var todo := saved.Keys;
      while todo != {}
        invariant Valid() && durable == old(durable) && (old(notReady) ==> notReady)
        invariant old(Firm()) && saved == durable ==> Firm()
        invariant plane.reliable && !old(notReady) ==> Blamed(notReady, pods, plane.Now())
        invariant Grown(old(plane.Now()), plane.Now())
        invariant RescanSpares(saved, saved.Keys - todo, pods, old(plane.Now()), plane.Now())
        invariant Midway(saved, todo, pods, stored, namespaces, notReady, clean && plane.listing, plane.Now(),
                         old(plane.vrfs))
      {
        var k :| k in todo;
        RescanNext(k, saved, todo, old(plane.vrfs), old(plane.Now()));
        todo := todo - {k};
      }
      assert saved.Keys - {} == saved.Keys;
    }
  }

  method AddressIndex(m: Specs) returns (r: map<IP6, Key>)
    requires DistinctAddresses(m)
    ensures Indexes(r, m, m.Keys)
  {
    r := map[];
    var todo := m.Keys;
    while todo != {}
      invariant todo <= m.Keys && Indexes(r, m, m.Keys - todo)
    {
      var k :| k in todo;
      r := r + map ip | ip in m[k].ips :: k;
      todo := todo - {k};
    }
  }

  method Conflicting(m: Specs, ips: set<IP6>) returns (victims: set<Key>)
    requires DistinctAddresses(m)
    ensures victims == Holders(m, ips)
  {
    var r := AddressIndex(m);
    victims := set ip | ip in ips && ip in r :: r[ip];
    forall k | k in Holders(m, ips) ensures k in victims {
      var ip :| ip in m[k].ips && ip in ips;
      assert ip in r && r[ip] == k;
    }
  }
}
