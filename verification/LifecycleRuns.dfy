/**
  Whole runs of the lifecycle service: requests, restarts of the service and of VPP,
  interfaces and namespaces coming and going, with any call to VPP and any write of the
  state file failing, so that the service may restart from a file older than its map.
 */
module LifecycleRuns {
  import opened Srv6Types
  import opened IfBinding
  import opened LifecycleState
  import opened LifecycleReliable
  import opened Lifecycle

  datatype Operation =
    | CreatePod(request: Request)
    | DeletePod(attachment: string, key: Key)
    | RestartServer
    | RestartVpp
    | LoseInterface(index: nat)
    | Namespaces(present: set<string>)

  /** Between operations what is on file is the pods' own, and it is the map if the last write
      succeeded, unless it could not be read. */
  ghost predicate Safe(s: Server)
    reads s, s.plane
  {
    && s.Valid()
    && StoredOk(s.durable, s.plane.Now(), false) && DistinctAddresses(s.durable)
    && (s.persisted ==>
          && StoredOk(s.durable, s.plane.Now(), s.clean)
          && (s.durable == s.pods || (s.pods == map[] && s.notReady)))
  }

  /** What the service and the data plane hold between two operations. */
  datatype View = View(namespaces: set<string>, pods: Specs, durable: Specs, notReady: bool, st: State)

  ghost function Seen(s: Server): View
    reads s, s.plane
  {
    View(s.namespaces, s.pods, s.durable, s.notReady, s.plane.Now())
  }

  /** An interface is gone and its binding with it; the VRFs stay. */
  ghost function Lost(a: State, i: nat): State {
    a.(live := a.live - {i}, table := WithoutIndex(a.table, i))
  }

  /** What one operation comes to. */
  ghost predicate Stepped(op: Operation, primary: string, reliable: bool, disk: bool, v: View, w: View) {
    match op
    case CreatePod(q) => Requested(q, primary, reliable, disk, v, w)
    case DeletePod(a, k) =>
      if Deletable(a, k, primary, v.pods) then
        && w == v.(pods := v.pods - {k}, durable := w.durable, st := w.st)
        && (w.durable == w.pods || (!disk && w.durable == v.durable))
        && TornPartly(k, v.pods[k], v.st, w.st) && (reliable ==> w.st == TornDown(k, v.pods[k], v.st))
      else w == v
    case RestartServer => Rescanned(reliable, disk, v, w)
    case RestartVpp => w == v.(st := IfBinding.Restarted(v.st))
    case LoseInterface(i) => w == v.(st := Lost(v.st, i)) || (!reliable && w == v)
    case Namespaces(present) => w == v.(namespaces := present)
  }

  /** A request that is not admitted changes nothing, and no request takes from other pods. If
      nothing fails, a pod that can be started is, and one that is attached stays as it is. */
  ghost predicate Requested(q: Request, primary: string, reliable: bool, disk: bool, v: View, w: View) {
    var k, s := q.Key(), SpecFor(q.Key(), q.attachment, q.addresses, v.pods);
    && w.namespaces == v.namespaces && w.notReady == v.notReady
    && OthersServed(k, s.ips, v.pods, w.pods, v.st, w.st)
    && (!Admitted(q, v.notReady, primary, v.pods) ==> w == v)
    && (reliable && disk && Admitted(q, v.notReady, primary, v.pods) ==>
          && (Startable(k, s, v.st, v.namespaces) ==>
                k in w.pods && w.pods[k].attachment == q.attachment && Established(k, w.pods[k], w.st, w.namespaces))
          && (k in v.pods && Established(k, s, v.st, v.namespaces) ==> w.pods == v.pods && w.st == v.st))
  }

  /** The service starts again: unready and with nothing if the file cannot be read. */
  ghost predicate Rescanned(reliable: bool, disk: bool, v: View, w: View) {
    || (!disk && w == v.(pods := map[], notReady := true))
    || (&& w.namespaces == v.namespaces && (w.durable == w.pods || (!disk && w.durable == v.durable))
        && Reloaded(v.durable, w.pods, w.namespaces, w.notReady, reliable, v.st, w.st))
  }

  lemma OnFileIsSafe(s: Server)
    requires s.Valid() && s.durable == s.pods
    ensures Safe(s)
  {
    StoredCovered(s.pods, s.stored, s.plane.Now(), s.clean);
  }

  /** What is on file after a request was there before, or was in the map. */
  lemma CopiedIsOwn(durable: Specs, durable0: Specs, pods0: Specs, stored0: Specs, a: State, b: State)
    requires Copied(durable, durable0, pods0) && Grown(a, b)
    requires StoredOk(durable0, a, false) && DistinctAddresses(durable0)
    requires StoredOk(stored0, a, false) && DistinctAddresses(stored0) && Covered(pods0, stored0)
    ensures StoredOk(durable, b, false) && DistinctAddresses(durable)
  {
    forall k | k in durable ensures SpecOk(k, durable[k], a, false) {
      if durable == durable0 {
        assert SpecOk(k, durable0[k], a, false);
      } else {
        assert SpecOk(k, stored0[k], a, false);
      }
    }
    StoredGrows(durable, a, b);
  }

  /** A new instance of the service reads what is on file. */
  method Reload(s: Server) returns (loaded: bool)
    requires s.Sane() && StoredOk(s.durable, s.plane.Now(), false) && DistinctAddresses(s.durable)
    modifies s, s.plane
    ensures s.Valid() && Grown(old(s.plane.Now()), s.plane.Now())
    ensures s.clean == old(s.clean && StoredOk(s.durable, s.plane.Now(), true))
    ensures if loaded then OnDisk(s.diskReliable, s.persisted, s.pods, s.durable) &&
                           (!s.persisted ==> s.durable == old(s.durable))
            else s.pods == map[] && s.notReady && s.durable == old(s.durable) && s.persisted == old(s.persisted) &&
                 s.plane.Now() == old(s.plane.Now())
    ensures Rescanned(s.plane.reliable, s.diskReliable, old(Seen(s)), Seen(s))
    ensures old(s.Firm()) ==> s.Firm()
  {
    ghost var sound := StoredOk(s.durable, s.plane.Now(), true);
    s.pods, s.notReady, s.clean := map[], false, s.clean && sound;
    assert old(s.Firm()) ==> s.Firm();
    loaded := s.Rescan();
  }

  /** The service starts again from what is on file, however old that is. */
  method RestartService(s: Server)
    requires Safe(s)
    modifies s, s.plane
    ensures Safe(s) && Grown(old(s.plane.Now()), s.plane.Now())
    ensures old(s.Firm()) ==> s.Firm()
    ensures old(s.clean && s.persisted) ==> s.clean
    ensures Rescanned(s.plane.reliable, s.diskReliable, old(Seen(s)), Seen(s))
    ensures s.diskReliable && old(s.persisted) ==> s.persisted
  {
    ghost var before, file := s.plane.Now(), s.durable;
    var loaded := Reload(s);
    if loaded && s.durable == s.pods {
      OnFileIsSafe(s);
    } else {
      StoredGrows(file, before, s.plane.Now());
    }
  }

  method CreateNext(s: Server, q: Request)
    requires Safe(s) && s.plane.pod(q.attachment) == q.Key()
    modifies s, s.plane
    ensures Safe(s) && s.clean == old(s.clean) && (old(s.notReady) ==> s.notReady)
    ensures s.plane.restarts == old(s.plane.restarts)
    ensures old(s.Firm()) ==> s.Firm()
    ensures Requested(q, s.primaryInterface, s.plane.reliable, s.diskReliable, old(Seen(s)), Seen(s))
    ensures s.diskReliable && old(s.persisted) ==> s.persisted
  {
    ghost var before, pods0, stored0, file := s.plane.Now(), s.pods, s.stored, s.durable;
    var reply := s.Create(q);
    if s.durable == s.pods {
      OnFileIsSafe(s);
    } else {
      CopiedIsOwn(s.durable, file, pods0, stored0, before, s.plane.Now());
    }
  }

  method DeleteNext(s: Server, attachment: string, k: Key)
    requires Safe(s)
    modifies s, s.plane
    ensures Safe(s) && s.clean == old(s.clean) && (old(s.notReady) ==> s.notReady)
    ensures s.plane.restarts == old(s.plane.restarts)
    ensures old(s.Firm()) ==> s.Firm()
    ensures Stepped(DeletePod(attachment, k), s.primaryInterface, s.plane.reliable, s.diskReliable, old(Seen(s)),
                    Seen(s))
    ensures s.diskReliable && old(s.persisted) ==> s.persisted
  {
    ghost var before, file := s.plane.Now(), s.durable;
    var reply := s.Delete(attachment, k);
    if s.durable == s.pods {
      OnFileIsSafe(s);
    } else {
      StoredGrows(file, before, s.plane.Now());
    }
  }

  /** VPP restarts, or loses an interface. */
  method PlaneNext(s: Server, op: Operation)
    requires Safe(s) && (op.RestartVpp? || op.LoseInterface?)
    modifies s.plane
    ensures Safe(s) && (op.LoseInterface? ==> s.plane.restarts == old(s.plane.restarts))
    ensures Stepped(op, s.primaryInterface, s.plane.reliable, s.diskReliable, old(Seen(s)), Seen(s))
    ensures old(s.Firm()) ==> s.Firm()
  {
    ghost var a := s.plane.Now();
    if op.RestartVpp? {
      s.plane.Restart();
      StoredSurvivesRestart(s.stored, a, s.clean);
      StoredSurvivesRestart(s.durable, a, false);
      if s.persisted { StoredSurvivesRestart(s.durable, a, s.clean); }
      if s.plane.reliable && old(s.Firm()) { TightRestarted(s.pods, s.durable, a); }
    } else {
      var ok := s.plane.DeleteInterface(op.index);
      StoredStays(s.stored, a, s.plane.Now(), s.clean);
      StoredStays(s.durable, a, s.plane.Now(), false);
      if s.persisted { StoredStays(s.durable, a, s.plane.Now(), s.clean); }
      if s.plane.reliable && old(s.Firm()) { TightLost(s.pods, s.durable, a, op.index); }
    }
  }

  /** One operation. Requests name a pod by its identity. */
  method Execute(s: Server, op: Operation)
    requires Safe(s)
    requires op.CreatePod? ==> s.plane.pod(op.request.attachment) == op.request.Key()
    modifies s, s.plane
    ensures Safe(s) && (old(s.Firm()) ==> s.Firm())
    ensures Stepped(op, s.primaryInterface, s.plane.reliable, s.diskReliable, old(Seen(s)), Seen(s))
    ensures !op.RestartServer? && old(s.notReady) ==> s.notReady
    ensures !op.RestartVpp? ==> s.plane.restarts == old(s.plane.restarts)
    ensures !op.RestartServer? || old(s.persisted) ==> old(s.clean) ==> s.clean
    ensures s.diskReliable && old(s.persisted) ==> s.persisted
  {
    match op {
      case CreatePod(q) => CreateNext(s, q);
      case DeletePod(a, k) => DeleteNext(s, a, k);
      case RestartServer => RestartService(s);
      case RestartVpp => PlaneNext(s, op);
      case LoseInterface(_) => PlaneNext(s, op);
      case Namespaces(present) => s.namespaces := present;
    }
  }

  /** No two pods store the same handle issued since the last VPP restart. */
  ghost predicate NoHandleTwice(m: Specs, st: State) {
    forall j, k :: j in m && k in m && OwnHandle(m[j]) == OwnHandle(m[k]) && Current(m[j], st) && Current(m[k], st) ==>
      j == k
  }

  /** What every run ends with. */
  ghost predicate RunOutcome(pods: Specs, st: State, loose: set<Handle>, reliable: bool, clean: bool) {
    && TableOk(st.table, st.live) && NoHandleTwice(pods, st)
    && (reliable || clean || st.restarts == 0 ==> Linked(st.table, st.owners))
    && (Linked(st.table, st.owners) ==>
          forall k :: k in pods ==> (InOrder(pods[k], st) <==> !Reissued(pods[k], st) && !Adrift(pods[k], st, loose)))
    && (reliable || clean ==> forall k :: k in pods ==> (InOrder(pods[k], st) <==> !Reissued(pods[k], st)))
    && (clean ==> forall k :: k in pods && (k in st.vrfs || st.restarts == 0) ==> InOrder(pods[k], st))
  }

  lemma SafeOutcome(s: Server, reliable: bool)
    requires Safe(s) && (reliable ==> Tight(s.pods, s.durable, s.plane.Now()))
    ensures RunOutcome(s.pods, s.plane.Now(), s.plane.loose, reliable, s.clean)
  {
    var st := s.plane.Now();
    StoredCovered(s.pods, s.stored, st, s.clean);
    if reliable { MatchedIsLinked(st); }
    forall k | k in s.pods
      ensures Linked(st.table, st.owners) ==>
                (InOrder(s.pods[k], st) <==> !Reissued(s.pods[k], st) && !Adrift(s.pods[k], st, s.plane.loose))
      ensures reliable || s.clean ==> (InOrder(s.pods[k], st) <==> !Reissued(s.pods[k], st))
      ensures s.clean && (k in st.vrfs || st.restarts == 0) ==> InOrder(s.pods[k], st)
    {
      assert SpecOk(k, s.pods[k], st, s.clean);
      if Linked(st.table, st.owners) { OwnInOrderIff(k, s.pods[k], st, s.plane.loose); }
      if reliable { MatchedInOrder(k, s.pods[k], st); }
      if s.clean { InOrderIff(k, s.pods[k], st); }
    }
    forall j, k | j in s.pods && k in s.pods && OwnHandle(s.pods[j]) == OwnHandle(s.pods[k]) &&
                  Current(s.pods[j], st) && Current(s.pods[k], st)
      ensures j == k
    {
      assert SpecOk(j, s.pods[j], st, false) && SpecOk(k, s.pods[k], st, false);
    }
  }

  /** After every run, whatever calls and writes failed and however old the files were that the
      service restarted from, the table is a partial bijection from identities to live
      handles. No identity is bound to an interface created for another if VPP did not fail,
      or did not restart, or if every file was in order. Then every tuple the server stores is
      in the table or names a dead handle, except exactly those whose handle was issued again
      for another pod or left unbound; and none was left unbound if VPP did not fail or every
      file was in order, as it is if writes do not fail. */
  method Run(ops: seq<Operation>, plane: Plane, disk: bool, primary: string)
    returns (s: Server, ghost trace: seq<View>)
    requires plane.Valid() && Linked(plane.table, plane.owners)
    requires forall op :: op in ops && op.CreatePod? ==> plane.pod(op.request.attachment) == op.request.Key()
    modifies plane
    ensures fresh(s) && s.plane == plane
    ensures |trace| == |ops| + 1 && trace[0] == View({}, map[], map[], false, old(plane.Now()))
    ensures trace[|ops|] == Seen(s)
    ensures forall i :: 0 <= i < |ops| ==> Stepped(ops[i], primary, plane.reliable, disk, trace[i], trace[i + 1])
    ensures RunOutcome(s.pods, plane.Now(), plane.loose, plane.reliable && Matched(old(plane.Now())), s.clean)
    ensures disk || RestartServer !in ops ==> s.clean
    ensures old(plane.restarts) == 0 && RestartVpp !in ops ==> plane.restarts == 0
  {
    ghost var reliable := plane.reliable && Matched(plane.Now());
    s := new Server(plane, disk, primary);
    trace := [Seen(s)];
    for i := 0 to |ops|
      invariant |trace| == i + 1 && trace[0] == View({}, map[], map[], false, old(plane.Now())) && trace[i] == Seen(s)
      invariant forall j :: 0 <= j < i ==> Stepped(ops[j], primary, plane.reliable, disk, trace[j], trace[j + 1])
      invariant s.primaryInterface == primary
      invariant fresh(s) && s.plane == plane && s.diskReliable == disk && Safe(s) && (reliable ==> s.Firm())
      invariant (disk ==> s.persisted) && (disk || RestartServer !in ops ==> s.clean)
      invariant old(plane.restarts) == 0 && RestartVpp !in ops ==> plane.restarts == 0
    {
      Execute(s, ops[i]);
      trace := trace + [Seen(s)];
    }
    SafeOutcome(s, reliable);
  }

  // ----- Five runs -----

  const A := Key("/ns/a", "eth0")
  const B := Key("/ns/b", "eth0")

  /** The identities of the two pods of the runs below. */
  ghost predicate NamesBoth(pod: string -> Key) {
    pod("a:eth0") == A && pod("b:eth0") == B
  }

  ghost function Fresh(pod: string -> Key): State {
    State(map[], map[], {}, map[], 0, pod)
  }

  /** A stored pod with its address and what it published. */
  function Stored(attachment: string, ip: IP6, h: Handle): Spec {
    Spec(attachment, {ip}, Some(h.index), Some(Published(attachment, h)))
  }

  /** The pod's interface and VRFs were created and its binding accepted. */
  ghost function Attached(a: State, k: Key, s: Spec): (b: State)
    requires s.published.Some? && s.tun == Some(s.published.value.handle.index)
    requires s.tun.value !in a.live && s.published.value.handle !in a.owners
    ensures var h := s.published.value.handle;
            Realized(a, k, s.attachment, h.index, h.incarnation, b.(table := a.table))
  {
    var h := s.published.value.handle;
    a.(live := a.live[h.index := h.incarnation], owners := a.owners[h := s.attachment], vrfs := a.vrfs + {k},
       table := a.table[s.attachment := h])
  }

  ghost predicate Sound(st: State) {
    TableOk(st.table, st.live) && Linked(st.table, st.owners) && forall h :: IsLive(st.live, h) ==> h in st.owners
  }

  ghost predicate Attachable(a: State, k: Key, s: Spec) {
    && Sound(a) && s.ips != {} && s.published.Some? && Named(k, s, a)
    && s.tun.value !in a.live && s.published.value.handle !in a.owners && s.attachment !in a.table
  }

  lemma AttachedIsSound(a: State, k: Key, s: Spec)
    requires Attachable(a, k, s)
    ensures var b := Attached(a, k, s);
            && Sound(b) && Keeps(a, b, None) && OnlyFor(a, b, k, s.attachment)
            && SpecOk(k, s, b, true) && Bound(s, b)
  {
  }

  lemma AttachedIsBound(m: Specs, a: State, k: Key, s: Spec)
    requires StoredOk(m, a, true) && Attachable(a, k, s)
    ensures Sound(Attached(a, k, s)) && StoredOk(m[k := s], Attached(a, k, s), true) && Bound(s, Attached(a, k, s))
  {
    AttachedIsSound(a, k, s);
    StoredKept(m, a, Attached(a, k, s), k, s.(published := None), true);
    OneMore(m, k, s, Attached(a, k, s));
  }

  lemma OneMore(m: Specs, k: Key, s: Spec, st: State)
    requires StoredOk(m - {k}, st, true) && SpecOk(k, s, st, true)
    ensures StoredOk(m[k := s], st, true)
  {
    var m' := m[k := s];
    forall j | j in m' ensures SpecOk(j, m'[j], st, true) {
      assert j != k ==> j in m - {k};
    }
  }

  lemma LostIsInOrder(m: Specs, a: State, i: nat)
    requires Sound(a) && StoredOk(m, a, true)
    ensures Sound(Lost(a, i)) && StoredOk(m, Lost(a, i), true)
  {
    IndexGone(a, i);
    StoredStays(m, a, Lost(a, i), true);
  }

  lemma TeardownUnbinds(k: Key, s: Spec, other: Spec, st: State)
    requires k in st.vrfs && Bound(other, st) && other.tun == s.tun
    ensures !Bound(other, TornDown(k, s, st))
  {
  }

  const POD_A := Stored("a:eth0", 1, Handle(8, 1))
  const POD_B := Stored("b:eth0", 2, Handle(10, 2))

  /** Both pods are attached, A to index 8 and B to index 10. */
  ghost function BothAttached(pod: string -> Key): State {
    Attached(Attached(Fresh(pod), A, POD_A), B, POD_B)
  }

  lemma BothAreBound(pod: string -> Key)
    requires NamesBoth(pod)
    ensures var st := BothAttached(pod);
            && Sound(st) && StoredOk(map[A := POD_A][B := POD_B], st, true) && st.vrfs == {A, B} && st.pod == pod
            && st.live == map[8 := 1, 10 := 2] && st.owners == map[Handle(8, 1) := "a:eth0", Handle(10, 2) := "b:eth0"]
            && st.table == map["a:eth0" := Handle(8, 1), "b:eth0" := Handle(10, 2)]
  {
    AttachedIsBound(map[], Fresh(pod), A, POD_A);
    AttachedIsBound(map[A := POD_A], Attached(Fresh(pod), A, POD_A), B, POD_B);
  }

  /** Two pods come back from a VPP restart in the other order and get each other's former
      handles. In between, what the second one still stores is out of order: its handle is
      live and bound to the first. Withdrawing it removes nothing, and once the second has
      its new interface both are bound. */
  lemma SwappedSlots(pod: string -> Key)
    requires NamesBoth(pod)
    ensures var saved := map[A := POD_A][B := POD_B];
            var b := Stored("b:eth0", 2, Handle(8, 1));
            var between := Attached(IfBinding.Restarted(BothAttached(pod)), B, b);
            var a := Stored("a:eth0", 1, Handle(10, 2));
            && StoredOk(saved, BothAttached(pod), true)
            && StoredOk(saved[B := b], between, true) && Bound(b, between) && Reissued(POD_A, between)
            && !InOrder(POD_A, between)
            && Revoked(POD_A, between.table) == between.table
            && StoredOk(saved[B := b][A := a], Attached(between, A, a), true) && Bound(a, Attached(between, A, a))
  {
    BothAreBound(pod);
    var saved := map[A := POD_A][B := POD_B];
    var restarted := IfBinding.Restarted(BothAttached(pod));
    StoredSurvivesRestart(saved, BothAttached(pod), true);
    var b := Stored("b:eth0", 2, Handle(8, 1));
    AttachedIsBound(saved, restarted, B, b);
    AttachedIsBound(saved[B := b], Attached(restarted, B, b), A, Stored("a:eth0", 1, Handle(10, 2)));
  }

  /** A pod whose interface was lost keeps its VRFs and its stored index. Once another pod
      has that index, deleting the first destroys the interface of the other. */
  lemma DeleteDestroysAnother(pod: string -> Key)
    requires NamesBoth(pod)
    ensures var b := Stored("b:eth0", 2, Handle(8, 2));
            var st := Attached(Lost(Attached(Fresh(pod), A, POD_A), 8), B, b);
            && StoredOk(map[A := POD_A][B := b], st, true) && Bound(b, st) && IndexReused(A, POD_A, st)
            && DestroysOther(POD_A, st.live, TornDown(A, POD_A, st).live) && !Bound(b, TornDown(A, POD_A, st))
  {
    var b := Stored("b:eth0", 2, Handle(8, 2));
    AttachedIsBound(map[], Fresh(pod), A, POD_A);
    var lost := Lost(Attached(Fresh(pod), A, POD_A), 8);
    LostIsInOrder(map[A := POD_A], Attached(Fresh(pod), A, POD_A), 8);
    AttachedIsBound(map[A := POD_A], lost, B, b);
    TeardownDestroysOtherLifetimeIff(A, POD_A, Attached(lost, B, b));
    TeardownUnbinds(A, POD_A, b, Attached(lost, B, b));
  }

  /** A rescan in which the listings fail for the pod that stays and, at first, for the one
      whose namespace is gone: both are taken for new. The one that stays gets the index
      the other had stored; tearing the other down then takes its interface, and it is kept
      unbound by a service that is ready. */
  lemma FailedListingUnbinds(pod: string -> Key)
    requires NamesBoth(pod)
    ensures var saved := map[A := POD_A][B := POD_B];
            var st := Lost(BothAttached(pod), 8);
            var b := Stored("b:eth0", 2, Handle(8, 3));
            var between := Attached(st.(table := Revoked(POD_B, st.table)), B, b);
            && StoredOk(saved, st, true) && PlanRescan(true, true, false) == NewLifecycle
            && A in between.vrfs && Bound(b, between) && !Bound(b, TornDown(A, POD_A, between))
            && Displaced(B, saved, {}, map[B := b])
            && !Reconciled(B, POD_B, map[B := b], {B.netns}, false, TornDown(A, POD_A, between))
  {
    BothAreBound(pod);
    var saved := map[A := POD_A][B := POD_B];
    LostIsInOrder(saved, BothAttached(pod), 8);
    var st := Lost(BothAttached(pod), 8);
    var b := Stored("b:eth0", 2, Handle(8, 3));
    assert st.live == map[10 := 2] && st.owners == BothAttached(pod).owners;
    TeardownUnbinds(A, POD_A, b, Attached(st.(table := Revoked(POD_B, st.table)), B, b));
    assert A in saved;
  }

  /** A delete withdraws the binding, fails to destroy interface and VRFs and fails to write the
      file, yet answers with success. The service restarts from that file and finds the VRFs
      and the handle; if the plugin then cannot be reached, what it keeps is out of order
      though no other pod was issued the handle. */
  lemma OlderFileLeavesUnbound(pod: string -> Key)
    requires NamesBoth(pod)
    ensures var file, attached := map[A := POD_A], Attached(Fresh(pod), A, POD_A);
            var st := attached.(table := Revoked(POD_A, attached.table));
            && StoredOk(file, attached, true) && TornPartly(A, POD_A, attached, st)
            && StoredOk(file, st, false) && !StoredOk(file, st, true)
            && A in st.vrfs && PlanRescan(true, false, true) == RescanDecision.Replay && Replayable(POD_A, st)
            && !InOrder(POD_A, st) && !Reissued(POD_A, st) && Adrift(POD_A, st, {Handle(8, 1)})
  {
    AttachedIsBound(map[], Fresh(pod), A, POD_A);
    var attached := Attached(Fresh(pod), A, POD_A);
    var st := attached.(table := Revoked(POD_A, attached.table));
    assert ValidAttachment("a:eth0");
    assert st.table == map[] && st.live == map[8 := 1] && st.owners == map[Handle(8, 1) := "a:eth0"];
    var file := map[A := POD_A];
    assert A in file && file[A] == POD_A;
  }

  /** VPP restarts and two pods get each other's former handles, but the file cannot be written.
      A delete of the second withdraws its binding and leaves its interface; the interface of
      the first is lost. Restarting from the file of before, the service sends the first pod's
      former tuple again, and the plugin binds it to the interface of the second. */
  lemma OlderFileMisbinds(pod: string -> Key)
    requires NamesBoth(pod)
    ensures var file := map[A := POD_A][B := POD_B];
            var b, a := Stored("b:eth0", 2, Handle(8, 1)), Stored("a:eth0", 1, Handle(10, 2));
            var again := Attached(Attached(IfBinding.Restarted(BothAttached(pod)), B, b), A, a);
            var deleted := again.(table := Revoked(b, again.table));
            var st := Lost(deleted, 10);
            && TornPartly(B, b, again, deleted) && StoredOk(file, st, false)
            && A in st.vrfs && Reissued(POD_A, st) && Replayable(POD_A, st)
            && Linked(st.table, st.owners) && !Linked(Rebound(POD_A, st).table, st.owners)
  {
    BothAreBound(pod);
    var b, a := Stored("b:eth0", 2, Handle(8, 1)), Stored("a:eth0", 1, Handle(10, 2));
    var again := Attached(Attached(IfBinding.Restarted(BothAttached(pod)), B, b), A, a);
    assert ValidAttachment("b:eth0");
    var deleted := again.(table := Revoked(b, again.table));
    var st := Lost(deleted, 10);
    assert st.live == map[8 := 1] && st.table == map[];
    assert st.owners == map[Handle(8, 1) := "b:eth0", Handle(10, 2) := "a:eth0"];
    ReplayLinksIff(A, POD_A, st);
  }
}
