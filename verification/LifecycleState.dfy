/**
  What the pod interface lifecycle service stores about its pods and how that relates to the
  data plane: whose a stored tuple is, whether it is in order, and what tearing a pod down,
  replaying it or restarting VPP does to it and to the others.
 */
module LifecycleState {
  import opened Srv6Types
  import opened IfBinding

  /** A stored pod: its identity and addresses, and its interface status. */
  datatype Spec = Spec(attachment: string, ips: set<IP6>, tun: Option<nat>, published: Option<Published>)

  type Specs = map<Key, Spec>

  ghost function OwnHandle(s: Spec): Option<Handle> {
    if s.published.Some? then Some(s.published.value.handle) else None
  }

  /** The published handle was issued for the pod since the last VPP restart. */
  ghost predicate Current(s: Spec, st: State) {
    && s.published.Some? && s.published.value.handle in st.owners
    && st.owners[s.published.value.handle] == s.attachment
  }

  /** The stored tuple is in the table, or its handle is not live. */
  ghost predicate InOrder(s: Spec, st: State) {
    s.published.Some? && IsLive(st.live, s.published.value.handle) ==> Holds(st.table, s.published.value)
  }

  /** A live interface created for another pod has the stored handle. */
  ghost predicate Reissued(s: Spec, st: State) {
    && s.published.Some? && IsLive(st.live, s.published.value.handle)
    && s.published.value.handle in st.owners && st.owners[s.published.value.handle] != s.attachment
  }

  /** Identity and published tuple are the pod's own. */
  ghost predicate Named(k: Key, s: Spec, st: State) {
    && st.pod(s.attachment) == k
    && (s.published.Some? ==>
          s.published.value.attachment == s.attachment && s.tun == Some(s.published.value.handle.index))
  }

  /** What the pod published is its own, and current as long as VPP has not restarted. In a
      clean map it is current also as long as the pod has VRFs, and in order as long as it is
      current. */
  ghost predicate SpecOk(k: Key, s: Spec, st: State, clean: bool) {
    && s.ips != {} && Named(k, s, st)
    && (s.published.Some? && st.restarts == 0 ==> Current(s, st))
    && (clean ==> (s.published.Some? && k in st.vrfs ==> Current(s, st)) && (Current(s, st) ==> InOrder(s, st)))
  }

  ghost predicate StoredOk(m: Specs, st: State, clean: bool) {
    forall k :: k in m ==> SpecOk(k, m[k], st, clean)
  }

  /** A stored tuple is in order exactly when its handle has not been issued again, since
      the last VPP restart, for an interface of another pod. */
  lemma InOrderIff(k: Key, s: Spec, st: State)
    requires SpecOk(k, s, st, true) && Linked(st.table, st.owners) && forall h :: IsLive(st.live, h) ==> h in st.owners
    ensures InOrder(s, st) <==> !Reissued(s, st)
    ensures st.restarts == 0 || k in st.vrfs ==> InOrder(s, st)
  {
  }

  /** The handle is live and was never bound, or withdrawn since. */
  ghost predicate Adrift(s: Spec, st: State, loose: set<Handle>) {
    s.published.Some? && IsLive(st.live, s.published.value.handle) && s.published.value.handle in loose
  }

  /** Of any tuple of the pod's own, from whatever file: as long as no identity is bound to the
      interface of another, it is in order exactly when its handle has neither been issued
      again for another pod nor been left unbound. */
  lemma OwnInOrderIff(k: Key, s: Spec, st: State, loose: set<Handle>)
    requires Named(k, s, st) && Linked(st.table, st.owners) && Loosely(loose, st.table, st.live)
    requires forall h :: IsLive(st.live, h) ==> h in st.owners
    ensures InOrder(s, st) <==> !Reissued(s, st) && !Adrift(s, st, loose)
  {
  }

  /** A handle issued since the last VPP restart was issued for one pod, so of the pods
      that store it at most one is current. */
  lemma NoHandleStoredTwice(m: Specs, st: State, j: Key, k: Key)
    requires StoredOk(m, st, false) && j in m && k in m && OwnHandle(m[j]).Some? && OwnHandle(m[j]) == OwnHandle(m[k])
    ensures Current(m[j], st) && Current(m[k], st) ==> j == k
    ensures st.restarts == 0 ==> j == k
  {
    assert SpecOk(j, m[j], st, false) && SpecOk(k, m[k], st, false);
  }

  ghost predicate DistinctAddresses(m: Specs) {
    forall j, k :: j in m && k in m && j != k ==> m[j].ips !! m[k].ips
  }

  ghost predicate NoneHas(m: Specs, ips: set<IP6>) {
    forall k :: k in m ==> m[k].ips !! ips
  }

  /** Published, in the table, and alive. */
  ghost predicate Bound(s: Spec, st: State) {
    && s.published.Some? && Holds(st.table, s.published.value) && IsLive(st.live, s.published.value.handle)
    && s.published.value.attachment == s.attachment && s.tun == Some(s.published.value.handle.index)
  }

  /** What withdraws and creates only for k keeps every other stored pod in order. */
  lemma StoredKept(m: Specs, a: State, b: State, k: Key, s: Spec, clean: bool)
    requires StoredOk(m, a, clean) && Named(k, s, a) && Keeps(a, b, s.published) && OnlyFor(a, b, k, s.attachment)
    ensures StoredOk(m - {k}, b, clean)
  {
    forall j | j in m && j != k ensures SpecOk(j, m[j], b, clean) {
      OtherKept(j, m[j], a, b, k, s, clean);
    }
  }

  lemma OtherKept(j: Key, other: Spec, a: State, b: State, k: Key, s: Spec, clean: bool)
    requires j != k && SpecOk(j, other, a, clean) && Named(k, s, a)
    requires Keeps(a, b, s.published) && OnlyFor(a, b, k, s.attachment)
    ensures SpecOk(j, other, b, clean)
  {
    if other.published.Some? && Current(other, b) {
      assert Current(other, a);
    }
  }

  /** A bound pod stays bound as long as its interface lives. */
  lemma Survives(j: Key, other: Spec, a: State, b: State, k: Key, s: Spec)
    requires j != k && Named(j, other, a) && Named(k, s, a) && Keeps(a, b, s.published)
    requires Bound(other, a) && IsLive(b.live, other.published.value.handle)
    ensures Bound(other, b)
  {
  }

  /** The published handle is that of the pod's interface, and live. */
  ghost predicate OwnsLive(s: Spec, live: Live) {
    && s.published.Some? && IsLive(live, s.published.value.handle)
    && s.tun == Some(s.published.value.handle.index)
  }

  /** The published handle is live, and the plugin would take the tuple. */
  ghost predicate Replayable(s: Spec, st: State) {
    OwnsLive(s, st.live) && Accepts(st.live, st.table, s.attachment, s.published.value.handle)
  }

  /** The published tuple was taken. */
  ghost function Rebound(s: Spec, st: State): State {
    if s.published.Some? then st.(table := st.table[s.attachment := s.published.value.handle]) else st
  }

  /** Sending a stored tuple again binds the identity to the interface of another exactly if
      its handle was issued again for another pod. */
  lemma ReplayLinksIff(k: Key, s: Spec, st: State)
    requires Named(k, s, st) && Replayable(s, st) && Linked(st.table, st.owners)
    requires forall h :: IsLive(st.live, h) ==> h in st.owners
    ensures Linked(Rebound(s, st).table, st.owners) <==> !Reissued(s, st)
  {
    assert Rebound(s, st).table[s.attachment] == s.published.value.handle;
  }

  lemma ReboundSame(s: Spec, st: State)
    ensures Bound(s, st) ==> Rebound(s, st) == st
  {
    if Bound(s, st) { assert st.table[s.attachment := s.published.value.handle] == st.table; }
  }

  lemma ReboundKept(m: Specs, st: State, k: Key, s: Spec, clean: bool)
    requires StoredOk(m, st, clean) && SpecOk(k, s, st, clean) && Replayable(s, st)
    ensures StoredOk(m, Rebound(s, st), clean) && SpecOk(k, s, Rebound(s, st), clean)
  {
    forall j | j in m ensures SpecOk(j, m[j], Rebound(s, st), clean) {
      assert SpecOk(j, m[j], st, clean);
    }
  }

  /** An interface that has the pod's index was created for the pod. */
  ghost predicate Issued(s: Spec, st: State) {
    s.tun.Some? && s.tun.value in st.live ==>
      var h := Handle(s.tun.value, st.live[s.tun.value]);
      h in st.owners && st.owners[h] == s.attachment
  }

  /** What the pod published is in the table no more. */
  ghost predicate Withdrawn(s: Spec, table: Table) {
    s.published.Some? && ValidAttachment(s.published.value.attachment) ==> !Holds(table, s.published.value)
  }

  ghost predicate AllWithdrawn(m: Specs, keys: set<Key>, table: Table) {
    forall j :: j in keys && j in m ==> Withdrawn(m[j], table)
  }

  lemma OneMoreGone(pods: Specs, stored: Specs, gone: set<Key>, j: Key, a: State, b: State, c: State)
    requires NothingNew(a, b) && NothingNew(b, c)
    ensures NothingNew(a, c) && pods - gone - {j} == pods - (gone + {j}) && stored - gone - {j} == stored - (gone + {j})
    ensures AllWithdrawn(pods, gone, b.table) && (j in pods ==> Withdrawn(pods[j], c.table)) ==>
              AllWithdrawn(pods, gone + {j}, c.table)
  {
  }

  function Revoked(s: Spec, table: Table): Table {
    if s.published.Some? && ValidAttachment(s.published.value.attachment) && Holds(table, s.published.value)
    then table - {s.published.value.attachment} else table
  }

  /** What tearing a pod down comes to when every call succeeds. */
  ghost function TornDown(k: Key, s: Spec, st: State): (r: State)
    ensures Withdrawn(s, r.table) && k !in r.vrfs
  {
    var table := Revoked(s, st.table);
    if k !in st.vrfs then st.(table := table)
    else if s.tun.None? then st.(table := table, vrfs := st.vrfs - {k})
    else st.(live := st.live - {s.tun.value}, table := WithoutIndex(table, s.tun.value), vrfs := st.vrfs - {k})
  }

  /** What tearing a pod down may come to when calls fail: the binding is withdrawn or not,
      and where VRFs are seen interface and VRFs go or not. */
  ghost predicate TornPartly(k: Key, s: Spec, a: State, b: State) {
    && b.owners == a.owners && b.restarts == a.restarts && b.pod == a.pod
    && (b.vrfs == a.vrfs || b.vrfs == a.vrfs - {k})
    && (|| (b.live == a.live && (b.table == a.table || b.table == Revoked(s, a.table)))
        || (s.tun.Some? && k in a.vrfs && b.live == a.live - {s.tun.value} &&
            (b.table == WithoutIndex(a.table, s.tun.value) ||
             b.table == WithoutIndex(Revoked(s, a.table), s.tun.value))))
  }

  lemma TornPartlyKeeps(k: Key, s: Spec, a: State, b: State)
    requires TornPartly(k, s, a, b) && TableOk(a.table, a.live)
    ensures Keeps(a, b, s.published) && OnlyFor(a, b, k, s.attachment) && NothingNew(a, b) &&
            b.vrfs - {k} == a.vrfs - {k}
  {
  }

  /** All that went away: interfaces at these indices with their bindings, these bindings,
      and the VRFs of these pods. */
  ghost predicate Spares(indices: set<nat>, tuples: set<Published>, keys: set<Key>, a: State, b: State) {
    && (forall h :: IsLive(a.live, h) && !IsLive(b.live, h) ==> h.index in indices)
    && (forall p :: Holds(a.table, p) && !Holds(b.table, p) ==> p in tuples || p.handle.index in indices)
    && a.vrfs - b.vrfs <= keys
  }

  lemma SparesTrans(i: set<nat>, t: set<Published>, ks: set<Key>, i': set<nat>, t': set<Published>, ks': set<Key>,
                    a: State, b: State, c: State)
    requires Spares(i, t, ks, a, b) && Spares(i', t', ks', b, c)
    ensures Spares(i + i', t + t', ks + ks', a, c)
  {
    forall k | k in a.vrfs - c.vrfs ensures k in ks + ks' {
      assert k in a.vrfs - b.vrfs || k in b.vrfs - c.vrfs;
    }
  }

  /** The indices of these pods, and the tuples they published. */
  ghost function Indices(m: Specs, keys: set<Key>): set<nat> {
    set j | j in keys && j in m && m[j].tun.Some? :: m[j].tun.value
  }

  ghost function Tuples(m: Specs, keys: set<Key>): set<Published> {
    set j | j in keys && j in m && m[j].published.Some? :: m[j].published.value
  }

  /** Of anything but these pods, all is left as it was. */
  ghost predicate SparesOthers(m: Specs, keys: set<Key>, a: State, b: State) {
    Spares(Indices(m, keys), Tuples(m, keys), keys, a, b)
  }

  lemma TornPartlySpares(k: Key, s: Spec, a: State, b: State)
    requires TornPartly(k, s, a, b)
    ensures SparesOthers(map[k := s], {k}, a, b)
  {
    var m := map[k := s];
    if s.tun.Some? { assert m[k].tun.value in Indices(m, {k}); }
    if s.published.Some? { assert m[k].published.value in Tuples(m, {k}); }
  }

  /** One more of the pods is torn down. */
  lemma SparesNext(m: Specs, keys: set<Key>, k: Key, a: State, b: State, c: State)
    requires SparesOthers(m, keys, a, b) && k in m && TornPartly(k, m[k], b, c)
    ensures SparesOthers(m, keys + {k}, a, c)
  {
    TornPartlySpares(k, m[k], b, c);
    var one := map[k := m[k]];
    SparesTrans(Indices(m, keys), Tuples(m, keys), keys, Indices(one, {k}), Tuples(one, {k}), {k}, a, b, c);
    assert Indices(m, keys) + Indices(one, {k}) == Indices(m, keys + {k});
    assert Tuples(m, keys) + Tuples(one, {k}) == Tuples(m, keys + {k});
  }

  /** What a pod's own withdrawal, new interface and VRFs take away: its published tuple. */
  lemma UntouchedSpares(m: Specs, keys: set<Key>, k: Key, s: Spec, a: State, b: State)
    requires Untouched(k, s, a, b) && TableOk(a.table, a.live) && k in keys
    requires s.published.Some? ==> s.published.value in Tuples(m, keys)
    ensures SparesOthers(m, keys, a, b)
  {
    forall j | j in a.vrfs - b.vrfs ensures j in keys {
      assert j in a.vrfs - {k} ==> j in b.vrfs - {k};
    }
  }

  lemma TupleIn(m: Specs, keys: set<Key>, k: Key)
    requires k in keys && k in m && m[k].published.Some?
    ensures m[k].published.value in Tuples(m, keys)
  {
  }

  /** The pod that is set up, and those that have one of its addresses. */
  ghost function InTheWay(m: Specs, k: Key, ips: set<IP6>): set<Key> {
    Holders(m, ips) + {k}
  }

  lemma SparesBoth(m: Specs, keys: set<Key>, a: State, b: State, c: State)
    requires SparesOthers(m, keys, a, b) && SparesOthers(m, keys, b, c)
    ensures SparesOthers(m, keys, a, c)
  {
    SparesTrans(Indices(m, keys), Tuples(m, keys), keys, Indices(m, keys), Tuples(m, keys), keys, a, b, c);
    assert Indices(m, keys) + Indices(m, keys) == Indices(m, keys);
    assert Tuples(m, keys) + Tuples(m, keys) == Tuples(m, keys) && keys + keys == keys;
  }

  /** The index of a new interface was free, or one of those had it. */
  ghost predicate FreeOrTheirs(r: Spec, m: Specs, keys: set<Key>, a: State) {
    r.tun.Some? && r.tun.value in a.live ==> r.tun.value in Indices(m, keys)
  }

  lemma FreeAfter(r: Spec, m: Specs, keys: set<Key>, a: State, b: State)
    requires SparesOthers(m, keys, a, b) && (r.tun.Some? ==> r.tun.value !in b.live)
    ensures FreeOrTheirs(r, m, keys, a)
  {
    if r.tun.Some? && r.tun.value in a.live {
      assert IsLive(a.live, Handle(r.tun.value, a.live[r.tun.value]));
    }
  }

  /** Clearing the way: the pod's own tuple is withdrawn, then the others are torn down. */
  lemma WayIsCleared(m: Specs, k: Key, s: Spec, a: State, b: State, c: State)
    requires (k in m ==> m[k] == s) && Untouched(k, s, a, b) && TableOk(a.table, a.live)
    requires SparesOthers(m, Holders(m, s.ips), b, c)
    ensures SparesOthers(m[k := s], InTheWay(m, k, s.ips), a, c)
  {
    var m', some, keys := m[k := s], Holders(m, s.ips), InTheWay(m, k, s.ips);
    if s.published.Some? { TupleIn(m', keys, k); }
    UntouchedSpares(m', keys, k, s, a, b);
    assert Indices(m, some) <= Indices(m', keys) && Tuples(m, some) <= Tuples(m', keys);
    SparesBoth(m', keys, a, b, c);
  }

  /** No other identity was bound. */
  ghost predicate BindsOnly(a: string, before: Table, after: Table) {
    forall p :: Holds(after, p) ==> Holds(before, p) || p.attachment == a
  }

  /** A new interface was set up for a pod, whatever came in its way: of all others nothing
      is gone or bound, and its index was free by then. */
  ghost predicate NewAmong(k: Key, s: Spec, r: Spec, m: Specs, a: State, b: State) {
    && SparesOthers(m[k := s], InTheWay(m, k, s.ips), a, b) && FreeOrTheirs(r, m[k := s], InTheWay(m, k, s.ips), a)
    && BindsOnly(s.attachment, a.table, b.table)
  }

  lemma StartsAmong(k: Key, s: Spec, s': Spec, r: Spec, m: Specs, a: State, b: State, c: State)
    requires SparesOthers(m[k := s], InTheWay(m, k, s.ips), a, b) && Untouched(k, s', b, c) && s'.published.None?
    requires TableOk(b.table, b.live) && (r.tun.Some? ==> r.tun.value !in b.live)
    requires OnlyLess(a.table, b.table) && BindsOnly(s.attachment, b.table, c.table)
    ensures NewAmong(k, s, r, m, a, c)
  {
    var m', keys := m[k := s], InTheWay(m, k, s.ips);
    FreeAfter(r, m', keys, a, b);
    UntouchedSpares(m', keys, k, s', b, c);
    SparesBoth(m', keys, a, b, c);
  }

  /** So does an attempt that leaves the pod as it was stored, or sends its tuple again. */
  lemma StaysAmong(k: Key, s: Spec, m: Specs, a: State, b: State)
    requires b == a || (b == Rebound(s, a) && Replayable(s, a))
    ensures NewAmong(k, s, s, m, a, b)
  {
    var m', keys := m[k := s], InTheWay(m, k, s.ips);
    if s.tun.Some? { assert m'[k].tun.value in Indices(m', keys); }
  }

  /** A request for a pod takes from no other one: it keeps its place in the map, unless it has
      one of the addresses, and of it nothing is torn down. */
  ghost predicate OthersServed(k: Key, ips: set<IP6>, m: Specs, m': Specs, a: State, b: State) {
    (m' == m || m' - {k} == Without(m, ips) - {k}) && SparesOthers(m, InTheWay(m, k, ips), a, b)
  }

  /** After an attempt for pod k the map is as it was, or without those that had its addresses. */
  ghost predicate Attempted(k: Key, s: Spec, r: Spec, m: Specs, m1: Specs, a: State, b: State) {
    && (if k in m then m[k] == s else s.tun.None? && s.published.None?)
    && (m1 == m || m1 == Without(m, s.ips)) && DistinctAddresses(m)
    && NewAmong(k, s, r, m, a, b) && TableOk(a.table, a.live)
  }

  lemma NotServed(k: Key, s: Spec, r: Spec, m: Specs, m1: Specs, a: State, b: State)
    requires Attempted(k, s, r, m, m1, a, b)
    ensures OthersServed(k, s.ips, m, m1, a, b)
  {
    NewHasNothing(m, k, s, InTheWay(m, k, s.ips), a, b);
  }

  /** Addresses being distinct, a stored pod is the only one that has its addresses. */
  lemma OwnPlaceOnly(k: Key, s: Spec, m: Specs, m1: Specs)
    requires m1 == Without(m, s.ips) || (m1 == m && k in m && m[k] == s && DistinctAddresses(m))
    ensures m1 - {k} == Without(m, s.ips) - {k}
  {
  }

  lemma IsServed(k: Key, s: Spec, r: Spec, m: Specs, m1: Specs, a: State, b: State)
    requires Attempted(k, s, r, m, m1, a, b) && (m1 == Without(m, s.ips) || k in m)
    ensures OthersServed(k, s.ips, m, m1[k := r], a, b)
  {
    OwnPlaceOnly(k, s, m, m1);
    assert m1[k := r] - {k} == m1 - {k};
    NewHasNothing(m, k, s, InTheWay(m, k, s.ips), a, b);
  }

  lemma UnservedAgain(k: Key, s: Spec, r: Spec, m: Specs, m1: Specs, a: State, b: State, c: State)
    requires Attempted(k, s, r, m, m1, a, b) && (m1 == Without(m, s.ips) || k in m)
    requires TornPartly(k, r, b, c) && (r.published.Some? ==> r.tun == Some(r.published.value.handle.index))
    ensures OthersServed(k, s.ips, m, m1[k := r] - {k}, a, c)
  {
    OwnPlaceOnly(k, s, m, m1);
    assert m1[k := r] - {k} == m1 - {k};
    UndoingSpares(m[k := s], InTheWay(m, k, s.ips), k, r, a, b, c);
    NewHasNothing(m, k, s, InTheWay(m, k, s.ips), a, c);
  }

  /** A bound pod that has none of the addresses, and an index of its own, stays bound. */
  lemma OtherStaysBound(k: Key, ips: set<IP6>, m: Specs, m': Specs, j: Key, a: State, b: State)
    requires OthersServed(k, ips, m, m', a, b) && forall i :: i in m ==> Named(i, m[i], a)
    requires j in m && j != k && m[j].ips !! ips && Bound(m[j], a)
    requires forall i :: i in m && i in InTheWay(m, k, ips) ==> m[i].tun != m[j].tun
    ensures j in m' && m'[j] == m[j] && Bound(m[j], b)
  {
    assert j in Without(m, ips) - {k} && (m' == m || j in m' - {k});
    SparedStaysBound(m, InTheWay(m, k, ips), j, a, b);
  }

  /** One pod found on disk was kept, and nothing but its own changed, or it was torn down. */
  ghost predicate LookedAt(k: Key, s: Spec, kept: bool, a: State, b: State) {
    if kept then Untouched(k, s, a, b) && BindsOnly(s.attachment, a.table, b.table) else TornPartly(k, s, a, b)
  }

  /** A service that is not ready keeps a pod that is not bound. */
  ghost predicate Blamed(notReady: bool, pods: Specs, st: State) {
    notReady ==> exists k :: k in pods && Unfit(pods[k], st)
  }

  /** No look at another pod binds it. */
  lemma StaysBlamed(k: Key, s: Spec, stored: Specs, clean: bool, notReady: bool, pods: Specs, a: State,
                    notReady': bool, pods': Specs, b: State)
    requires Blamed(notReady, pods, a) && LookedAt(k, s, k in pods', a, b) && TableOk(a.table, a.live)
    requires StoredOk(stored, a, clean) && Covered(pods, stored) && k in stored && stored[k] == s && k !in pods
    requires pods' == if k in pods' then pods[k := pods'[k]] else pods
    requires notReady' && !notReady ==> k in pods' && Unfit(pods'[k], b)
    ensures Blamed(notReady', pods', b)
  {
    if notReady' && notReady {
      var j :| j in pods && Unfit(pods[j], a);
      assert pods'[j] == pods[j] && SpecOk(j, stored[j], a, clean) && SpecOk(k, s, a, clean);
      StaysUnfit(k, s, k in pods', j, pods[j], a, b);
    }
  }

  lemma StaysUnfit(k: Key, s: Spec, kept: bool, j: Key, other: Spec, a: State, b: State)
    requires LookedAt(k, s, kept, a, b) && TableOk(a.table, a.live) && Named(k, s, a) && Named(j, other, a) && j != k
    requires Unfit(other, a)
    ensures Unfit(other, b)
  {
  }

  /** A rescan of these saved pods takes interfaces only of those it drops, and only VRFs and
      bindings of its own. */
  ghost predicate RescanSpares(saved: Specs, done: set<Key>, pods: Specs, a: State, b: State) {
    Spares(Indices(saved, done - pods.Keys), Tuples(saved, done), done, a, b)
  }

  /** What a rescan of a readable file comes to: each saved pod is bound or the service not
      ready, or the pod had no namespace and is dropped; and if ready is set, the service is
      not ready only on account of a pod that is not bound. */
  ghost predicate Reloaded(saved: Specs, pods: Specs, namespaces: set<string>, notReady: bool, ready: bool,
                           a: State, b: State)
  {
    && pods.Keys <= saved.Keys && RescanSpares(saved, saved.Keys, pods, a, b)
    && (forall k :: k in saved ==> Settled(k, saved, {}, pods, namespaces, notReady, b))
    && (ready ==> Blamed(notReady, pods, b))
  }

  lemma LookedAtSpares(k: Key, s: Spec, kept: bool, a: State, b: State)
    requires LookedAt(k, s, kept, a, b) && TableOk(a.table, a.live)
    ensures var one := map[k := s];
            Spares(if kept then {} else Indices(one, {k}), Tuples(one, {k}), {k}, a, b)
  {
    if kept {
      if s.published.Some? { TupleIn(map[k := s], {k}, k); }
      forall j | j in a.vrfs - b.vrfs ensures j in {k} {
        assert j in a.vrfs - {k} ==> j in b.vrfs - {k};
      }
    } else {
      TornPartlySpares(k, s, a, b);
    }
  }

  lemma RescanSparesNext(saved: Specs, todo: set<Key>, k: Key, pods: Specs, pods': Specs, a: State, b: State, c: State)
    requires RescanSpares(saved, saved.Keys - todo, pods, a, b) && k in todo && k in saved && k !in pods
    requires LookedAt(k, saved[k], k in pods', b, c) && TableOk(b.table, b.live)
    requires pods' == if k in pods' then pods[k := pods'[k]] else pods
    ensures RescanSpares(saved, saved.Keys - (todo - {k}), pods', a, c)
  {
    var one, done, done' := map[k := saved[k]], saved.Keys - todo, saved.Keys - (todo - {k});
    var i := if k in pods' then {} else Indices(one, {k});
    LookedAtSpares(k, saved[k], k in pods', b, c);
    SparesTrans(Indices(saved, done - pods.Keys), Tuples(saved, done), done, i, Tuples(one, {k}), {k}, a, b, c);
    assert done + {k} == done';
    assert Tuples(saved, done) + Tuples(one, {k}) == Tuples(saved, done');
    assert Indices(saved, done - pods.Keys) + i <= Indices(saved, done' - pods'.Keys);
  }

  /** A new pod had neither an index nor a published tuple. */
  lemma NewHasNothing(m: Specs, k: Key, s: Spec, keys: set<Key>, a: State, b: State)
    requires if k in m then m[k] == s else s.tun.None? && s.published.None?
    ensures SparesOthers(m[k := s], keys, a, b) <==> SparesOthers(m, keys, a, b)
  {
    assert Indices(m[k := s], keys) == Indices(m, keys) && Tuples(m[k := s], keys) == Tuples(m, keys);
  }

  /** Taking down what was just set up takes nothing from the others. */
  lemma UndoingSpares(m: Specs, keys: set<Key>, k: Key, r: Spec, a: State, b: State, c: State)
    requires SparesOthers(m, keys, a, b) && k in keys && TornPartly(k, r, b, c) && FreeOrTheirs(r, m, keys, a)
    requires TableOk(a.table, a.live) && (r.published.Some? ==> r.tun == Some(r.published.value.handle.index))
    ensures SparesOthers(m, keys, a, c)
  {
    TornPartlySpares(k, r, b, c);
  }

  /** A pod that none of them shares its index with stays bound. */
  lemma SparedStaysBound(m: Specs, keys: set<Key>, j: Key, a: State, b: State)
    requires SparesOthers(m, keys, a, b) && j in m && j !in keys && Bound(m[j], a)
    requires m[j].tun.value !in Indices(m, keys)
    requires forall k :: k in m ==> Named(k, m[k], a)
    ensures Bound(m[j], b)
  {
  }

  /** A new lifetime of the pod: a new interface with VRFs, bound; or what a failed attempt
      leaves. n is the incarnation issued. */
  ghost predicate Started(k: Key, s: Spec, r: Spec, ok: bool, n: nat, a: State, b: State) {
    if ok then
      && r.tun.Some? && r == s.(tun := r.tun, published := Some(Published(s.attachment, Handle(r.tun.value, n))))
      && Realized(a, k, s.attachment, r.tun.value, n, b.(table := a.table))
      && s.attachment !in a.table && b.table == a.table[s.attachment := Handle(r.tun.value, n)]
    else
      r == s.(tun := r.tun) && LeftOver(a, k, s.attachment, r.tun, n, b)
  }

  lemma StartedKeeps(k: Key, s: Spec, r: Spec, ok: bool, n: nat, a: State, b: State)
    requires Started(k, s, r, ok, n, a, b) && TableOk(a.table, a.live) &&
             forall h :: IsLive(a.live, h) ==> h in a.owners
    ensures Keeps(a, b, None) && OnlyFor(a, b, k, s.attachment) && AllStayAlive(a, b) && b.vrfs - {k} == a.vrfs - {k}
  {
    if !ok && r.tun.Some? {
      assert forall h :: IsLive(b.live, h) && h.index != r.tun.value ==> IsLive(a.live, h);
    }
  }

  lemma StartedIsOk(k: Key, s: Spec, r: Spec, ok: bool, n: nat, a: State, b: State, clean: bool)
    requires Started(k, s, r, ok, n, a, b) && s.ips != {} && s.published.None? && a.pod(s.attachment) == k
    ensures SpecOk(k, r, b, clean) && (ok ==> Bound(r, b) && Current(r, b))
    ensures forall p :: Holds(b.table, p) ==> Holds(a.table, p) || Some(p) == r.published
  {
  }

  /** An interface other than the published one went away. */
  ghost predicate DestroysOther(s: Spec, before: Live, after: Live) {
    exists h :: IsLive(before, h) && !IsLive(after, h) && Some(h) != OwnHandle(s)
  }

  /** The pod has VRFs, and its index belongs to another interface by now. */
  ghost predicate IndexReused(k: Key, s: Spec, st: State) {
    && k in st.vrfs && s.tun.Some? && s.tun.value in st.live
    && OwnHandle(s) != Some(Handle(s.tun.value, st.live[s.tun.value]))
  }

  /** Tearing a pod down while its VRFs exist deletes whatever interface has the stored
      index: that is another lifetime's interface exactly when the index is live under an
      incarnation other than the published one. */
  lemma TeardownDestroysOtherLifetimeIff(k: Key, s: Spec, st: State)
    ensures DestroysOther(s, st.live, TornDown(k, s, st).live) <==> IndexReused(k, s, st)
    ensures s.tun.Some? && DestroysOther(s, st.live, st.live - {s.tun.value}) && k in st.vrfs ==> IndexReused(k, s, st)
  {
    if IndexReused(k, s, st) {
      var h := Handle(s.tun.value, st.live[s.tun.value]);
      assert IsLive(st.live, h) && !IsLive(TornDown(k, s, st).live, h);
    }
  }

  /** No binding was added. */
  ghost predicate OnlyLess(before: Table, after: Table) {
    forall p :: Holds(after, p) ==> Holds(before, p)
  }

  lemma StoredStays(m: Specs, a: State, b: State, clean: bool)
    requires StoredOk(m, a, clean) && Keeps(a, b, None) && b.owners == a.owners && b.vrfs <= a.vrfs
    ensures StoredOk(m, b, clean)
  {
    forall k | k in m ensures SpecOk(k, m[k], b, clean) {
      assert SpecOk(k, m[k], a, clean);
    }
  }

  lemma StoredSurvivesRestart(m: Specs, a: State, clean: bool)
    requires StoredOk(m, a, clean)
    ensures StoredOk(m, Restarted(a), clean)
  {
    forall k | k in m ensures SpecOk(k, m[k], Restarted(a), clean) {
      assert SpecOk(k, m[k], a, clean);
    }
  }

  /** Nothing but the pod's own withdrawal and interface happened. */
  ghost predicate Untouched(k: Key, s: Spec, a: State, b: State) {
    AllStayAlive(a, b) && Keeps(a, b, s.published) && b.vrfs - {k} == a.vrfs - {k}
  }

  /** Not bound, or under an identity the plugin does not accept. */
  ghost predicate Unfit(s: Spec, st: State) {
    !ValidAttachment(s.attachment) || !Bound(s, st)
  }

  /** A new lifetime can start: the namespace is there, the VRFs are not, and once the pod's
      tuple is withdrawn its identity is not bound. */
  ghost predicate Startable(k: Key, s: Spec, st: State, namespaces: set<string>) {
    k.netns in namespaces && k !in st.vrfs && ValidAttachment(s.attachment) && s.attachment !in Revoked(s, st.table)
  }

  /** The stored state of a pod, or that of a new one. */
  function SpecFor(k: Key, attachment: string, addresses: set<IP6>, pods: Specs): Spec {
    if k in pods then pods[k] else Spec(attachment, addresses, None, None)
  }

  /** A pod that was not served is not in the map, or is there as it was. */
  ghost predicate Unserved(k: Key, before: Specs, after: Specs) {
    k in after ==> k in before && after[k] == before[k]
  }

  /** No interface, binding or VRF was left behind. */
  ghost predicate NothingNew(a: State, b: State) {
    AllStayAlive(b, a) && OnlyLess(a.table, b.table) && b.vrfs <= a.vrfs
  }

  /** No handle issued since the last VPP restart was forgotten. */
  ghost predicate Grown(a: State, b: State) {
    && b.restarts == a.restarts && b.pod == a.pod
    && forall h :: h in a.owners ==> h in b.owners && b.owners[h] == a.owners[h]
  }

  lemma StoredGrows(m: Specs, a: State, b: State)
    requires StoredOk(m, a, false) && Grown(a, b)
    ensures StoredOk(m, b, false)
  {
    forall k | k in m ensures SpecOk(k, m[k], b, false) {
      assert SpecOk(k, m[k], a, false);
    }
  }

  /** No live interface went away. */
  ghost predicate AllStayAlive(a: State, b: State) {
    forall h :: IsLive(a.live, h) ==> IsLive(b.live, h)
  }

  /** The end of an attempt to set up an interface: the first three leave the pod as it
      was stored, the others are a new lifetime or a failed attempt at one. */
  datatype Outcome = Replayed | Refused | NamespaceGone | Created | Failed

  /** A rescan that has still to look at some of the saved pods. */
  ghost predicate Midway(saved: Specs, todo: set<Key>, pods: Specs, stored: Specs, namespaces: set<string>,
                         notReady: bool, listing: bool, st: State, vrfs: set<Key>)
  {
    && todo <= saved.Keys && pods.Keys <= saved.Keys - todo
    && (forall k :: k in todo ==> k in stored && stored[k] == saved[k] && (k in st.vrfs <==> k in vrfs))
    && (forall k :: k in saved && k !in todo && k !in pods ==> k.netns !in namespaces)
    && (forall k :: k in saved && k !in todo ==> Settled(k, saved, todo, pods, namespaces, notReady, st))
    && (listing ==> forall k :: k in saved && k !in todo ==> Reconciled(k, saved[k], pods, namespaces, notReady, st))
    && (listing ==> forall k :: k in pods && k in vrfs ==> pods[k] == saved[k])
  }

  lemma MidwayStep(saved: Specs, todo: set<Key>, k: Key, pods: Specs, stored: Specs, notReady: bool, st: State,
                   pods': Specs, stored': Specs, notReady': bool, st': State,
                   namespaces: set<string>, listing: bool, vrfs: set<Key>)
    requires Midway(saved, todo, pods, stored, namespaces, notReady, listing, st, vrfs) && k in todo
    requires if k in pods' then pods' == pods[k := pods'[k]] && stored' == stored[k := pods'[k]]
             else pods' == pods && stored' == stored - {k}
    requires Reconciled(k, saved[k], pods', namespaces, notReady', st') && (notReady ==> notReady')
    requires BoundKeptBut(pods, st, st', saved[k].tun) && (listing || k in pods' ==> BoundKept(pods, st, st'))
    requires listing && k in st.vrfs && k in pods' ==> pods'[k] == saved[k]
    requires st'.vrfs - {k} == st.vrfs - {k}
    ensures Midway(saved, todo - {k}, pods', stored', namespaces, notReady', listing, st', vrfs)
  {
    forall j | j in todo - {k} ensures j in stored' && stored'[j] == saved[j] && (j in st'.vrfs <==> j in vrfs) {
      assert j in st'.vrfs - {k} <==> j in st.vrfs - {k};
    }
    forall j | j in saved && j !in todo - {k} ensures Settled(j, saved, todo - {k}, pods', namespaces, notReady', st') {
      if j != k {
        SettledStep(j, saved, todo, k, pods, notReady, st, pods', notReady', st', namespaces);
      }
    }
    if listing {
      forall j | j in saved && j !in todo - {k} ensures Reconciled(j, saved[j], pods', namespaces, notReady', st') {
        assert j != k ==> Reconciled(j, saved[j], pods, namespaces, notReady, st);
      }
    }
  }

  /** One more of the saved pods was looked at. */
  lemma RescanStep(saved: Specs, todo: set<Key>, k: Key, pods: Specs, stored: Specs, notReady: bool, st: State,
                   pods': Specs, stored': Specs, notReady': bool, st': State, namespaces: set<string>, clean: bool,
                   listing: bool, reliable: bool, vrfs: set<Key>, st0: State)
    requires StoredOk(stored, st, clean) && Covered(pods, stored) && TableOk(st.table, st.live)
    requires Midway(saved, todo, pods, stored, namespaces, notReady, clean && listing, st, vrfs) && k in todo
    requires RescanSpares(saved, saved.Keys - todo, pods, st0, st)
    requires if k in pods' then pods' == pods[k := pods'[k]] && stored' == stored[k := pods'[k]]
             else pods' == pods && stored' == stored - {k}
    requires Reconciled(k, saved[k], pods', namespaces, notReady', st') && (notReady ==> notReady')
    requires reliable && notReady' && !notReady ==> k in pods' && Unfit(pods'[k], st')
    requires BoundKeptBut(pods, st, st', saved[k].tun)
    requires (clean && listing) || k in pods' ==> BoundKept(pods, st, st')
    requires listing && k in st.vrfs && k in pods' ==> pods'[k] == saved[k]
    requires st'.vrfs - {k} == st.vrfs - {k} && LookedAt(k, saved[k], k in pods', st, st')
    ensures Midway(saved, todo - {k}, pods', stored', namespaces, notReady', clean && listing, st', vrfs)
    ensures RescanSpares(saved, saved.Keys - (todo - {k}), pods', st0, st')
    ensures reliable && Blamed(notReady, pods, st) ==> Blamed(notReady', pods', st')
  {
    MidwayStep(saved, todo, k, pods, stored, notReady, st, pods', stored', notReady', st', namespaces, clean && listing,
               vrfs);
    RescanSparesNext(saved, todo, k, pods, pods', st0, st, st');
    if reliable && Blamed(notReady, pods, st) {
      StaysBlamed(k, saved[k], stored, clean, notReady, pods, st, notReady', pods', st');
    }
  }

  lemma SettledStep(j: Key, saved: Specs, todo: set<Key>, k: Key, pods: Specs, notReady: bool, st: State,
                    pods': Specs, notReady': bool, st': State, namespaces: set<string>)
    requires j in saved && j != k && k in todo && k in saved && k !in pods &&
             Settled(j, saved, todo, pods, namespaces, notReady, st)
    requires pods' == if k in pods' then pods[k := pods'[k]] else pods
    requires notReady ==> notReady'
    requires BoundKeptBut(pods, st, st', saved[k].tun) && (k in pods' ==> BoundKept(pods, st, st'))
    ensures Settled(j, saved, todo - {k}, pods', namespaces, notReady', st')
  {
    if Displaced(j, saved, todo, pods) {
      var d :| d in saved && d !in todo && d !in pods && saved[d].tun == pods[j].tun;
      assert d !in todo - {k} && d !in pods';
    } else if j in pods && !notReady' && !Bound(pods[j], st') {
      assert Bound(pods[j], st);
      assert k !in pods' && saved[k].tun == pods[j].tun;
    }
  }

  lemma RestoreAttempts(k: Key, s: Spec, pods: Specs, stored: Specs, st: State, clean: bool)
    requires StoredOk(stored, st, clean) && DistinctAddresses(stored) && Covered(pods, stored)
    requires k in stored && stored[k] == s && k !in pods
    ensures StoredOk(stored - {k}, st, clean) && DistinctAddresses(pods) && SpecOk(k, s, st, clean) &&
            Covered(pods - {k}, stored - {k})
    ensures NoneHas(pods, s.ips) && DistinctAddresses(stored - {k}) && NoneHas(stored - {k}, s.ips)
  {
  }

  /** Pods that were bound stay bound if no other interface goes away. */
  lemma StayBound(m: Specs, a: State, b: State, k: Key, s: Spec, clean: bool)
    requires StoredOk(m, a, clean) && k !in m && Named(k, s, a) && Untouched(k, s, a, b)
    ensures BoundKept(m, a, b)
  {
    forall j | j in m && Bound(m[j], a) ensures Bound(m[j], b) {
      Survives(j, m[j], a, b, k, s);
    }
  }

  /** Tearing k down unbinds at most pods that have the index k stored; if k has VRFs and
      its published handle is live, none. */
  lemma OnlyOwnGoes(m: Specs, a: State, b: State, k: Key, s: Spec, clean: bool)
    requires StoredOk(m, a, clean) && k !in m && Named(k, s, a) && Keeps(a, b, s.published)
    requires clean ==> Linked(a.table, a.owners)
    requires b.live == a.live || (s.tun.Some? && k in a.vrfs && b.live == a.live - {s.tun.value})
    ensures BoundKeptBut(m, a, b, s.tun)
    ensures b.live == a.live || (clean && SpecOk(k, s, a, true) && OwnsLive(s, a.live)) ==> BoundKept(m, a, b)
  {
    forall j | j in m && Bound(m[j], a)
      ensures m[j].tun != s.tun || b.live == a.live || (clean && SpecOk(k, s, a, true) && OwnsLive(s, a.live)) ==>
                Bound(m[j], b)
    {
      if IsLive(b.live, m[j].published.value.handle) {
        Survives(j, m[j], a, b, k, s);
      }
    }
  }

  /** Tearing k down, even partly, keeps the others in order, and unbinds at most those that
      have the index k stored. */
  lemma StoredTorn(m: Specs, k: Key, s: Spec, a: State, b: State, clean: bool)
    requires TornPartly(k, s, a, b) && TableOk(a.table, a.live) && (clean ==> Linked(a.table, a.owners))
    requires Named(k, s, a) && StoredOk(m, a, clean) && k !in m
    ensures StoredOk(m, b, clean) && NothingNew(a, b) && b.vrfs - {k} == a.vrfs - {k} && BoundKeptBut(m, a, b, s.tun)
    ensures clean && SpecOk(k, s, a, true) && (k in a.vrfs ==> OwnsLive(s, a.live)) ==> BoundKept(m, a, b)
  {
    TornPartlyKeeps(k, s, a, b);
    StoredKept(m, a, b, k, s, clean);
    assert m - {k} == m;
    OnlyOwnGoes(m, a, b, k, s, clean);
  }

  datatype DeleteReply = Deleted | NotFound | DeleteInvalid

  predicate Deletable(attachment: string, k: Key, primary: string, pods: Specs) {
    && ValidAttachment(attachment) && k.netns != "" && k.ifname != "" && k.ifname == primary
    && k in pods && pods[k].attachment == attachment
  }

  /** A stored pod ends up bound to a live interface, or kept while the service is not
      ready, or dropped because its namespace is gone. */
  ghost predicate Reconciled(k: Key, s: Spec, pods: Specs, namespaces: set<string>, notReady: bool, st: State) {
    if k in pods then pods[k].ips == s.ips && (notReady || Bound(pods[k], st)) else k.netns !in namespaces
  }

  /** Without working listings one more end is possible: the interface of a kept pod went
      with a dropped one that had stored its index. */
  ghost predicate Settled(k: Key, saved: Specs, todo: set<Key>, pods: Specs, namespaces: set<string>, notReady: bool,
                          st: State)
    requires k in saved
  {
    Reconciled(k, saved[k], pods, namespaces, notReady, st) ||
    (Displaced(k, saved, todo, pods) && pods[k].ips == saved[k].ips)
  }

  ghost predicate BoundKept(m: Specs, a: State, b: State) {
    forall k :: k in m && Bound(m[k], a) ==> Bound(m[k], b)
  }

  ghost predicate BoundKeptBut(m: Specs, a: State, b: State, tun: Option<nat>) {
    forall k :: k in m && Bound(m[k], a) && m[k].tun != tun ==> Bound(m[k], b)
  }

  lemma CoveredBound(pods: Specs, m: Specs, a: State, b: State, tun: Option<nat>)
    requires Covered(pods, m)
    ensures BoundKeptBut(m, a, b, tun) ==> BoundKeptBut(pods, a, b, tun)
    ensures BoundKept(m, a, b) ==> BoundKept(pods, a, b)
  {
  }

  /** A dropped pod stored the index this one has. */
  ghost predicate Displaced(k: Key, saved: Specs, todo: set<Key>, pods: Specs) {
    && k in pods && pods[k].tun.Some?
    && exists d :: d in saved && d !in todo && d !in pods && saved[d].tun == pods[k].tun
  }

  /** The last write of the state file succeeded and wrote this map. */
  ghost predicate OnDisk(reliable: bool, persisted: bool, pods: Specs, durable: Specs) {
    (reliable ==> persisted) && (persisted ==> durable == pods)
  }

  /** What was changed was written, as far as the state file can be written. */
  ghost predicate Written(reliable: bool, persisted: bool, pods: Specs, durable: Specs,
                          persisted0: bool, pods0: Specs, durable0: Specs) {
    OnDisk(reliable, persisted, pods, durable) || (persisted == persisted0 && pods == pods0 && durable == durable0)
  }

  /** The state file is as it was or holds some of the pods of an earlier map. */
  ghost predicate Copied(durable: Specs, durable0: Specs, pods0: Specs) {
    durable == durable0 || forall k :: k in durable ==> k in pods0 && durable[k] == pods0[k]
  }

  /** What an answer with a handle guarantees. */
  ghost predicate Answered(k: Key, attachment: string, h: Handle, pods: Specs, durable: Specs, st: State,
                           namespaces: set<string>) {
    && k in pods && Established(k, pods[k], st, namespaces)
    && pods[k].published == Some(Published(attachment, h))
    && durable == pods
  }

  /** Requests that are not refused outright: the service is ready, the request is one it
      supports, and the pod is not attached under another identity. */
  ghost predicate Admitted(q: Request, notReady: bool, primary: string, pods: Specs) {
    !notReady && WellFormed(q, primary) && (q.Key() in pods ==> pods[q.Key()].attachment == q.attachment)
  }

  lemma SetAside(k: Key, s: Spec, pods: Specs, stored: Specs, st: State, clean: bool)
    requires StoredOk(stored, st, clean) && DistinctAddresses(stored) && Covered(pods, stored)
    requires if k in pods then s == pods[k] else s.published.None? && s.ips != {} && st.pod(s.attachment) == k
    ensures StoredOk(pods - {k}, st, clean) && DistinctAddresses(pods) && SpecOk(k, s, st, clean)
  {
    if k in pods { assert SpecOk(k, stored[k], st, clean); }
  }

  lemma StoredCovered(pods: Specs, stored: Specs, st: State, clean: bool)
    requires StoredOk(stored, st, clean) && Covered(pods, stored)
    ensures StoredOk(pods, st, clean) && (DistinctAddresses(stored) ==> DistinctAddresses(pods))
  {
  }

  /** No pod has the addresses any more, and the rest is stored. */
  ghost predicate Opened(k: Key, ips: set<IP6>, pods: Specs, stored: Specs) {
    k !in pods && NoneHas(pods, ips) && DistinctAddresses(pods) && Covered(pods, stored)
  }

  /** Once the holders of its addresses are gone. */
  lemma AfterEviction(k: Key, s: Spec, pods: Specs, stored: Specs)
    requires DistinctAddresses(pods) && Covered(pods - {k}, stored) && s.ips != {} && (k in pods ==> pods[k] == s)
    ensures Opened(k, s.ips, Without(pods, s.ips), stored - Holders(pods, s.ips))
    ensures NoneHas(pods, s.ips) ==> Without(pods, s.ips) == pods && stored - Holders(pods, s.ips) == stored
  {
    forall j | j in Without(pods, s.ips) ensures j != k && j in stored - Holders(pods, s.ips) && stored[j] == pods[j] {
      assert j in pods - {k};
    }
  }

  lemma OneMoreStored(k: Key, r: Spec, pods: Specs, m: Specs, st: State, clean: bool)
    requires SpecOk(k, r, st, clean) && StoredOk(m, st, clean) && k !in m
    requires Covered(pods - {k}, m) && DistinctAddresses(m) && NoneHas(m, r.ips)
    ensures StoredOk(m[k := r], st, clean) && DistinctAddresses(m[k := r]) && Covered(pods[k := r], m[k := r])
  {
    var pods', m' := pods[k := r], m[k := r];
    forall j | j in pods' ensures j in m' && m'[j] == pods'[j] {
      if j != k { assert j in pods - {k}; }
    }
  }

  lemma StoredWith(k: Key, r: Spec, pods: Specs, m: Specs, st: State, clean: bool)
    requires StoredOk(m, st, clean) && Covered(pods - {k}, m) && (k in pods ==> pods[k] == r && SpecOk(k, r, st, clean))
    ensures StoredOk(pods, st, clean)
  {
    forall j | j in pods ensures SpecOk(j, pods[j], st, clean) {
      if j != k { assert j in pods - {k} && SpecOk(j, m[j], st, clean); }
    }
  }

  lemma PutBack(m: Specs, k: Key, r: Spec)
    ensures (m - {k})[k := r] == m[k := r]
    ensures k in m && m[k] == r ==> m[k := r] == m
  {
  }

  datatype Request = Request(attachment: string, netns: string, ifname: string, addresses: set<IP6>, parsed: bool) {
    function Key(): Key {
      IfBinding.Key(netns, ifname)
    }
  }

  datatype CreateReply = Interface(handle: Handle) | NotReady | InvalidArgument | AlreadyExists | Internal

  /** The identity ends in a colon and the interface name, which has no colon itself. */
  predicate NamesInterface(attachment: string, ifname: string) {
    && ':' !in ifname && |attachment| > |ifname|
    && attachment[|attachment| - |ifname| - 1..] == ":" + ifname
  }

  predicate WellFormed(q: Request, primary: string) {
    && ValidAttachment(q.attachment) && q.netns != "" && q.ifname != "" && q.ifname == primary
    && NamesInterface(q.attachment, q.ifname) && q.addresses != {} && q.parsed
  }

  /** What follows the last colon of the identity is the interface name. */
  ghost predicate EndsInName(attachment: string, ifname: string) {
    exists i :: 0 <= i < |attachment| && attachment[i] == ':' && ':' !in attachment[i + 1..] &&
                attachment[i + 1..] == ifname
  }

  lemma ColonAndName(attachment: string, ifname: string, i: nat)
    requires i < |attachment|
    ensures attachment[i..] == ":" + ifname <==> attachment[i] == ':' && attachment[i + 1..] == ifname
  {
    assert attachment[i..] == [attachment[i]] + attachment[i + 1..];
    assert (":" + ifname)[0] == ':' && (":" + ifname)[1..] == ifname;
    assert attachment[i..][0] == attachment[i] && attachment[i..][1..] == attachment[i + 1..];
  }

  lemma NamesInterfaceIff(attachment: string, ifname: string)
    ensures NamesInterface(attachment, ifname) <==> EndsInName(attachment, ifname)
  {
    if NamesInterface(attachment, ifname) {
      ColonAndName(attachment, ifname, |attachment| - |ifname| - 1);
    }
    if EndsInName(attachment, ifname) {
      var k :| 0 <= k < |attachment| && attachment[k] == ':' && ':' !in attachment[k + 1..] &&
               attachment[k + 1..] == ifname;
      ColonAndName(attachment, ifname, k);
    }
  }

  /** A request that is supported: the identity is 1 to 255 characters from '!' to '~' and ends
      in a colon and the interface name, that is the configured one; there are a namespace
      and addresses, and these are well-formed. */
  ghost predicate Supported(q: Request, primary: string) {
    && Printable(q.attachment)
    && q.netns != "" && q.ifname != "" && q.ifname == primary && EndsInName(q.attachment, q.ifname)
    && q.addresses != {} && q.parsed
  }

  lemma WellFormedIff(q: Request, primary: string)
    ensures WellFormed(q, primary) <==> Supported(q, primary)
  {
    NamesInterfaceIff(q.attachment, q.ifname);
    PrintableIff(q.attachment);
  }

  /** Published, alive, with its VRFs and its namespace. */
  ghost predicate Established(k: Key, s: Spec, st: State, namespaces: set<string>) {
    Bound(s, st) && k in st.vrfs && k.netns in namespaces
  }

  /** Looking an address up names its holder among these pods. */
  ghost predicate Indexes(r: map<IP6, Key>, m: Specs, ks: set<Key>)
    requires ks <= m.Keys
  {
    && (forall ip :: ip in r ==> r[ip] in ks && ip in m[r[ip]].ips)
    && (forall k, ip :: k in ks && ip in m[k].ips ==> ip in r && r[ip] == k)
  }

  ghost predicate Covered(pods: Specs, stored: Specs) {
    forall j :: j in pods ==> j in stored && stored[j] == pods[j]
  }

  function Holders(m: Specs, ips: set<IP6>): set<Key> {
    set j | j in m && !(m[j].ips !! ips)
  }

  lemma WithoutHolders(m: Specs, ips: set<IP6>)
    ensures m - Holders(m, ips) == Without(m, ips)
    ensures NoneHas(m, ips) ==> Holders(m, ips) == {}
  {
  }

  function Without(m: Specs, ips: set<IP6>): Specs {
    map j | j in m && m[j].ips !! ips :: m[j]
  }
}
