/**
  The lifecycle service on a data plane whose calls do not fail, with a state file that may
  be older than the map: every live interface stays bound to the identity it was created
  for, so that no file, however old, makes the service bind a pod to another's interface.
 */
module LifecycleReliable {
  import opened Srv6Types
  import opened IfBinding
  import opened LifecycleState

  /** Every live interface is bound to the identity it was created for. */
  ghost predicate Matched(st: State) {
    forall h :: IsLive(st.live, h) ==>
      h in st.owners && st.owners[h] in st.table && st.table[st.owners[h]] == h
  }

  /** A bound pod has its VRFs. */
  ghost predicate Placed(k: Key, s: Spec, st: State) {
    Bound(s, st) ==> k in st.vrfs
  }

  /** A pod on file that is bound has its VRFs, and in the map, if there, the same tuple. */
  ghost predicate Backed(k: Key, s: Spec, pods: Specs, st: State) {
    Named(k, s, st) && (Bound(s, st) ==> k in st.vrfs && (k in pods ==> pods[k].published == s.published))
  }

  ghost predicate Tight(pods: Specs, durable: Specs, st: State) {
    && Matched(st)
    && (forall k :: k in pods ==> Named(k, pods[k], st) && Placed(k, pods[k], st))
    && (forall k :: k in durable ==> Backed(k, durable[k], pods, st))
  }

  lemma MatchedIsLinked(st: State)
    requires Matched(st) && TableOk(st.table, st.live)
    ensures Linked(st.table, st.owners)
  {
    forall a | a in st.table ensures st.table[a] in st.owners && st.owners[st.table[a]] == a {
      assert IsLive(st.live, st.table[a]);
    }
  }

  /** Whatever file it comes from, a stored tuple is in order exactly when its handle has not
      been issued again for another pod. */
  lemma MatchedInOrder(k: Key, s: Spec, st: State)
    requires Matched(st) && TableOk(st.table, st.live) && Named(k, s, st)
    ensures InOrder(s, st) <==> !Reissued(s, st)
  {
    MatchedIsLinked(st);
  }

  /** A tuple that the plugin would take is the one it has. */
  lemma ReplayChangesNothing(k: Key, s: Spec, st: State)
    requires Matched(st) && TableOk(st.table, st.live) && Named(k, s, st) && Replayable(s, st)
    ensures Bound(s, st) && Rebound(s, st) == st
  {
    var h := s.published.value.handle;
    assert st.owners[h] in st.table && st.table[st.owners[h]] == h;
    assert Holds(st.table, s.published.value);
    assert st.table[s.attachment := h] == st.table;
  }

  lemma WrittenIsTight(pods: Specs, durable: Specs, st: State)
    requires Tight(pods, durable, st)
    ensures Tight(pods, pods, st)
  {
  }

  lemma MatchedTornDown(j: Key, s: Spec, st: State)
    requires Matched(st) && TableOk(st.table, st.live) && Named(j, s, st) && Placed(j, s, st)
    ensures Matched(TornDown(j, s, st))
  {
    var t := TornDown(j, s, st);
    forall h | IsLive(t.live, h) ensures h in t.owners && t.owners[h] in t.table && t.table[t.owners[h]] == h {
      assert IsLive(st.live, h);
      if s.published.Some? && Holds(st.table, s.published.value) {
        assert Bound(s, st);
        assert h != s.published.value.handle;
      }
    }
  }

  lemma TornDownLess(j: Key, s: Spec, other: Spec, st: State)
    requires Bound(other, TornDown(j, s, st))
    ensures Bound(other, st)
  {
  }

  /** Tearing down a pod of the map, whether or not the file is written afterwards. */
  lemma TightTornDown(j: Key, pods: Specs, durable: Specs, st: State)
    requires Tight(pods, durable, st) && TableOk(st.table, st.live) && j in pods
    ensures Tight(pods - {j}, durable, TornDown(j, pods[j], st))
    ensures Tight(pods - {j}, pods - {j}, TornDown(j, pods[j], st))
  {
    var t := TornDown(j, pods[j], st);
    MatchedTornDown(j, pods[j], st);
    forall k | k in pods - {j} ensures Named(k, pods[k], t) && Placed(k, pods[k], t) {
      if Bound(pods[k], t) { TornDownLess(j, pods[j], pods[k], st); }
    }
    forall k | k in durable ensures Backed(k, durable[k], pods - {j}, t) {
      assert Backed(k, durable[k], pods, st);
      if Bound(durable[k], t) {
        TornDownLess(j, pods[j], durable[k], st);
      }
    }
    WrittenIsTight(pods - {j}, durable, t);
  }

  /** What was on file and is torn down without having been in the map. */
  lemma TightDropped(k: Key, pods: Specs, durable: Specs, st: State)
    requires Tight(pods, durable, st) && TableOk(st.table, st.live) && k in durable && k !in pods
    ensures Tight(pods, durable, TornDown(k, durable[k], st))
  {
    var t := TornDown(k, durable[k], st);
    assert Backed(k, durable[k], pods, st);
    MatchedTornDown(k, durable[k], st);
    forall j | j in pods ensures Named(j, pods[j], t) && Placed(j, pods[j], t) {
      if Bound(pods[j], t) { TornDownLess(k, durable[k], pods[j], st); }
    }
    forall j | j in durable ensures Backed(j, durable[j], pods, t) {
      assert Backed(j, durable[j], pods, st);
      if Bound(durable[j], t) { TornDownLess(k, durable[k], durable[j], st); }
    }
  }

  /** If the pod is bound on file, this is the tuple on file. */
  ghost predicate Fits(k: Key, r: Spec, durable: Specs, st: State) {
    k in durable && Bound(durable[k], st) ==> r.published == durable[k].published
  }

  /** What an attempt comes back with can be entered in the map. */
  ghost predicate Enters(o: Outcome, k: Key, r: Spec, durable: Specs, st: State) {
    Placed(k, r, st) && (o.Created? || o.Failed? ==> Fits(k, r, durable, st))
  }

  lemma EnteredFits(o: Outcome, k: Key, r: Spec, s: Spec, durable: Specs, st: State)
    requires Enters(o, k, r, durable, st) && (!o.Created? && !o.Failed? ==> r == s) && k in durable && durable[k] == s
    ensures Placed(k, r, st) && Fits(k, r, durable, st)
  {
  }

  /** Every live interface was there before or is the one the pod is bound to now, and every
      binding was there before or is the pod's. */
  ghost predicate OnlyOneNew(a: State, b: State, r: Spec) {
    && (forall h :: IsLive(b.live, h) ==> IsLive(a.live, h) || OwnHandle(r) == Some(h))
    && (forall p :: Holds(b.table, p) ==> Holds(a.table, p) || r.published == Some(p))
    && (r.published.Some? ==> Bound(r, b) && Current(r, b))
  }

  /** A new lifetime, or a failed attempt at one, of a pod that had no VRFs. */
  lemma TightRealized(pods: Specs, durable: Specs, k: Key, r: Spec, a: State, b: State)
    requires Tight(pods, durable, a) && TableOk(a.table, a.live) && TableOk(b.table, b.live)
    requires k !in pods && k !in a.vrfs && a.pod(r.attachment) == k
    requires Keeps(a, b, None) && OnlyOneNew(a, b, r)
    requires b.vrfs - {k} == a.vrfs - {k} && (r.published.Some? ==> k in b.vrfs)
    ensures Tight(pods, durable, b) && Fits(k, r, durable, b)
  {
    forall h | IsLive(b.live, h) ensures h in b.owners && b.owners[h] in b.table && b.table[b.owners[h]] == h {
      if IsLive(a.live, h) {
        assert Holds(a.table, Published(a.owners[h], h));
        assert Holds(b.table, Published(a.owners[h], h));
      }
    }
    forall j, s: Spec | j != k && Named(j, s, a) && Bound(s, b) ensures Bound(s, a) {
      assert Holds(a.table, s.published.value);
    }
    forall j | j in pods ensures Named(j, pods[j], b) && Placed(j, pods[j], b) {
      if Bound(pods[j], b) {
        assert Bound(pods[j], a);
        assert j in b.vrfs - {k};
      }
    }
    forall j | j in durable ensures Backed(j, durable[j], pods, b) && (j == k ==> Fits(k, r, durable, b)) {
      assert Backed(j, durable[j], pods, a);
      if j != k && Bound(durable[j], b) {
        assert Bound(durable[j], a);
        assert j in b.vrfs - {k};
      }
    }
  }

  lemma TightStarted(pods: Specs, durable: Specs, k: Key, s: Spec, r: Spec, ok: bool, n: nat, a: State, b: State)
    requires Tight(pods, durable, a) && TableOk(a.table, a.live) && TableOk(b.table, b.live)
    requires k !in pods && k !in a.vrfs && a.pod(s.attachment) == k && s.published.None? && s.ips != {}
    requires Started(k, s, r, ok, n, a, b) && (!ok ==> Undone(a, b))
    ensures Tight(pods, durable, b) && Fits(k, r, durable, b)
  {
    StartedKeeps(k, s, r, ok, n, a, b);
    StartedIsOk(k, s, r, ok, n, a, b, false);
    TightRealized(pods, durable, k, r, a, b);
  }

  /** The pod is entered in the map with its tuple. */
  lemma TightJoins(k: Key, r: Spec, pods: Specs, durable: Specs, st: State)
    requires Tight(pods, durable, st) && Named(k, r, st) && Placed(k, r, st) && Fits(k, r, durable, st)
    ensures Tight(pods[k := r], durable, st)
  {
    forall j | j in durable ensures Backed(j, durable[j], pods[k := r], st) {
      assert Backed(j, durable[j], pods, st);
    }
  }

  lemma TightLost(pods: Specs, durable: Specs, st: State, index: nat)
    requires Tight(pods, durable, st) && TableOk(st.table, st.live)
    ensures Tight(pods, durable, st.(live := st.live - {index}, table := WithoutIndex(st.table, index)))
  {
    var t := st.(live := st.live - {index}, table := WithoutIndex(st.table, index));
    forall h | IsLive(t.live, h) ensures h in t.owners && t.owners[h] in t.table && t.table[t.owners[h]] == h {
      assert IsLive(st.live, h);
    }
    forall j | j in pods ensures Named(j, pods[j], t) && Placed(j, pods[j], t) {
      assert Bound(pods[j], t) ==> Bound(pods[j], st);
    }
    forall j | j in durable ensures Backed(j, durable[j], pods, t) {
      assert Backed(j, durable[j], pods, st);
      assert Bound(durable[j], t) ==> Bound(durable[j], st);
    }
  }

  lemma TightRestarted(pods: Specs, durable: Specs, st: State)
    requires Tight(pods, durable, st)
    ensures Tight(pods, durable, Restarted(st))
  {
    forall j | j in durable ensures Backed(j, durable[j], pods, Restarted(st)) {
      assert Backed(j, durable[j], pods, st);
    }
  }
}
