/**
  The Installed/Uninstalled events the provider publishes for each SR Policy
  <endpoint, color>, and what every well-behaved log of them satisfies.
 */
module PolicyEvents {
  import opened Srv6Types

  /** The last reconciled dataplane state of one SR Policy. */
  datatype InstalledPolicy = InstalledPolicy(tunnel: Tunnel, policy: SrPolicy)

  datatype Event =
    | Installed(key: PolicyKey, state: InstalledPolicy)
    | Uninstalled(key: PolicyKey, state: InstalledPolicy)

  /** An event together with the BSIDs VPP's policy table held when it was published. */
  datatype Emitted = Emitted(event: Event, live: set<IP6>)

  type Log = seq<Emitted>

  /** What a subscriber that saw the whole log believes is installed. */
  function Replay(log: Log, key: PolicyKey): Option<InstalledPolicy> {
    if log == [] then None
    else
      var e := log[|log| - 1].event;
      if e.key != key then Replay(log[..|log| - 1], key)
      else match e
           case Installed(_, s) => Some(s)
           case Uninstalled(_, _) => None
  }

  /** An event may follow a log: Uninstalled names what is installed, Installed
      repeats the installed policy or follows an Uninstalled, and its BSID is live. */
  ghost predicate MayFollow(log: Log, e: Emitted) {
    match e.event
    case Installed(k, s) =>
      && s.policy.bsid in e.live
      && (Replay(log, k).Some? ==> Replay(log, k).value.policy == s.policy)
    case Uninstalled(k, s) => Replay(log, k) == Some(s)
  }

  ghost predicate Orderly(log: Log) {
    forall i :: 0 <= i < |log| ==> MayFollow(log[..i], log[i])
  }

  function Recorded(installed: map<PolicyKey, InstalledPolicy>, key: PolicyKey): Option<InstalledPolicy> {
    if key in installed then Some(installed[key]) else None
  }

  /** The record agrees with every subscriber, and the log is orderly. */
  ghost predicate LogMatches(installed: map<PolicyKey, InstalledPolicy>, log: Log) {
    && Orderly(log)
    && forall k :: Replay(log, k) == Recorded(installed, k)
  }

  /** What is published when one SR Policy is reconciled: Installed if it has a policy now, and
      before that Uninstalled of the one it had, if it has none now, or another one, or the
      transition is forced, or the policy was not in VPP. live0 and live are the BSIDs in VPP
      before and after. */
  ghost predicate Published(key: PolicyKey, force: bool, before: map<PolicyKey, InstalledPolicy>,
                            after: map<PolicyKey, InstalledPolicy>, live0: set<IP6>, live: set<IP6>, log: Log,
                            log': Log)
  {
    var withdrawn :=
      key in before &&
      (key !in after || force || before[key].policy != after[key].policy || after[key].policy.bsid !in live0);
    log' == log
            + (if withdrawn then [Emitted(Uninstalled(key, before[key]), live)] else [])
            + (if key in after then [Emitted(Installed(key, after[key]), live)] else [])
  }

  lemma OrderlyExtends(log: Log, e: Emitted)
    requires Orderly(log) && MayFollow(log, e)
    ensures Orderly(log + [e])
  {
    var l := log + [e];
    forall i | 0 <= i < |l| ensures MayFollow(l[..i], l[i]) {
      if i < |log| {
        assert l[..i] == log[..i];
      } else {
        assert l[..i] == log;
      }
    }
  }

  lemma UninstallMatches(installed: map<PolicyKey, InstalledPolicy>, log: Log, k: PolicyKey, live: set<IP6>)
    requires LogMatches(installed, log) && k in installed
    ensures LogMatches(installed - {k}, log + [Emitted(Uninstalled(k, installed[k]), live)])
  {
    var e := Emitted(Uninstalled(k, installed[k]), live);
    assert Replay(log, k) == Recorded(installed, k);
    OrderlyExtends(log, e);
    assert (log + [e])[..|log|] == log;
  }

  lemma InstallMatches(installed: map<PolicyKey, InstalledPolicy>, log: Log, k: PolicyKey,
                       s: InstalledPolicy, live: set<IP6>)
    requires LogMatches(installed, log)
    requires s.policy.bsid in live
    requires k in installed ==> installed[k].policy == s.policy
    ensures LogMatches(installed[k := s], log + [Emitted(Installed(k, s), live)])
  {
    var e := Emitted(Installed(k, s), live);
    assert Replay(log, k) == Recorded(installed, k);
    OrderlyExtends(log, e);
    assert (log + [e])[..|log|] == log;
    forall q ensures Replay(log + [e], q) == Recorded(installed[k := s], q) {
      assert Replay(log, q) == Recorded(installed, q);
    }
  }

  // ----- What an orderly log guarantees a subscriber -----

  /** After the Installed event at i, and with no Uninstalled for the key since, the
      replayed policy is still the installed one. */
  lemma {:induction false} StaysInstalled(log: Log, i: nat, j: nat, k: PolicyKey)
    requires Orderly(log) && i < j <= |log|
    requires log[i].event.Installed? && log[i].event.key == k
    requires forall m :: i < m < j ==> !(log[m].event.Uninstalled? && log[m].event.key == k)
    ensures Replay(log[..j], k).Some?
    ensures Replay(log[..j], k).value.policy == log[i].event.state.policy
  {
    var p := log[..j];
    assert p[..|p| - 1] == log[..j - 1];
    if j > i + 1 {
      StaysInstalled(log, i, j - 1, k);
      assert MayFollow(log[..j - 1], log[j - 1]);
    }
  }

  /** A change of BSID always publishes Uninstalled of the old one in between. */
  lemma BsidChangeIsAnnounced(log: Log, i: nat, j: nat)
    requires Orderly(log) && i < j < |log|
    requires log[i].event.Installed? && log[j].event.Installed? && log[i].event.key == log[j].event.key
    requires log[i].event.state.policy.bsid != log[j].event.state.policy.bsid
    ensures exists m :: i < m < j && log[m].event.Uninstalled? && log[m].event.key == log[i].event.key
                        && log[m].event.state.policy.bsid == log[i].event.state.policy.bsid
  {
    var k := log[i].event.key;
    assert MayFollow(log[..j], log[j]);
    if forall m :: i < m < j ==> !(log[m].event.Uninstalled? && log[m].event.key == k) {
      StaysInstalled(log, i, j, k);
      assert false;
    } else {
      var m := FirstUninstall(log, i, j, k);
      StaysInstalled(log, i, m, k);
      assert MayFollow(log[..m], log[m]);
    }
  }

  lemma FirstUninstall(log: Log, i: nat, j: nat, k: PolicyKey) returns (m: nat)
    requires i < j <= |log|
    requires exists n :: i < n < j && log[n].event.Uninstalled? && log[n].event.key == k
    ensures i < m < j && log[m].event.Uninstalled? && log[m].event.key == k
    ensures forall n :: i < n < m ==> !(log[n].event.Uninstalled? && log[n].event.key == k)
  {
    m := i + 1;
    while !(log[m].event.Uninstalled? && log[m].event.key == k)
      invariant i < m < j
      invariant forall n :: i < n < m ==> !(log[n].event.Uninstalled? && log[n].event.key == k)
      decreases j - m
    {
      m := m + 1;
    }
  }
}
