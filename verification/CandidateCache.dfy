/**
  The slice of cached candidates of one endpoint: advertisements replace in place
  or append, withdraws compact the backing array in place. The slice refines a
  finite map keyed by <color, distinguisher>.
 */
module CandidateCache {
  import opened Srv6Types
  import opened CandidateSelection

  /** The NLRI key of a candidate; the endpoint is the key of the enclosing map. */
  datatype CandidateKey = CandidateKey(color: Uint32, distinguisher: Uint32)

  function KeyOf(t: Tunnel): CandidateKey {
    CandidateKey(t.color, t.distinguisher)
  }

  /** The cached candidate under a key. */
  function Lookup(cs: seq<Tunnel>, k: CandidateKey): Option<Tunnel> {
    if cs == [] then None
    else if KeyOf(cs[0]) == k then Some(cs[0])
    else Lookup(cs[1..], k)
  }

  lemma {:induction false} LookupIs(cs: seq<Tunnel>, i: nat)
    requires UniqueKeys(cs) && i < |cs|
    ensures Lookup(cs, KeyOf(cs[i])) == Some(cs[i])
  {
    if i > 0 {
      assert KeyOf(cs[0]) != KeyOf(cs[i]);
      LookupIs(cs[1..], i - 1);
    }
  }

  lemma {:induction false} LookupNone(cs: seq<Tunnel>, k: CandidateKey)
    ensures Lookup(cs, k).None? <==> forall t :: t in cs ==> KeyOf(t) != k
    ensures Lookup(cs, k).Some? ==> Lookup(cs, k).value in cs && KeyOf(Lookup(cs, k).value) == k
  {
    if cs != [] {
      LookupNone(cs[1..], k);
      assert cs == [cs[0]] + cs[1..];
    }
  }

  /** In a slice with unique keys, Lookup finds exactly the member with the key. */
  lemma LookupFinds(cs: seq<Tunnel>, k: CandidateKey, t: Tunnel)
    requires UniqueKeys(cs)
    ensures Lookup(cs, k) == Some(t) <==> t in cs && KeyOf(t) == k
  {
    LookupNone(cs, k);
    if t in cs && KeyOf(t) == k {
      var i :| 0 <= i < |cs| && cs[i] == t;
      LookupIs(cs, i);
    }
  }

  // ----- Advertisement -----

  ghost predicate SameNlri(a: Tunnel, b: Tunnel) {
    a.color == b.color && a.distinguisher == b.distinguisher
  }

  /** The slice after an advertisement: same key replaces in place, a new key appends. */
  ghost predicate Upserted(cs: seq<Tunnel>, t: Tunnel, r: seq<Tunnel>) {
    || (exists i :: 0 <= i < |cs| && SameNlri(cs[i], t) && r == cs[i := t])
    || ((forall i :: 0 <= i < |cs| ==> !SameNlri(cs[i], t)) && r == cs + [t])
  }

  /** The BSID an advertisement takes out of use: the old one, when both are known and they differ. */
  function Superseded(cs: seq<Tunnel>, t: Tunnel): Option<IP6> {
    var prior := Lookup(cs, KeyOf(t));
    if prior.Some? && TunnelBsid(prior.value).Some? && TunnelBsid(t).Some? && TunnelBsid(prior.value) != TunnelBsid(t)
    then TunnelBsid(prior.value) else None
  }

  /** Replaces or appends; a superseded BSID is handed back for deferred cleanup. */
  method Upsert(cs: seq<Tunnel>, t: Tunnel) returns (r: seq<Tunnel>, orphaned: Option<IP6>)
    ensures Upserted(cs, t, r)
    ensures UniqueKeys(cs) ==> orphaned == Superseded(cs, t)
  {
    orphaned := None;
    for i := 0 to |cs|
      invariant forall j :: 0 <= j < i ==> KeyOf(cs[j]) != KeyOf(t)
    {
      if KeyOf(cs[i]) == KeyOf(t) {
        var oldBsid, newBsid := TunnelBsid(cs[i]), TunnelBsid(t);
        if oldBsid.Some? && newBsid.Some? && oldBsid != newBsid {
          orphaned := oldBsid;
        }
        if UniqueKeys(cs) {
          LookupIs(cs, i);
        }
        return cs[i := t], orphaned;
      }
    }
    LookupNone(cs, KeyOf(t));
    r := cs + [t];
  }

  /** An advertisement is a map update. */
  lemma UpsertRefinesMapUpdate(cs: seq<Tunnel>, t: Tunnel, r: seq<Tunnel>, k: CandidateKey)
    requires UniqueKeys(cs) && Upserted(cs, t, r)
    ensures UniqueKeys(r)
    ensures Lookup(r, k) == if k == KeyOf(t) then Some(t) else Lookup(cs, k)
  {
    LookupNone(cs, KeyOf(t));
    assert UniqueKeys(r);
    if k == KeyOf(t) {
      LookupFinds(r, k, t);
    } else {
      LookupNone(cs, k);
      LookupNone(r, k);
      if Lookup(cs, k).Some? {
        var u := Lookup(cs, k).value;
        var i :| 0 <= i < |cs| && cs[i] == u;
        assert r[i] == u;
        LookupFinds(r, k, u);
      }
    }
  }

  // ----- Withdraw -----

  /** The pure filter: everything but the withdrawn key, order kept. */
  function Without(cs: seq<Tunnel>, k: CandidateKey): (r: seq<Tunnel>)
    ensures |r| <= |cs|
  {
    if cs == [] then []
    else
      var last := cs[|cs| - 1];
      Without(cs[..|cs| - 1], k) + (if KeyOf(last) == k then [] else [last])
  }

  /** The BSIDs of the withdrawn candidates, in slice order. */
  function MatchedBsids(cs: seq<Tunnel>, k: CandidateKey): seq<IP6> {
    if cs == [] then []
    else
      var last := cs[|cs| - 1];
      MatchedBsids(cs[..|cs| - 1], k) +
      (if KeyOf(last) == k && TunnelBsid(last).Some? then [TunnelBsid(last).value] else [])
  }

  /** Whether a withdrawn candidate asked for drop-upon-invalid. */
  predicate MatchedDrop(cs: seq<Tunnel>, k: CandidateKey) {
    cs != [] && (MatchedDrop(cs[..|cs| - 1], k) || (KeyOf(cs[|cs| - 1]) == k && cs[|cs| - 1].dropUponInvalid))
  }

  lemma {:induction false} WithoutMembers(cs: seq<Tunnel>, k: CandidateKey)
    ensures forall t :: t in Without(cs, k) <==> t in cs && KeyOf(t) != k
    ensures forall b :: b in MatchedBsids(cs, k) <==> exists t :: t in cs && KeyOf(t) == k && TunnelBsid(t) == Some(b)
    ensures MatchedDrop(cs, k) <==> exists t :: t in cs && KeyOf(t) == k && t.dropUponInvalid
  {
    if cs != [] {
      WithoutMembers(cs[..|cs| - 1], k);
      assert cs == cs[..|cs| - 1] + [cs[|cs| - 1]];
    }
  }

  lemma Snoc(cs: seq<Tunnel>, t: Tunnel, k: CandidateKey)
    ensures Without(cs + [t], k) == if KeyOf(t) == k then Without(cs, k) else Without(cs, k) + [t]
    ensures MatchedBsids(cs + [t], k) ==
            if KeyOf(t) == k && TunnelBsid(t).Some? then MatchedBsids(cs, k) + [TunnelBsid(t).value]
            else MatchedBsids(cs, k)
    ensures MatchedDrop(cs + [t], k) <==> MatchedDrop(cs, k) || (KeyOf(t) == k && t.dropUponInvalid)
  {
    assert (cs + [t])[..|cs|] == cs;
  }

  /** Compacts the backing array in place, over the same array the loop reads. */
  method CompactInPlace(a: array<Tunnel>, k: CandidateKey)
    returns (n: nat, matched: seq<IP6>, drop: bool)
    modifies a
    ensures n <= a.Length
    ensures a[..n] == Without(old(a[..]), k)
    ensures a[n..] == old(a[..])[n..]
    ensures matched == MatchedBsids(old(a[..]), k)
    ensures drop <==> MatchedDrop(old(a[..]), k)
  {
    ghost var was := a[..];
    n, matched, drop := Compact(a, k, was);
    assert a[..n] == Without(was, k);
  }

  /** The array starts with what was kept so far and goes on as it was. */
  ghost predicate Partway(a: seq<Tunnel>, kept: seq<Tunnel>, was: seq<Tunnel>) {
    && |kept| <= |a| == |was|
    && (forall j :: 0 <= j < |kept| ==> a[j] == kept[j])
    && (forall j :: |kept| <= j < |a| ==> a[j] == was[j])
  }

  method Place(a: array<Tunnel>, n: nat, tun: Tunnel, ghost kept: seq<Tunnel>, ghost was: seq<Tunnel>)
    requires n == |kept| < a.Length && Partway(a[..], kept, was)
    modifies a
    ensures Partway(a[..], kept + [tun], was)
  {
    a[n] := tun;
  }

  method Compact(a: array<Tunnel>, k: CandidateKey, ghost was: seq<Tunnel>)
    returns (n: nat, matched: seq<IP6>, drop: bool)
    requires a[..] == was
    modifies a
    ensures n == |Without(was, k)| && Partway(a[..], Without(was, k), was)
    ensures matched == MatchedBsids(was, k)
    ensures drop <==> MatchedDrop(was, k)
  {
    n, matched, drop := 0, [], false;
    ghost var seen, kept: seq<Tunnel> := [], [];
    for i := 0 to a.Length
      invariant |seen| == i && seen == was[..i] && kept == Without(seen, k) && n == |kept| <= i
      invariant Partway(a[..], kept, was)
      invariant matched == MatchedBsids(seen, k) && (drop <==> MatchedDrop(seen, k))
    {
      var tun := a[i];
      assert tun == was[i];
      Snoc(seen, tun, k);
      seen := seen + [tun];
      if KeyOf(tun) == k {
        if TunnelBsid(tun).Some? {
          matched := matched + [TunnelBsid(tun).value];
        }
        drop := drop || tun.dropUponInvalid;
      } else {
        Place(a, n, tun, kept, was);
        n, kept := n + 1, kept + [tun];
      }
    }
    assert seen == was;
  }

  /** What the endpoint's slice holds after a withdraw: the compacted prefix, or,
      when no withdrawn candidate had a BSID, the whole array the compaction
      already overwrote. */
  function WithdrawSlice(cs: seq<Tunnel>, k: CandidateKey): (r: seq<Tunnel>) {
    var kept := Without(cs, k);
    if MatchedBsids(cs, k) == [] then kept + cs[|kept|..] else kept
  }

  /** The withdraw is the pure filter exactly when some withdrawn candidate had a
      BSID or none matched at all. */
  lemma WithdrawIsFilterIff(cs: seq<Tunnel>, k: CandidateKey)
    ensures WithdrawSlice(cs, k) == Without(cs, k) <==>
            (MatchedBsids(cs, k) != [] || forall t :: t in cs ==> KeyOf(t) != k)
  {
    WithoutShrinks(cs, k);
    WithoutMembers(cs, k);
    if MatchedBsids(cs, k) == [] && |Without(cs, k)| < |cs| {
      assert |WithdrawSlice(cs, k)| == |cs|;
    }
  }

  lemma {:induction false} WithoutShrinks(cs: seq<Tunnel>, k: CandidateKey)
    ensures |Without(cs, k)| == |cs| <==> forall t :: t in cs ==> KeyOf(t) != k
    ensures |Without(cs, k)| == |cs| ==> Without(cs, k) == cs
  {
    if cs != [] {
      var last := cs[|cs| - 1];
      assert cs == cs[..|cs| - 1] + [last];
      WithoutShrinks(cs[..|cs| - 1], k);
    }
  }

  /** Withdrawing the only BSID-less candidate of two leaves the other one twice. */
  lemma BsidlessWithdrawDuplicates(a: Tunnel, b: Tunnel)
    requires TunnelBsid(a).None? && KeyOf(a) != KeyOf(b)
    ensures WithdrawSlice([a, b], KeyOf(a)) == [b, b]
    ensures WithdrawSlice([b, a], KeyOf(a)) == [b, a]
  {
    assert [a, b][..1] == [a] && [b, a][..1] == [b] && [a][..0] == [] && [b][..0] == [];
    assert Without([a], KeyOf(a)) == [] && Without([b], KeyOf(a)) == [b];
    assert MatchedBsids([a], KeyOf(a)) == [] && MatchedBsids([b], KeyOf(a)) == [];
  }

  lemma {:induction false} WithoutKeepsUnique(cs: seq<Tunnel>, k: CandidateKey)
    requires UniqueKeys(cs)
    ensures UniqueKeys(Without(cs, k))
  {
    if cs != [] {
      var front, last := cs[..|cs| - 1], cs[|cs| - 1];
      assert UniqueKeys(front);
      WithoutKeepsUnique(front, k);
      WithoutMembers(front, k);
      forall t | t in Without(front, k) ensures KeyOf(t) != KeyOf(last) {
        var i :| 0 <= i < |front| && front[i] == t;
        assert cs[i] == t;
      }
    }
  }

  /** A clean withdraw is a map removal. */
  lemma WithdrawRefinesMapRemoval(cs: seq<Tunnel>, k: CandidateKey, q: CandidateKey)
    requires UniqueKeys(cs) && CleanWithdraw(cs, k)
    ensures UniqueKeys(WithdrawSlice(cs, k))
    ensures Lookup(WithdrawSlice(cs, k), q) == if q == k then None else Lookup(cs, q)
  {
    LookupNone(cs, k);
    WithdrawIsFilterIff(cs, k);
    WithoutKeepsUnique(cs, k);
    WithoutMembers(cs, k);
    var r := Without(cs, k);
    LookupNone(r, q);
    LookupNone(cs, q);
    if q != k && Lookup(cs, q).Some? {
      LookupFinds(r, q, Lookup(cs, q).value);
    }
  }

  // ----- Dynamic BSID binding (section 6.2.1 of RFC 9256) -----

  /** A BSID-less candidate with its policy's dynamically bound BSID filled in. */
  function Bound(t: Tunnel, b: IP6): (r: Tunnel)
    requires t.policy.Some?
    ensures KeyOf(r) == KeyOf(t)
  {
    t.(policy := Some(t.policy.value.(bsid := b)), bsid := Some(b))
  }

  /** t' is t with the BSID bound to its SR Policy. */
  ghost predicate BoundTo(node: string, t: Tunnel, t': Tunnel, dyn: map<PolicyKey, IP6>) {
    var key := PolicyKey(node, t.color);
    && TunnelBsid(t).None? && !t.specifiedBsidOnly && t.policy.Some?
    && key in dyn && t' == Bound(t, dyn[key])
  }

  /** Selection only ever fills in the dynamic BSID of its SR Policy. */
  ghost predicate OnlyBinds(node: string, cs: seq<Tunnel>, cs': seq<Tunnel>, dyn: map<PolicyKey, IP6>) {
    && |cs'| == |cs|
    && forall i :: 0 <= i < |cs| ==> cs'[i] == cs[i] || BoundTo(node, cs[i], cs'[i], dyn)
  }

  ghost predicate Extends<K, V>(before: map<K, V>, after: map<K, V>) {
    forall k :: k in before ==> k in after && after[k] == before[k]
  }

  /** No BSID was bound to the zero address. */
  ghost predicate Nonzero(dyn: map<PolicyKey, IP6>) {
    forall k :: k in dyn ==> dyn[k] != ZERO_ADDRESS
  }

  lemma OnlyBindsTrans(node: string, a: seq<Tunnel>, b: seq<Tunnel>, c: seq<Tunnel>,
                       dyn: map<PolicyKey, IP6>, dyn': map<PolicyKey, IP6>)
    requires OnlyBinds(node, a, b, dyn) && OnlyBinds(node, b, c, dyn') && Extends(dyn, dyn') && Nonzero(dyn)
    ensures OnlyBinds(node, a, c, dyn')
  {
    forall i | 0 <= i < |a| ensures c[i] == a[i] || BoundTo(node, a[i], c[i], dyn') {
      if BoundTo(node, a[i], b[i], dyn) {
        assert TunnelBsid(b[i]).Some?;
      }
    }
  }

  /** Binding moves no key, and whatever a key finds is bound in place. */
  lemma {:induction false} LookupBinds(node: string, cs: seq<Tunnel>, cs': seq<Tunnel>, dyn: map<PolicyKey, IP6>,
                                       k: CandidateKey)
    requires OnlyBinds(node, cs, cs', dyn)
    ensures Lookup(cs', k).Some? <==> Lookup(cs, k).Some?
    ensures Lookup(cs, k).Some? ==>
              var t, t' := Lookup(cs, k).value, Lookup(cs', k).value; t' == t || BoundTo(node, t, t', dyn)
  {
    if cs != [] {
      assert OnlyBinds(node, cs[1..], cs'[1..], dyn) by {
        forall i | 0 <= i < |cs[1..]| ensures cs'[1..][i] == cs[1..][i] || BoundTo(node, cs[1..][i], cs'[1..][i], dyn) {
          assert cs'[i + 1] == cs[i + 1] || BoundTo(node, cs[i + 1], cs'[i + 1], dyn);
        }
      }
      LookupBinds(node, cs[1..], cs'[1..], dyn, k);
    }
  }

  // ----- All endpoints -----

  /** The cached candidates of every endpoint and the dynamic BSIDs bound to SR Policies. */
  datatype Book = Book(cache: map<string, seq<Tunnel>>, dyn: map<PolicyKey, IP6>)

  function Candidates(cache: map<string, seq<Tunnel>>, node: string): seq<Tunnel> {
    if node in cache then cache[node] else []
  }

  /** A color is among these candidates. */
  predicate HasColor(cs: seq<Tunnel>, color: Uint32) {
    exists t :: t in cs && t.color == color
  }

  /** What selections over one endpoint may change: BSIDs are filled in, and a BSID is
      bound to an SR Policy only where a candidate of it waits for one. */
  ghost predicate Binds(node: string, a: Book, b: Book) {
    && b.cache.Keys == a.cache.Keys && (forall n :: n in a.cache && n != node ==> b.cache[n] == a.cache[n])
    && OnlyBinds(node, Candidates(a.cache, node), Candidates(b.cache, node), b.dyn)
    && Extends(a.dyn, b.dyn) && (Nonzero(a.dyn) ==> Nonzero(b.dyn))
    && forall key :: key in b.dyn && key !in a.dyn ==> Awaited(node, Candidates(a.cache, node), key)
  }

  /** A candidate of the SR Policy waits for a BSID. */
  ghost predicate Awaited(node: string, cs: seq<Tunnel>, key: PolicyKey) {
    key.endpoint == node && exists t :: t in cs && t.color == key.color && TunnelBsid(t).None? && !t.specifiedBsidOnly
  }

  lemma BindsTrans(node: string, a: Book, b: Book, c: Book)
    requires Binds(node, a, b) && Binds(node, b, c) && Nonzero(a.dyn)
    ensures Binds(node, a, c)
  {
    var as', bs := Candidates(a.cache, node), Candidates(b.cache, node);
    OnlyBindsTrans(node, as', bs, Candidates(c.cache, node), b.dyn, c.dyn);
    forall key | key in c.dyn && key !in a.dyn ensures Awaited(node, as', key) {
      if key !in b.dyn {
        var t :| t in bs && t.color == key.color && TunnelBsid(t).None? && !t.specifiedBsidOnly;
        var i :| 0 <= i < |bs| && bs[i] == t;
        assert as'[i] == t;
      }
    }
  }

  /** What a withdraw leaves before anything is selected again: the compacted slice, and
      the BSID of an SR Policy released with its last candidate. */
  function AfterWithdraw(a: Book, node: string, k: CandidateKey): Book {
    if node !in a.cache then a
    else if MatchedBsids(a.cache[node], k) == [] then a.(cache := a.cache[node := WithdrawSlice(a.cache[node], k)])
    else
      var rest := Without(a.cache[node], k);
      Book(if rest == [] then a.cache - {node} else a.cache[node := rest],
           if HasColor(rest, k.color) then a.dyn else a.dyn - {PolicyKey(node, k.color)})
  }

  /** What was last advertised and not withdrawn, per endpoint and key. */
  type LastWords = map<(string, CandidateKey), Tunnel>

  /** The candidate cached under a key of an endpoint is the last one advertised, with the
      BSID of its SR Policy filled in where it came without one; under other keys nothing
      is cached. */
  ghost predicate HoldsLastWord(a: Book, last: LastWords, node: string, k: CandidateKey) {
    var c := Lookup(Candidates(a.cache, node), k);
    if (node, k) in last then c.Some? && (c.value == last[(node, k)] || BoundTo(node, last[(node, k)], c.value, a.dyn))
    else c.None?
  }

  /** Every key holds its last word once, and an SR Policy has a dynamic BSID only while it
      has a candidate. */
  ghost predicate Faithful(a: Book, last: LastWords) {
    && (forall n :: n in a.cache ==> UniqueKeys(a.cache[n]))
    && (forall n, k :: HoldsLastWord(a, last, n, k))
    && (forall key :: key in a.dyn ==> HasColor(Candidates(a.cache, key.endpoint), key.color))
    && Nonzero(a.dyn)
  }

  lemma ColorStays(node: string, cs: seq<Tunnel>, cs': seq<Tunnel>, dyn: map<PolicyKey, IP6>, color: Uint32)
    requires OnlyBinds(node, cs, cs', dyn) && HasColor(cs, color)
    ensures HasColor(cs', color)
  {
    var t :| t in cs && t.color == color;
    var i :| 0 <= i < |cs| && cs[i] == t;
    assert cs'[i] in cs' && cs'[i].color == color;
  }

  lemma BindingKeepsFaith(node: string, a: Book, b: Book, last: LastWords)
    requires Faithful(a, last) && Binds(node, a, b)
    ensures Faithful(b, last)
  {
    var cs, cs' := Candidates(a.cache, node), Candidates(b.cache, node);
    forall n, k ensures HoldsLastWord(b, last, n, k) {
      assert HoldsLastWord(a, last, n, k);
      if n == node {
        LookupBinds(node, cs, cs', b.dyn, k);
        LookupNone(cs, k);
      }
    }
    forall key | key in b.dyn ensures HasColor(Candidates(b.cache, key.endpoint), key.color) {
      if key in a.dyn {
        assert HasColor(Candidates(a.cache, key.endpoint), key.color);
      } else {
        assert Awaited(node, cs, key);
      }
      if key.endpoint == node {
        ColorStays(node, cs, cs', b.dyn, key.color);
      }
    }
  }

  lemma AdvertisementIsHeard(a: Book, t: Tunnel, slice: seq<Tunnel>, last: LastWords)
    requires Faithful(a, last) && Upserted(Candidates(a.cache, t.dst), t, slice)
    ensures Faithful(a.(cache := a.cache[t.dst := slice]), last[(t.dst, KeyOf(t)) := t])
  {
    var b, last' := a.(cache := a.cache[t.dst := slice]), last[(t.dst, KeyOf(t)) := t];
    var cs := Candidates(a.cache, t.dst);
    forall n, k ensures HoldsLastWord(b, last', n, k) {
      assert HoldsLastWord(a, last, n, k);
      if n == t.dst {
        UpsertRefinesMapUpdate(cs, t, slice, k);
      }
    }
    UpsertRefinesMapUpdate(cs, t, slice, KeyOf(t));
    forall key | key in b.dyn ensures HasColor(Candidates(b.cache, key.endpoint), key.color) {
      assert HasColor(Candidates(a.cache, key.endpoint), key.color);
      if key.endpoint == t.dst {
        UpsertKeepsColor(cs, t, slice, key.color);
      }
    }
  }

  lemma UpsertKeepsColor(cs: seq<Tunnel>, t: Tunnel, r: seq<Tunnel>, color: Uint32)
    requires Upserted(cs, t, r) && HasColor(cs, color)
    ensures HasColor(r, color)
  {
    var u :| u in cs && u.color == color;
    var i :| 0 <= i < |cs| && cs[i] == u;
    assert r[i] in r && r[i].color == color;
  }

  lemma WithdrawIsHeard(a: Book, node: string, k: CandidateKey, last: LastWords)
    requires Faithful(a, last) && CleanWithdraw(Candidates(a.cache, node), k)
    ensures Faithful(AfterWithdraw(a, node, k), last - {(node, k)})
  {
    var b := AfterWithdraw(a, node, k);
    WithdrawnCandidates(a, node, k);
    forall n, q ensures HoldsLastWord(b, last - {(node, k)}, n, q) {
      assert HoldsLastWord(a, last, n, q);
      WithdrawHolds(a, node, k, last, n, q);
    }
    WithdrawRefinesMapRemoval(Candidates(a.cache, node), k, k);
    forall key | key in b.dyn ensures HasColor(Candidates(b.cache, key.endpoint), key.color) {
      assert HasColor(Candidates(a.cache, key.endpoint), key.color);
      WithdrawKeepsColor(a, node, k, key);
    }
  }

  /** The withdrawn candidate has a BSID, or there is none. */
  ghost predicate CleanWithdraw(cs: seq<Tunnel>, k: CandidateKey) {
    MatchedBsids(cs, k) != [] || Lookup(cs, k).None?
  }

  lemma WithdrawHolds(a: Book, node: string, k: CandidateKey, last: LastWords, n: string, q: CandidateKey)
    requires UniqueKeys(Candidates(a.cache, node)) && CleanWithdraw(Candidates(a.cache, node), k)
    requires HoldsLastWord(a, last, n, q)
    ensures HoldsLastWord(AfterWithdraw(a, node, k), last - {(node, k)}, n, q)
  {
    WithdrawnCandidates(a, node, k);
    var cs, b := Candidates(a.cache, node), AfterWithdraw(a, node, k);
    if n == node {
      WithdrawRefinesMapRemoval(cs, k, q);
      if Lookup(Candidates(b.cache, n), q).Some? && PolicyKey(n, q.color) in a.dyn {
        WithdrawKeepsBsid(a, node, k, q);
      }
      if (n, q) in last && q != k {
        KeyOfLastWord(a, last, n, q);
      }
    }
  }

  /** A candidate that stays cached keeps the BSID of its SR Policy. */
  lemma WithdrawKeepsBsid(a: Book, node: string, k: CandidateKey, q: CandidateKey)
    requires Lookup(WithdrawSlice(Candidates(a.cache, node), k), q).Some? && PolicyKey(node, q.color) in a.dyn
    ensures var key, b := PolicyKey(node, q.color), AfterWithdraw(a, node, k); key in b.dyn && b.dyn[key] == a.dyn[key]
  {
    var r := WithdrawSlice(Candidates(a.cache, node), k);
    LookupNone(r, q);
    assert Lookup(r, q).value in r && Lookup(r, q).value.color == q.color;
  }

  lemma KeyOfLastWord(a: Book, last: LastWords, n: string, q: CandidateKey)
    requires HoldsLastWord(a, last, n, q) && (n, q) in last
    ensures last[(n, q)].color == q.color
  {
    LookupNone(Candidates(a.cache, n), q);
  }

  lemma WithdrawKeepsColor(a: Book, node: string, k: CandidateKey, key: PolicyKey)
    requires CleanWithdraw(Candidates(a.cache, node), k) && key in AfterWithdraw(a, node, k).dyn
    requires HasColor(Candidates(a.cache, key.endpoint), key.color)
    ensures HasColor(Candidates(AfterWithdraw(a, node, k).cache, key.endpoint), key.color)
  {
    WithdrawnCandidates(a, node, k);
    var cs := Candidates(a.cache, node);
    if key.endpoint == node && (key.color != k.color || MatchedBsids(cs, k) == []) {
      WithdrawKeepsColors(cs, k, key.color);
    }
  }

  lemma WithdrawnCandidates(a: Book, node: string, k: CandidateKey)
    ensures Candidates(AfterWithdraw(a, node, k).cache, node) == WithdrawSlice(Candidates(a.cache, node), k)
    ensures AfterWithdraw(a, node, k).cache - {node} == a.cache - {node}
  {
  }

  /** A color other than the withdrawn one keeps its candidates. */
  lemma WithdrawKeepsColors(cs: seq<Tunnel>, k: CandidateKey, color: Uint32)
    requires HasColor(cs, color) && (color != k.color || MatchedBsids(cs, k) == [])
    requires CleanWithdraw(cs, k)
    ensures HasColor(WithdrawSlice(cs, k), color)
  {
    LookupNone(cs, k);
    WithdrawIsFilterIff(cs, k);
    WithoutMembers(cs, k);
    var t :| t in cs && t.color == color;
    assert t in Without(cs, k);
  }
}
