/**
  Whole runs of the SRv6 provider: any sequence of BGP, routing and rescan events,
  interleaved with arbitrary changes other writers make to VPP, with any call failing.
 */
module Srv6Runs {
  import opened Srv6Types
  import opened CandidateSelection
  import opened CandidateCache
  import opened PolicyEvents
  import opened Srv6Effects
  import opened Srv6Vpp
  import opened Srv6Provider

  /** A rescan revalidates the policies: it reinstalls each endpoint and reconciles each of
      its colors. */
  datatype Operation =
    | Advertise(tunnel: Tunnel)
    | Withdraw(tunnel: Tunnel)
    | LearnPrefix(node: string, prefix: Prefix)
    | LosePrefix(node: string, prefix: Prefix)
    | Reinstall(node: string)
    | Reconcile(node: string, color: Uint32)
    | OtherWriters(policies: map<IP6, SrPolicy>, steering: map<SteerKey, IP6>, fib: Fib)

  /** What one operation does to the cached candidates and the dynamic BSIDs. */
  ghost predicate Step(a: Book, op: Operation, b: Book) {
    match op
    case Advertise(t) =>
      exists slice :: Upserted(Candidates(a.cache, t.dst), t, slice) &&
                      Binds(t.dst, a.(cache := a.cache[t.dst := slice]), b)
    case Withdraw(w) => Binds(w.dst, AfterWithdraw(a, w.dst, KeyOf(w)), b)
    case LearnPrefix(n, _) => Binds(n, a, b)
    case Reinstall(n) => Binds(n, a, b)
    case Reconcile(n, _) => Binds(n, a, b)
    case _ => b == a
  }

  /** A BSID bound to an SR Policy stays bound to it, until the SR Policy loses its last
      candidate. */
  ghost predicate BindingsKept(a: Book, op: Operation, b: Book) {
    forall key :: key in a.dyn ==>
      || (key in b.dyn && b.dyn[key] == a.dyn[key])
      || (op.Withdraw? && key == PolicyKey(op.tunnel.dst, op.tunnel.color) && key !in b.dyn
          && !HasColor(Candidates(b.cache, key.endpoint), key.color))
  }

  lemma StepKeepsBindings(a: Book, op: Operation, b: Book)
    requires Step(a, op, b)
    ensures BindingsKept(a, op, b)
  {
    if op.Withdraw? {
      var node, k := op.tunnel.dst, KeyOf(op.tunnel);
      var mid := AfterWithdraw(a, node, k);
      if PolicyKey(node, k.color) in a.dyn && PolicyKey(node, k.color) !in mid.dyn {
        ReleasedStaysReleased(node, mid, b, k.color);
      }
    }
  }

  /** Without candidates of a color nothing is bound for it again. */
  lemma ReleasedStaysReleased(node: string, a: Book, b: Book, color: Uint32)
    requires Binds(node, a, b) && PolicyKey(node, color) !in a.dyn && !HasColor(Candidates(a.cache, node), color)
    ensures PolicyKey(node, color) !in b.dyn && !HasColor(Candidates(b.cache, node), color)
  {
    var cs, cs' := Candidates(a.cache, node), Candidates(b.cache, node);
    forall t | t in cs' ensures t.color != color {
      var i :| 0 <= i < |cs'| && cs'[i] == t;
      assert cs[i] in cs;
    }
  }

  /** The last words after an operation. */
  function Hear(last: LastWords, op: Operation): LastWords {
    match op
    case Advertise(t) => last[(t.dst, KeyOf(t)) := t]
    case Withdraw(w) => last - {(w.dst, KeyOf(w))}
    case _ => last
  }

  /** The last words after a whole run: the reference the cache is compared with. */
  function LastHeard(ops: seq<Operation>): LastWords {
    if ops == [] then map[] else Hear(LastHeard(ops[..|ops| - 1]), ops[|ops| - 1])
  }

  ghost predicate IsRun(ops: seq<Operation>, books: seq<Book>) {
    && |books| == |ops| + 1 && books[0] == Book(map[], map[])
    && forall i :: 0 <= i < |ops| ==> Step(books[i], ops[i], books[i + 1])
  }

  /** No withdraw met a cached candidate without a BSID. */
  ghost predicate Clean(ops: seq<Operation>, books: seq<Book>)
    requires |books| == |ops| + 1
  {
    forall i :: 0 <= i < |ops| ==> CleanStep(books[i], ops[i])
  }

  ghost predicate CleanStep(a: Book, op: Operation) {
    op.Withdraw? ==> CleanWithdraw(Candidates(a.cache, op.tunnel.dst), KeyOf(op.tunnel))
  }

  lemma StepIsFaithful(a: Book, op: Operation, b: Book, last: LastWords)
    requires Faithful(a, last) && Step(a, op, b) && CleanStep(a, op)
    ensures Faithful(b, Hear(last, op))
  {
    match op {
      case Advertise(t) =>
        var slice :| Upserted(Candidates(a.cache, t.dst), t, slice) &&
                     Binds(t.dst, a.(cache := a.cache[t.dst := slice]), b);
        AdvertisementIsHeard(a, t, slice, last);
        BindingKeepsFaith(t.dst, a.(cache := a.cache[t.dst := slice]), b, Hear(last, op));
      case Withdraw(w) =>
        WithdrawIsHeard(a, w.dst, KeyOf(w), last);
        BindingKeepsFaith(w.dst, AfterWithdraw(a, w.dst, KeyOf(w)), b, Hear(last, op));
      case LearnPrefix(n, _) =>
        BindingKeepsFaith(n, a, b, last);
      case Reinstall(n) =>
        BindingKeepsFaith(n, a, b, last);
      case Reconcile(n, _) =>
        BindingKeepsFaith(n, a, b, last);
      case _ =>
    }
  }

  lemma RunUpTo(ops: seq<Operation>, books: seq<Book>, n: nat)
    requires IsRun(ops, books) && n <= |ops|
    ensures IsRun(ops[..n], books[..n + 1])
    ensures Clean(ops[..n], books[..n + 1]) <==> forall i :: 0 <= i < n ==> CleanStep(books[i], ops[i])
  {
    var ops', books' := ops[..n], books[..n + 1];
    forall i | 0 <= i < n
      ensures Step(books'[i], ops'[i], books'[i + 1]) && ops'[i] == ops[i] && books'[i] == books[i]
    {
      assert Step(books[i], ops[i], books[i + 1]);
    }
    if Clean(ops', books') {
      forall i | 0 <= i < n ensures CleanStep(books[i], ops[i]) {
        assert CleanStep(books'[i], ops'[i]);
      }
    }
  }

  /** After every clean run each key of each endpoint holds exactly the last candidate
      advertised and not withdrawn, or that candidate with the BSID bound to its SR Policy;
      a BSID is bound only while the SR Policy has a candidate. */
  lemma {:induction false} CacheHoldsLastWord(ops: seq<Operation>, books: seq<Book>)
    requires IsRun(ops, books) && Clean(ops, books)
    ensures Faithful(books[|ops|], LastHeard(ops))
  {
    if ops != [] {
      var n := |ops| - 1;
      RunUpTo(ops, books, n);
      CacheHoldsLastWord(ops[..n], books[..n + 1]);
      assert Step(books[n], ops[n], books[n + 1]) && CleanStep(books[n], ops[n]);
      StepIsFaithful(books[n], ops[n], books[n + 1], LastHeard(ops[..n]));
    }
  }

  /** Every advertised candidate counts as having a BSID. */
  ghost predicate AllGiven(ops: seq<Operation>) {
    forall i :: 0 <= i < |ops| && ops[i].Advertise? ==> TunnelBsid(ops[i].tunnel).Some?
  }

  /** Where every advertised candidate counts as having a BSID, as those from BGP do, every
      run is clean and no BSID is ever bound. */
  lemma {:induction false} BgpRunsAreClean(ops: seq<Operation>, books: seq<Book>)
    requires IsRun(ops, books) && AllGiven(ops)
    ensures Clean(ops, books) && books[|ops|].dyn == map[]
    ensures forall key :: key in LastHeard(ops) ==> TunnelBsid(LastHeard(ops)[key]).Some?
  {
    if ops != [] {
      var n := |ops| - 1;
      RunUpTo(ops, books, n);
      BgpRunsAreClean(ops[..n], books[..n + 1]);
      CacheHoldsLastWord(ops[..n], books[..n + 1]);
      assert Step(books[n], ops[n], books[n + 1]);
      AllHaveBsids(books[n], LastHeard(ops[..n]), ops[n]);
      NothingIsBound(books[n], ops[n], books[n + 1]);
    }
  }

  lemma AllHaveBsids(a: Book, last: LastWords, op: Operation)
    requires Faithful(a, last) && a.dyn == map[] && forall key :: key in last ==> TunnelBsid(last[key]).Some?
    ensures CleanStep(a, op)
    ensures forall n :: Given(Candidates(a.cache, n))
  {
    forall n, t | t in Candidates(a.cache, n) ensures TunnelBsid(t).Some? {
      LookupFinds(Candidates(a.cache, n), KeyOf(t), t);
      assert HoldsLastWord(a, last, n, KeyOf(t));
    }
    if op.Withdraw? {
      var cs, k := Candidates(a.cache, op.tunnel.dst), KeyOf(op.tunnel);
      LookupNone(cs, k);
      WithoutMembers(cs, k);
      if CandidateCache.Lookup(cs, k).Some? {
        assert TunnelBsid(CandidateCache.Lookup(cs, k).value).value in MatchedBsids(cs, k);
      }
    }
  }

  ghost predicate Given(cs: seq<Tunnel>) {
    forall t :: t in cs ==> TunnelBsid(t).Some?
  }

  lemma NoneToBind(node: string, a: Book, b: Book)
    requires Binds(node, a, b) && a.dyn == map[] && Given(Candidates(a.cache, node))
    ensures b.dyn == map[]
  {
    forall key ensures key !in b.dyn {
      assert !Awaited(node, Candidates(a.cache, node), key);
    }
  }

  lemma WithdrawLeavesGiven(cs: seq<Tunnel>, k: CandidateKey)
    requires Given(cs) && CleanWithdraw(cs, k)
    ensures Given(WithdrawSlice(cs, k))
  {
    WithdrawIsFilterIff(cs, k);
    LookupNone(cs, k);
    WithoutMembers(cs, k);
  }

  lemma NothingIsBound(a: Book, op: Operation, b: Book)
    requires Step(a, op, b) && a.dyn == map[] && (op.Advertise? ==> TunnelBsid(op.tunnel).Some?)
    requires CleanStep(a, op) && forall n :: Given(Candidates(a.cache, n))
    ensures b.dyn == map[]
  {
    match op {
      case Advertise(t) =>
        var slice :| Upserted(Candidates(a.cache, t.dst), t, slice) &&
                     Binds(t.dst, a.(cache := a.cache[t.dst := slice]), b);
        assert Given(slice);
        NoneToBind(t.dst, a.(cache := a.cache[t.dst := slice]), b);
      case Withdraw(w) =>
        WithdrawnCandidates(a, w.dst, KeyOf(w));
        WithdrawLeavesGiven(Candidates(a.cache, w.dst), KeyOf(w));
        NoneToBind(w.dst, AfterWithdraw(a, w.dst, KeyOf(w)), b);
      case LearnPrefix(n, _) =>
        NoneToBind(n, a, b);
      case Reinstall(n) =>
        NoneToBind(n, a, b);
      case Reconcile(n, _) =>
        NoneToBind(n, a, b);
      case _ =>
    }
  }

  // ----- Drop routes -----

  /** The endpoint under which each drop route is filed. */
  type Drops = map<SteerKey, string>

  /** Only a withdraw adds drop routes, and files them under its endpoint. */
  ghost predicate DropStep(a: Drops, op: Operation, b: Drops) {
    match op
    case Withdraw(w) => Filed(w.dst, a, b)
    case _ => Lifted(a, b)
  }

  /** Every drop route is filed under an endpoint that has a candidate. */
  ghost predicate Held(d: Drops, book: Book) {
    forall k :: k in d ==> Candidates(book.cache, d[k]) != []
  }

  /** An endpoint that loses its last candidate has no drop routes left. */
  ghost predicate Released(a: Book, op: Operation, b: Book, d: Drops) {
    op.Withdraw? && Candidates(a.cache, op.tunnel.dst) != [] && Candidates(b.cache, op.tunnel.dst) == [] ==>
      forall k :: k in d ==> d[k] != op.tunnel.dst
  }

  lemma StepKeepsHeld(a: Book, d: Drops, op: Operation, b: Book, e: Drops)
    requires Held(d, a) && Step(a, op, b) && DropStep(d, op, e) && Released(a, op, b, e)
    requires op.Withdraw? && Candidates(a.cache, op.tunnel.dst) == [] ==> e == d
    ensures Held(e, b)
  {
    forall k | k in e ensures Candidates(b.cache, e[k]) != [] {
      match op {
        case Advertise(t) =>
          var slice :| Upserted(Candidates(a.cache, t.dst), t, slice) &&
                       Binds(t.dst, a.(cache := a.cache[t.dst := slice]), b);
          assert slice != [];
        case Withdraw(w) =>
        case LearnPrefix(n, _) =>
        case Reinstall(n) =>
        case Reconcile(n, _) =>
        case _ =>
      }
    }
  }

  ghost predicate IsDropRun(ops: seq<Operation>, records: seq<Drops>) {
    && |records| == |ops| + 1 && records[0] == map[]
    && forall i :: 0 <= i < |ops| ==> DropStep(records[i], ops[i], records[i + 1])
  }

  /** A withdraw of the endpoint, the i-th operation, added the drop route, which stayed. */
  ghost predicate Engaged(ops: seq<Operation>, records: seq<Drops>, k: SteerKey, node: string, i: nat)
    requires |records| == |ops| + 1
  {
    && i < |ops| && ops[i].Withdraw? && ops[i].tunnel.dst == node
    && forall j :: i < j < |records| ==> k in records[j] && records[j][k] == node
  }

  /** Each drop route is filed under the endpoint whose withdraw engaged it. */
  lemma {:induction false} FiledAsEngaged(ops: seq<Operation>, records: seq<Drops>, k: SteerKey) returns (i: nat)
    requires IsDropRun(ops, records) && k in records[|ops|]
    ensures Engaged(ops, records, k, records[|ops|][k], i)
  {
    var n := |ops| - 1;
    assert DropStep(records[n], ops[n], records[n + 1]);
    if k in records[n] && records[n][k] == records[n + 1][k] {
      var ops', records' := ops[..n], records[..n + 1];
      assert forall j :: 0 <= j < n ==> DropStep(records[j], ops[j], records[j + 1]);
      i := FiledAsEngaged(ops', records', k);
      forall j | i < j < |records| ensures k in records[j] && records[j][k] == records[n + 1][k] {
        if j <= n { assert records'[j] == records[j]; }
      }
    } else {
      i := n;
    }
  }

  method Execute(p: Provider, op: Operation)
    requires p.Valid()
    modifies p, p.vpp
    ensures p.Valid() && Step(old(p.Now()), op, p.Now()) && DropStep(old(p.dropped), op, p.dropped)
    ensures p.vpp.reliable && Held(old(p.dropped), old(p.Now())) ==> Held(p.dropped, p.Now())
    ensures Took(op, p.nodeAddress, p.vpp.reliable, old(Seen(p)), Seen(p))
  {
    ghost var book, drops := p.Now(), p.dropped;
    Perform(p, op);
    if p.vpp.reliable && Held(drops, book) { StepKeepsHeld(book, drops, op, p.Now(), p.dropped); }
  }

  lemma NoneOwned(d: Drops, node: string)
    ensures Provider.Owned(d, node) == {} <==> forall k :: k in d ==> d[k] != node
  {
    forall k | k in d && d[k] == node ensures k in Provider.Owned(d, node) {
    }
  }

  // ----- What each operation does to VPP -----

  /** The provider and VPP between two operations. */
  datatype View = View(book: Book, dropped: Drops, prefixes: map<string, seq<Prefix>>,
                       installed: map<PolicyKey, InstalledPolicy>, steering: map<SteerKey, IP6>,
                       policies: map<IP6, SrPolicy>, fib: Fib, log: Log)

  ghost function Seen(p: Provider): View
    reads p, p.vpp
  {
    View(p.Now(), p.dropped, p.prefixes, p.installed, p.vpp.steering, p.vpp.policies, p.vpp.fib, p.log)
  }

  ghost function Start(vpp: Vpp): View
    reads vpp
  {
    View(Book(map[], map[]), map[], map[], map[], vpp.steering, vpp.policies, vpp.fib, [])
  }

  ghost function Listed(v: View, n: string): seq<Prefix> {
    if n in v.prefixes then v.prefixes[n] else []
  }

  /** The record of the SR Policy follows its selection, unless that has the zero address. */
  ghost predicate Follows(w: View, n: string, c: Uint32) {
    var cs := Candidates(w.book.cache, n);
    SelectedBsid(cs, ByColor(c), w.fib) != Some(ZERO_ADDRESS) ==>
      FollowsSelection(cs, PolicyKey(n, c), w.fib, w.installed)
  }

  /** The color was reconciled. */
  ghost predicate Settles(n: string, c: Uint32, v: View, w: View) {
    && Follows(w, n, c)
    && Reconciled(Candidates(w.book.cache, n), c, w.fib, Recorded(v.installed, PolicyKey(n, c)),
                  v.steering, v.policies, w.steering, w.policies)
  }

  /** The withdrawn candidates were failed over. */
  ghost predicate FailsOver(t: Tunnel, v: View, w: View) {
    var cs := Candidates(v.book.cache, t.dst);
    MatchedBsids(cs, KeyOf(t)) != [] ==>
      && Follows(w, t.dst, t.color)
      && FailedOver(cs, KeyOf(t), t.dropUponInvalid, Candidates(w.book.cache, t.dst), w.fib,
                    Recorded(v.installed, PolicyKey(t.dst, t.color)), Provider.Owned(v.dropped, t.dst),
                    v.steering, v.policies, v.dropped.Keys, w.steering, w.policies, w.dropped.Keys)
  }

  /** The endpoint's prefixes and address a were steered, then unused BSIDs freed. */
  ghost predicate Steers(n: string, a: Option<IP6>, v: View, w: View) {
    exists mid, midDrops, p1 ::
      NodeInstalled(Listed(w, n), a, Candidates(w.book.cache, n), w.fib, v.steering, v.policies, mid, midDrops,
                    w.steering, p1) && Freed(w.steering, p1, w.policies)
  }

  /** The advertised candidate was taken up. */
  ghost predicate TakesUp(t: Tunnel, a: Option<IP6>, v: View, w: View) {
    && Follows(w, t.dst, t.color)
    && exists mid, midDrops, s1, p1, p2 ::
         Advertised(Listed(w, t.dst), a, Candidates(w.book.cache, t.dst), w.fib, t.color,
                    Recorded(v.installed, PolicyKey(t.dst, t.color)), v.steering, v.policies, mid, midDrops, s1, p1,
                    w.steering, p2, w.policies)
  }

  lemma SteersThrough(n: string, a: Option<IP6>, v: View, w: View, i: Installing)
    requires NodeInstalled(Listed(w, n), a, Candidates(w.book.cache, n), w.fib, v.steering, v.policies, i.mid,
                           i.midDrops, w.steering, i.policies) && Freed(w.steering, i.policies, w.policies)
    ensures Steers(n, a, v, w)
  {
  }

  lemma TakesUpThrough(t: Tunnel, a: Option<IP6>, v: View, w: View, i: Installing, p2: map<IP6, SrPolicy>)
    requires Follows(w, t.dst, t.color)
    requires Advertised(Listed(w, t.dst), a, Candidates(w.book.cache, t.dst), w.fib, t.color,
                        Recorded(v.installed, PolicyKey(t.dst, t.color)), v.steering, v.policies, i.mid, i.midDrops,
                        i.steering, i.policies, w.steering, p2, w.policies)
    ensures TakesUp(t, a, v, w)
  {
  }

  /** The prefixes of the endpoint are these, and none is left without prefixes. */
  ghost predicate Lists(n: string, list: seq<Prefix>, v: View, w: View) {
    w.prefixes - {n} == v.prefixes - {n} && Listed(w, n) == list && (n in w.prefixes ==> list != [])
  }

  /** What is published of the SR Policy: the change of its record, forced or not, or nothing. */
  ghost predicate Tells(n: string, c: Uint32, force: bool, v: View, w: View) {
    || (w.installed == v.installed && w.log == v.log)
    || exists mid, live :: Published(PolicyKey(n, c), force, v.installed, w.installed, mid, live, v.log, w.log)
  }

  /** A withdraw forces it if the recorded BSID was withdrawn. */
  ghost predicate Forces(t: Tunnel, v: View) {
    var key := PolicyKey(t.dst, t.color);
    key in v.installed &&
    v.installed[key].policy.bsid in MatchedBsids(Candidates(v.book.cache, t.dst), KeyOf(t))
  }

  /** What an operation does to VPP, if no call fails, and to what is remembered of it. */
  ghost predicate Took(op: Operation, address: string -> Option<IP6>, reliable: bool, v: View, w: View) {
    var calm := reliable && ZERO_ADDRESS !in v.policies;
    && (!op.OtherWriters? ==> w.fib == v.fib)
    && match op
       case Advertise(t) =>
         var a := if t.dst in v.prefixes then address(t.dst) else None;
         w.prefixes == v.prefixes && Tells(t.dst, t.color, false, v, w) && (calm ==> TakesUp(t, a, v, w))
       case Withdraw(t) =>
         w.prefixes == v.prefixes && Tells(t.dst, t.color, Forces(t, v), v, w) && (calm ==> FailsOver(t, v, w))
       case LearnPrefix(n, p) =>
         && w.prefixes == v.prefixes[n := Provider.Added(Listed(v, n), p)]
         && w.installed == v.installed && w.log == v.log
         && (calm ==> Steers(n, address(n), v, w))
       case LosePrefix(n, p) =>
         && w == v.(prefixes := w.prefixes, steering := w.steering) && Unsteered(p, v.steering, w.steering)
         && (reliable ==> forall k :: k in w.steering ==> k.prefix != p)
         && Lists(n, Provider.Remove(Listed(v, n), p), v, w)
       case Reinstall(n) =>
         && w.prefixes == v.prefixes && w.installed == v.installed && w.log == v.log
         && (calm ==> Steers(n, if n in v.prefixes then address(n) else None, v, w))
       case Reconcile(n, c) =>
         && w.prefixes == v.prefixes && w.dropped == v.dropped && Tells(n, c, false, v, w)
         && (calm ==> Settles(n, c, v, w))
       case OtherWriters(policies, steering, fib) => w == v.(policies := policies, steering := steering, fib := fib)
  }

  method AdvertiseNext(p: Provider, t: Tunnel)
    requires p.Valid()
    modifies p, p.vpp
    ensures p.Valid() && Step(old(p.Now()), Advertise(t), p.Now()) && Lifted(old(p.dropped), p.dropped)
    ensures Took(Advertise(t), p.nodeAddress, p.vpp.reliable, old(Seen(p)), Seen(p))
  {
    ghost var slice, i, reconciled;
    var ok;
    ok, slice, i, reconciled := p.AddPolicy(t);
    if old(p.Calm()) { TakesUpThrough(t, p.Addressed(t.dst), old(Seen(p)), Seen(p), i, reconciled); }
  }

  method WithdrawNext(p: Provider, t: Tunnel)
    requires p.Valid()
    modifies p, p.vpp
    ensures p.Valid() && Step(old(p.Now()), Withdraw(t), p.Now()) && Filed(t.dst, old(p.dropped), p.dropped)
    ensures p.vpp.reliable ==> Released(old(p.Now()), Withdraw(t), p.Now(), p.dropped)
    ensures old(p.Cached(t.dst)) == [] ==> p.dropped == old(p.dropped)
    ensures Took(Withdraw(t), p.nodeAddress, p.vpp.reliable, old(Seen(p)), Seen(p))
  {
    FailNext(p, t);
    NoneOwned(p.dropped, t.dst);
  }

  method FailNext(p: Provider, t: Tunnel)
    requires p.Valid()
    modifies p, p.vpp
    ensures p.Valid() && Step(old(p.Now()), Withdraw(t), p.Now()) && Filed(t.dst, old(p.dropped), p.dropped)
    ensures p.vpp.reliable && old(p.Cached(t.dst)) != [] && p.Cached(t.dst) == [] ==>
              Provider.Owned(p.dropped, t.dst) == {}
    ensures old(p.Cached(t.dst)) == [] ==> p.dropped == old(p.dropped)
    ensures p.prefixes == old(p.prefixes) && p.vpp.fib == old(p.vpp.fib)
    ensures Tells(t.dst, t.color, Forces(t, old(Seen(p))), old(Seen(p)), Seen(p))
    ensures old(p.Calm()) ==> FailsOver(t, old(Seen(p)), Seen(p))
  {
    ghost var mid, live;
    var ok;
    ok, mid, live := p.DelSRPolicy(t);
  }

  method LearnNext(p: Provider, n: string, px: Prefix)
    requires p.Valid()
    modifies p, p.vpp
    ensures p.Valid() && Step(old(p.Now()), LearnPrefix(n, px), p.Now()) && Lifted(old(p.dropped), p.dropped)
    ensures Took(LearnPrefix(n, px), p.nodeAddress, p.vpp.reliable, old(Seen(p)), Seen(p))
  {
    ghost var i := p.AddPrefix(n, px);
    if old(p.Calm()) { SteersThrough(n, p.nodeAddress(n), old(Seen(p)), Seen(p), i); }
  }

  method ReinstallNext(p: Provider, n: string)
    requires p.Valid()
    modifies p, p.vpp
    ensures p.Valid() && Step(old(p.Now()), Reinstall(n), p.Now()) && Lifted(old(p.dropped), p.dropped)
    ensures Took(Reinstall(n), p.nodeAddress, p.vpp.reliable, old(Seen(p)), Seen(p))
  {
    ghost var i := p.InstallNode(n);
    if old(p.Calm()) { SteersThrough(n, p.Addressed(n), old(Seen(p)), Seen(p), i); }
  }

  method Perform(p: Provider, op: Operation)
    requires p.Valid()
    modifies p, p.vpp
    ensures p.Valid() && Step(old(p.Now()), op, p.Now()) && DropStep(old(p.dropped), op, p.dropped)
    ensures p.vpp.reliable ==> Released(old(p.Now()), op, p.Now(), p.dropped)
    ensures op.Withdraw? && old(p.Cached(op.tunnel.dst)) == [] ==> p.dropped == old(p.dropped)
    ensures Took(op, p.nodeAddress, p.vpp.reliable, old(Seen(p)), Seen(p))
  {
    match op {
      case Advertise(t) => AdvertiseNext(p, t);
      case Withdraw(t) => WithdrawNext(p, t);
      case Reconcile(n, c) =>
        var ok := p.ReconcilePolicyColor(n, c, false);
      case OtherWriters(policies, steering, fib) =>
        // another client of VPP changed its tables, or the FIB changed
        p.vpp.policies, p.vpp.steering, p.vpp.fib := policies, steering, fib;
      case LearnPrefix(n, px) => LearnNext(p, n, px);
      case LosePrefix(n, px) => p.DelPrefixSteering(n, px);
      case Reinstall(n) => ReinstallNext(p, n);
    }
  }

  /** After every run the record of each <endpoint, color> is what replaying its published
      events gives, every event was in order and every Installed event found its BSID in
      VPP; and the cached candidates are a run of books, so that a clean run leaves the last
      words. The tracked drop prefixes are VPP's drop routes, each filed under the endpoint
      whose withdraw engaged it, and that endpoint still has a candidate if no call failed. */
  method Run(ops: seq<Operation>, vpp: Vpp, nodeAddress: string -> Option<IP6>)
    returns (p: Provider, ghost books: seq<Book>, ghost records: seq<Drops>, ghost trace: seq<View>)
    requires vpp.drops == {}
    modifies vpp
    ensures fresh(p) && p.vpp == vpp
    ensures forall k :: Replay(p.log, k) == Recorded(p.installed, k)
    ensures Orderly(p.log)
    ensures p.dropped.Keys == vpp.drops
    ensures IsRun(ops, books) && books[|ops|] == p.Now()
    ensures forall i :: 0 <= i < |ops| ==> BindingsKept(books[i], ops[i], books[i + 1])
    ensures Clean(ops, books) ==> Faithful(p.Now(), LastHeard(ops))
    ensures |trace| == |ops| + 1 && trace[0] == old(Start(vpp)) && trace[|ops|] == Seen(p)
    ensures forall i :: 0 <= i < |ops| ==> Took(ops[i], nodeAddress, vpp.reliable, trace[i], trace[i + 1])
    ensures IsDropRun(ops, records) && records[|ops|] == p.dropped
    ensures forall k :: k in vpp.drops ==> exists i :: Engaged(ops, records, k, p.dropped[k], i)
    ensures vpp.reliable ==> forall k :: k in vpp.drops ==> p.Cached(p.dropped[k]) != []
  {
    p := new Provider(vpp, nodeAddress);
    books, records, trace := [p.Now()], [p.dropped], [Seen(p)];
    for i := 0 to |ops|
      invariant fresh(p) && p.vpp == vpp && p.Valid()
      invariant IsRun(ops[..i], books) && books[i] == p.Now()
      invariant |trace| == i + 1 && trace[0] == old(Start(vpp)) && trace[i] == Seen(p)
      invariant p.nodeAddress == nodeAddress
      invariant forall j :: 0 <= j < i ==> Took(ops[j], nodeAddress, vpp.reliable, trace[j], trace[j + 1])
      invariant IsDropRun(ops[..i], records) && records[i] == p.dropped && (vpp.reliable ==> Held(p.dropped, p.Now()))
    {
      ghost var before, were := books, records;
      Execute(p, ops[i]);
      books, records, trace := books + [p.Now()], records + [p.dropped], trace + [Seen(p)];
      RunGrows(ops, i, before, p.Now());
      DropRunGrows(ops, i, were, p.dropped);
    }
    assert ops[..|ops|] == ops;
    forall k | k in vpp.drops ensures exists i :: Engaged(ops, records, k, p.dropped[k], i) {
      var i := FiledAsEngaged(ops, records, k);
    }
    forall i | 0 <= i < |ops| ensures BindingsKept(books[i], ops[i], books[i + 1]) {
      assert Step(books[i], ops[i], books[i + 1]);
      StepKeepsBindings(books[i], ops[i], books[i + 1]);
    }
    if Clean(ops, books) {
      CacheHoldsLastWord(ops, books);
    }
  }

  lemma DropRunGrows(ops: seq<Operation>, n: nat, records: seq<Drops>, d: Drops)
    requires n < |ops| && IsDropRun(ops[..n], records) && DropStep(records[n], ops[n], d)
    ensures IsDropRun(ops[..n + 1], records + [d])
  {
    var ops', records' := ops[..n + 1], records + [d];
    forall i | 0 <= i < |ops'| ensures DropStep(records'[i], ops'[i], records'[i + 1]) {
      if i < n { assert DropStep(records[i], ops[..n][i], records[i + 1]); }
    }
  }

  lemma RunGrows(ops: seq<Operation>, n: nat, books: seq<Book>, b: Book)
    requires n < |ops| && IsRun(ops[..n], books) && Step(books[n], ops[n], b)
    ensures IsRun(ops[..n + 1], books + [b])
  {
    var ops', books' := ops[..n + 1], books + [b];
    forall i | 0 <= i < |ops'| ensures Step(books'[i], ops'[i], books'[i + 1]) {
      if i < n { assert Step(books[i], ops[..n][i], books[i + 1]); }
    }
  }
}
