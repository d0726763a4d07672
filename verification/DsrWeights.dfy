/**
  The backends of an SRv6-native (DSR) ClusterIP service grouped by node: on which node
  each lives, how many each node has, and the weighted segment list each node gets.
 */
module DsrWeights {
  import opened Srv6Types
  import opened CandidateSelection
  import CountingCompare

  // ----- Which node a backend lives on -----

  type NodePrefixes = map<string, seq<Prefix>>

  predicate Contains(p: Prefix, ip: IP6) {
    p.isIP6 && p.length <= 128 && ip / Pow2(128 - p.length) == p.address / Pow2(128 - p.length)
  }

  /** An IPv6 prefix of up to 128 bits contains exactly the addresses from its base, the address
      with the other bits cleared, up to its size. */
  lemma ContainsIff(p: Prefix, ip: IP6)
    ensures Contains(p, ip) <==>
            && p.isIP6 && p.length <= 128
            && var size := Pow2(128 - p.length); var base := p.address - p.address % size;
               base <= ip < base + size
  {
    if p.length <= 128 {
      SameQuotientIff(p.address, ip, Pow2(128 - p.length));
    }
  }

  lemma SameQuotientIff(a: nat, b: nat, size: nat)
    requires size > 0
    ensures b / size == a / size <==> a - a % size <= b < a - a % size + size
  {
    var q := a / size;
    assert a == size * q + a % size && b == size * (b / size) + b % size;
    if a - a % size <= b < a - a % size + size {
      DivisionIs(b, size, q, b - size * q);
    }
  }

  predicate Owns(np: NodePrefixes, node: string, ip: IP6) {
    node in np && exists p :: p in np[node] && Contains(p, ip)
  }

  /** No address is inside the advertised prefixes of two nodes. */
  ghost predicate DisjointNodes(np: NodePrefixes) {
    forall m, n, ip :: Owns(np, m, ip) && Owns(np, n, ip) ==> m == n
  }

  /** The node, if there is one, has a prefix that contains the address. */
  ghost predicate PlacedAt(np: NodePrefixes, ip: IP6, at: Option<string>) {
    if at.Some? then Owns(np, at.value, ip) else forall n :: !Owns(np, n, ip)
  }

  /** Where the backends are: with overlapping prefixes there is a choice. */
  ghost predicate Placed(np: NodePrefixes, backends: seq<IP6>, at: seq<Option<string>>) {
    |at| == |backends| && forall i :: 0 <= i < |at| ==> PlacedAt(np, backends[i], at[i])
  }

  lemma PlacementIsUnique(np: NodePrefixes, backends: seq<IP6>, at: seq<Option<string>>, at': seq<Option<string>>)
    requires DisjointNodes(np) && Placed(np, backends, at) && Placed(np, backends, at')
    ensures at == at'
  {
    forall i | 0 <= i < |at| ensures at[i] == at'[i] {
      assert PlacedAt(np, backends[i], at[i]) && PlacedAt(np, backends[i], at'[i]);
    }
  }

  /** Scans the nodes in any order. */
  method FindNodeForPrefix(np: NodePrefixes, ip: IP6) returns (r: Option<string>)
    ensures PlacedAt(np, ip, r)
    ensures r.Some? ==> r.value in np && exists p :: p in np[r.value] && Contains(p, ip)
    ensures r.None? ==> forall n, p :: n in np && p in np[n] ==> !Contains(p, ip)
  {
    var todo := np.Keys;
    while todo != {}
      invariant todo <= np.Keys
      invariant forall n :: n in np && n !in todo ==> !Owns(np, n, ip)
    {
      var n :| n in todo;
      for i := 0 to |np[n]|
        invariant forall j :: 0 <= j < i ==> !Contains(np[n][j], ip)
      {
        if Contains(np[n][i], ip) {
          return Some(n);
        }
      }
      todo := todo - {n};
    }
    r := None;
    forall n, p | n in np && p in np[n] ensures !Contains(p, ip) {
      assert !Owns(np, n, ip);
    }
  }

  // ----- Weights -----

  /** Number of backends on a node. */
  ghost function Weight(at: seq<Option<string>>, node: string): (w: nat)
    ensures w <= |at|
  {
    if at == [] then 0 else Weight(at[..|at| - 1], node) + if at[|at| - 1] == Some(node) then 1 else 0
  }

  /** Number of backends on any of the nodes. */
  ghost function BackendsOn(at: seq<Option<string>>, nodes: set<string>): nat {
    if at == [] then 0
    else
      var last := at[|at| - 1];
      BackendsOn(at[..|at| - 1], nodes) + if last.Some? && last.value in nodes then 1 else 0
  }

  lemma {:induction false} BackendsOnEmpty(at: seq<Option<string>>)
    ensures BackendsOn(at, {}) == 0
  {
    if at != [] {
      BackendsOnEmpty(at[..|at| - 1]);
    }
  }

  lemma {:induction false} BackendsOnAdd(at: seq<Option<string>>, nodes: set<string>, n: string)
    requires n !in nodes
    ensures BackendsOn(at, nodes + {n}) == BackendsOn(at, nodes) + Weight(at, n)
  {
    if at != [] {
      BackendsOnAdd(at[..|at| - 1], nodes, n);
    }
  }

  /** The weights of the remote nodes are their backend counts. */
  ghost predicate WeightsOf(w: map<string, Uint32>, at: seq<Option<string>>, self: Option<string>) {
    && (forall n :: n in w <==> Weight(at, n) > 0 && Some(n) != self)
    && (forall n :: n in w ==> w[n] == Weight(at, n))
  }

  lemma WeightSnoc(at: seq<Option<string>>, node: Option<string>, n: string)
    ensures Weight(at + [node], n) == Weight(at, n) + if node == Some(n) then 1 else 0
  {
    assert (at + [node])[..|at|] == at;
  }

  lemma WeightsUnique(w: map<string, Uint32>, w': map<string, Uint32>, at: seq<Option<string>>, self: Option<string>)
    requires WeightsOf(w, at, self) && WeightsOf(w', at, self)
    ensures w == w'
  {
  }

  method ComputeWeights(np: NodePrefixes, self: Option<string>, backends: seq<IP6>)
    returns (w: map<string, Uint32>, ghost at: seq<Option<string>>)
    requires |backends| < 0x1_0000_0000
    ensures Placed(np, backends, at) && WeightsOf(w, at, self)
  {
    w, at := map[], [];
    for i := 0 to |backends|
      invariant Placed(np, backends[..i], at) && WeightsOf(w, at, self)
    {
      var node := FindNodeForPrefix(np, backends[i]);
      ghost var before, was := w, at;
      at := at + [node];
      if node.Some? && node != self {
        var n := node.value;
        w := w[n := if n in w then w[n] + 1 else 1];
      }
      forall n ensures (n in w <==> Weight(at, n) > 0 && Some(n) != self) && (n in w ==> w[n] == Weight(at, n)) {
        WeightSnoc(was, node, n);
        assert n in before <==> Weight(was, n) > 0 && Some(n) != self;
      }
    }
    assert backends[..|backends|] == backends;
  }

  // ----- Segment lists -----

  function ListKey(l: SidList): (IP6, Uint32) {
    (if |l.sids| > 0 then l.sids[0] else ZERO_ADDRESS, l.weight)
  }

  function ListKeys(ls: seq<SidList>): seq<(IP6, Uint32)> {
    seq(|ls|, i requires 0 <= i < |ls| => ListKey(ls[i]))
  }

  function TotalWeight(ls: seq<SidList>): nat {
    if ls == [] then 0 else TotalWeight(ls[..|ls| - 1]) + ls[|ls| - 1].weight
  }

  /** The nodes that have both backends and a known End.DT6 SID. */
  function Usable(w: map<string, Uint32>, sids: map<string, IP6>): set<string> {
    set n | n in w && n in sids
  }

  function NodesWith(nodes: set<string>, w: map<string, Uint32>, sids: map<string, IP6>,
                     key: (IP6, Uint32)): set<string>
    requires nodes <= Usable(w, sids)
  {
    set n | n in nodes && (sids[n], w[n]) == key
  }

  /** Each list has one segment. */
  ghost predicate AllSingle(ls: seq<SidList>) {
    forall i :: 0 <= i < |ls| ==> ls[i].numSids == 1 && |ls[i].sids| == 1
  }

  /** One list per node: as many lists with a SID and weight as nodes with them. */
  ghost predicate ListPerNode(ls: seq<SidList>, nodes: set<string>, w: map<string, Uint32>, sids: map<string, IP6>)
    requires nodes <= Usable(w, sids)
  {
    && |ls| == |nodes| && AllSingle(ls)
    && forall key :: multiset(ListKeys(ls))[key] == |NodesWith(nodes, w, sids, key)|
  }

  /** Any two lists-per-node of the same nodes are the same multiset, whatever their order. */
  lemma ListPerNodeUnique(a: seq<SidList>, b: seq<SidList>, w: map<string, Uint32>, sids: map<string, IP6>)
    requires ListPerNode(a, Usable(w, sids), w, sids) && AllSingle(b)
    ensures multiset(ListKeys(a)) == multiset(ListKeys(b)) <==> ListPerNode(b, Usable(w, sids), w, sids)
  {
    var nodes := Usable(w, sids);
    if multiset(ListKeys(a)) == multiset(ListKeys(b)) {
      assert |multiset(ListKeys(a))| == |a| && |multiset(ListKeys(b))| == |b|;
    }
    if ListPerNode(b, nodes, w, sids) {
      forall key ensures multiset(ListKeys(a))[key] == multiset(ListKeys(b))[key] {
        assert multiset(ListKeys(a))[key] == |NodesWith(nodes, w, sids, key)|;
      }
    }
  }

  function Drop(ls: seq<SidList>, i: nat): seq<SidList>
    requires i < |ls|
  {
    ls[..i] + ls[i + 1..]
  }

  lemma {:induction false} DropWeight(ls: seq<SidList>, i: nat)
    requires i < |ls|
    ensures TotalWeight(ls) == TotalWeight(Drop(ls, i)) + ls[i].weight
  {
    var n := |ls| - 1;
    if i < n {
      DropWeight(ls[..n], i);
      var rest := Drop(ls, i);
      assert rest[..|rest| - 1] == Drop(ls[..n], i) && rest[|rest| - 1] == ls[n];
    } else {
      assert Drop(ls, i) == ls[..n];
    }
  }

  lemma MultisetWithout<K>(s: seq<K>, i: nat)
    requires i < |s|
    ensures multiset(s) == multiset(s[..i] + s[i + 1..]) + multiset{s[i]}
  {
    assert s == s[..i] + [s[i]] + s[i + 1..];
  }

  lemma DropKeys(ls: seq<SidList>, i: nat)
    requires i < |ls|
    ensures multiset(ListKeys(ls)) == multiset(ListKeys(Drop(ls, i))) + multiset{ListKey(ls[i])}
  {
    MultisetWithout(ListKeys(ls), i);
    assert ListKeys(Drop(ls, i)) == ListKeys(ls)[..i] + ListKeys(ls)[i + 1..];
  }

  lemma NodesWithAdd(nodes: set<string>, n: string, w: map<string, Uint32>, sids: map<string, IP6>, key: (IP6, Uint32))
    requires nodes + {n} <= Usable(w, sids) && n !in nodes
    ensures |NodesWith(nodes + {n}, w, sids, key)| ==
            |NodesWith(nodes, w, sids, key)| + if (sids[n], w[n]) == key then 1 else 0
  {
    var before, after := NodesWith(nodes, w, sids, key), NodesWith(nodes + {n}, w, sids, key);
    assert after == before + if (sids[n], w[n]) == key then {n} else {};
  }

  /** Taking a node away takes one list away. */
  lemma DropNode(ls: seq<SidList>, nodes: set<string>, n: string, w: map<string, Uint32>, sids: map<string, IP6>)
    returns (i: nat)
    requires nodes <= Usable(w, sids) && ListPerNode(ls, nodes, w, sids) && n in nodes
    ensures i < |ls| && ListKey(ls[i]) == (sids[n], w[n])
    ensures ListPerNode(Drop(ls, i), nodes - {n}, w, sids)
  {
    var key := (sids[n], w[n]);
    assert nodes - {n} + {n} == nodes;
    NodesWithAdd(nodes - {n}, n, w, sids, key);
    assert multiset(ListKeys(ls))[key] > 0;
    i :| 0 <= i < |ls| && ListKeys(ls)[i] == key;
    DropKeys(ls, i);
    forall q ensures multiset(ListKeys(Drop(ls, i)))[q] == |NodesWith(nodes - {n}, w, sids, q)| {
      NodesWithAdd(nodes - {n}, n, w, sids, q);
      assert multiset(ListKeys(ls))[q] == |NodesWith(nodes, w, sids, q)|;
    }
  }

  /** The list of a node: its End.DT6 SID as the only segment, weighted with its backends. */
  ghost predicate ListOf(l: SidList, n: string, w: map<string, Uint32>, sids: map<string, IP6>) {
    n in w && n in sids && l == SidList(1, w[n], [sids[n]])
  }

  /** The lists are those of these nodes, each node once, in this order. */
  ghost predicate InOrder(ls: seq<SidList>, order: seq<string>, w: map<string, Uint32>, sids: map<string, IP6>) {
    && |ls| == |order| && (forall i, j :: 0 <= i < j < |order| ==> order[i] != order[j])
    && forall i :: 0 <= i < |ls| ==> ListOf(ls[i], order[i], w, sids)
  }

  /** One list for each node that has backends and a SID. */
  ghost predicate OnePerNode(ls: seq<SidList>, w: map<string, Uint32>, sids: map<string, IP6>) {
    exists order :: InOrder(ls, order, w, sids) && forall n :: n in order <==> n in w && n in sids
  }

  lemma {:induction false} InSomeOrder(ls: seq<SidList>, nodes: set<string>, w: map<string, Uint32>,
                                       sids: map<string, IP6>) returns (order: seq<string>)
    requires nodes <= Usable(w, sids) && ListPerNode(ls, nodes, w, sids)
    ensures InOrder(ls, order, w, sids) && forall n :: n in order <==> n in nodes
    decreases nodes
  {
    order := [];
    if nodes != {} {
      var n :| n in nodes;
      var k := DropNode(ls, nodes, n, w, sids);
      var rest := InSomeOrder(Drop(ls, k), nodes - {n}, w, sids);
      order := Inserted(ls, k, rest, n, w, sids);
    }
  }

  lemma Inserted(ls: seq<SidList>, k: nat, rest: seq<string>, n: string, w: map<string, Uint32>,
                 sids: map<string, IP6>) returns (order: seq<string>)
    requires k < |ls| && InOrder(Drop(ls, k), rest, w, sids) && n !in rest && ListOf(ls[k], n, w, sids)
    ensures InOrder(ls, order, w, sids) && forall x :: x in order <==> x in rest || x == n
  {
    order := rest[..k] + [n] + rest[k..];
    assert rest == rest[..k] + rest[k..];
    forall i | 0 <= i < |ls| ensures ListOf(ls[i], order[i], w, sids) {
      if i < k {
        assert ListOf(Drop(ls, k)[i], rest[i], w, sids);
      } else if i > k {
        assert ListOf(Drop(ls, k)[i - 1], rest[i - 1], w, sids);
      }
    }
    forall i, j | 0 <= i < j < |order| ensures order[i] != order[j] {
      assert order[i] == if i < k then rest[i] else if i == k then n else rest[i - 1];
      assert order[j] == if j < k then rest[j] else if j == k then n else rest[j - 1];
    }
  }

  /** One list per node makes the weights add up to the backends on those nodes. */
  lemma {:induction false} WeightsAddUp(ls: seq<SidList>, nodes: set<string>, w: map<string, Uint32>,
                                        sids: map<string, IP6>, at: seq<Option<string>>, self: Option<string>)
    requires WeightsOf(w, at, self)
    requires nodes <= Usable(w, sids) && ListPerNode(ls, nodes, w, sids)
    ensures TotalWeight(ls) == BackendsOn(at, nodes)
    decreases nodes
  {
    if nodes == {} {
      BackendsOnEmpty(at);
    } else {
      var n :| n in nodes;
      var i := DropNode(ls, nodes, n, w, sids);
      DropWeight(ls, i);
      WeightsAddUp(Drop(ls, i), nodes - {n}, w, sids, at, self);
      BackendsOnAdd(at, nodes - {n}, n);
      assert nodes - {n} + {n} == nodes;
    }
  }

  /** Visits the nodes in any order. */
  method BuildLists(w: map<string, Uint32>, sids: map<string, IP6>) returns (ls: seq<SidList>)
    ensures ListPerNode(ls, Usable(w, sids), w, sids) && OnePerNode(ls, w, sids)
  {
    ls := [];
    var todo := w.Keys;
    ghost var done: set<string> := {};
    while todo != {}
      invariant todo <= w.Keys && done == (set n | n in w && n in sids && n !in todo)
      invariant done <= Usable(w, sids)
      invariant ListPerNode(ls, done, w, sids)
    {
      var n :| n in todo;
      todo := todo - {n};
      if n in sids {
        AppendNode(ls, n, done, w, sids);
        ls := ls + [SidList(1, w[n], [sids[n]])];
        done := done + {n};
      }
    }
    assert done == Usable(w, sids);
    var order := InSomeOrder(ls, done, w, sids);
  }

  lemma AppendNode(ls: seq<SidList>, n: string, done: set<string>, w: map<string, Uint32>, sids: map<string, IP6>)
    requires done <= Usable(w, sids) && n in Usable(w, sids) && n !in done
    requires ListPerNode(ls, done, w, sids)
    ensures ListPerNode(ls + [SidList(1, w[n], [sids[n]])], done + {n}, w, sids)
  {
    var l := SidList(1, w[n], [sids[n]]);
    assert ListKeys(ls + [l]) == ListKeys(ls) + [ListKey(l)];
    forall key ensures multiset(ListKeys(ls + [l]))[key] == |NodesWith(done + {n}, w, sids, key)| {
      NodesWithAdd(done, n, w, sids, key);
      assert multiset(ListKeys(ls))[key] == |NodesWith(done, w, sids, key)|;
    }
  }

  method SameSidLists(a: seq<SidList>, b: seq<SidList>) returns (same: bool)
    ensures same <==> multiset(ListKeys(a)) == multiset(ListKeys(b))
  {
    same := CountingCompare.SameElements(ListKeys(a), ListKeys(b));
  }
}
