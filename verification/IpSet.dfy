/**
  IP sets: the members kept by name beside the set programmed in VPP, and replacement by
  difference. Names are parsed to values; several names can denote the same value, and
  VPP only knows the values.
 */
module IpSet {
  import opened Srv6Types
  import Environment

  datatype Kind = IP | IPPort | Net

  /** An address, an address with protocol and port, or a network. */
  type Value = nat

  type Parser = (Kind, string) -> Option<Value>

  type Members = map<string, Value>

  ghost function Values(m: Members): set<Value> {
    set k | k in m :: m[k]
  }

  ghost predicate Parsed(parse: Parser, kind: Kind, m: Members) {
    forall k :: k in m ==> parse(kind, k) == Some(m[k])
  }

  /** The values these names denote. */
  function Denoted(parse: Parser, kind: Kind, names: set<string>): set<Value> {
    set x | x in names && parse(kind, x).Some? :: parse(kind, x).value
  }

  lemma MembersParse(parse: Parser, kind: Kind, m: Members, names: seq<string>)
    requires Parsed(parse, kind, m) && (set k | k in names) <= m.Keys
    ensures AllParse(parse, kind, names)
  {
    var all := set k | k in names;
    forall k | k in names ensures parse(kind, k).Some? {
      assert k in all;
    }
  }

  lemma ValuesAreDenoted(parse: Parser, kind: Kind, m: Members)
    requires Parsed(parse, kind, m)
    ensures Values(m) == Denoted(parse, kind, m.Keys)
  {
  }

  /** Every value that a name that stays shares with one that goes is denoted by a new one. */
  ghost predicate Recovered(parse: Parser, kind: Kind, before: set<string>, after: set<string>) {
    Denoted(parse, kind, before * after) * Denoted(parse, kind, before - after) <= Denoted(parse, kind, after - before)
  }

  /** Taking the values of the removed names away and then adding those of the new ones gives
      the values of the new members exactly when the shared ones are recovered. */
  lemma ReplacedIff(parse: Parser, kind: Kind, before: Members, after: Members)
    requires Parsed(parse, kind, before) && Parsed(parse, kind, after)
    ensures Values(before) - Denoted(parse, kind, before.Keys - after.Keys) +
            Denoted(parse, kind, after.Keys - before.Keys) == Values(after)
            <==> Recovered(parse, kind, before.Keys, after.Keys)
  {
    ValuesAreDenoted(parse, kind, before);
    ValuesAreDenoted(parse, kind, after);
    var stay, gone, more := before.Keys * after.Keys, before.Keys - after.Keys, after.Keys - before.Keys;
    DenotedUnion(parse, kind, stay, gone);
    DenotedUnion(parse, kind, stay, more);
    assert before.Keys == stay + gone && after.Keys == stay + more;
  }

  lemma DenotedUnion(parse: Parser, kind: Kind, a: set<string>, b: set<string>)
    ensures Denoted(parse, kind, a + b) == Denoted(parse, kind, a) + Denoted(parse, kind, b)
  {
  }

  ghost predicate AllParse(parse: Parser, kind: Kind, names: seq<string>) {
    forall k :: k in names ==> parse(kind, k).Some?
  }

  /** No two of these names denote the same value. */
  ghost predicate Canonical(parse: Parser, kind: Kind, names: set<string>) {
    forall a, b :: a in names && b in names && parse(kind, a).Some? && parse(kind, a) == parse(kind, b) ==> a == b
  }

  method ParseArray(parse: Parser, kind: Kind, names: seq<string>) returns (r: Option<Members>)
    ensures r.Some? <==> AllParse(parse, kind, names)
    ensures r.Some? ==> r.value.Keys == (set k | k in names) && Parsed(parse, kind, r.value)
  {
    var m: Members := map[];
    for i := 0 to |names|
      invariant AllParse(parse, kind, names[..i])
      invariant m.Keys == (set k | k in names[..i]) && Parsed(parse, kind, m)
    {
      assert names[..i + 1] == names[..i] + [names[i]];
      var v := parse(kind, names[i]);
      if v.None? { return None; }
      m := m[names[i] := v.value];
    }
    assert names[..|names|] == names;
    r := Some(m);
  }

  method Missing(these: set<string>, from: set<string>) returns (r: seq<string>)
    ensures forall k :: k in r <==> k in these && k !in from
  {
    r := [];
    var todo := these;
    while todo != {}
      invariant todo <= these
      invariant forall k :: k in r <==> k in these && k !in todo && k !in from
    {
      var k :| k in todo;
      todo := todo - {k};
      if k !in from { r := r + [k]; }
    }
  }

  /** What to add to and what to remove from the old names to get the new ones. */
  method DiffStringMap<V>(before: map<string, V>, after: map<string, V>) returns (add: seq<string>, remove: seq<string>)
    ensures (set k | k in add) == after.Keys - before.Keys
    ensures (set k | k in remove) == before.Keys - after.Keys
  {
    add := Missing(after.Keys, before.Keys);
    remove := Missing(before.Keys, after.Keys);
  }

  class Vpp {
    /** Every call succeeds that can. */
    const reliable: bool
    var sets: map<nat, set<Value>>
    /** What each successful call left behind. */
    ghost var history: seq<map<nat, set<Value>>>

    method Create() returns (ok: bool, id: nat)
      modifies this
      ensures reliable ==> ok
      ensures ok ==> id !in old(sets) && sets == old(sets)[id := {}] && history == old(history) + [sets]
      ensures !ok ==> sets == old(sets) && history == old(history)
    {
      id := Environment.FreeId(sets.Keys);
      ok := Environment.Attempt(reliable);
      if ok {
        sets := sets[id := {}];
        history := history + [sets];
      }
    }

    method Delete(id: nat) returns (ok: bool)
      modifies this
      ensures reliable && id in old(sets) ==> ok
      ensures ok ==> id in old(sets) && sets == old(sets) - {id} && history == old(history) + [sets]
      ensures !ok ==> sets == old(sets) && history == old(history)
    {
      ok := Environment.Attempt(reliable);
      ok := ok && id in sets;
      if ok {
        sets := sets - {id};
        history := history + [sets];
      }
    }

    method Change(id: nat, values: set<Value>, add: bool) returns (ok: bool)
      modifies this
      ensures reliable && id in old(sets) ==> ok
      ensures ok ==> id in old(sets) && history == old(history) + [sets]
      ensures ok ==> sets == old(sets)[id := if add then old(sets)[id] + values else old(sets)[id] - values]
      ensures !ok ==> sets == old(sets) && history == old(history)
    {
      ok := Environment.Attempt(reliable);
      ok := ok && id in sets;
      if ok {
        sets := sets[id := if add then sets[id] + values else sets[id] - values];
        history := history + [sets];
      }
    }
  }

  /** A created set: VPP has exactly the values of the local members. */
  ghost predicate Mirrored(sets: map<nat, set<Value>>, id: Option<nat>, m: Members) {
    id.Some? && id.value in sets && sets[id.value] == Values(m)
  }

  lemma ValuesAdd(parse: Parser, kind: Kind, m: Members, more: Members)
    requires Parsed(parse, kind, m) && Parsed(parse, kind, more)
    ensures Values(m + more) == Values(m) + Values(more) && Parsed(parse, kind, m + more)
  {
    forall v | v in Values(m) + Values(more) ensures v in Values(m + more) {
      var k :| (k in m && m[k] == v) || (k in more && more[k] == v);
      assert k in m + more && (m + more)[k] == v;
    }
  }

  /** Dropping names drops exactly their values if and only if no name that stays denotes
      one of them. */
  lemma ValuesRemoveIff(m: Members, gone: Members)
    requires forall k :: k in gone && k in m ==> gone[k] == m[k]
    ensures Values(m - gone.Keys) == Values(m) - Values(gone) <==>
            forall k :: k in m && k !in gone ==> m[k] !in Values(gone)
  {
    var rest := m - gone.Keys;
    if forall k :: k in m && k !in gone ==> m[k] !in Values(gone) {
      forall v | v in Values(m) - Values(gone) ensures v in Values(rest) {
        var k :| k in m && m[k] == v;
        assert k !in gone;
        assert k in rest && rest[k] == v;
      }
      forall v | v in Values(rest) ensures v in Values(m) - Values(gone) {
        var k :| k in rest && rest[k] == v;
        assert k in m && k !in gone;
      }
    }
    if Values(rest) == Values(m) - Values(gone) {
      forall k | k in m && k !in gone ensures m[k] !in Values(gone) {
        assert k in rest && rest[k] == m[k];
        assert m[k] in Values(rest);
      }
    }
  }

  /** Two spellings of one address: dropping one takes the address out of VPP though the
      other spelling is still a member. */
  lemma DroppingAnAliasLosesTheMember(v: Value)
    ensures var m := map["10.0.0.1" := v, "::ffff:10.0.0.1" := v];
            var gone := map["::ffff:10.0.0.1" := v];
            Values(m - gone.Keys) == {v} && Values(m) - Values(gone) == {}
  {
    var m := map["10.0.0.1" := v, "::ffff:10.0.0.1" := v];
    var gone := map["::ffff:10.0.0.1" := v];
    assert "10.0.0.1" != "::ffff:10.0.0.1" by { assert |"10.0.0.1"| != |"::ffff:10.0.0.1"|; }
    assert "10.0.0.1" in m - gone.Keys && (m - gone.Keys)["10.0.0.1"] == v;
    assert gone["::ffff:10.0.0.1"] == v;
  }

  class IPSet {
    const parse: Parser
    const kind: Kind
    var id: Option<nat>
    var members: Members

    constructor (parse: Parser, kind: Kind, members: Members)
      ensures this.parse == parse && this.kind == kind && this.members == members && id == None
    {
      this.parse, this.kind, this.members, id := parse, kind, members, None;
    }

    /** Programs the set; if it succeeds VPP mirrors the members under a new id. */
    method Create(vpp: Vpp) returns (ok: bool)
      modifies this`id, vpp
      ensures vpp.reliable ==> ok
      ensures ok ==> Mirrored(vpp.sets, id, members)
      ensures ok ==> id.value !in old(vpp.sets) && vpp.sets == old(vpp.sets)[id.value := Values(members)]
    {
      var n;
      ok, n := vpp.Create();
      if !ok { return; }
      id := Some(n);
      ok := vpp.Change(n, set k | k in members :: members[k], true);
      assert {} + Values(members) == Values(members);
      assert ok ==> vpp.sets == old(vpp.sets)[n := Values(members)];
    }

    method Delete(vpp: Vpp) returns (ok: bool)
      requires id.Some?
      modifies this`id, vpp
      ensures vpp.reliable && old(id).value in old(vpp.sets) ==> ok
      ensures if ok then id.None? && vpp.sets == old(vpp.sets) - {old(id).value}
              else id == old(id) && vpp.sets == old(vpp.sets)
    {
      ok := vpp.Delete(id.value);
      if ok { id := None; }
    }

    /** Adds named members, locally and, if asked, in VPP; a failure changes nothing. */
    method AddMembers(names: seq<string>, apply: bool, vpp: Vpp) returns (ok: bool)
      requires Parsed(parse, kind, members) && (apply ==> id.Some?)
      modifies this`members, vpp
      ensures Parsed(parse, kind, members)
      ensures !ok ==> members == old(members) && vpp.sets == old(vpp.sets) && vpp.history == old(vpp.history)
      ensures ok ==> AllParse(parse, kind, names) && members.Keys == old(members).Keys + set k | k in names
      ensures ok ==> forall k :: k in old(members) ==> members[k] == old(members)[k]
      ensures apply && old(Mirrored(vpp.sets, id, members)) ==> Mirrored(vpp.sets, id, members)
      ensures ok && apply ==> vpp.history == old(vpp.history) + [vpp.sets]
      ensures ok && apply ==>
                id.value in old(vpp.sets) &&
                vpp.sets ==
                  old(vpp.sets)[id.value := old(vpp.sets)[id.value] + Denoted(parse, kind, set k | k in names)]
      ensures AllParse(parse, kind, names) && (apply ==> vpp.reliable && id.value in old(vpp.sets)) ==> ok
      ensures !apply ==> vpp.sets == old(vpp.sets) && vpp.history == old(vpp.history)
    {
      var more := ParseArray(parse, kind, names);
      if more.None? { return false; }
      ok := true;
      if apply {
        ok := vpp.Change(id.value, set k | k in more.value :: more.value[k], true);
        if !ok { return; }
      }
      ValuesAdd(parse, kind, members, more.value);
      ValuesAreDenoted(parse, kind, more.value);
      members := members + more.value;
    }

    /** Removes named members, locally and, if asked, in VPP; a failure changes nothing.
        VPP goes on mirroring the members exactly when no member that stays denotes the
        same value as one of the names. */
    method RemoveMembers(names: seq<string>, apply: bool, vpp: Vpp) returns (ok: bool)
      requires Parsed(parse, kind, members) && (apply ==> id.Some?)
      modifies this`members, vpp
      ensures Parsed(parse, kind, members)
      ensures !ok ==> members == old(members) && vpp.sets == old(vpp.sets) && vpp.history == old(vpp.history)
      ensures ok ==> AllParse(parse, kind, names) && members == old(members) - set k | k in names
      ensures ok && apply && old(Mirrored(vpp.sets, id, members)) ==>
                (Mirrored(vpp.sets, id, members) <==> NoneDenotes(parse, kind, members.Keys, names))
      ensures ok && apply ==> vpp.history == old(vpp.history) + [vpp.sets]
      ensures ok && apply ==>
                id.value in old(vpp.sets) &&
                vpp.sets ==
                  old(vpp.sets)[id.value := old(vpp.sets)[id.value] - Denoted(parse, kind, set k | k in names)]
      ensures AllParse(parse, kind, names) && (apply ==> vpp.reliable && id.value in old(vpp.sets)) ==> ok
      ensures !apply ==> vpp.sets == old(vpp.sets) && vpp.history == old(vpp.history)
    {
      var gone := ParseArray(parse, kind, names);
      if gone.None? { return false; }
      ok := true;
      if apply {
        ok := vpp.Change(id.value, set k | k in gone.value :: gone.value[k], false);
        if !ok { return; }
      }
      ValuesRemoveIff(members, gone.value);
      ValuesAreDenoted(parse, kind, gone.value);
      NoneDenotesIff(parse, kind, members, gone.value, names);
      members := members - gone.value.Keys;
    }

    /** Replaces the members by the difference, removals first. A success leaves exactly the
        new members, and VPP mirrors them exactly when every value that a retained and a
        removed name share is brought back by an added one. Where no retained name denotes
        the value of a removed one, VPP mirrors the members whatever fails, and no call ever
        takes a retained one away. */
    method ReplaceMembers(next: IPSet, apply: bool, vpp: Vpp) returns (ok: bool)
      requires next != this && Parsed(parse, kind, members) && (apply ==> id.Some?)
      requires next.parse == parse && (next.kind == kind ==> Parsed(parse, kind, next.members))
      modifies this`members, vpp
      ensures Parsed(parse, kind, members)
      ensures ok ==> next.kind == kind && members == next.members
      ensures next.kind != kind ==> !ok && members == old(members) && vpp.sets == old(vpp.sets)
      ensures members == old(members) || members == next.members || members == Retained(old(members), next.members)
      ensures apply && old(Mirrored(vpp.sets, id, members)) && KeepsApart(parse, kind, old(members), next.members) ==>
                Mirrored(vpp.sets, id, members) &&
                RetainedThroughout(vpp.history, |old(vpp.history)|, id.value, Retained(old(members), next.members))
      ensures !apply ==> vpp.sets == old(vpp.sets)
      ensures apply && id.value in old(vpp.sets) ==>
                id.value in vpp.sets && vpp.sets == old(vpp.sets)[id.value := vpp.sets[id.value]]
      ensures ok && apply && old(Mirrored(vpp.sets, id, members)) ==>
                (Mirrored(vpp.sets, id, members) <==> Recovered(parse, kind, old(members).Keys, next.members.Keys))
      ensures next.kind == kind && (apply ==> vpp.reliable && id.value in old(vpp.sets)) ==> ok
    {
      if kind != next.kind { return false; }
      var add, remove := DiffStringMap(members, next.members);
      ghost var before := members;
      ok := Exchange(add, remove, apply, vpp, next.members);
      ReplacedIff(parse, kind, before, next.members);
    }

    /** Removes, then adds, to get from the members to the next ones. */
    method Exchange(add: seq<string>, remove: seq<string>, apply: bool, vpp: Vpp, ghost next: Members)
      returns (ok: bool)
      requires Parsed(parse, kind, members) && Parsed(parse, kind, next) && (apply ==> id.Some?)
      requires (set k | k in add) == next.Keys - members.Keys && (set k | k in remove) == members.Keys - next.Keys
      modifies this`members, vpp
      ensures Parsed(parse, kind, members)
      ensures ok ==> members == next
      ensures members == old(members) || members == next || members == Retained(old(members), next)
      ensures apply && old(Mirrored(vpp.sets, id, members)) && KeepsApart(parse, kind, old(members), next) ==>
                Mirrored(vpp.sets, id, members) &&
                RetainedThroughout(vpp.history, |old(vpp.history)|, id.value, Retained(old(members), next))
      ensures !apply ==> vpp.sets == old(vpp.sets)
      ensures apply && id.value in old(vpp.sets) ==>
                id.value in vpp.sets && vpp.sets == old(vpp.sets)[id.value := vpp.sets[id.value]]
      ensures ok && apply ==>
                && id.value in old(vpp.sets) && id.value in vpp.sets
                && vpp.sets[id.value] == old(vpp.sets)[id.value] - Denoted(parse, kind, old(members).Keys - next.Keys)
                                         + Denoted(parse, kind, next.Keys - old(members).Keys)
      ensures (apply ==> vpp.reliable && id.value in old(vpp.sets)) ==> ok
    {
      RetainedIs(parse, kind, members, next, remove);
      MembersParse(parse, kind, members, remove);
      MembersParse(parse, kind, next, add);
      ok := RemoveMembers(remove, apply, vpp);
      if !ok { return; }
      ok := AddMembers(add, apply, vpp);
    }
  }

  function Retained(before: Members, after: Members): Members {
    map k | k in before && k in after :: before[k]
  }

  /** After every call made from the given point on, VPP has these members. */
  ghost predicate RetainedThroughout(history: seq<map<nat, set<Value>>>, from: nat, id: nat, m: Members) {
    from <= |history| && forall i :: from <= i < |history| ==> id in history[i] && Values(m) <= history[i][id]
  }

  /** No name that stays denotes the same value as one that goes. */
  ghost predicate KeepsApart(parse: Parser, kind: Kind, before: Members, after: Members) {
    forall a, b :: a in before && a in after && b in before && b !in after ==> parse(kind, a) != parse(kind, b)
  }

  lemma CanonicalKeepsApart(parse: Parser, kind: Kind, before: Members, after: Members)
    requires Parsed(parse, kind, before) && Canonical(parse, kind, before.Keys)
    ensures KeepsApart(parse, kind, before, after)
  {
  }

  lemma RetainedIs(parse: Parser, kind: Kind, before: Members, after: Members, remove: seq<string>)
    requires Parsed(parse, kind, before) && Parsed(parse, kind, after)
    requires (set k | k in remove) == before.Keys - after.Keys
    ensures before - (set k | k in remove) == Retained(before, after)
    ensures KeepsApart(parse, kind, before, after) <==> NoneDenotes(parse, kind, Retained(before, after).Keys, remove)
    ensures forall m :: Parsed(parse, kind, m) && m.Keys == after.Keys ==> m == after
  {
    var gone := set k | k in remove;
    forall b | b in remove ensures b in before && b !in after {
      assert b in gone;
      assert b in before.Keys - after.Keys;
    }
    forall b | b in before && b !in after ensures b in remove {
      assert b in gone;
    }
  }

  /** None of the names that stay denotes the same value as one of the others. */
  ghost predicate NoneDenotes(parse: Parser, kind: Kind, stay: set<string>, names: seq<string>) {
    forall a, b :: a in stay && b in names ==> parse(kind, a) != parse(kind, b)
  }

  lemma NoneDenotesIff(parse: Parser, kind: Kind, m: Members, gone: Members, names: seq<string>)
    requires Parsed(parse, kind, m) && Parsed(parse, kind, gone) && gone.Keys == set k | k in names
    ensures NoneDenotes(parse, kind, (m - gone.Keys).Keys, names) <==>
            forall k :: k in m && k !in gone ==> m[k] !in Values(gone)
  {
    if NoneDenotes(parse, kind, (m - gone.Keys).Keys, names) {
      forall k | k in m && k !in gone ensures m[k] !in Values(gone) {
        assert k in (m - gone.Keys).Keys;
      }
    }
    if forall k :: k in m && k !in gone ==> m[k] !in Values(gone) {
      forall a, b | a in (m - gone.Keys).Keys && b in names ensures parse(kind, a) != parse(kind, b) {
        assert b in gone && gone[b] in Values(gone);
      }
    }
  }
}
