/**
  The data plane the pod interface lifecycle talks to: live interfaces, per-pod VRFs and
  the plugin's binding table from attachment identities to interface handles. Interface
  indexes are reused; an incarnation, drawn from one counter of the plugin, tells one use
  from the next. A VPP restart starts both over, so a handle from before the restart may
  be issued again, to another pod.
 */
module IfBinding {
  import opened Srv6Types
  import Environment

  datatype Key = Key(netns: string, ifname: string)

  datatype Handle = Handle(index: nat, incarnation: nat)

  /** What was written to the binding table, kept so that exactly it can be withdrawn. */
  datatype Published = Published(attachment: string, handle: Handle)

  type Live = map<nat, nat>
  type Table = map<string, Handle>

  predicate IsLive(live: Live, h: Handle) {
    h.index in live && live[h.index] == h.incarnation
  }

  predicate Holds(table: Table, p: Published) {
    p.attachment in table && table[p.attachment] == p.handle
  }

  /** An identity has one live handle, a handle at most one identity. */
  ghost predicate TableOk(table: Table, live: Live) {
    && (forall a :: a in table ==> IsLive(live, table[a]))
    && (forall a, b :: a in table && b in table && table[a] == table[b] ==> a == b)
  }

  /** The identity for which each handle issued since the last VPP restart was created. */
  type Owners = map<Handle, string>

  ghost predicate OwnersOk(owners: Owners, next: nat, live: Live) {
    && (forall h :: h in owners ==> h.incarnation <= next)
    && (forall h :: IsLive(live, h) ==> h in owners)
  }

  /** An identity is bound only to an interface created for it since the last VPP restart. */
  ghost predicate Linked(table: Table, owners: Owners) {
    forall a :: a in table ==> table[a] in owners && owners[table[a]] == a
  }

  /** A live handle is loose, never bound or withdrawn since, exactly if the table does not
      have it. */
  ghost predicate Loosely(loose: set<Handle>, table: Table, live: Live) {
    && (forall a :: a in table ==> table[a] !in loose)
    && (forall h :: IsLive(live, h) && h !in loose ==> h in table.Values)
  }

  lemma LooselyAdd(loose: set<Handle>, table: Table, live: Live, a: string, h: Handle)
    requires Loosely(loose, table, live) && a !in table
    ensures Loosely(loose - {h}, table[a := h], live)
  {
    assert table[a := h][a] == h;
    forall g | IsLive(live, g) && g !in loose - {h} ensures g in table[a := h].Values {
      if g != h {
        var b :| b in table && table[b] == g;
        assert table[a := h][b] == g;
      }
    }
  }

  lemma LooselyDel(loose: set<Handle>, table: Table, live: Live, a: string)
    requires Loosely(loose, table, live) && TableOk(table, live) && a in table
    ensures Loosely(loose + {table[a]}, table - {a}, live)
  {
    forall g | IsLive(live, g) && g !in loose + {table[a]} ensures g in (table - {a}).Values {
      var b :| b in table && table[b] == g;
      assert (table - {a})[b] == g;
    }
  }

  lemma LooselyDrop(loose: set<Handle>, table: Table, live: Live, index: nat)
    requires Loosely(loose, table, live)
    ensures Loosely(loose, WithoutIndex(table, index), live - {index})
  {
    forall g | IsLive(live - {index}, g) && g !in loose ensures g in WithoutIndex(table, index).Values {
      assert IsLive(live, g);
      var b :| b in table && table[b] == g;
      assert WithoutIndex(table, index)[b] == g;
    }
  }

  /** The plugin takes a pair if the handle is live and both sides are free, or as a repeat. */
  ghost predicate Accepts(live: Live, table: Table, a: string, h: Handle) {
    IsLive(live, h) && if a in table then table[a] == h else h !in table.Values
  }

  // ----- Identifiers and dumps -----

  const ATTACHMENT_ID_MAX_LEN := 255

  predicate ValidAttachment(a: string) {
    1 <= |a| <= ATTACHMENT_ID_MAX_LEN && forall i :: 0 <= i < |a| ==> 0x21 as char <= a[i] <= 0x7e as char
  }

  /** 1 to 255 characters from '!' to '~'. */
  ghost predicate Printable(a: string) {
    1 <= |a| <= 255 && forall c :: c in a ==> '!' <= c <= '~'
  }

  lemma PrintableIff(a: string)
    ensures ValidAttachment(a) <==> Printable(a)
  {
    if Printable(a) {
      forall i | 0 <= i < |a| ensures '!' <= a[i] <= '~' {
        assert a[i] in a;
      }
    }
  }

  method ValidateAttachmentID(a: string) returns (ok: bool)
    ensures ok <==> ValidAttachment(a)
    ensures ok <==> Printable(a)
  {
    PrintableIff(a);
    if |a| == 0 || |a| > ATTACHMENT_ID_MAX_LEN { return false; }
    for i := 0 to |a|
      invariant forall j :: 0 <= j < i ==> 0x21 as char <= a[j] <= 0x7e as char
    {
      if a[i] < 0x21 as char || a[i] > 0x7e as char { return false; }
    }
    ok := true;
  }

  /** The dump names one incarnation for the index, and does name it. */
  ghost predicate Unambiguous(dump: seq<Handle>, index: nat, incarnation: nat) {
    && Handle(index, incarnation) in dump
    && forall h :: h in dump && h.index == index ==> h.incarnation == incarnation
  }

  method IncarnationOf(dump: seq<Handle>, index: nat) returns (r: Option<nat>)
    ensures r.Some? ==> Unambiguous(dump, index, r.value)
    ensures r.None? ==> forall n :: !Unambiguous(dump, index, n)
  {
    r := None;
    for i := 0 to |dump|
      invariant r.Some? ==> Unambiguous(dump[..i], index, r.value)
      invariant r.None? ==> forall h :: h in dump[..i] ==> h.index != index
    {
      assert dump[..i + 1] == dump[..i] + [dump[i]];
      if dump[i].index != index { continue; }
      if r.Some? && r.value != dump[i].incarnation {
        assert Handle(index, r.value) in dump && dump[i] in dump;
        return None;
      }
      r := Some(dump[i].incarnation);
    }
    assert dump[..|dump|] == dump;
  }

  // ----- Restart and teardown plans -----

  datatype RescanDecision = Replay | NewLifecycle | FailClosed

  function PlanRescan(hasIdentity: bool, vppStateLost: bool, handleLive: bool): (d: RescanDecision)
    ensures d.Replay? ==> hasIdentity && handleLive
    ensures d.NewLifecycle? ==> hasIdentity && vppStateLost
    ensures d.FailClosed? <==> !hasIdentity || (!vppStateLost && !handleLive)
  {
    if !hasIdentity then FailClosed
    else if vppStateLost then NewLifecycle
    else if handleLive then Replay
    else FailClosed
  }

  // ----- The data plane -----

  /** What the data plane holds at one moment, how often VPP has restarted, and which pod
      each identity names. */
  datatype State = State(live: Live, owners: Owners, vrfs: set<Key>, table: Table, restarts: nat, pod: string -> Key)

  /** No handle issued since the last restart comes back to life or changes owner, and a
      binding of a handle that stays alive stays, except that the excepted one may go. */
  ghost predicate Keeps(a: State, b: State, except: Option<Published>) {
    && b.restarts == a.restarts && b.pod == a.pod
    && (forall h :: h in a.owners ==> h in b.owners && b.owners[h] == a.owners[h])
    && (forall h :: h in a.owners && IsLive(b.live, h) ==> IsLive(a.live, h))
    && (forall p :: Holds(a.table, p) && IsLive(b.live, p.handle) && Some(p) != except ==> Holds(b.table, p))
  }

  /** New handles were issued for one identity only, new VRFs for one pod only. */
  ghost predicate OnlyFor(a: State, b: State, k: Key, attachment: string) {
    && (forall h :: h in b.owners && h !in a.owners ==> b.owners[h] == attachment)
    && b.vrfs <= a.vrfs + {k}
  }

  lemma KeepsTrans(a: State, b: State, c: State, except: Option<Published>)
    requires Keeps(a, b, except) && Keeps(b, c, except)
    requires TableOk(a.table, a.live) && forall h :: IsLive(a.live, h) ==> h in a.owners
    ensures Keeps(a, c, except)
  {
    forall p | Holds(a.table, p) && IsLive(c.live, p.handle) && Some(p) != except ensures Holds(c.table, p) {
      assert IsLive(a.live, p.handle) && p.handle in b.owners;
      assert IsLive(b.live, p.handle);
    }
  }

  lemma FreshHandle(s: State, next: nat, i: nat, a: string)
    requires TableOk(s.table, s.live) && OwnersOk(s.owners, next, s.live) && i !in s.live
    ensures var h := Handle(i, next + 1);
            var live', owners' := s.live[i := next + 1], s.owners[h := a];
            && TableOk(s.table, live') && (Linked(s.table, s.owners) ==> Linked(s.table, owners'))
            && OwnersOk(owners', next + 1, live') && OwnersOk(owners', next + 1, s.live) && h !in s.owners
            && Keeps(s, s.(live := live', owners := owners'), None) && Keeps(s, s.(owners := owners'), None)
  {
  }

  function WithoutIndex(table: Table, index: nat): Table {
    map a | a in table && table[a].index != index :: table[a]
  }

  lemma IndexGone(s: State, index: nat)
    requires TableOk(s.table, s.live)
    ensures var t := s.(live := s.live - {index}, table := WithoutIndex(s.table, index));
            TableOk(t.table, t.live) && Keeps(s, t, None) && (Linked(s.table, s.owners) ==> Linked(t.table, t.owners))
  {
  }

  class Plane {
    /** Every call succeeds. */
    const reliable: bool
    /** Listings of VRFs do not fail. */
    const listing: bool
    /** Calls that undo a failed attempt do not fail. */
    const undoes: bool
    /** An identity names a container and an interface in it, hence one pod. */
    ghost const pod: string -> Key
    var live: Live
    /** The last incarnation issued. */
    var next: nat
    ghost var owners: Owners
    var vrfs: set<Key>
    var table: Table
    /** The handles issued since the last restart that were never bound, or withdrawn since. */
    ghost var loose: set<Handle>
    ghost var restarts: nat

    ghost predicate Valid()
      reads this
    {
      TableOk(table, live) && Loosely(loose, table, live) && OwnersOk(owners, next, live)
    }

    ghost function Now(): State
      reads this
    {
      State(live, owners, vrfs, table, restarts, pod)
    }

    /** A dump of a live interface reports its one incarnation, of an unknown one nothing. */
    method IfIncarnation(index: nat) returns (r: Option<nat>)
      ensures r.Some? ==> IsLive(live, Handle(index, r.value))
      ensures reliable && index in live ==> r.Some?
    {
      var ok := Environment.Attempt(reliable);
      if !ok { return None; }
      var dump := if index in live then [Handle(index, live[index])] else [];
      r := IncarnationOf(dump, index);
      if r.Some? { assert Handle(index, r.value) in dump; }
      assert index in live ==> Unambiguous(dump, index, live[index]);
    }

    /** Accepts a new pair or an exact repeat; refuses a pair that agrees on one side only.
        For whom the interface was created the plugin does not know. */
    method AttachmentAdd(a: string, h: Handle) returns (ok: bool)
      requires Valid()
      modifies this`table, this`loose
      ensures Valid() && Keeps(old(Now()), Now(), None)
      ensures !ok ==> table == old(table) && loose == old(loose)
      ensures ok ==> Accepts(live, old(table), a, h) && table == old(table)[a := h] && loose == old(loose) - {h}
      ensures reliable ==> (ok <==> ValidAttachment(a) && Accepts(live, old(table), a, h))
      ensures Linked(old(table), owners) ==> (Linked(table, owners) <==> !ok || owners[h] == a)
    {
      ok := ValidateAttachmentID(a);
      if !ok { return; }
      ok := Environment.Attempt(reliable);
      if !ok || !IsLive(live, h) { return false; }
      if a in table { return table[a] == h; }
      if h in table.Values { return false; }
      LooselyAdd(loose, table, live, a, h);
      table, loose := table[a := h], loose - {h};
      assert table[a] == h;
    }

    /** Withdraws on an exact match only. */
    method AttachmentDel(a: string, h: Handle) returns (ok: bool)
      requires Valid()
      modifies this`table, this`loose
      ensures Valid() && Keeps(old(Now()), Now(), Some(Published(a, h)))
      ensures table == old(table) || (Holds(old(table), Published(a, h)) && table == old(table) - {a})
      ensures loose == if table == old(table) then old(loose) else old(loose) + {h}
      ensures reliable && ValidAttachment(a) ==> !Holds(table, Published(a, h))
      ensures !ValidAttachment(a) ==> table == old(table)
    {
      ok := ValidateAttachmentID(a);
      if !ok { return; }
      ok := Environment.Attempt(reliable);
      if !ok { return; }
      if Holds(table, Published(a, h)) {
        LooselyDel(loose, table, live, a);
        table, loose := table - {a}, loose + {h};
      }
    }

    /** Deleting an interface runs the plugin's callback, which drops its binding. */
    method DeleteInterface(index: nat, sure: bool := false) returns (ok: bool)
      requires Valid()
      modifies this`live, this`table
      ensures Valid() && Keeps(old(Now()), Now(), None)
      ensures reliable || sure ==> ok
      ensures live == if ok then old(live) - {index} else old(live)
      ensures table == if ok then WithoutIndex(old(table), index) else old(table)
      ensures Linked(old(table), owners) ==> Linked(table, owners)
    {
      ok := Environment.Attempt(reliable || sure);
      if !ok { return; }
      IndexGone(Now(), index);
      LooselyDrop(loose, table, live, index);
      live := live - {index};
      table := WithoutIndex(table, index);
    }

    /** Whether the pod's VRFs are seen in a listing; a failed listing reads as absent. */
    method VrfsExist(k: Key) returns (seen: bool)
      ensures seen ==> k in vrfs
      ensures reliable || listing ==> (seen <==> k in vrfs)
    {
      var ok := Environment.Attempt(reliable);
      seen := (ok || listing) && k in vrfs;
    }

    /** A new interface on some free index under the next incarnation, undone if asked. */
    method CreateInterface(a: string, undone: bool) returns (i: nat)
      requires Valid()
      modifies this`live, this`next, this`owners, this`loose
      ensures Valid() && (Linked(table, old(owners)) ==> Linked(table, owners))
      ensures next == old(next) + 1 && loose == old(loose) + {Handle(i, next)}
      ensures i !in old(live) && Handle(i, next) !in old(owners) && owners == old(owners)[Handle(i, next) := a]
      ensures live == if undone then old(live) else old(live)[i := next]
    {
      i := Environment.FreeId(live.Keys);
      FreshHandle(Now(), next, i, a);
      next := next + 1;
      owners, loose := owners[Handle(i, next) := a], loose + {Handle(i, next)};
      if !undone { live := live[i := next]; }
    }

    /** Creates VRFs and interface. What a failed attempt leaves behind, after undoing what
        it could, may be any of it. */
    method Realize(k: Key, a: string) returns (ok: bool, index: Option<nat>)
      requires Valid()
      modifies this`live, this`next, this`owners, this`loose, this`vrfs
      ensures Valid() && (Linked(table, old(owners)) ==> Linked(table, owners))
      ensures (reliable ==> ok) && (ok ==> next == old(next) + 1)
      ensures if ok then index.Some? && Realized(old(Now()), k, a, index.value, next, Now())
              else LeftOver(old(Now()), k, a, index, next, Now()) && (undoes ==> Undone(old(Now()), Now()))
    {
      index := None;
      ok := Environment.Attempt(reliable);
      if !ok { return; }
      ok := Environment.Attempt(reliable);
      var undone := Undo(ok);
      var i := CreateInterface(a, undone);
      index := Some(i);
      undone := Undo(ok);
      vrfs := if undone then vrfs - {k} else vrfs + {k};
    }

    /** Whether one step of a failed attempt could be undone. */
    method Undo(ok: bool) returns (undone: bool)
      ensures ok ==> !undone
      ensures undoes && !ok ==> undone
    {
      undone := *;
      undone := (undone || undoes) && !ok;
    }

    /** VPP starts over with nothing, the plugin's counter included. */
    method Restart()
      modifies this`live, this`next, this`owners, this`loose, this`vrfs, this`table, this`restarts
      ensures Valid() && Linked(table, owners) && Now() == Restarted(old(Now())) && next == 0
    {
      live, next, vrfs, table := map[], 0, {}, map[];
      owners, loose, restarts := map[], {}, restarts + 1;
    }
  }

  ghost function Restarted(s: State): State {
    State(map[], map[], {}, map[], s.restarts + 1, s.pod)
  }

  /** A failed attempt: nothing but perhaps a handle issued, its interface and the VRFs. */
  ghost predicate LeftOver(a: State, k: Key, attachment: string, index: Option<nat>, n: nat, b: State) {
    && b.table == a.table && b.restarts == a.restarts && b.pod == a.pod
    && (b.vrfs == a.vrfs || b.vrfs == a.vrfs + {k} || b.vrfs == a.vrfs - {k})
    && match index
       case None => b.live == a.live && b.owners == a.owners
       case Some(i) =>
         && i !in a.live && Handle(i, n) !in a.owners && b.owners == a.owners[Handle(i, n) := attachment]
         && (b.live == a.live || b.live == a.live[i := n])
  }

  ghost predicate Undone(a: State, b: State) {
    b.live == a.live && b.vrfs <= a.vrfs
  }

  /** A new interface and its VRFs: a free index under an incarnation not in use. */
  ghost predicate Realized(a: State, k: Key, attachment: string, i: nat, n: nat, b: State) {
    && i !in a.live && Handle(i, n) !in a.owners
    && b == a.(live := a.live[i := n], owners := a.owners[Handle(i, n) := attachment], vrfs := a.vrfs + {k})
  }
}
