/**
  Derivation of the BSID of a DSR service: the policy pool's prefix with the VIP's
  remaining bytes laid over it, then the low byte perturbed until the address is free.
 */
module DsrBsid {
  import opened Srv6Types

  type Byte = x: nat | x < 256

  const IP6_LEN := 16
  const MAX_TRIES := 1024

  /** An address as a number, most significant byte first. */
  function FromBytes(bs: seq<Byte>): nat {
    if bs == [] then 0 else FromBytes(bs[..|bs| - 1]) * 256 + bs[|bs| - 1]
  }

  lemma SameDigits(x: nat, y: nat, a: Byte, b: Byte)
    requires x * 256 + a == y * 256 + b
    ensures x == y && a == b
  {
  }

  lemma {:induction false} FromBytesInjective(a: seq<Byte>, b: seq<Byte>)
    requires |a| == |b| && FromBytes(a) == FromBytes(b)
    ensures a == b
  {
    if a != [] {
      var n := |a| - 1;
      SameDigits(FromBytes(a[..n]), FromBytes(b[..n]), a[n], b[n]);
      FromBytesInjective(a[..n], b[..n]);
      assert a == a[..n] + [a[n]] && b == b[..n] + [b[n]];
    }
  }

  /** The pool's whole bytes, then the VIP's. */
  function Derived(pool: seq<Byte>, ones: nat, vip: seq<Byte>): (r: seq<Byte>)
    requires |pool| == IP6_LEN && |vip| == IP6_LEN && ones <= 8 * IP6_LEN
    ensures |r| == IP6_LEN
  {
    pool[..ones / 8] + vip[ones / 8..]
  }

  function WithLast(bs: seq<Byte>, x: Byte): (r: seq<Byte>)
    requires |bs| == IP6_LEN
    ensures |r| == IP6_LEN
  {
    bs[IP6_LEN - 1 := x]
  }

  /** Byte addition wraps. */
  function Plus(x: Byte, d: nat): Byte {
    (x as int + d) % 256
  }

  /** The first free address among n successive values of the low byte. */
  function Probe(bs: seq<Byte>, taken: set<IP6>, n: nat): (r: Option<seq<Byte>>)
    requires |bs| == IP6_LEN
    decreases n, bs, taken
  {
    if n == 0 then None
    else if FromBytes(bs) !in taken then Some(bs)
    else Probe(WithLast(bs, Plus(bs[IP6_LEN - 1], 1)), taken, n - 1)
  }

  /** The loop over the byte buffer. */
  method DsrBsidForVip(pool: seq<Byte>, ones: nat, vip: seq<Byte>, taken: set<IP6>) returns (r: Option<IP6>)
    requires |pool| == IP6_LEN && |vip| == IP6_LEN && ones <= 8 * IP6_LEN
    ensures
      match Probe(Derived(pool, ones, vip), taken, MAX_TRIES)
      case None => r.None?
      case Some(bs) => r == Some(FromBytes(bs))
    ensures FirstFree(pool, ones, vip, taken, r)
  {
    NthIsFirstFree(pool, ones, vip, taken);
    var bsid := new Byte[IP6_LEN](i requires 0 <= i < IP6_LEN => pool[i]);
    var i := ones / 8;
    while i < IP6_LEN
      invariant ones / 8 <= i <= IP6_LEN
      invariant forall j :: 0 <= j < IP6_LEN ==> bsid[j] == if ones / 8 <= j < i then vip[j] else pool[j]
    {
      bsid[i] := vip[i];
      i := i + 1;
    }
    assert bsid[..] == Derived(pool, ones, vip);
    ghost var goal := Probe(bsid[..], taken, MAX_TRIES);
    var tries := 0;
    while tries < MAX_TRIES
      invariant 0 <= tries <= MAX_TRIES
      invariant Probe(bsid[..], taken, MAX_TRIES - tries) == goal
    {
      if FromBytes(bsid[..]) !in taken {
        return Some(FromBytes(bsid[..]));
      }
      ghost var before := bsid[..];
      bsid[IP6_LEN - 1] := Plus(bsid[IP6_LEN - 1], 1);
      assert bsid[..] == WithLast(before, Plus(before[IP6_LEN - 1], 1));
      tries := tries + 1;
    }
    r := None;
  }

  lemma PlusTwice(x: Byte, n: nat)
    ensures Plus(Plus(x, 1), n) == Plus(x, n + 1)
  {
  }

  lemma LastTwice(bs: seq<Byte>, x: Byte, y: Byte)
    requires |bs| == IP6_LEN
    ensures WithLast(WithLast(bs, x), y) == WithLast(bs, y) && WithLast(bs, bs[IP6_LEN - 1]) == bs
  {
  }

  /** A probe result is free and differs from the start in the low byte only; a failed
      probe has seen the next n values, wrapping. */
  lemma {:induction false} ProbeOutcome(bs: seq<Byte>, taken: set<IP6>, n: nat, d: nat)
    requires |bs| == IP6_LEN
    ensures
      match Probe(bs, taken, n)
      case Some(r) => |r| == IP6_LEN && FromBytes(r) !in taken && r == WithLast(bs, r[IP6_LEN - 1])
      case None => d < n ==> FromBytes(WithLast(bs, Plus(bs[IP6_LEN - 1], d))) in taken
    decreases n
  {
    if n > 0 && FromBytes(bs) in taken {
      var next := WithLast(bs, Plus(bs[IP6_LEN - 1], 1));
      if d == 0 {
        ProbeOutcome(next, taken, n - 1, 0);
        assert WithLast(bs, bs[IP6_LEN - 1]) == bs;
      } else {
        ProbeOutcome(next, taken, n - 1, d - 1);
        PlusTwice(bs[IP6_LEN - 1], d - 1);
        LastTwice(bs, Plus(bs[IP6_LEN - 1], 1), Plus(bs[IP6_LEN - 1], d));
      }
    }
  }

  /** The n-th address that is tried: the pool's whole bytes, then the VIP's, and n added to the
      last byte, which wraps. */
  ghost function Nth(pool: seq<Byte>, ones: nat, vip: seq<Byte>, n: nat): seq<Byte>
    requires |pool| == 16 && |vip| == 16 && ones <= 128
  {
    seq(16, i requires 0 <= i < 16 =>
      var x := if i < ones / 8 then pool[i] else vip[i];
      if i < 15 then x else (x + n) % 256)
  }

  /** The first of these that is not taken, or none if all of them are. */
  ghost predicate FirstFree(pool: seq<Byte>, ones: nat, vip: seq<Byte>, taken: set<IP6>, r: Option<IP6>)
    requires |pool| == 16 && |vip| == 16 && ones <= 128
  {
    if r.None? then forall n :: FromBytes(Nth(pool, ones, vip, n)) in taken
    else r.value !in taken && exists n ::
           && FromBytes(Nth(pool, ones, vip, n)) == r.value
           && forall m: nat :: m < n ==> FromBytes(Nth(pool, ones, vip, m)) in taken
  }

  lemma NthIsFirstFree(pool: seq<Byte>, ones: nat, vip: seq<Byte>, taken: set<IP6>)
    requires |pool| == 16 && |vip| == 16 && ones <= 128
    ensures
      var got := Probe(Derived(pool, ones, vip), taken, MAX_TRIES);
      FirstFree(pool, ones, vip, taken, if got.None? then None else Some(FromBytes(got.value)))
  {
    var bs := Derived(pool, ones, vip);
    forall n: nat ensures Nth(pool, ones, vip, n) == Further(bs, n) {
      assert |Further(bs, n)| == 16;
    }
    DerivationFailsIffAllTaken(bs, taken);
    if Probe(bs, taken, MAX_TRIES).Some? {
      var n := ProbedFirst(bs, taken, MAX_TRIES);
    }
  }

  /** The address n further on. */
  ghost function Further(bs: seq<Byte>, n: nat): seq<Byte>
    requires |bs| == 16
  {
    WithLast(bs, Plus(bs[15], n))
  }

  lemma FurtherStill(bs: seq<Byte>, n: nat)
    requires |bs| == 16
    ensures |Further(bs, 1)| == 16 && Further(Further(bs, 1), n) == Further(bs, n + 1) && Further(bs, 0) == bs
  {
    PlusTwice(bs[15], n);
    LastTwice(bs, Plus(bs[15], 1), Plus(bs[15], n + 1));
  }

  lemma {:induction false} ProbedFirst(bs: seq<Byte>, taken: set<IP6>, tries: nat) returns (n: nat)
    requires |bs| == 16 && Probe(bs, taken, tries).Some?
    ensures Probe(bs, taken, tries).value == Further(bs, n)
    ensures forall m: nat :: m < n ==> FromBytes(Further(bs, m)) in taken
    decreases tries
  {
    n := 0;
    FurtherStill(bs, 0);
    if FromBytes(bs) in taken {
      var next := Further(bs, 1);
      var k := ProbedFirst(next, taken, tries - 1);
      n := k + 1;
      FurtherStill(bs, k);
      forall m: nat | m < n ensures FromBytes(Further(bs, m)) in taken {
        if m > 0 { FurtherStill(bs, m - 1); }
      }
    }
  }

  /** Derivation gives a free address with the derived first 15 bytes, and fails
      exactly when all 256 of them are taken. */
  lemma DerivationFailsIffAllTaken(bs: seq<Byte>, taken: set<IP6>)
    requires |bs| == IP6_LEN
    ensures Probe(bs, taken, MAX_TRIES).None? <==> forall x: Byte :: FromBytes(WithLast(bs, x)) in taken
    ensures Probe(bs, taken, MAX_TRIES).Some? ==>
              var r := Probe(bs, taken, MAX_TRIES).value;
              |r| == IP6_LEN && r[..IP6_LEN - 1] == bs[..IP6_LEN - 1] && FromBytes(r) !in taken
  {
    ProbeOutcome(bs, taken, MAX_TRIES, 0);
    var got := Probe(bs, taken, MAX_TRIES);
    if got.None? {
      forall x: Byte ensures FromBytes(WithLast(bs, x)) in taken {
        var d := (x as int + 256 - bs[IP6_LEN - 1]) % 256;
        ProbeOutcome(bs, taken, MAX_TRIES, d);
        assert Plus(bs[IP6_LEN - 1], d) == x;
      }
    } else {
      assert got.value == WithLast(bs, got.value[IP6_LEN - 1]);
    }
  }

  // ----- Room in the pool -----

  lemma {:induction false} ImageCount(f: nat -> IP6, n: nat)
    requires forall x, y :: 0 <= x < y < n ==> f(x) != f(y)
    ensures |set x: nat | x < n :: f(x)| == n
  {
    if n > 0 {
      ImageCount(f, n - 1);
      assert (set x: nat | x < n :: f(x)) == (set x: nat | x < n - 1 :: f(x)) + {f(n - 1)};
    }
  }

  lemma WithLastInjective(bs: seq<Byte>, x: Byte, y: Byte)
    requires |bs| == IP6_LEN && x != y
    ensures FromBytes(WithLast(bs, x)) != FromBytes(WithLast(bs, y))
  {
    var a, b := WithLast(bs, x), WithLast(bs, y);
    assert a[IP6_LEN - 1] != b[IP6_LEN - 1];
    if FromBytes(a) == FromBytes(b) {
      FromBytesInjective(a, b);
    }
  }

  /** With fewer than 256 addresses in use, a free one is found. */
  lemma RoomForOneMore(bs: seq<Byte>, taken: set<IP6>)
    requires |bs| == IP6_LEN && |taken| < 256
    ensures Probe(bs, taken, MAX_TRIES).Some?
  {
    DerivationFailsIffAllTaken(bs, taken);
    if Probe(bs, taken, MAX_TRIES).None? {
      var f: nat -> IP6 := x => if x < 256 then FromBytes(WithLast(bs, x)) else 0;
      forall x, y | 0 <= x < y < 256 ensures f(x) != f(y) {
        WithLastInjective(bs, x, y);
      }
      ImageCount(f, 256);
      SubsetCount(set x: nat | x < 256 :: f(x), taken);
    }
  }

  lemma SubsetCount<T>(a: set<T>, b: set<T>)
    requires a <= b
    ensures |a| <= |b|
  {
    assert b == a + (b - a);
  }

  /** A byte the derivation takes over from the pool, and never perturbs, is not zero. */
  predicate NonzeroPool(pool: seq<Byte>, ones: nat)
    requires |pool| == IP6_LEN && ones <= 8 * IP6_LEN
  {
    exists i :: 0 <= i < ones / 8 && i < IP6_LEN - 1 && pool[i] != 0
  }

  lemma {:induction false} ZeroBytes(bs: seq<Byte>, i: nat)
    requires FromBytes(bs) == 0 && i < |bs|
    ensures bs[i] == 0
  {
    var n := |bs| - 1;
    if i < n {
      ZeroBytes(bs[..n], i);
    }
  }

  /** What such a pool gives is never the zero address. */
  lemma DerivedIsNonzero(pool: seq<Byte>, ones: nat, vip: seq<Byte>, taken: set<IP6>)
    requires |pool| == IP6_LEN && |vip| == IP6_LEN && ones <= 8 * IP6_LEN && NonzeroPool(pool, ones)
    ensures var r := Probe(Derived(pool, ones, vip), taken, MAX_TRIES); r.Some? ==> FromBytes(r.value) != ZERO_ADDRESS
  {
    var bs := Derived(pool, ones, vip);
    DerivationFailsIffAllTaken(bs, taken);
    var r := Probe(bs, taken, MAX_TRIES);
    if r.Some? {
      var i :| 0 <= i < ones / 8 && i < IP6_LEN - 1 && pool[i] != 0;
      assert r.value[i] == r.value[..IP6_LEN - 1][i] == bs[i] == pool[i];
      if FromBytes(r.value) == ZERO_ADDRESS {
        ZeroBytes(r.value, i);
      }
    }
  }

  ghost predicate NeverZero(pool: seq<Byte>, ones: nat)
    requires |pool| == IP6_LEN && ones <= 8 * IP6_LEN
  {
    forall vip: seq<Byte>, taken: set<IP6> :: |vip| == IP6_LEN ==>
      var r := Probe(Derived(pool, ones, vip), taken, MAX_TRIES);
      r.Some? ==> FromBytes(r.value) != ZERO_ADDRESS
  }

  /** And only such a pool never does. */
  lemma NeverZeroIff(pool: seq<Byte>, ones: nat)
    requires |pool| == IP6_LEN && ones <= 8 * IP6_LEN
    ensures NeverZero(pool, ones) <==> NonzeroPool(pool, ones)
  {
    if NonzeroPool(pool, ones) {
      forall vip: seq<Byte>, taken: set<IP6> | |vip| == IP6_LEN
        ensures var r := Probe(Derived(pool, ones, vip), taken, MAX_TRIES);
                r.Some? ==> FromBytes(r.value) != ZERO_ADDRESS
      {
        DerivedIsNonzero(pool, ones, vip, taken);
      }
    } else {
      var vip: seq<Byte> := seq(IP6_LEN, _ => 0);
      var bs := Derived(pool, ones, vip);
      var taken: set<IP6> := set x: nat | 0 < x < 256 :: FromBytes(WithLast(bs, x));
      var zero := WithLast(bs, 0);
      assert forall i :: 0 <= i < IP6_LEN ==> zero[i] == 0;
      AllZeroBytes(zero);
      forall x: Byte | x > 0 ensures FromBytes(WithLast(bs, x)) != 0 {
        WithLastInjective(bs, x, 0);
      }
      assert FromBytes(zero) !in taken;
      DerivationFailsIffAllTaken(bs, taken);
      var r := Probe(bs, taken, MAX_TRIES).value;
      assert r == WithLast(bs, r[IP6_LEN - 1]) by {
        assert r == r[..IP6_LEN - 1] + [r[IP6_LEN - 1]];
      }
      assert r[IP6_LEN - 1] > 0 ==> FromBytes(r) in taken;
      assert r == zero;
    }
  }

  lemma {:induction false} AllZeroBytes(bs: seq<Byte>)
    requires forall i :: 0 <= i < |bs| ==> bs[i] == 0
    ensures FromBytes(bs) == 0
  {
    if bs != [] { AllZeroBytes(bs[..|bs| - 1]); }
  }

  // ----- Staying inside the pool -----

  /** Number of addresses of a byte that share its first r bits. */
  function Span(r: nat): (k: nat)
    requires r < 8
    ensures 0 < k <= 256 && (r > 0 ==> k <= 128)
  {
    [256, 128, 64, 32, 16, 8, 4, 2][r]
  }

  /** The first `ones` bits agree with the pool's. */
  predicate InPool(bs: seq<Byte>, pool: seq<Byte>, ones: nat)
    requires |pool| == IP6_LEN && |bs| == IP6_LEN && ones <= 8 * IP6_LEN
  {
    && bs[..ones / 8] == pool[..ones / 8]
    && (ones % 8 != 0 ==> bs[ones / 8] / Span(ones % 8) == pool[ones / 8] / Span(ones % 8))
  }

  ghost predicate AlwaysInPool(pool: seq<Byte>, ones: nat)
    requires |pool| == IP6_LEN && ones <= 8 * IP6_LEN
  {
    forall vip: seq<Byte>, taken: set<IP6> :: |vip| == IP6_LEN ==>
      var r := Probe(Derived(pool, ones, vip), taken, MAX_TRIES);
      r.Some? ==> |r.value| == IP6_LEN && InPool(r.value, pool, ones)
  }

  /** Derived BSIDs never leave the pool exactly when its length is a whole number
      of bytes and at most 120: otherwise some VIP or some collision leads outside. */
  lemma InPoolIffByteAligned(pool: seq<Byte>, ones: nat)
    requires |pool| == IP6_LEN && ones <= 8 * IP6_LEN
    ensures AlwaysInPool(pool, ones) <==> ones % 8 == 0 && ones <= 120
  {
    if ones % 8 == 0 && ones <= 120 {
      forall vip: seq<Byte>, taken: set<IP6> | |vip| == IP6_LEN
        ensures var r := Probe(Derived(pool, ones, vip), taken, MAX_TRIES);
                r.Some? ==> |r.value| == IP6_LEN && InPool(r.value, pool, ones)
      {
        DerivationFailsIffAllTaken(Derived(pool, ones, vip), taken);
        var r := Probe(Derived(pool, ones, vip), taken, MAX_TRIES);
        if r.Some? {
          assert r.value[..ones / 8] == r.value[..IP6_LEN - 1][..ones / 8] == pool[..ones / 8];
        }
      }
    } else if ones % 8 != 0 {
      LeavesPoolByVip(pool, ones);
    } else {
      LeavesPoolByCollision(pool);
    }
  }

  lemma LeavesPoolByVip(pool: seq<Byte>, ones: nat)
    requires |pool| == IP6_LEN && ones <= 8 * IP6_LEN && ones % 8 != 0
    ensures !AlwaysInPool(pool, ones)
  {
    var j := ones / 8;
    var x: Byte := Plus(pool[j], 128);
    var vip := pool[j := x];
    var k := Span(ones % 8);
    assert x / k != pool[j] / k by {
      assert k == 128 || k == 64 || k == 32 || k == 16 || k == 8 || k == 4 || k == 2;
    }
    var d := Derived(pool, ones, vip);
    assert d[j] == x;
    assert Probe(d, {}, MAX_TRIES) == Some(d);
    assert !InPool(d, pool, ones);
  }

  lemma LeavesPoolByCollision(pool: seq<Byte>)
    requires |pool| == IP6_LEN
    ensures !AlwaysInPool(pool, 128)
  {
    var d := Derived(pool, 128, pool);
    assert d == pool;
    var next := WithLast(pool, Plus(pool[IP6_LEN - 1], 1));
    assert next[IP6_LEN - 1] != pool[IP6_LEN - 1];
    var taken: set<IP6> := {FromBytes(pool)};
    if FromBytes(next) in taken {
      FromBytesInjective(next, pool);
    }
    assert Probe(d, taken, MAX_TRIES) == Probe(next, taken, MAX_TRIES - 1) == Some(next);
    assert !InPool(next, pool, 128) by {
      assert next[..16][15] != pool[..16][15];
    }
  }
}
