/**
  The strings that identify an SR Policy: the IPAM handle a dynamic BSID is
  attributed to, and the key of the provider's per-policy maps.
 */
module BsidHandle {

  /** Decimal representation of an unsigned number. */
  function Decimal(n: nat): (s: string)
    ensures |s| > 0
  {
    if n < 10 then [Digit(n)] else Decimal(n / 10) + [Digit(n % 10)]
  }

  function Digit(d: nat): char
    requires d < 10
  {
    ['0', '1', '2', '3', '4', '5', '6', '7', '8', '9'][d]
  }

  /** ":" becomes "-", everything else stays. */
  function DashColons(s: string): (r: string)
    ensures |r| == |s| && forall i :: 0 <= i < |s| ==> r[i] == if s[i] == ':' then '-' else s[i]
  {
    if s == "" then "" else [if s[0] == ':' then '-' else s[0]] + DashColons(s[1..])
  }

  function DynBsidHandle(node: string, color: nat): string {
    "cvp-srv6-dyn-bsid-" + DashColons(node) + "-" + Decimal(color)
  }

  function GroupKey(node: string, color: nat): string {
    node + "|" + Decimal(color)
  }

  lemma {:induction false} DecimalHasDigitsOnly(n: nat, c: char)
    requires c in Decimal(n)
    ensures '0' <= c <= '9'
  {
    if n >= 10 && c in Decimal(n / 10) {
      DecimalHasDigitsOnly(n / 10, c);
    }
  }

  /** The number that digits stand for. */
  function Read(s: string): int {
    if s == "" then 0 else 10 * Read(s[..|s| - 1]) + (s[|s| - 1] as int - '0' as int)
  }

  /** The digits of a number stand for it, and none in front is zero. */
  lemma {:induction false} DecimalReads(n: nat)
    ensures forall c :: c in Decimal(n) ==> '0' <= c <= '9'
    ensures Read(Decimal(n)) == n && (|Decimal(n)| > 1 ==> Decimal(n)[0] != '0')
  {
    forall c | c in Decimal(n) ensures '0' <= c <= '9' {
      DecimalHasDigitsOnly(n, c);
    }
    var s := Decimal(n);
    if n >= 10 {
      DecimalReads(n / 10);
      assert s[..|s| - 1] == Decimal(n / 10);
      assert n / 10 < 10 ==> Decimal(n / 10) == [Digit(n / 10)];
    } else {
      assert s[..0] == "";
    }
  }

  /** What the strings look like. */
  lemma HandleExample()
    ensures DynBsidHandle("fd::1", 42) == "cvp-srv6-dyn-bsid-fd--1-42" && GroupKey("fd::1", 42) == "fd::1|42"
  {
    assert Decimal(42) == Decimal(4) + ['2'] == "42";
    assert DashColons("fd::1") == "fd--1";
  }

  lemma {:induction false} DecimalInjective(m: nat, n: nat)
    requires Decimal(m) == Decimal(n)
    ensures m == n
  {
    var a, b := Decimal(m), Decimal(n);
    assert a[|a| - 1] == Digit(m % 10) && b[|b| - 1] == Digit(n % 10);
    assert m % 10 == n % 10;
    if m >= 10 && n >= 10 {
      assert a[..|a| - 1] == Decimal(m / 10) && b[..|b| - 1] == Decimal(n / 10);
      DecimalInjective(m / 10, n / 10);
    } else {
      assert (m < 10 <==> |a| == 1) && (n < 10 <==> |b| == 1);
    }
  }

  lemma {:induction false} DashColonsInjective(s: string, t: string)
    requires '-' !in s && '-' !in t
    requires DashColons(s) == DashColons(t)
    ensures s == t
  {
    if s != "" {
      assert DashColons(s)[0] == DashColons(t)[0];
      assert DashColons(s)[1..] == DashColons(s[1..]) && DashColons(t)[1..] == DashColons(t[1..]);
      DashColonsInjective(s[1..], t[1..]);
      assert s == [s[0]] + s[1..] && t == [t[0]] + t[1..];
    }
  }

  /** The last separator splits a string uniquely. */
  lemma LastSeparator(a: string, b: string, u: string, v: string, sep: char)
    requires a + [sep] + u == b + [sep] + v
    requires sep !in u && sep !in v
    ensures a == b && u == v
  {
    var s := a + [sep] + u;
    assert s[|a|] == sep && s[|b|] == sep;
    assert s[..|a|] == a && s[..|b|] == b;
    assert s[|a| + 1..] == u && s[|b| + 1..] == v;
  }

  /** Distinct SR Policies never share an IPAM handle: a textual address has no dash. */
  lemma HandleInjective(a: string, c: nat, b: string, d: nat)
    requires '-' !in a && '-' !in b
    requires DynBsidHandle(a, c) == DynBsidHandle(b, d)
    ensures a == b && c == d
  {
    var p := "cvp-srv6-dyn-bsid-";
    forall x | x in Decimal(c) || x in Decimal(d) ensures x != '-' {
      DecimalHasDigitsOnly(if x in Decimal(c) then c else d, x);
    }
    LastSeparator(p + DashColons(a), p + DashColons(b), Decimal(c), Decimal(d), '-');
    assert (p + DashColons(a))[|p|..] == DashColons(a) && (p + DashColons(b))[|p|..] == DashColons(b);
    DashColonsInjective(a, b);
    DecimalInjective(c, d);
  }

  /** The map key is the pair <endpoint, color>. */
  lemma GroupKeyInjective(a: string, c: nat, b: string, d: nat)
    requires GroupKey(a, c) == GroupKey(b, d)
    ensures a == b && c == d
  {
    forall x | x in Decimal(c) || x in Decimal(d) ensures x != '|' {
      DecimalHasDigitsOnly(if x in Decimal(c) then c else d, x);
    }
    LastSeparator(a, b, Decimal(c), Decimal(d), '|');
    DecimalInjective(c, d);
  }
}
