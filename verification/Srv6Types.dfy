/**
  The values the SRv6 connectivity provider handles: addresses, segment lists,
  SR policies and the candidate paths BGP advertises for them.
 */
module Srv6Types {

  datatype Option<+T> = None | Some(value: T)

  /** An IPv6 address as a number. Only equality and the zero address matter here. */
  type IP6 = nat

  const ZERO_ADDRESS: IP6 := 0

  /** An unsigned 32-bit field of the wire format. */
  type Uint32 = x: nat | x < 0x1_0000_0000

  datatype Behavior = DT4 | DT6 | OtherBehavior

  /** A traffic destination; the address family decides the terminal behavior that serves it. */
  datatype Prefix = Prefix(address: IP6, length: nat, isIP6: bool)

  function PrefixBehavior(prefix: Prefix): Behavior {
    if prefix.isIP6 then DT6 else DT4
  }

  /** One steering entry (or route) is addressed by its FIB table and its prefix. */
  datatype SteerKey = SteerKey(table: nat, prefix: Prefix)

  datatype SidList = SidList(numSids: nat, weight: Uint32, sids: seq<IP6>)

  datatype SrPolicy = SrPolicy(bsid: IP6, isSpray: bool, isEncap: bool, fibTable: Uint32, sidLists: seq<SidList>)

  /** One candidate path of an SR Policy, as advertised over BGP. */
  datatype Tunnel = Tunnel(
    dst: string,
    bsid: Option<IP6>,
    policy: Option<SrPolicy>,
    behavior: Behavior,
    color: Uint32,
    distinguisher: Uint32,
    preference: Uint32,
    originatorAsn: Uint32,
    originatorNode: string,
    specifiedBsidOnly: bool,
    dropUponInvalid: bool,
    verifyMasks: seq<Uint32>)

  /** An SR Policy is identified by its endpoint and its color (section 2.1 of RFC 9256). */
  datatype PolicyKey = PolicyKey(endpoint: string, color: Uint32)

  /** The BSID of a candidate: the policy's own when it is set, else the advertised address. */
  function TunnelBsid(t: Tunnel): Option<IP6> {
    if t.policy.Some? && t.policy.value.bsid != ZERO_ADDRESS then Some(t.policy.value.bsid)
    else t.bsid
  }

  /** The BSID of a candidate: that of its policy, unless that is the zero address or there is
      no policy, and then the advertised one. */
  ghost predicate GoesBy(t: Tunnel, b: IP6) {
    || (t.policy.Some? && t.policy.value.bsid == b && b != 0)
    || ((t.policy.Some? ==> t.policy.value.bsid == 0) && t.bsid == Some(b))
  }

  lemma TunnelBsidIff(t: Tunnel, b: IP6)
    ensures TunnelBsid(t) == Some(b) <==> GoesBy(t, b)
  {
  }
}
