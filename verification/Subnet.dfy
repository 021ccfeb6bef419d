/** The IPv4 part of DHCP validation. Addresses are 32-bit numbers; reading their text is left to the caller. */
module Subnet {
  import opened Text
  import opened Configuration

  const BITS := 32

  function Pow2(n: nat): (r: nat)
    ensures r > 0
  {
    if n == 0 then 1 else 2 * Pow2(n - 1)
  }

  /** Bitwise and of the lowest n bits. */
  function And(x: nat, y: nat, n: nat): nat {
    if n == 0 then 0 else 2 * And(x / 2, y / 2, n - 1) + if x % 2 == 1 && y % 2 == 1 then 1 else 0
  }

  /** Logical shift to the right. */
  function Shift(x: nat, k: nat): nat {
    if k == 0 then x else Shift(x / 2, k - 1)
  }

  /** How many ones lead among n bits, if only zeros follow; None when the mask is not contiguous. */
  function MaskSize(mask: nat, n: nat): Option<nat> {
    if n == 0 then Some(0)
    else
      var upper := MaskSize(mask / 2, n - 1);
      if upper.None? then None
      else if mask % 2 == 0 then upper
      else if upper.value == n - 1 then Some(n)
      else None
  }

  /** A mask has size k exactly when it is the number with k leading ones. */
  lemma {:induction false} MaskSizeExact(mask: nat, n: nat, k: nat)
    requires mask < Pow2(n) && k <= n
    ensures MaskSize(mask, n) == Some(k) <==> mask == Pow2(n) - Pow2(n - k)
    ensures MaskSize(mask, n).Some? ==> MaskSize(mask, n).value <= n
  {
    if n > 0 {
      MaskSizeExact(mask / 2, n - 1, if k == n then n - 1 else k);
      if k < n {
        assert Pow2(n - k) == 2 * Pow2(n - 1 - k);
      }
    }
  }

  lemma {:induction false} MaskSizeBound(mask: nat, n: nat)
    ensures MaskSize(mask, n).Some? ==> MaskSize(mask, n).value <= n
  {
    if n > 0 {
      MaskSizeBound(mask / 2, n - 1);
    }
  }

  lemma {:induction false} AllOnes(x: nat, mask: nat, n: nat)
    requires x < Pow2(n) && MaskSize(mask, n) == Some(n)
    ensures And(x, mask, n) == x
  {
    if n > 0 {
      MaskSizeBound(mask / 2, n - 1);
      AllOnes(x / 2, mask / 2, n - 1);
    }
  }

  /** Comparing the leading bits by shifting is comparing under the mask. */
  lemma {:induction false} ShiftIsMask(x: nat, y: nat, mask: nat, n: nat)
    requires x < Pow2(n) && y < Pow2(n) && MaskSize(mask, n).Some? && MaskSize(mask, n).value <= n
    ensures var k := MaskSize(mask, n).value;
            And(x, mask, n) == And(y, mask, n) <==> Shift(x, n - k) == Shift(y, n - k)
  {
    if n > 0 {
      MaskSizeBound(mask / 2, n - 1);
      if mask % 2 == 0 {
        ShiftIsMask(x / 2, y / 2, mask / 2, n - 1);
      } else {
        AllOnes(x, mask, n);
        AllOnes(y, mask, n);
      }
    }
  }

  lemma {:induction false} ShiftMonotone(x: nat, y: nat, k: nat)
    requires x <= y
    ensures Shift(x, k) <= Shift(y, k)
  {
    if k > 0 {
      ShiftMonotone(x / 2, y / 2, k - 1);
    }
  }

  /** The prefix of the given length around an address contains another address. */
  predicate Contains(gateway: nat, ones: nat, address: nat)
    requires ones <= BITS
  {
    Shift(address, BITS - ones) == Shift(gateway, BITS - ones)
  }

  datatype Issue = InvalidValues | OutsideSubnet | EndBeforeStart

  /** Text to IPv4 address and to IPv4 mask; None for anything else. */
  datatype Reader = Reader(address: string -> Option<nat>, mask: string -> Option<nat>)

  ghost predicate Reads32(reader: Reader) {
    forall s: string ::
      (reader.address(s).Some? ==> reader.address(s).value < Pow2(BITS)) && (reader.mask(s).Some? ==> reader.mask(s).value < Pow2(BITS))
  }

  predicate Checked(config: DhcpConfig) {
    config.enabled || config.ipv4.gateway != "" || config.ipv4.subnetMask != "" || config.ipv4.rangeStart != ""
    || config.ipv4.rangeEnd != ""
  }

  method ValidateIpv4(config: DhcpConfig, reader: Reader) returns (issues: seq<Issue>)
    ensures issues == Ipv4Issues(config, reader)
  {
    issues := [];
    if Checked(config) {
      var gateway, start, end := reader.address(config.ipv4.gateway), reader.address(config.ipv4.rangeStart), reader.address(config.ipv4.rangeEnd);
      var mask := reader.mask(config.ipv4.subnetMask);
      var ones: Option<nat> := None;
      if mask.Some? {
        MaskSizeBound(mask.value, BITS);
        ones := MaskSize(mask.value, BITS);
      }
      if gateway.None? || start.None? || end.None? || ones.None? {
        issues := issues + [InvalidValues];
      } else {
        if !Contains(gateway.value, ones.value, start.value) || !Contains(gateway.value, ones.value, end.value) {
          issues := issues + [OutsideSubnet];
        }
        if end.value < start.value {
          issues := issues + [EndBeforeStart];
        }
      }
    }
  }

  /** Gateway, mask and range can be read, and the mask is contiguous. */
  predicate Readable(config: DhcpConfig, reader: Reader) {
    && reader.address(config.ipv4.gateway).Some? && reader.address(config.ipv4.rangeStart).Some?
    && reader.address(config.ipv4.rangeEnd).Some? && reader.mask(config.ipv4.subnetMask).Some?
    && MaskSize(reader.mask(config.ipv4.subnetMask).value, BITS).Some?
  }

  function Ipv4Issues(config: DhcpConfig, reader: Reader): seq<Issue> {
    if !Checked(config) then []
    else if !Readable(config, reader) then [InvalidValues]
    else
      var start, end := reader.address(config.ipv4.rangeStart).value, reader.address(config.ipv4.rangeEnd).value;
      (if InGatewayPrefix(config, reader, start) && InGatewayPrefix(config, reader, end) then [] else [OutsideSubnet])
      + (if end < start then [EndBeforeStart] else [])
  }

  predicate InGatewayPrefix(config: DhcpConfig, reader: Reader, address: nat)
    requires Readable(config, reader)
  {
    var mask := reader.mask(config.ipv4.subnetMask).value;
    MaskSizeBound(mask, BITS);
    Contains(reader.address(config.ipv4.gateway).value, MaskSize(mask, BITS).value, address)
  }

  /** The address agrees with the gateway on every bit of the mask. */
  ghost predicate InSubnet(config: DhcpConfig, reader: Reader, address: nat)
    requires Readable(config, reader)
  {
    var mask := reader.mask(config.ipv4.subnetMask).value;
    And(address, mask, BITS) == And(reader.address(config.ipv4.gateway).value, mask, BITS)
  }

  lemma PrefixIsSubnet(config: DhcpConfig, reader: Reader, address: nat)
    requires Reads32(reader) && Readable(config, reader) && address < Pow2(BITS)
    ensures InGatewayPrefix(config, reader, address) <==> InSubnet(config, reader, address)
  {
    var mask := reader.mask(config.ipv4.subnetMask).value;
    MaskSizeBound(mask, BITS);
    ShiftIsMask(address, reader.address(config.ipv4.gateway).value, mask, BITS);
  }

  lemma PrefixIsInterval(config: DhcpConfig, reader: Reader, a: nat, x: nat, b: nat)
    requires Readable(config, reader) && a <= x <= b
    requires InGatewayPrefix(config, reader, a) && InGatewayPrefix(config, reader, b)
    ensures InGatewayPrefix(config, reader, x)
  {
    var mask := reader.mask(config.ipv4.subnetMask).value;
    MaskSizeBound(mask, BITS);
    var k := BITS - MaskSize(mask, BITS).value;
    ShiftMonotone(a, x, k);
    ShiftMonotone(x, b, k);
  }

  /** Accepted exactly if DHCP is off and gateway, mask and range are all empty, or these can be read, the range is not
      empty, and every address from its start to its end lies in the gateway's subnet. */
  lemma AcceptedExactly(config: DhcpConfig, reader: Reader)
    requires Reads32(reader)
    ensures Ipv4Issues(config, reader) == [] <==>
            || (!config.enabled && config.ipv4.gateway == "" && config.ipv4.subnetMask == "" && config.ipv4.rangeStart == ""
                && config.ipv4.rangeEnd == "")
            || (&& Readable(config, reader)
                && var start, end := reader.address(config.ipv4.rangeStart).value, reader.address(config.ipv4.rangeEnd).value;
                   start <= end && forall x :: start <= x <= end ==> InSubnet(config, reader, x))
  {
    hide InSubnet, InGatewayPrefix, MaskSize;
    if Readable(config, reader) {
      var start, end := reader.address(config.ipv4.rangeStart).value, reader.address(config.ipv4.rangeEnd).value;
      PrefixIsSubnet(config, reader, start);
      PrefixIsSubnet(config, reader, end);
      if Ipv4Issues(config, reader) == [] && Checked(config) {
        forall x | start <= x <= end
          ensures InSubnet(config, reader, x)
        {
          PrefixIsInterval(config, reader, start, x, end);
          PrefixIsSubnet(config, reader, x);
        }
      }
    }
  }

  /** Which issue is reported: unreadable values alone, or a range that leaves the subnet and a range that runs
      backwards, each for itself. */
  lemma IssuesExact(config: DhcpConfig, reader: Reader)
    requires Reads32(reader)
    requires config.enabled || config.ipv4.gateway != "" || config.ipv4.subnetMask != "" || config.ipv4.rangeStart != ""
             || config.ipv4.rangeEnd != ""
    ensures InvalidValues in Ipv4Issues(config, reader) <==> !Readable(config, reader)
    ensures Readable(config, reader) ==>
              var start, end := reader.address(config.ipv4.rangeStart).value, reader.address(config.ipv4.rangeEnd).value;
              && (OutsideSubnet in Ipv4Issues(config, reader) <==> !InSubnet(config, reader, start) || !InSubnet(config, reader, end))
              && (EndBeforeStart in Ipv4Issues(config, reader) <==> end < start)
  {
    hide InSubnet, InGatewayPrefix, MaskSize;
    if Readable(config, reader) {
      PrefixIsSubnet(config, reader, reader.address(config.ipv4.rangeStart).value);
      PrefixIsSubnet(config, reader, reader.address(config.ipv4.rangeEnd).value);
    }
  }
}
