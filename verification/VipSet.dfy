/** pkg/nfqlb/set.go and setDestinationCIDRs of pkg/nfqlb/netfilter.go: the nftables sets of virtual IPs. */
module VipSet {
  import opened Prelude
  import opened Networking

  /** A network: an address of 4 or 16 bytes and a prefix mask of the same length. */
  datatype IPNet = IPNet(ip: Bytes, mask: Bytes)

  /** The text of a CIDR: a spelling of an address with a prefix length, or something that does not parse. */
  datatype Cidr = Cidr(ip: Bytes, ones: nat, spelling: nat) | NotCidr(text: string)

  function ApplyMask(ip: Bytes, mask: Bytes): Bytes
    requires |ip| == |mask|
  {
    seq(|ip|, i requires 0 <= i < |ip| => ip[i] & mask[i])
  }

  function ParseCIDR(c: Cidr): Option<IPNet> {
    if c.NotCidr? || (|c.ip| != 4 && |c.ip| != 16) || c.ones > 8 * |c.ip| then None
    else
      var mask := PrefixMask(|c.ip|, c.ones);
      Some(IPNet(ApplyMask(c.ip, mask), mask))
  }

  /** The 4-byte form of an IPv4 address, also when it is written as an IPv4-mapped 16-byte one. */
  function To4(ip: Bytes): Option<Bytes> {
    if |ip| == 4 then Some(ip)
    else if |ip| == 16 && (forall i :: 0 <= i < 10 ==> ip[i] == 0) && ip[10] == 0xFF && ip[11] == 0xFF then
      Some(ip[12..])
    else None
  }

  /** The form an address is printed in: IPv4-mapped addresses print as IPv4 ones. */
  function Printed(ip: Bytes): Bytes {
    if To4(ip).Some? then To4(ip).value else ip
  }

  /** Only host-length prefixes go into the sets. */
  predicate HostLength(net: IPNet) {
    forall i :: 0 <= i < |net.mask| ==> net.mask[i] == 0xFF
  }

  lemma {:induction false} FullPrefix(n: nat, ones: nat)
    requires ones <= 8 * n
    ensures Wraps(PrefixMask(n, ones)) <==> ones == 8 * n
  {
    if n > 0 {
      var rest := if ones < 8 then 0 else ones - 8;
      FullPrefix(n - 1, rest);
      ByteIsFull(if ones < 8 then ones else 8);
      WrapsCons(PrefixMask(n, ones)[0], PrefixMask(n - 1, rest));
      hide Wraps, MaskByte;
    }
  }

  lemma WrapsCons(x: bv8, s: Bytes)
    ensures Wraps([x] + s) <==> x == 0xFF && Wraps(s)
  {
    if Wraps([x] + s) {
      forall i | 0 <= i < |s| ensures s[i] == 0xFF {
        assert ([x] + s)[i + 1] == s[i];
      }
      assert ([x] + s)[0] == x;
    }
  }

  lemma ByteIsFull(ones: nat)
    requires ones <= 8
    ensures MaskByte(ones) == 0xFF <==> ones == 8
  {
  }

  lemma UnmaskedBytes(ip: Bytes, mask: Bytes)
    requires |ip| == |mask| && Wraps(mask)
    ensures ApplyMask(ip, mask) == ip
  {
    forall i | 0 <= i < |ip| ensures ip[i] & mask[i] == ip[i] {
      assert mask[i] == 0xFF;
    }
  }

  /** The address is written in 16 bytes, and is an IPv4 address. */
  predicate MappedPrefix(ip: Bytes) {
    |ip| == 16 && ip[..12] == [0, 0, 0, 0, 0, 0, 0, 0, 0, 0, 0xFF, 0xFF]
  }

  /** The text states this one host of the family: all bits of its length, in 4 bytes or in 16. */
  ghost predicate IsHost(c: Cidr, a: Bytes, v4: bool) {
    && c.Cidr?
    && ((|c.ip| == 4 && c.ones == 32 && v4 && a == c.ip)
        || (|c.ip| == 16 && c.ones == 128 && if MappedPrefix(c.ip) then v4 && a == c.ip[12..] else !v4 && a == c.ip))
  }

  lemma HostIs(c: Cidr, a: Bytes, v4: bool)
    ensures IsHost(c, a, v4) <==>
            && ParseCIDR(c).Some? && HostLength(ParseCIDR(c).value)
            && To4(ParseCIDR(c).value.ip).Some? == v4 && Printed(ParseCIDR(c).value.ip) == a
  {
    if ParseCIDR(c).Some? {
      FullPrefix(|c.ip|, c.ones);
      if c.ones == 8 * |c.ip| {
        UnmaskedBytes(c.ip, PrefixMask(|c.ip|, c.ones));
      }
      MappedIs(c.ip);
    }
    assert ParseCIDR(c).Some? ==> (HostLength(ParseCIDR(c).value) <==> Wraps(ParseCIDR(c).value.mask));
    hide PrefixMask, ApplyMask, MappedPrefix, Wraps, HostLength;
  }

  lemma MappedIs(ip: Bytes)
    ensures |ip| == 16 ==> (To4(ip).Some? <==> MappedPrefix(ip))
  {
    if |ip| == 16 && To4(ip).Some? {
      assert ip[..12] == [0, 0, 0, 0, 0, 0, 0, 0, 0, 0, 0xFF, 0xFF];
    }
    if MappedPrefix(ip) {
      assert forall i :: 0 <= i < 12 ==> ip[i] == ip[..12][i];
    }
  }

  /** The printed addresses of the host-length networks of one family among some CIDRs. */
  ghost function Hosts(cidrs: set<Cidr>, v4: bool): set<Bytes> {
    set c | c in cidrs && ParseCIDR(c).Some? && HostLength(ParseCIDR(c).value) &&
            To4(ParseCIDR(c).value.ip).Some? == v4 :: Printed(ParseCIDR(c).value.ip)
  }

  /** A list of networks of one family, none of them twice. */
  ghost predicate Family(nets: seq<IPNet>, v4: bool) {
    && (forall i :: 0 <= i < |nets| ==>
        HostLength(nets[i]) && To4(nets[i].ip).Some? == v4 && |nets[i].ip| == |nets[i].mask|)
    && (forall i, j :: 0 <= i < j < |nets| ==> Printed(nets[i].ip) != Printed(nets[j].ip))
  }

  ghost function PrintedAll(nets: seq<IPNet>): set<Bytes> {
    set net | net in nets :: Printed(net.ip)
  }

  /** getIPv4AndIPv6: keeps the host-length networks, drops repetitions, and separates the families. */
  method GetIPv4AndIPv6(cidrList: seq<Cidr>) returns (ipv4: seq<IPNet>, ipv6: seq<IPNet>)
    ensures Family(ipv4, true) && PrintedAll(ipv4) == Hosts(Elements(cidrList), true)
    ensures Family(ipv6, false) && PrintedAll(ipv6) == Hosts(Elements(cidrList), false)
    ensures Parsed(ipv4, Elements(cidrList))
  {
    ipv4, ipv6 := [], [];
    var usedCidrs: set<Bytes> := {};
    for i := 0 to |cidrList|
      invariant Split(ipv4, ipv6, usedCidrs, cidrList[..i])
    {
      hide *;
      var cidr := cidrList[i];
      assert cidrList[..i + 1] == cidrList[..i] + [cidr];
      var parsed := ParseCIDR(cidr);
      if parsed.None? || !HostLength(parsed.value) || Printed(parsed.value.ip) in usedCidrs {
        SplitSkip(ipv4, ipv6, usedCidrs, cidrList[..i], cidr);
        continue;
      }
      var net := parsed.value;
      SplitAdd(ipv4, ipv6, usedCidrs, cidrList[..i], cidr);
      usedCidrs := usedCidrs + {Printed(net.ip)};
      if To4(net.ip).None? {
        ipv6 := ipv6 + [net];
        continue;
      }
      ipv4 := ipv4 + [net];
    }
    assert cidrList[..|cidrList|] == cidrList;
  }

  /** The two lists after some of the CIDRs, with the printed networks seen so far. */
  ghost predicate Split(ipv4: seq<IPNet>, ipv6: seq<IPNet>, used: set<Bytes>, cidrs: seq<Cidr>) {
    && Family(ipv4, true) && PrintedAll(ipv4) == Hosts(Elements(cidrs), true)
    && Family(ipv6, false) && PrintedAll(ipv6) == Hosts(Elements(cidrs), false)
    && used == PrintedAll(ipv4) + PrintedAll(ipv6) && Parsed(ipv4, Elements(cidrs))
  }

  /** Every network was parsed from one of the CIDRs. */
  ghost predicate Parsed(nets: seq<IPNet>, cidrs: set<Cidr>) {
    forall net :: net in nets ==> ParsedFrom(net, cidrs)
  }

  ghost predicate ParsedFrom(net: IPNet, cidrs: set<Cidr>) {
    exists c :: c in cidrs && ParseCIDR(c) == Some(net)
  }

  lemma ParsedSnoc(nets: seq<IPNet>, cidrs: seq<Cidr>, c: Cidr)
    requires Parsed(nets, Elements(cidrs))
    ensures Parsed(nets, Elements(cidrs + [c]))
    ensures ParseCIDR(c).Some? ==> Parsed(nets + [ParseCIDR(c).value], Elements(cidrs + [c]))
  {
    hide ParseCIDR;
    ElementsSnoc(cidrs, c);
    forall net | ParsedFrom(net, Elements(cidrs)) ensures ParsedFrom(net, Elements(cidrs + [c])) {
      var d :| d in Elements(cidrs) && ParseCIDR(d) == Some(net);
      assert d in Elements(cidrs + [c]);
    }
    if ParseCIDR(c).Some? {
      assert c in Elements(cidrs + [c]);
      assert ParsedFrom(ParseCIDR(c).value, Elements(cidrs + [c]));
      assert forall net :: net in nets + [ParseCIDR(c).value] <==> net in nets || net == ParseCIDR(c).value;
    }
  }

  lemma SplitSkip(ipv4: seq<IPNet>, ipv6: seq<IPNet>, used: set<Bytes>, cidrs: seq<Cidr>, c: Cidr)
    requires Split(ipv4, ipv6, used, cidrs)
    requires ParseCIDR(c).None? || !HostLength(ParseCIDR(c).value) || Printed(ParseCIDR(c).value.ip) in used
    ensures Split(ipv4, ipv6, used, cidrs + [c])
  {
    HostsSnoc(cidrs, c, true);
    HostsSnoc(cidrs, c, false);
    ParsedSnoc(ipv4, cidrs, c);
    if ParseCIDR(c).Some? {
      SameFamily(ipv4, ipv6, ParseCIDR(c).value);
    }
    hide ParseCIDR, To4, Printed, HostLength, Hosts, PrintedAll, Family, Parsed;
  }

  lemma SplitAdd(ipv4: seq<IPNet>, ipv6: seq<IPNet>, used: set<Bytes>, cidrs: seq<Cidr>, c: Cidr)
    requires Split(ipv4, ipv6, used, cidrs)
    requires ParseCIDR(c).Some? && HostLength(ParseCIDR(c).value) && Printed(ParseCIDR(c).value.ip) !in used
    ensures var net := ParseCIDR(c).value;
            if To4(net.ip).Some? then Split(ipv4 + [net], ipv6, used + {Printed(net.ip)}, cidrs + [c])
            else Split(ipv4, ipv6 + [net], used + {Printed(net.ip)}, cidrs + [c])
  {
    hide ParseCIDR, To4, Printed, HostLength, Hosts, HostsOf, PrintedAll, Family, Parsed;
    ParsedSnoc(ipv4, cidrs, c);
    var net := ParseCIDR(c).value;
    ParsedLengths(c);
    HostsSnoc(cidrs, c, true);
    HostsSnoc(cidrs, c, false);
    PrintedSnoc(ipv4, net);
    PrintedSnoc(ipv6, net);
    if To4(net.ip).Some? {
      FamilySnoc(ipv4, net, true);
    } else {
      FamilySnoc(ipv6, net, false);
    }
    HostsOfNet(c, net);
  }

  lemma ParsedLengths(c: Cidr)
    requires ParseCIDR(c).Some?
    ensures |ParseCIDR(c).value.ip| == |ParseCIDR(c).value.mask|
  {
  }

  lemma HostsOfNet(c: Cidr, net: IPNet)
    requires ParseCIDR(c) == Some(net) && HostLength(net)
    ensures HostsOf(c, To4(net.ip).Some?) == {Printed(net.ip)}
    ensures HostsOf(c, To4(net.ip).None?) == {}
  {
    hide ParseCIDR, To4, Printed, HostLength;
  }

  lemma FamilySnoc(nets: seq<IPNet>, net: IPNet, v4: bool)
    requires Family(nets, v4) && HostLength(net) && To4(net.ip).Some? == v4 && |net.ip| == |net.mask|
    requires Printed(net.ip) !in PrintedAll(nets)
    ensures Family(nets + [net], v4)
  {
    PrintedSnoc(nets, net);
    hide To4, Printed, HostLength, PrintedAll;
  }

  ghost function HostsOf(c: Cidr, v4: bool): set<Bytes> {
    if ParseCIDR(c).Some? && HostLength(ParseCIDR(c).value) && To4(ParseCIDR(c).value.ip).Some? == v4
    then {Printed(ParseCIDR(c).value.ip)} else {}
  }

  lemma HostsSnoc(cidrs: seq<Cidr>, c: Cidr, v4: bool)
    ensures Hosts(Elements(cidrs + [c]), v4) == Hosts(Elements(cidrs), v4) + HostsOf(c, v4)
  {
    hide ParseCIDR, To4, HostLength, Printed;
    ElementsSnoc(cidrs, c);
  }

  lemma PrintedSnoc(nets: seq<IPNet>, net: IPNet)
    ensures PrintedAll(nets + [net]) == PrintedAll(nets) + {Printed(net.ip)}
    ensures forall i :: 0 <= i < |nets| ==> Printed(nets[i].ip) in PrintedAll(nets)
  {
    hide To4, Printed;
    assert forall x :: x in nets + [net] <==> x in nets || x == net;
    assert net in nets + [net];
    forall i | 0 <= i < |nets| ensures Printed(nets[i].ip) in PrintedAll(nets) {
      assert nets[i] in nets;
    }
  }

  /** The printed form tells the family: 4 bytes for IPv4, never an IPv4-mapped form for IPv6. */
  lemma SameFamily(ipv4: seq<IPNet>, ipv6: seq<IPNet>, net: IPNet)
    requires Family(ipv4, true) && Family(ipv6, false)
    ensures Printed(net.ip) in PrintedAll(ipv4) ==> To4(net.ip).Some?
    ensures Printed(net.ip) in PrintedAll(ipv6) ==> To4(net.ip).None?
  {
    if Printed(net.ip) in PrintedAll(ipv4) {
      var k :| 0 <= k < |ipv4| && Printed(ipv4[k].ip) == Printed(net.ip);
    }
    if Printed(net.ip) in PrintedAll(ipv6) {
      var k :| 0 <= k < |ipv6| && Printed(ipv6[k].ip) == Printed(net.ip);
    }
  }

  // ---------------------------------------------------------------------------------------------
  // Set elements.

  datatype SetElement = SetElement(key: Bytes, intervalEnd: bool)

  /** A pair of elements: a start and an exclusive end. */
  datatype Interval = Interval(start: Bytes, end: Bytes)

  /** The element of a host address. */
  function HostInterval(ip: Bytes): Interval {
    Interval(ip, NextBytes(ip))
  }

  predicate Wraps(ip: Bytes) {
    forall i :: 0 <= i < |ip| ==> ip[i] == 0xFF
  }

  const LAST4: Bytes := [0xFF, 0xFF, 0xFF, 0xFF]

  /** The last IPv4 address, written as an IPv4-mapped one. */
  const MAPPED_LAST: Bytes := [0, 0, 0, 0, 0, 0, 0, 0, 0, 0, 0xFF, 0xFF, 0xFF, 0xFF, 0xFF, 0xFF]

  /** The element of a host address is that of its printed form, except for one spelling of one address: the successor
      of the mapped last IPv4 address is no IPv4 address, and both ends keep their 16 bytes. */
  function ElementOf(ip: Bytes): Interval {
    if ip == MAPPED_LAST then HostInterval(ip) else HostInterval(Printed(ip))
  }

  /** ipNetToSetElement. */
  method IpNetToSetElement(net: IPNet) returns (element: Interval)
    requires HostLength(net) && |net.ip| == |net.mask|
    ensures element == ElementOf(net.ip)
  {
    var start := new bv8[|net.ip|](i requires 0 <= i < |net.ip| => net.ip[i]);
    var mask := new bv8[|net.mask|](i requires 0 <= i < |net.mask| => net.mask[i]);
    assert start[..] == net.ip && mask[..] == net.mask;
    var broadcast := BroadcastFromIPNet(start, mask);
    HostBroadcast(net);
    assert broadcast[..] == net.ip;
    var end := NextIP(broadcast);
    assert end[..] == NextBytes(net.ip);
    var startV4, endV4 := To4(start[..]), To4(end[..]);
    PrintedEnds(net.ip);
    if startV4.Some? && endV4.Some? {
      element := Interval(startV4.value, endV4.value);
    } else {
      element := Interval(start[..], end[..]);
    }
  }

  /** When both ends of the element of a host are taken in their 4-byte form, and what they are then. */
  lemma PrintedEnds(ip: Bytes)
    ensures To4(ip).Some? && To4(NextBytes(ip)).Some? <==> To4(ip).Some? && ip != MAPPED_LAST
    ensures To4(ip).Some? && ip != MAPPED_LAST ==> To4(NextBytes(ip)).value == NextBytes(To4(ip).value)
  {
    if ip == MAPPED_LAST {
      NextMappedLast();
    } else if To4(ip).Some? && |ip| == 16 {
      if Wraps(To4(ip).value) {
        MappedWraps(ip);
      }
      NextPrinted(ip);
    }
  }

  lemma MappedWraps(ip: Bytes)
    requires |ip| == 16 && To4(ip).Some? && Wraps(To4(ip).value)
    ensures ip == MAPPED_LAST
  {
    forall i | 12 <= i < 16 ensures ip[i] == 0xFF {
      assert ip[i] == To4(ip).value[i - 12];
    }
  }

  lemma NextMappedLast()
    ensures NextBytes(MAPPED_LAST)[9] == 1
  {
    var t := [0, 0, 0, 0, 0, 0, 0, 0, 0, 0];
    SuccessorCarry(t);
    SuccessorCarry(t + [0xFF]);
    SuccessorCarry(t + [0xFF] + [0xFF]);
    SuccessorCarry(t + [0xFF] + [0xFF] + [0xFF]);
    SuccessorCarry(t + [0xFF] + [0xFF] + [0xFF] + [0xFF]);
    SuccessorCarry(t + [0xFF] + [0xFF] + [0xFF] + [0xFF] + [0xFF]);
    assert MAPPED_LAST == t + [0xFF] + [0xFF] + [0xFF] + [0xFF] + [0xFF] + [0xFF];
    assert NextBytes(t) == t[..9] + [1];
  }

  lemma SuccessorCarry(s: Bytes)
    ensures NextBytes(s + [0xFF]) == NextBytes(s) + [0]
  {
    assert (s + [0xFF])[..|s|] == s;
  }

  lemma HostBroadcast(net: IPNet)
    requires HostLength(net) && |net.ip| == |net.mask|
    ensures Broadcast(net.ip, net.mask) == net.ip
  {
    forall i | 0 <= i < |net.ip| ensures HostFilled(net.ip[i], net.mask[i]) == net.ip[i] {
      assert net.mask[i] == 0xFF;
      FullMask(net.ip[i]);
    }
  }

  lemma FullMask(x: bv8)
    ensures HostFilled(x, 0xFF) == x
  {
  }

  /** A 16-byte IPv4-mapped address is followed by the mapped form of the next IPv4 address, unless that wraps. */
  lemma NextPrinted(ip: Bytes)
    requires To4(ip).Some? && !Wraps(To4(ip).value)
    ensures To4(NextBytes(ip)) == Some(NextBytes(To4(ip).value))
  {
    if |ip| == 16 {
      NextSuffix(ip, 12);
      var next := NextBytes(ip);
      assert next == ip[..12] + NextBytes(ip[12..]);
      assert next[12..] == NextBytes(ip[12..]);
    }
  }

  lemma {:induction false} NextSuffix(s: Bytes, k: nat)
    requires k <= |s| && !Wraps(s[k..])
    ensures NextBytes(s) == s[..k] + NextBytes(s[k..])
  {
    var tail := s[k..];
    assert tail != [];
    var init := s[..|s| - 1];
    assert tail[|tail| - 1] == s[|s| - 1] && tail[..|tail| - 1] == init[k..];
    if s[|s| - 1] == 0xFF {
      assert !Wraps(init[k..]) by {
        var i :| 0 <= i < |tail| && tail[i] != 0xFF;
        assert init[k..][i] != 0xFF;
      }
      NextSuffix(init, k);
      assert init[..k] == s[..k];
    } else {
      assert s[..k] + tail[..|tail| - 1] == init;
    }
  }

  ghost function ElementsOf(nets: seq<IPNet>): set<Interval> {
    set net | net in nets :: ElementOf(net.ip)
  }

  /** ipNetsToSetElements. */
  method IpNetsToSetElements(nets: seq<IPNet>) returns (elements: seq<Interval>)
    requires forall i :: 0 <= i < |nets| ==> HostLength(nets[i]) && |nets[i].ip| == |nets[i].mask|
    ensures Elements(elements) == ElementsOf(nets)
  {
    elements := [];
    for i := 0 to |nets|
      invariant Elements(elements) == ElementsOf(nets[..i])
    {
      var element := IpNetToSetElement(nets[i]);
      ElementsOfSnoc(nets, i);
      ElementsSnoc(elements, element);
      elements := elements + [element];
    }
    assert nets[..|nets|] == nets;
  }

  lemma ElementsOfSnoc(nets: seq<IPNet>, i: nat)
    requires i < |nets|
    ensures ElementsOf(nets[..i + 1]) == ElementsOf(nets[..i]) + {ElementOf(nets[i].ip)}
  {
    hide ElementOf;
    assert nets[..i + 1] == nets[..i] + [nets[i]];
    assert forall net :: net in nets[..i + 1] <==> net in nets[..i] || net == nets[i];
  }

  function HostIntervals(hosts: set<Bytes>): set<Interval> {
    set h | h in hosts :: HostInterval(h)
  }

  /** A set holds the intervals of some addresses; the one of the last IPv4 address may be the 16-byte one instead. */
  ghost predicate HoldsHosts(elements: set<Interval>, hosts: set<Bytes>, mappedLast: bool) {
    || elements == HostIntervals(hosts)
    || (mappedLast && elements == HostIntervals(hosts - {LAST4}) + {HostInterval(MAPPED_LAST)})
  }

  /** The mapped last IPv4 address is among the host-length destinations. */
  ghost predicate MappedLast(cidrs: set<Cidr>) {
    exists c :: c in cidrs && ParseCIDR(c).Some? && HostLength(ParseCIDR(c).value)
        && ParseCIDR(c).value.ip == MAPPED_LAST
  }

  /** Each set holds the intervals of the host-length destinations of its family. */
  ghost predicate VipsOf(cidrs: set<Cidr>, v4: set<Interval>, v6: set<Interval>) {
    && HoldsHosts(v4, Hosts(cidrs, true), MappedLast(cidrs))
    && v6 == HostIntervals(Hosts(cidrs, false))
  }

  lemma MemberElement(nets: seq<IPNet>, net: IPNet)
    requires net in nets
    ensures ElementOf(net.ip) in ElementsOf(nets) && Printed(net.ip) in PrintedAll(nets)
  {
  }

  /** Without the mapped last address the elements of a list of networks are the intervals of their printed forms. */
  lemma PlainElements(nets: seq<IPNet>)
    requires forall net :: net in nets ==> net.ip != MAPPED_LAST
    ensures ElementsOf(nets) == HostIntervals(PrintedAll(nets))
  {
    hide Printed, HostInterval;
    forall x ensures x in ElementsOf(nets) <==> x in HostIntervals(PrintedAll(nets)) {
      if x in ElementsOf(nets) {
        var net :| net in nets && ElementOf(net.ip) == x;
        MemberElement(nets, net);
      }
      if x in HostIntervals(PrintedAll(nets)) {
        var h :| h in PrintedAll(nets) && HostInterval(h) == x;
        var net :| net in nets && Printed(net.ip) == h;
        MemberElement(nets, net);
      }
    }
  }

  lemma ElementsHoldHosts(nets: seq<IPNet>, v4: bool, cidrs: set<Cidr>)
    requires Family(nets, v4) && PrintedAll(nets) == Hosts(cidrs, v4) && (v4 ==> Parsed(nets, cidrs))
    ensures HoldsHosts(ElementsOf(nets), Hosts(cidrs, v4), v4 && MappedLast(cidrs))
  {
    if i :| 0 <= i < |nets| && nets[i].ip == MAPPED_LAST {
      assert To4(MAPPED_LAST) == Some(LAST4);
      MappedElements(nets, i);
      assert nets[i] in nets && ParsedFrom(nets[i], cidrs);
    } else {
      PlainElements(nets);
    }
  }

  /** With it, the interval of the last address is the 16-byte one; no other network has its printed form. */
  lemma MappedElements(nets: seq<IPNet>, i: nat)
    requires Family(nets, true) && i < |nets| && nets[i].ip == MAPPED_LAST
    ensures ElementsOf(nets) == HostIntervals(PrintedAll(nets) - {LAST4}) + {HostInterval(MAPPED_LAST)}
  {
    var rest := nets[..i] + nets[i + 1..];
    assert nets == nets[..i] + [nets[i]] + nets[i + 1..];
    assert forall net :: net in nets <==> net in rest || net == nets[i];
    assert Printed(MAPPED_LAST) == LAST4;
    forall net | net in rest ensures Printed(net.ip) != LAST4 && net.ip != MAPPED_LAST {
      var k :| 0 <= k < |rest| && rest[k] == net;
      assert rest[k] == nets[if k < i then k else k + 1];
    }
    PlainElements(rest);
    hide Printed, HostInterval, ElementOf, Family, HostIntervals;
    assert ElementsOf(nets) == ElementsOf(rest) + {ElementOf(MAPPED_LAST)} by {
      assert nets[i] in nets;
    }
    assert PrintedAll(nets) - {LAST4} == PrintedAll(rest);
  }

  // ---------------------------------------------------------------------------------------------
  // The kernel set.

  /** How the kernel lists intervals: the end of each before its start. */
  function DumpOf(listing: seq<Interval>): seq<SetElement> {
    if listing == [] then []
    else
      var last := listing[|listing| - 1];
      DumpOf(listing[..|listing| - 1]) + [SetElement(last.end, true), SetElement(last.start, false)]
  }

  /** An interval set of the kernel; a command either succeeds or changes nothing. */
  class NftSet {
    var elements: set<Interval>

    constructor ()
      ensures elements == {}
    {
      elements := {};
    }

    method GetSetElements() returns (ok: bool, dump: seq<SetElement>, ghost listing: seq<Interval>)
      ensures NoDup(listing) && Elements(listing) == elements && dump == DumpOf(listing)
    {
      ok := *;
      dump, listing := [], [];
      var todo := elements;
      while todo != {}
        invariant todo <= elements && NoDup(listing) && Elements(listing) == elements - todo
        invariant dump == DumpOf(listing)
        decreases todo
      {
        var x :| x in todo;
        OneDone(elements, todo, x);
        todo := todo - {x};
        assert x !in Elements(listing);
        ElementsSnoc(listing, x);
        assert (listing + [x])[..|listing|] == listing;
        dump := dump + [SetElement(x.end, true), SetElement(x.start, false)];
        listing := listing + [x];
      }
    }

    method Flush(deletions: seq<Interval>, additions: seq<Interval>) returns (ok: bool)
      modifies this`elements
      ensures elements == if ok then old(elements) - Elements(deletions) + Elements(additions) else old(elements)
    {
      ok := *;
      if ok {
        elements := elements - Elements(deletions) + Elements(additions);
      }
    }
  }

  /** The pairing state after some of a dump: the intervals found and a pending end. */
  function PairUp(dump: seq<SetElement>): (seq<Interval>, Option<SetElement>) {
    if dump == [] then ([], None)
    else
      var (found, previous) := PairUp(dump[..|dump| - 1]);
      var last := dump[|dump| - 1];
      if last.intervalEnd then (found, Some(last))
      else (if previous.Some? then found + [Interval(last.key, previous.value.key)] else found, None)
  }

  /** getCurrentElements. */
  method GetCurrentElements(nftSet: NftSet) returns (ok: bool, current: seq<Interval>)
    ensures NoDup(current) && Elements(current) == nftSet.elements
  {
    var dump;
    ghost var listing;
    ok, dump, listing := nftSet.GetSetElements();
    current := [];
    var previous: Option<SetElement> := None;
    for i := 0 to |dump|
      invariant (current, previous) == PairUp(dump[..i])
    {
      assert dump[..i + 1][..i] == dump[..i];
      if dump[i].intervalEnd {
        previous := Some(dump[i]);
      } else {
        if previous.Some? && previous.value.intervalEnd {
          current := current + [Interval(dump[i].key, previous.value.key)];
        }
        previous := None;
      }
    }
    assert dump[..|dump|] == dump;
    PairUpDump(listing);
  }

  /** Pairing up a dump gives back the intervals it lists, in order. */
  lemma {:induction false} PairUpDump(listing: seq<Interval>)
    ensures PairUp(DumpOf(listing)) == (listing, None)
  {
    if listing != [] {
      var init, last := listing[..|listing| - 1], listing[|listing| - 1];
      PairUpDump(init);
      var dump := DumpOf(listing);
      assert dump[..|dump| - 1] == DumpOf(init) + [SetElement(last.end, true)];
      assert dump[..|dump| - 1][..|dump| - 2] == DumpOf(init);
      assert init + [last] == listing;
    }
  }

  /** updateSet: deletes what is no longer wanted, adds what is missing, and leaves the rest alone. */
  method UpdateSet(nftSet: NftSet, current: seq<Interval>, wanted: seq<Interval>) returns (err: bool)
    requires NoDup(current)
    modifies nftSet`elements
    ensures !err ==>
              nftSet.elements ==
              (old(nftSet.elements) - (Elements(current) - Elements(wanted))) + (Elements(wanted) - Elements(current))
  {
    var err1, deletions, missing := QueueDeletions(current, wanted);
    var err2, additions := QueueAdditions(missing);
    var ok := nftSet.Flush(deletions, additions);
    err := err1 || err2 || !ok;
  }

  /** The first loop: queue the deletion of what is no longer wanted and find what is missing. Queueing a change
      may fail; the others are still queued. */
  method QueueDeletions(current: seq<Interval>, wanted: seq<Interval>)
      returns (err: bool, deletions: seq<Interval>, missing: set<Interval>)
    requires NoDup(current)
    ensures missing == Elements(wanted) - Elements(current)
    ensures Elements(deletions) <= Elements(current) - Elements(wanted)
    ensures !err ==> Elements(deletions) == Elements(current) - Elements(wanted)
  {
    err, deletions := false, [];
    missing := Elements(wanted);
    for i := 0 to |current|
      invariant missing == Elements(wanted) - Elements(current[..i])
      invariant Elements(deletions) <= Elements(current[..i]) - Elements(wanted)
      invariant !err ==> Elements(deletions) == Elements(current[..i]) - Elements(wanted)
    {
      ElementsSnoc(current[..i], current[i]);
      assert current[..i + 1] == current[..i] + [current[i]];
      assert current[i] !in Elements(current[..i]);
      if current[i] in missing {
        missing := missing - {current[i]};
        continue;
      }
      var ok: bool := *;
      if ok {
        ElementsSnoc(deletions, current[i]);
        deletions := deletions + [current[i]];
      } else {
        err := true;
      }
    }
    assert current[..|current|] == current;
  }

  /** The second loop: queue what is missing, in an arbitrary order. */
  method QueueAdditions(missing: set<Interval>) returns (err: bool, additions: seq<Interval>)
    ensures Elements(additions) <= missing
    ensures !err ==> Elements(additions) == missing
  {
    err, additions := false, [];
    var todo := missing;
    ghost var queued: set<Interval> := {};
    while todo != {}
      invariant todo <= missing && Elements(additions) == queued
      invariant queued <= missing - todo && (!err ==> queued == missing - todo)
      decreases todo
    {
      var x :| x in todo;
      var ok: bool := *;
      if ok {
        ElementsSnoc(additions, x);
        additions := additions + [x];
        queued := queued + {x};
      } else {
        err := true;
      }
      todo := todo - {x};
    }
  }

  lemma ElementsSnoc<T>(s: seq<T>, x: T)
    ensures Elements(s + [x]) == Elements(s) + {x}
  {
    assert forall y :: y in s + [x] <==> y in s || y == x;
  }

  /** The two sets of the queue. */
  class NfQueue {
    const ipv4DestinationSet: NftSet
    const ipv6DestinationSet: NftSet

    constructor ()
      ensures fresh(ipv4DestinationSet) && fresh(ipv6DestinationSet) && ipv4DestinationSet != ipv6DestinationSet
      ensures ipv4DestinationSet.elements == {} && ipv6DestinationSet.elements == {}
    {
      var v4 := new NftSet();
      var v6 := new NftSet();
      ipv4DestinationSet, ipv6DestinationSet := v4, v6;
    }

    /** setDestinationCIDRs. */
    method SetDestinationCIDRs(cidrList: seq<Cidr>) returns (err: bool)
      requires ipv4DestinationSet != ipv6DestinationSet
      modifies ipv4DestinationSet`elements, ipv6DestinationSet`elements
      ensures !err ==> VipsOf(Elements(cidrList), ipv4DestinationSet.elements, ipv6DestinationSet.elements)
    {
      hide Hosts, PrintedAll, HostLength, To4, Printed, ElementsOf, HoldsHosts, MappedLast;
      var ipv4s, ipv6s := GetIPv4AndIPv6(cidrList);
      FamilyFacts(ipv4s, true, Elements(cidrList));
      FamilyFacts(ipv6s, false, Elements(cidrList));
      var ipv4Elements := IpNetsToSetElements(ipv4s);
      var ipv6Elements := IpNetsToSetElements(ipv6s);
      var ok, current4 := GetCurrentElements(ipv4DestinationSet);
      if !ok {
        return true;
      }
      var current6;
      ok, current6 := GetCurrentElements(ipv6DestinationSet);
      if !ok {
        return true;
      }
      err := UpdateSet(ipv4DestinationSet, current4, ipv4Elements);
      if err {
        return;
      }
      assert ipv4DestinationSet.elements == Elements(ipv4Elements);
      err := UpdateSet(ipv6DestinationSet, current6, ipv6Elements);
      assert !err ==> ipv6DestinationSet.elements == Elements(ipv6Elements);
    }
  }

  lemma FamilyFacts(nets: seq<IPNet>, v4: bool, cidrs: set<Cidr>)
    requires Family(nets, v4) && PrintedAll(nets) == Hosts(cidrs, v4) && (v4 ==> Parsed(nets, cidrs))
    ensures forall i :: 0 <= i < |nets| ==> HostLength(nets[i]) && |nets[i].ip| == |nets[i].mask|
    ensures HoldsHosts(ElementsOf(nets), Hosts(cidrs, v4), v4 && MappedLast(cidrs))
    ensures !v4 ==> ElementsOf(nets) == HostIntervals(Hosts(cidrs, v4))
  {
    ElementsHoldHosts(nets, v4, cidrs);
  }

  // ---------------------------------------------------------------------------------------------
  // What the sets match.

  /** An address is in one of the intervals with keys of its length. */
  ghost predicate Matched(elements: set<Interval>, a: Bytes) {
    exists e :: e in elements && |e.start| == |a| && InInterval(e.start, e.end, a)
  }

  /** The interval of a host address matches it and nothing else, or nothing at all when it is the last address. */
  lemma HostMatched(h: Bytes, a: Bytes)
    requires |h| == |a|
    ensures InInterval(h, NextBytes(h), a) <==> h == a && !Wraps(a)
  {
    NotLast(h);
    ValueBound(h);
    NextValue(h);
    if Value(h) == Value(a) {
      ValueInjective(h, a);
    }
    if !Wraps(h) {
      NextUnlessWraps(h);
    } else {
      LastWraps(h);
    }
  }

  lemma LastWraps(h: Bytes)
    requires Wraps(h)
    ensures Value(NextBytes(h)) == 0
  {
    NotLast(h);
    NextValue(h);
  }

  /** The intervals of host addresses match exactly these addresses of that length, except for the last one. */
  lemma HostsMatched(hosts: set<Bytes>, a: Bytes)
    ensures Matched(HostIntervals(hosts), a) <==> a in hosts && !Wraps(a)
  {
    hide InInterval, NextBytes, Wraps;
    if Matched(HostIntervals(hosts), a) {
      var e :| e in HostIntervals(hosts) && |e.start| == |a| && InInterval(e.start, e.end, a);
      var h :| h in hosts && HostInterval(h) == e;
      HostMatched(h, a);
    }
    if a in hosts && !Wraps(a) {
      HostMatched(a, a);
      assert HostInterval(a) in HostIntervals(hosts);
    }
  }

  /** Whichever interval stands for the last IPv4 address, the sets match exactly the host-length destinations of
      their family, except for the last address. */
  lemma VipsMatched(cidrs: set<Cidr>, v4: set<Interval>, v6: set<Interval>, a: Bytes)
    requires VipsOf(cidrs, v4, v6)
    ensures |a| == 4 ==> (Matched(v4, a) <==> a in Hosts(cidrs, true) && !Wraps(a))
    ensures Matched(v6, a) <==> a in Hosts(cidrs, false) && !Wraps(a)
  {
    hide Hosts, HostIntervals, InInterval;
    HostsMatched(Hosts(cidrs, false), a);
    HostsMatched(Hosts(cidrs, true), a);
    HostsMatched(Hosts(cidrs, true) - {LAST4}, a);
    if |a| == 4 && v4 != HostIntervals(Hosts(cidrs, true)) {
      MatchedMore(HostIntervals(Hosts(cidrs, true) - {LAST4}), HostInterval(MAPPED_LAST), a);
      assert Wraps(LAST4);
    }
  }

  lemma MatchedMore(elements: set<Interval>, e: Interval, a: Bytes)
    requires |e.start| != |a|
    ensures Matched(elements + {e}, a) <==> Matched(elements, a)
  {
    if Matched(elements, a) {
      var x :| x in elements && |x.start| == |a| && InInterval(x.start, x.end, a);
      assert x in elements + {e};
    }
  }

  lemma {:induction false} NotLast(s: Bytes)
    ensures Value(s) + 1 == Pow256(|s|) <==> Wraps(s)
  {
    if s != [] {
      NotLast(s[..|s| - 1]);
      ValueBound(s[..|s| - 1]);
      ByteRange(s[|s| - 1]);
      assert Wraps(s) <==> Wraps(s[..|s| - 1]) && s[|s| - 1] == 0xFF;
      assert s[|s| - 1] as int == 255 <==> s[|s| - 1] == 0xFF;
    }
  }
}
