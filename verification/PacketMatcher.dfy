/** Rules that recognise IPv6 packets, learnt from packets going either way, and ordered sets of
    such rules. Header offsets are those of section 3 of RFC 8200.

    A packet is given by the octets of the buffer that holds it; the program reads the first 44
    of them. Ports are compared as they lie in memory.
 */
module PacketMatcher {
  import opened Spinel
  import opened IPv6

  const TYPE_ALL: Byte := 0xFF
  const TYPE_NONE: Byte := 0xFE
  const TYPE_UDP: Byte := 17
  const TYPE_TCP: Byte := 6
  const TYPE_ICMP: Byte := 58
  const SUBTYPE_ALL: Byte := 0xFF

  type Packet = p: seq<Byte> | |p| >= 44 witness seq(44, _ => 0)

  predicate IsIPv6(p: Packet) {
    p[0] / 0x10 == 6
  }

  function TypeOf(p: Packet): Byte { p[6] }
  function SubtypeOf(p: Packet): Byte { p[40] }
  function SourcePort(p: Packet): U16 { (p[40] as int) + 0x100 * (p[41] as int) }
  function DestPort(p: Packet): U16 { (p[42] as int) + 0x100 * (p[43] as int) }
  function Source(p: Packet): Address { p[8..24] }
  function Dest(p: Packet): Address { p[24..40] }

  // A packet laid out as an IPv6 header, two ports as they lie in memory, and anything.
  function Layout(version: Byte, flow: seq<Byte>, length: seq<Byte>, next: Byte, hops: Byte, source: Address,
                  dest: Address, sourcePort: U16, destPort: U16, rest: seq<Byte>): Packet
    requires version < 0x10 && |flow| == 3 && |length| == 2
  {
    [version * 0x10] + flow + length + [next, hops] + source + dest +
    PackUint(sourcePort, 2) + PackUint(destPort, 2) + rest
  }

  lemma PackedPort(port: U16)
    ensures PackUint(port, 2) == [port % 0x100, port / 0x100]
  {
    assert PackUint(port, 2) == [port % 0x100] + PackUint(port / 0x100, 1);
    assert PackUint(port / 0x100, 1) == [port / 0x100 % 0x100] + [];
  }

  // The fields are read where the header has them.
  lemma FieldsOfLayout(version: Byte, flow: seq<Byte>, length: seq<Byte>, next: Byte, hops: Byte, source: Address,
                       dest: Address, sourcePort: U16, destPort: U16, rest: seq<Byte>)
    requires version < 0x10 && |flow| == 3 && |length| == 2
    ensures var p := Layout(version, flow, length, next, hops, source, dest, sourcePort, destPort, rest);
      && p[0] == 16 * version && (IsIPv6(p) <==> version == 6) && TypeOf(p) == next
      && Source(p) == source && Dest(p) == dest
      && SourcePort(p) == sourcePort && DestPort(p) == destPort && SubtypeOf(p) == sourcePort % 0x100
  {
    var p := Layout(version, flow, length, next, hops, source, dest, sourcePort, destPort, rest);
    PackedPort(sourcePort);
    PackedPort(destPort);
    assert p[8..24] == source && p[24..40] == dest;
    assert p[40..42] == PackUint(sourcePort, 2) && p[42..44] == PackUint(destPort, 2);
    assert p[40] == p[40..42][0] && p[41] == p[40..42][1] && p[42] == p[42..44][0] && p[43] == p[42..44][1];
  }

  predicate IsMulticast(a: Address) {
    a[0] == 0xFF
  }

  predicate HasPorts(kind: Byte) {
    kind == TYPE_TCP || kind == TYPE_UDP
  }

  datatype Rule = Rule(
    kind: Byte, subtype: Byte,
    localPort: U16, localPortMatch: bool, localAddress: Address, localMask: U8,
    remotePort: U16, remotePortMatch: bool, remoteAddress: Address, remoteMask: U8)

  const ZERO: Address := [0, 0, 0, 0, 0, 0, 0, 0, 0, 0, 0, 0, 0, 0, 0, 0]
  const CLEARED: Rule := Rule(TYPE_ALL, SUBTYPE_ALL, 0, false, ZERO, 0, 0, false, ZERO, 0)

  // A packet as one end sees it.
  datatype View = View(localPort: U16, localAddress: Address, remotePort: U16, remoteAddress: Address)

  function Inbound(p: Packet): View {
    View(DestPort(p), Dest(p), SourcePort(p), Source(p))
  }

  function Outbound(p: Packet): View {
    View(SourcePort(p), Source(p), DestPort(p), Dest(p))
  }

  /* Learning. */

  function Learn(p: Packet, v: View, localMask: U8): Rule {
    if !IsIPv6(p) then CLEARED
    else
      var ports := HasPorts(TypeOf(p));
      Rule(TypeOf(p), if TypeOf(p) == TYPE_ICMP then SubtypeOf(p) else SUBTYPE_ALL,
           if ports then v.localPort else 0, ports, if localMask == 0 then ZERO else v.localAddress, localMask,
           if ports then v.remotePort else 0, ports, v.remoteAddress, 128)
  }

  function FromInbound(p: Packet): Rule {
    Learn(p, Inbound(p), if IsMulticast(Dest(p)) then 0 else 128)
  }

  function FromOutbound(p: Packet): Rule {
    Learn(p, Outbound(p), 128)
  }

  /* Matching. */

  predicate MatchesView(r: Rule, p: Packet, v: View) {
    && IsIPv6(p)
    && r.kind != TYPE_NONE
    && (r.kind != TYPE_ALL ==> r.kind == TypeOf(p) && (r.subtype != SUBTYPE_ALL ==> r.subtype == SubtypeOf(p)))
    && (r.localPortMatch ==> v.localPort == r.localPort)
    && (r.remotePortMatch ==> v.remotePort == r.remotePort)
    && (r.localMask != 0 ==> Masked(v.localAddress, r.localMask) == r.localAddress)
    && (r.remoteMask != 0 ==> Masked(v.remoteAddress, r.remoteMask) == r.remoteAddress)
  }

  predicate MatchesInbound(r: Rule, p: Packet) {
    MatchesView(r, p, Inbound(p))
  }

  predicate MatchesOutbound(r: Rule, p: Packet) {
    MatchesView(r, p, Outbound(p))
  }

  // Whether a packet is of the kind of another: the same next header and, for ICMP, the same type.
  // Next header 255 stands for all kinds and ICMP type 255 for all types.
  predicate SameKind(p: Packet, q: Packet) {
    p[6] == 255 || (q[6] == p[6] && (p[6] == 58 && p[40] != 255 ==> q[40] == p[40]))
  }

  // A rule learnt from an outbound packet lets in exactly the answers to it, whatever their kind: IPv6
  // packets of the same kind with the addresses swapped and, for TCP and UDP, the ports too.
  lemma LearntRuleMatchesAnswers(p: Packet, q: Packet)
    requires p[0] / 16 == 6
    ensures MatchesInbound(FromOutbound(p), q) <==>
      && q[0] / 16 == 6 && p[6] != 254 && SameKind(p, q)
      && (p[6] == 6 || p[6] == 17 ==> SourcePort(q) == DestPort(p) && DestPort(q) == SourcePort(p))
      && Source(q) == Dest(p) && Dest(q) == Source(p)
  {
    MaskedAll(Source(q), 128);
    MaskedAll(Dest(q), 128);
  }

  // A rule learnt from an inbound packet lets out exactly the answers to it, whatever their kind: an
  // answer comes from the address that the packet went to, unless that was a multicast one.
  lemma LearntInboundMatchesAnswers(p: Packet, q: Packet)
    requires p[0] / 16 == 6
    ensures MatchesOutbound(FromInbound(p), q) <==>
      && q[0] / 16 == 6 && p[6] != 254 && SameKind(p, q)
      && (p[6] == 6 || p[6] == 17 ==> SourcePort(q) == DestPort(p) && DestPort(q) == SourcePort(p))
      && (p[24] != 255 ==> Source(q) == Dest(p))
      && Dest(q) == Source(p)
  {
    MaskedAll(Source(q), 128);
    MaskedAll(Dest(q), 128);
  }

  // A rule learnt from an IPv6 packet matches that packet, in its own direction, unless its next
  // header is the number that the rules use for "none".
  lemma LearntRuleMatchesItsPacket(p: Packet)
    requires IsIPv6(p)
    ensures MatchesOutbound(FromOutbound(p), p) <==> TypeOf(p) != TYPE_NONE
    ensures MatchesInbound(FromInbound(p), p) <==> TypeOf(p) != TYPE_NONE
  {
    MaskedAll(Source(p), 128);
    MaskedAll(Dest(p), 128);
  }

  // What a rule with a mask asks of an address is that its first bits agree.
  lemma MaskedRuleMatchesPrefix(r: Rule, v: View, p: Packet, network: Address)
    requires IsIPv6(p) && r.kind == TYPE_ALL && !r.localPortMatch && !r.remotePortMatch
    requires r.localMask == 0 && r.remoteMask != 0 && r.remoteAddress == Masked(network, r.remoteMask)
    ensures MatchesView(r, p, v) <==> SamePrefix(v.remoteAddress, network, r.remoteMask)
    ensures MatchesView(r, p, v) <==>
      forall n :: 0 <= n < 128 && n < r.remoteMask ==> AddressBit(v.remoteAddress, n) == AddressBit(network, n)
  {
    MaskedAgree(v.remoteAddress, network, r.remoteMask);
    MaskedAgreeInBits(v.remoteAddress, network, r.remoteMask);
  }

  /* The order on rules. */

  function Compare(a: nat, b: nat): int {
    if a < b then -1 else if a > b then 1 else 0
  }

  function FlagNumber(b: bool): nat {
    if b then 1 else 0
  }

  // memcmp
  function CompareBytes(a: seq<Byte>, b: seq<Byte>): int
    requires |a| == |b|
  {
    if a == [] then 0
    else if a[0] != b[0] then Compare(a[0], b[0])
    else CompareBytes(a[1..], b[1..])
  }

  // operator<, field by field
  predicate Less(a: Rule, b: Rule) {
    if a.kind != b.kind then a.kind < b.kind
    else if a.subtype != b.subtype then a.subtype < b.subtype
    else if a.localPort != b.localPort then a.localPort < b.localPort
    else if a.localPortMatch != b.localPortMatch then !a.localPortMatch
    else if a.localMask != b.localMask then a.localMask < b.localMask
    else if CompareBytes(a.localAddress, b.localAddress) < 0 then true
    else if CompareBytes(a.localAddress, b.localAddress) > 0 then false
    else if a.remotePort != b.remotePort then a.remotePort < b.remotePort
    else if a.remotePortMatch != b.remotePortMatch then !a.remotePortMatch
    else if a.remoteMask != b.remoteMask then a.remoteMask < b.remoteMask
    else CompareBytes(a.remoteAddress, b.remoteAddress) < 0
  }

  // The dictionary order on sequences of the same length, with which it is compared.
  predicate Before(a: seq<nat>, b: seq<nat>)
    requires |a| == |b|
  {
    a != [] && (a[0] < b[0] || (a[0] == b[0] && Before(a[1..], b[1..])))
  }

  function Head(r: Rule): seq<nat> {
    [r.kind, r.subtype, r.localPort, FlagNumber(r.localPortMatch), r.localMask]
  }

  function Middle(r: Rule): seq<nat> {
    [r.remotePort, FlagNumber(r.remotePortMatch), r.remoteMask]
  }

  // A rule as a sequence of numbers, the fields in the order in which they are compared.
  function Digits(r: Rule): (d: seq<nat>)
    ensures |d| == 40
  {
    Head(r) + (r.localAddress + (Middle(r) + r.remoteAddress))
  }

  lemma {:induction false} BeforeIrreflexive(a: seq<nat>)
    ensures !Before(a, a)
  {
    if a != [] { BeforeIrreflexive(a[1..]); }
  }

  lemma {:induction false} BeforeTransitive(a: seq<nat>, b: seq<nat>, c: seq<nat>)
    requires |a| == |b| == |c| && Before(a, b) && Before(b, c)
    ensures Before(a, c)
  {
    if a[0] == b[0] == c[0] { BeforeTransitive(a[1..], b[1..], c[1..]); }
  }

  lemma {:induction false} BeforeTotal(a: seq<nat>, b: seq<nat>)
    requires |a| == |b|
    ensures a == b || Before(a, b) || Before(b, a)
  {
    if a != [] && a[0] == b[0] {
      BeforeTotal(a[1..], b[1..]);
      assert a == [a[0]] + a[1..] && b == [b[0]] + b[1..];
    }
  }

  // Dictionary order of two parts.
  lemma {:induction false} BeforeAppend(a: seq<nat>, b: seq<nat>, c: seq<nat>, d: seq<nat>)
    requires |a| == |b| && |c| == |d|
    ensures Before(a + c, b + d) <==> Before(a, b) || (a == b && Before(c, d))
  {
    if a == [] {
      assert a + c == c && b + d == d;
    } else {
      BeforeAppend(a[1..], b[1..], c, d);
      assert (a + c)[1..] == a[1..] + c && (b + d)[1..] == b[1..] + d;
      assert a == b <==> a[0] == b[0] && a[1..] == b[1..];
    }
  }

  lemma {:induction false} CompareBytesIsBefore(a: seq<Byte>, b: seq<Byte>)
    requires |a| == |b|
    ensures CompareBytes(a, b) < 0 <==> Before(a, b)
    ensures CompareBytes(a, b) == 0 <==> a == b
  {
    if a != [] {
      CompareBytesIsBefore(a[1..], b[1..]);
      assert a == b <==> a[0] == b[0] && a[1..] == b[1..];
    }
  }

  lemma BeforeFrom(x: seq<nat>, y: seq<nat>, i: nat)
    requires |x| == |y| && i < |x|
    ensures Before(x[i..], y[i..]) <==> x[i] < y[i] || (x[i] == y[i] && Before(x[i + 1..], y[i + 1..]))
  {
    assert x[i..][1..] == x[i + 1..] && y[i..][1..] == y[i + 1..];
  }

  lemma HeadBefore(a: Rule, b: Rule)
    ensures Before(Head(a), Head(b)) <==>
      || a.kind < b.kind
      || (a.kind == b.kind && (a.subtype < b.subtype
      || (a.subtype == b.subtype && (a.localPort < b.localPort
      || (a.localPort == b.localPort && ((!a.localPortMatch && b.localPortMatch)
      || (a.localPortMatch == b.localPortMatch && a.localMask < b.localMask)))))))
  {
    var x, y := Head(a), Head(b);
    BeforeFrom(x, y, 0);
    BeforeFrom(x, y, 1);
    BeforeFrom(x, y, 2);
    BeforeFrom(x, y, 3);
    BeforeFrom(x, y, 4);
    assert x == x[0..] && y == y[0..] && !Before(x[5..], y[5..]);
  }

  lemma MiddleBefore(a: Rule, b: Rule)
    ensures Before(Middle(a), Middle(b)) <==>
      || a.remotePort < b.remotePort
      || (a.remotePort == b.remotePort && ((!a.remotePortMatch && b.remotePortMatch)
      || (a.remotePortMatch == b.remotePortMatch && a.remoteMask < b.remoteMask)))
  {
    var x, y := Middle(a), Middle(b);
    BeforeFrom(x, y, 0);
    BeforeFrom(x, y, 1);
    BeforeFrom(x, y, 2);
    assert x == x[0..] && y == y[0..] && !Before(x[3..], y[3..]);
  }

  // The field-by-field comparison is the dictionary order of the fields.
  lemma LessIsBefore(a: Rule, b: Rule)
    ensures Less(a, b) <==> Before(Digits(a), Digits(b))
  {
    BeforeAppend(Head(a), Head(b), a.localAddress + (Middle(a) + a.remoteAddress),
                 b.localAddress + (Middle(b) + b.remoteAddress));
    BeforeAppend(a.localAddress, b.localAddress, Middle(a) + a.remoteAddress, Middle(b) + b.remoteAddress);
    BeforeAppend(Middle(a), Middle(b), a.remoteAddress, b.remoteAddress);
    HeadBefore(a, b);
    MiddleBefore(a, b);
    CompareBytesIsBefore(a.localAddress, b.localAddress);
    CompareBytesIsBefore(a.remoteAddress, b.remoteAddress);
    SameHead(a, b);
  }

  lemma SameHead(a: Rule, b: Rule)
    ensures Head(a) == Head(b) <==>
      a.kind == b.kind && a.subtype == b.subtype && a.localPort == b.localPort
      && a.localPortMatch == b.localPortMatch && a.localMask == b.localMask
    ensures Middle(a) == Middle(b) <==>
      a.remotePort == b.remotePort && a.remotePortMatch == b.remotePortMatch && a.remoteMask == b.remoteMask
  {
    var x, y, u, v := Head(a), Head(b), Middle(a), Middle(b);
    assert x == y ==> x[0] == y[0] && x[1] == y[1] && x[2] == y[2] && x[3] == y[3] && x[4] == y[4];
    assert u == v ==> u[0] == v[0] && u[1] == v[1] && u[2] == v[2];
  }

  lemma DigitsInjective(a: Rule, b: Rule)
    requires Digits(a) == Digits(b)
    ensures a == b
  {
    var x, y := Digits(a), Digits(b);
    assert x[..5] == Head(a) && y[..5] == Head(b);
    assert x[5..21] == a.localAddress && y[5..21] == b.localAddress;
    assert x[21..24] == Middle(a) && y[21..24] == Middle(b);
    assert x[24..] == a.remoteAddress && y[24..] == b.remoteAddress;
    SameHead(a, b);
  }

  // operator< is a strict total order, and two rules of which neither is less are equal.
  lemma LessIsStrictTotalOrder(a: Rule, b: Rule, c: Rule)
    ensures !Less(a, a)
    ensures Less(a, b) && Less(b, c) ==> Less(a, c)
    ensures !Less(a, b) && !Less(b, a) <==> a == b
  {
    LessIsBefore(a, a);
    LessIsBefore(a, b);
    LessIsBefore(b, a);
    LessIsBefore(b, c);
    LessIsBefore(a, c);
    BeforeIrreflexive(Digits(a));
    BeforeTotal(Digits(a), Digits(b));
    if Digits(a) == Digits(b) { DigitsInjective(a, b); }
    if Less(a, b) && Less(b, c) { BeforeTransitive(Digits(a), Digits(b), Digits(c)); }
  }

  /* Sets of rules, visited in increasing order. */

  ghost predicate Increasing(rules: seq<Rule>) {
    forall i, j :: 0 <= i < j < |rules| ==> Less(rules[i], rules[j])
  }

  // The least rule that matches, or the end exactly when none does.
  ghost predicate IsLeastMatch(rules: seq<Rule>, p: Packet, inbound: bool, k: nat) {
    && k <= |rules|
    && (k == |rules| <==> forall i :: 0 <= i < |rules| ==> !Matches(rules[i], p, inbound))
    && (k < |rules| ==>
          && Matches(rules[k], p, inbound)
          && forall i :: 0 <= i < |rules| && Matches(rules[i], p, inbound) ==> i == k || Less(rules[k], rules[i]))
  }

  predicate Matches(r: Rule, p: Packet, inbound: bool) {
    if inbound then MatchesInbound(r, p) else MatchesOutbound(r, p)
  }

  method FindMatch(rules: seq<Rule>, p: Packet, inbound: bool) returns (k: nat)
    requires Increasing(rules)
    ensures IsLeastMatch(rules, p, inbound, k)
  {
    k := 0;
    while k < |rules|
      invariant k <= |rules|
      invariant forall i :: 0 <= i < k ==> !Matches(rules[i], p, inbound)
    {
      if Matches(rules[k], p, inbound) {
        break;
      }
      k := k + 1;
    }
  }

  /* The packets that are never forwarded to the NCP. */

  const ALL_ROUTERS: Address := [0xFF, 2, 0, 0, 0, 0, 0, 0, 0, 0, 0, 0, 0, 0, 0, 2]
  const MULTICAST_REPORTS: Address := [0xFF, 2, 0, 0, 0, 0, 0, 0, 0, 0, 0, 0, 0, 0, 0, 0x16]

  function DropRule(kind: Byte, subtype: Byte): Rule {
    CLEARED.(kind := kind, subtype := subtype)
  }

  function DropRuleTo(kind: Byte, subtype: Byte, dest: Address): Rule {
    DropRule(kind, subtype).(remoteAddress := dest, remoteMask := 128)
  }

  // The drop rules, in the order in which the set visits them.
  function DropRules(): seq<Rule> {
    [DropRuleTo(0, SUBTYPE_ALL, MULTICAST_REPORTS),
     DropRuleTo(TYPE_ICMP, 133, ALL_ROUTERS), DropRuleTo(TYPE_ICMP, 134, ALL_ROUTERS),
     DropRule(TYPE_ICMP, 135), DropRule(TYPE_ICMP, 136), DropRule(TYPE_ICMP, 137)]
  }

  lemma DropRuleMatches(p: Packet, kind: Byte, subtype: Byte, dest: Address)
    requires kind < 254
    ensures MatchesOutbound(DropRule(kind, subtype), p) <==>
      p[0] / 16 == 6 && p[6] == kind && (subtype == 255 || p[40] == subtype)
    ensures MatchesOutbound(DropRuleTo(kind, subtype, dest), p) <==>
      p[0] / 16 == 6 && p[6] == kind && (subtype == 255 || p[40] == subtype) && p[24..40] == dest
  {
    MaskedAll(Dest(p), 128);
  }

  // In octets: hop-by-hop options to ff02::16, router solicitations and advertisements to ff02::2,
  // and all neighbour solicitations, neighbour advertisements and redirects.
  predicate IsDropped(p: Packet) {
    && p[0] / 16 == 6
    && (|| (p[6] == 0 && p[24..26] == [0xFF, 0x02] && p[26..39] == seq(13, _ => 0) && p[39] == 0x16)
        || (p[6] == 58 && 133 <= p[40] <= 134
            && p[24..26] == [0xFF, 0x02] && p[26..39] == seq(13, _ => 0) && p[39] == 0x02)
        || (p[6] == 58 && 135 <= p[40] <= 137))
  }

  lemma GroupAddress(a: seq<Byte>, last: Byte)
    requires |a| == 16
    ensures a == [0xFF, 2, 0, 0, 0, 0, 0, 0, 0, 0, 0, 0, 0, 0, 0, last] <==>
      a[0..2] == [0xFF, 0x02] && a[2..15] == seq(13, _ => 0) && a[15] == last
  {
    if a[0..2] == [0xFF, 0x02] && a[2..15] == seq(13, _ => 0) && a[15] == last {
      assert a == a[0..2] + a[2..15] + [a[15]];
    }
  }

  lemma DestOctets(p: Packet)
    ensures p[24..40][0..2] == p[24..26] && p[24..40][2..15] == p[26..39] && p[24..40][15] == p[39]
  {
  }

  lemma DropRulesMatch(p: Packet)
    ensures (exists i :: 0 <= i < |DropRules()| && Matches(DropRules()[i], p, false)) <==> IsDropped(p)
  {
    var rules := DropRules();
    DropRuleMatches(p, 0, SUBTYPE_ALL, MULTICAST_REPORTS);
    DropRuleMatches(p, TYPE_ICMP, 133, ALL_ROUTERS);
    DropRuleMatches(p, TYPE_ICMP, 134, ALL_ROUTERS);
    DropRuleMatches(p, TYPE_ICMP, 135, ZERO);
    DropRuleMatches(p, TYPE_ICMP, 136, ZERO);
    DropRuleMatches(p, TYPE_ICMP, 137, ZERO);
    DestOctets(p);
    GroupAddress(p[24..40], 0x16);
    GroupAddress(p[24..40], 0x02);
    assert IsDropped(p) <==>
      || Matches(rules[0], p, false) || Matches(rules[1], p, false) || Matches(rules[2], p, false)
      || Matches(rules[3], p, false) || Matches(rules[4], p, false) || Matches(rules[5], p, false);
  }

  lemma DropRulesIncrease()
    ensures Increasing(DropRules())
  {
  }

  // The firewall that should_forward_ncpbound_frame asks.
  method MatchesDropFirewall(p: Packet) returns (dropped: bool)
    ensures dropped <==> IsDropped(p)
  {
    DropRulesIncrease();
    var k := FindMatch(DropRules(), p, false);
    dropped := k != |DropRules()|;
    DropRulesMatch(p);
  }

  /* A rule as the program fills it in. */

  class MutableRule {
    var kind: Byte
    var subtype: Byte
    var localPort: U16
    var localPortMatch: bool
    var localAddress: Address
    var localMask: U8
    var remotePort: U16
    var remotePortMatch: bool
    var remoteAddress: Address
    var remoteMask: U8

    function Value(): Rule
      reads this
    {
      Rule(kind, subtype, localPort, localPortMatch, localAddress, localMask,
           remotePort, remotePortMatch, remoteAddress, remoteMask)
    }

    method Clear()
      modifies this
      ensures Value() == CLEARED
      ensures kind == 0xFF && subtype == 0xFF && localAddress == remoteAddress == seq(16, _ => 0)
      ensures !localPortMatch && !remotePortMatch && localMask == remoteMask == localPort == remotePort == 0
    {
      localPort, localPortMatch, localAddress, localMask := 0, false, ZERO, 0;
      remotePort, remotePortMatch, remoteAddress, remoteMask := 0, false, ZERO, 0;
      kind, subtype := TYPE_ALL, SUBTYPE_ALL;
    }

    method UpdateFromInboundPacket(p: Packet)
      modifies this
      ensures Value() == FromInbound(p)
    {
      Clear();
      if IsIPv6(p) {
        kind := TypeOf(p);
        if HasPorts(kind) {
          remotePort, remotePortMatch := SourcePort(p), true;
          localPort, localPortMatch := DestPort(p), true;
        } else if kind == TYPE_ICMP {
          subtype := SubtypeOf(p);
        }
        if !IsMulticast(Dest(p)) {
          localAddress, localMask := Dest(p), 128;
        }
        remoteAddress, remoteMask := Source(p), 128;
      }
    }

    method UpdateFromOutboundPacket(p: Packet)
      modifies this
      ensures Value() == FromOutbound(p)
    {
      Clear();
      if IsIPv6(p) {
        kind := TypeOf(p);
        if HasPorts(kind) {
          remotePort, remotePortMatch := DestPort(p), true;
          localPort, localPortMatch := SourcePort(p), true;
        } else if kind == TYPE_ICMP {
          subtype := SubtypeOf(p);
        }
        localAddress, localMask := Source(p), 128;
        remoteAddress, remoteMask := Dest(p), 128;
      }
    }
  }
}
