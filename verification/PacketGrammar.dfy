/** What a packet holds, header by header, read off the formats: a reference for the decoder. */
module PacketGrammar {
  import opened DecodeLayers
  import opened Checksum
  import opened Octets

  // ---- Bytes and numbers ----

  function Get(m: Mem, i: nat): Octet { if i < |m| then m[i] else 0 }

  /** Two bytes, the most significant first. */
  function Two(m: Mem, i: nat): (n: nat)
    ensures n < 0x1_0000
  {
    0x100 * Get(m, i) + Get(m, i + 1)
  }

  function Slice(m: Mem, i: nat, n: nat): (b: seq<Octet>)
    ensures |b| == n
  {
    seq<Octet>(n, k requires 0 <= k < n => Get(m, i + k))
  }

  // ---- Headers ----

  /** What may stand in a packet. Ethernet over MPLS, an authentication header in IPv6 and both versions of
      ERSPAN differ from their like in what may follow them. */
  datatype Header = Plain(proto: Proto) | EthMpls | Ah6 | ErspanOf(version: nat) | Esp | Routing | Fragment
                  | Teredo(sp: nat, dp: nat)

  datatype Option<T> = None | Some(value: T)

  /** The headers around a place: how many of IP, the innermost of them with its version, the innermost one of
      ethernet, the first extension of IPv6 and the number it announced last; and whether this is a
      fragment, inside Teredo, or inside an encapsulation that is only guessed. */
  datatype Around = Around(ips: nat, eth: nat, v6: bool, ip: nat, ext: nat, upper: Octet, frag: bool, tunnel: bool,
                           unsure: bool)

  function ByType(kind: nat, pppoe: bool, mpls: bool): Option<Header> {
    if kind == 0x0800 then Some(Plain(Ip4))
    else if kind in {0x0806, 0x8035} then Some(Plain(Arp))
    else if kind == 0x86dd then Some(Plain(Ip6))
    else if kind == 0x8100 then Some(Plain(Vlan))
    else if kind in {0x8863, 0x8864} && pppoe then Some(Plain(Pppoe))
    else if kind in {0x8847, 0x8848} && mpls then Some(Plain(Mpls))
    else None
  }

  /** Protocol numbers of IPv4, as IANA assigns them. */
  function ByNumber4(n: Octet): Option<Header> {
    match n
    case 1 => Some(Plain(Icmp4))
    case 4 => Some(Plain(Ip4))
    case 6 => Some(Plain(Tcp))
    case 17 => Some(Plain(Udp))
    case 41 => Some(Plain(Ip6))
    case 47 => Some(Plain(Gre))
    case 50 => Some(Esp)
    case 51 => Some(Plain(Ah))
    case _ => None
  }

  /** Those of IPv6, with its extension headers. */
  function ByNumber6(n: Octet): Option<Header> {
    match n
    case 0 => Some(Plain(HopOpts))
    case 4 => Some(Plain(Ip4))
    case 6 => Some(Plain(Tcp))
    case 17 => Some(Plain(Udp))
    case 41 => Some(Plain(Ip6))
    case 43 => Some(Routing)
    case 44 => Some(Fragment)
    case 47 => Some(Plain(Gre))
    case 50 => Some(Esp)
    case 51 => Some(Ah6)
    case 58 => Some(Plain(Icmp6))
    case 60 => Some(Plain(DstOpts))
    case _ => None
  }

  /** Those that a payload in the clear may have under ESP. */
  function ByEsp(n: Octet): Option<Header> {
    if n in {1, 4, 6, 17, 41, 47} then ByNumber4(n) else None
  }

  function ByGre(kind: nat): Option<Header> {
    match kind
    case 0x0800 => Some(Plain(Ip4))
    case 0x0806 => Some(Plain(Arp))
    case 0x22eb => Some(ErspanOf(3))
    case 0x6558 => Some(Plain(Eth))
    case 0x8035 => Some(Plain(Arp))
    case 0x8100 => Some(Plain(Vlan))
    case 0x86dd => Some(Plain(Ip6))
    case 0x880b => Some(Plain(PppEncap))
    case 0x88be => Some(ErspanOf(2))
    case _ => None
  }

  // ---- Label stacks ----

  function Label(m: Mem, at: nat): nat { Get(m, at) * 0x1000 + Get(m, at + 1) * 0x10 + Get(m, at + 2) / 0x10 }

  predicate IsBottom(m: Mem, at: nat) { Get(m, at + 2) % 2 == 1 }

  /** How many labels there are, up to the bottom of the stack; zero if it is not at hand. */
  function LabelCount(m: Mem, at: nat, left: nat): (n: nat)
    ensures 4 * n <= left
    decreases left
  {
    if left < 4 then 0
    else if IsBottom(m, at) then 1
    else
      var n := LabelCount(m, at + 4, left - 4);
      if n == 0 then 0 else n + 1
  }

  /** Label i of n: not the reserved number 3, number 1 only above the bottom, and within the depth that is
      set, counted in a byte. */
  predicate LabelOk(m: Mem, env: Env, at: nat, i: nat, n: nat) {
    && Label(m, at + 4 * i) != 3
    && (Label(m, at + 4 * i) == 1 ==> i < n - 1)
    && (env.mplsDepth == -1 || i % 0x100 < env.mplsDepth)
  }

  /** What the bottom label announces: 0 is IPv4 and 2 is IPv6, anything else what is set. */
  function ByLabel(env: Env, tag: nat): Option<Header> {
    var payload := if tag == 0 then 1 else if tag == 2 then 3 else env.mplsPayload;
    if payload == 1 then Some(Plain(Ip4))
    else if payload == 2 then Some(EthMpls)
    else if payload == 3 then Some(Plain(Ip6))
    else None
  }

  // ---- GRE ----

  /** Behind the first empty source route entry. */
  function Routes(m: Mem, at: nat, n: nat): (end: nat)
    ensures end >= n + 4
    decreases |m| - at - n
  {
    var size := Get(m, at + n + 3);
    if at + n >= |m| || (Two(m, at + n) == 0 && size == 0) then n + 4 else Routes(m, at, n + 4 + size)
  }

  /** The size of a header, by its flags: checksum, routing, key, sequence number and, in version 1,
      acknowledgement; none if they do not go together. */
  function GreSize(m: Mem, at: nat): Option<nat> {
    var a, b := Get(m, at), Get(m, at + 1);
    var c, r, k, s, ack := a / 128, a / 64 % 2, a / 32 % 2, a / 16 % 2, b / 128;
    if b % 8 == 0 && b / 8 == 0 && a % 8 == 0 then
      if r == 1 then Some(Routes(m, at, 8 + 4 * k + 4 * s)) else Some(4 + 4 * c + 4 * k + 4 * s)
    else if b % 8 == 1 && b / 8 % 16 == 0 && a % 16 == 0 && c == 0 && r == 0 && k == 1 && Two(m, at + 2) == 0x880b then
      Some(8 + 4 * s + 4 * ack)
    else None
  }

  // ---- Options of IPv6 ----

  /** Options up to an end: padding of one byte, or one of the known kinds with its length. */
  predicate Options(m: Mem, i: nat, end: nat)
    decreases end - i
  {
    i >= end
    || if Get(m, i) == 0 then Options(m, i + 1, end)
       else
         var next := i + 2 + Get(m, i + 1);
         Get(m, i) in {1, 4, 5, 6, 7, 0x8a, 0xc2, 0xc9} && next <= end && Options(m, next, end)
  }

  // ---- UDP and Teredo ----

  /** The size that a datagram must have: that of its own field, or, of a fragment, what its IP header leaves. */
  function UdpSize(m: Mem, c: Around, at: nat): nat {
    if !c.frag then Two(m, at + 4)
    else if c.v6 then (Two(m, c.ip + 4) - (at - c.ext)) % 0x1_0000
    else (Two(m, c.ip + 2) - 4 * (Get(m, c.ip) % 16)) % 0x1_0000
  }

  /** The addresses, a zero byte, the protocol and the size of the datagram. */
  function Pseudo(m: Mem, c: Around, at: nat, left: nat): seq<Octet> {
    if c.v6 then Slice(m, c.ip + 8, 32) + [0, c.upper, left / 0x100 % 0x100, left % 0x100]
    else Slice(m, c.ip + 12, 8) + [0, Get(m, c.ip + 9), Get(m, at + 4), Get(m, at + 5)]
  }

  /** A checksum of zero stands for none, and must not in IPv6. In a fragment it cannot be checked. */
  predicate UdpSumOk(m: Mem, c: Around, at: nat, left: nat) {
    if Two(m, at + 6) == 0 then !c.v6
    else c.frag || Standard(true, Pseudo(m, c, at, left) + Slice(m, at, left)) == 0
  }

  /** Past an authentication and an origin indicator, if they are there and fit. */
  function Indicators(m: Mem, at: nat, left: nat): Option<nat> {
    if left < 2 then None
    else if Two(m, at) == 1 && (left < 13 || left < 13 + Get(m, at + 2) + Get(m, at + 3)) then None
    else
      var n := if Two(m, at) == 1 then 13 + Get(m, at + 2) + Get(m, at + 3) else 0;
      if Two(m, at + n) != 0 then Some(n) else if left - n < 8 then None else Some(n + 8)
  }

  /** The prefix of Teredo, 2001::/32, or that of a link-local address. */
  predicate TeredoAddress(m: Mem, i: nat) {
    Slice(m, i, 4) == [0x20, 0x01, 0, 0] || Slice(m, i, 8) == [0xfe, 0x80, 0, 0, 0, 0, 0, 0]
  }

  // ---- The headers of a packet ----

  function One(p: Proto, at: nat, n: nat): seq<Layer> { [Layer(p, at, n % 0x1_0000)] }

  /** What a header leaves for the one it announces, if any: a place, and fewer bytes than it had itself. */
  function Above(m: Mem, env: Env, c: Around, h: Option<Header>, at: nat, left: nat, before: nat): seq<Layer>
    requires left < before
    decreases before, 0
  {
    match h
    case None => []
    case Some(next) => Read(m, env, c, next, at, left)
  }

  /** The headers from place at on, of which h is the first, in the given number of bytes. */
  function Read(m: Mem, env: Env, c: Around, h: Header, at: nat, left: nat): seq<Layer>
    decreases left, if h.Teredo? then 5 else 3
  {
    match h
    case Plain(Eth) => ReadEth(m, env, c, at, left)
    case Plain(Vlan) => ReadVlan(m, env, c, at, left)
    case Plain(Mpls) => ReadMpls(m, env, c, at, left)
    case EthMpls => ReadEthMpls(m, env, c, at, left)
    case Plain(Pppoe) => ReadPppoe(m, env, c, at, left)
    case Plain(PppEncap) => ReadPpp(m, env, c, at, left)
    case Plain(Arp) => if left < 28 then [] else One(Arp, at, 28)
    case Plain(Ip4) => ReadIp4(m, env, c, at, left)
    case Plain(Ip6) => ReadIp6(m, env, c, at, left)
    case Plain(HopOpts) => ReadOptions(m, env, c, HopOpts, at, left)
    case Plain(DstOpts) => ReadOptions(m, env, c, DstOpts, at, left)
    case Routing => if left < 8 then [] else ReadNext(m, env, c, at, 8 + 8 * Get(m, at + 1), left)
    case Fragment => ReadFragment(m, env, c, at, left)
    case Plain(Ah) => ReadAh4(m, env, c, at, left)
    case Ah6 => ReadAh6(m, env, c, at, left)
    case Esp => ReadEsp(m, env, c, at, left)
    case Plain(Gre) => ReadGre(m, env, c, at, left)
    case ErspanOf(version) => ReadErspan(m, env, c, version, at, left)
    case Plain(Erspan) => []
    case Plain(Udp) => ReadUdp(m, env, c, at, left)
    case Teredo(sp, dp) => ReadTeredo(m, env, c, sp, dp, at, left)
    case Plain(Tcp) => ReadTcp(m, at, left)
    case Plain(Icmp4) => ReadIcmp4(m, at, left)
    case Plain(Icmp6) => ReadIcmp6(m, at, left)
  }

  /** The headers of an ethernet frame. */
  function Frame(m: Mem, env: Env, caplen: nat): seq<Layer> {
    if caplen < 14 then []
    else
      var c := Around(0, 0, false, 0, 0, 0, false, false, false);
      One(Eth, 0, 14) + Above(m, env, c, ByType(Two(m, 12), true, true), 14, caplen - 14, caplen)
  }

  // ---- Link layers ----

  function ReadEth(m: Mem, env: Env, c: Around, at: nat, left: nat): seq<Layer>
    decreases left, 2
  {
    if left < 14 then []
    else
      One(Eth, at, 14)
      + Above(m, env, c.(eth := at), ByType(Two(m, at + 12), false, false), at + 14, left - 14, left)
  }

  // Goes on behind the first fourteen bytes of the packet.
  function ReadEthMpls(m: Mem, env: Env, c: Around, at: nat, left: nat): seq<Layer>
    decreases left, 2
  {
    if left < 14 then []
    else One(Eth, at, 14) + Above(m, env, c.(eth := at), ByType(Two(m, at + 12), true, false), 14, left - 14, left)
  }

  // With an LLC header, goes on at byte twelve of the packet.
  function ReadVlan(m: Mem, env: Env, c: Around, at: nat, left: nat): seq<Layer>
    decreases left, 2
  {
    if left < 4 then []
    else if Two(m, at + 2) > 1518 then
      One(Vlan, at, 4) + Above(m, env, c, ByType(Two(m, at + 2), true, true), at + 4, left - 4, left)
    else if left >= 12 && Get(m, at + 4) == 0xaa && Get(m, at + 5) == 0xaa then
      One(Vlan, at, 4) + Above(m, env, c, ByType(Two(m, at + 10), true, true), 12, left - 12, left)
    else []
  }

  function ReadMpls(m: Mem, env: Env, c: Around, at: nat, left: nat): seq<Layer>
    decreases left, 2
  {
    var n := LabelCount(m, at, left);
    if n == 0 || exists i :: 0 <= i < n && !LabelOk(m, env, at, i, n) then []
    else
      One(Mpls, at, 4 * n)
      + Above(m, env, c, ByLabel(env, Label(m, at + 4 * (n - 1))), at + 4 * n, left - 4 * n, left)
  }

  // Only sessions, by the innermost ethernet header.
  function ReadPppoe(m: Mem, env: Env, c: Around, at: nat, left: nat): seq<Layer>
    decreases left, 2
  {
    if left < 6 || Two(m, c.eth + 12) != 0x8864 then []
    else One(Pppoe, at, 6) + Read(m, env, c, Plain(PppEncap), at + 6, left - 6)
  }

  // An odd first byte is all of the protocol number. Behind a VJ header there is only TCP.
  function ReadPpp(m: Mem, env: Env, c: Around, at: nat, left: nat): seq<Layer>
    decreases left, 2
  {
    var n := if Get(m, at) % 2 == 1 then 1 else 2;
    var protocol := if n == 1 then Get(m, at) else Two(m, at);
    if left < 2 then []
    else if protocol == 0x21 then One(PppEncap, at, n) + Read(m, env, c, Plain(Ip4), at + n, left - n)
    else if protocol == 0x57 then One(PppEncap, at, n) + Read(m, env, c, Plain(Ip6), at + n, left - n)
    else if protocol == 0x2b then One(PppEncap, at, n)
    else if protocol == 0x2f && left >= n + 20 then
      One(PppEncap, at, n) + Read(Restored(m, at + n + 9), env, c, Plain(Ip4), at + n, left - n)
    else []
  }

  function Restored(m: Mem, i: nat): Mem { if i < |m| then m[i := 6] else m }

  // ---- IP ----

  function ReadIp4(m: Mem, env: Env, c: Around, at: nat, left: nat): seq<Layer>
    decreases left, 2
  {
    var n, size, fragment := 4 * (Get(m, at) % 0x10), Two(m, at + 2), Two(m, at + 6) % 0x4000;
    if c.ips == 2 || left < 20 || Get(m, at) / 0x10 != 4 || !(20 <= n <= size <= left) then []
    else
      var whole := fragment == 0 || (fragment == 0x2000 && Get(m, at + 9) == 17);
      var inside := c.(ips := c.ips + 1, v6 := false, ip := at, frag := fragment != 0);
      One(Ip4, at, n)
      + Above(m, env, inside, if whole then ByNumber4(Get(m, at + 9)) else None, at + n, size - n, left)
  }

  function ReadIp6(m: Mem, env: Env, c: Around, at: nat, left: nat): seq<Layer>
    decreases left, 2
  {
    var size := Two(m, at + 4);
    if c.ips == 2 || left < 40 || Get(m, at) / 0x10 != 6 || size + 40 > left then []
    else if c.tunnel && !TeredoAddress(m, at + 8) && !TeredoAddress(m, at + 24) then []
    else
      var inside := c.(ips := c.ips + 1, v6 := true, ip := at, upper := Get(m, at + 6));
      One(Ip6, at, 40) + Above(m, env, inside, ByNumber6(Get(m, at + 6)), at + 40, size, left)
  }

  /** An extension of n bytes, and what it announces. The first extension of a packet is remembered. */
  function ReadNext(m: Mem, env: Env, c: Around, at: nat, n: nat, left: nat): seq<Layer>
    requires 0 < n
    decreases left, 1
  {
    var inside := c.(ext := if c.ext == 0 then at else c.ext, upper := Get(m, at));
    if left < n then [] else Above(m, env, inside, ByNumber6(Get(m, at)), at + n, left - n, left)
  }

  /** Options are recorded if they are in order, even where they claim more than there is. */
  function ReadOptions(m: Mem, env: Env, c: Around, p: Proto, at: nat, left: nat): seq<Layer>
    decreases left, 2
  {
    var n := 8 + 8 * Get(m, at + 1);
    if left < 8 then []
    else (if Options(m, at + 2, at + n) then One(p, at, n) else []) + ReadNext(m, env, c, at, n, left)
  }

  function ReadFragment(m: Mem, env: Env, c: Around, at: nat, left: nat): seq<Layer>
    decreases left, 2
  {
    var offset := Two(m, at + 2);
    var frag := c.frag || offset / 8 != 0 || offset % 2 == 1;
    if left <= 8 || (frag && (offset / 8 != 0 || Get(m, at) != 17)) then []
    else ReadNext(m, env, c.(frag := frag), at, 8, left)
  }

  function ReadAh6(m: Mem, env: Env, c: Around, at: nat, left: nat): seq<Layer>
    decreases left, 2
  {
    var n := 8 + 4 * Get(m, at + 1);
    if left < n then [] else One(Ah, at, n) + ReadNext(m, env, c, at, n, left)
  }

  function ReadAh4(m: Mem, env: Env, c: Around, at: nat, left: nat): seq<Layer>
    decreases left, 2
  {
    var n := 8 + 4 * Get(m, at + 1);
    if left < n then []
    else One(Ah, at, n) + Above(m, env, c, ByNumber4(Get(m, at)), at + n, left - n, left)
  }

  // A header of eight bytes; the padding, a trailer of two bytes and twelve bytes of authentication.
  function ReadEsp(m: Mem, env: Env, c: Around, at: nat, left: nat): seq<Layer>
    decreases left, 2
  {
    if left < 22 || Get(m, at + left - 14) >= left - 22 then []
    else
      var padding, next := Get(m, at + left - 14), Get(m, at + left - 13);
      Above(m, env, c.(unsure := true), ByEsp(next), at + 8, left - 22 - padding, left)
  }

  // ---- Tunnels ----

  function ReadGre(m: Mem, env: Env, c: Around, at: nat, left: nat): seq<Layer>
    decreases left, 2
  {
    var n := GreSize(m, at);
    if c.ips == 2 || left < 4 || n.None? || left < n.value then []
    else One(Gre, at, n.value) + Above(m, env, c, ByGre(Two(m, at + 2)), at + n.value, left - n.value, left)
  }

  function ReadErspan(m: Mem, env: Env, c: Around, version: nat, at: nat, left: nat): seq<Layer>
    decreases left, 2
  {
    var n := if version == 2 then 8 else 20;
    if c.ips == 2 || left < n || Get(m, at) / 0x10 != version - 1 then []
    else One(Erspan, at, n) + Read(m, env, c, Plain(Eth), at + n, left - n)
  }

  function ReadUdp(m: Mem, env: Env, c: Around, at: nat, left: nat): seq<Layer>
    decreases left, 2
  {
    if left < 8 || UdpSize(m, c, at) != left || (c.unsure && !UdpSumOk(m, c, at, left)) then []
    else
      One(Udp, at, 8)
      + if c.frag then [] else Read(m, env, c, Teredo(Two(m, at), Two(m, at + 2)), at + 8, left - 8)
  }

  function ReadTeredo(m: Mem, env: Env, c: Around, sp: nat, dp: nat, at: nat, left: nat): seq<Layer>
    decreases left, 4
  {
    var n := Indicators(m, at, left);
    if n.None? || n.value > left || Get(m, at + n.value) / 0x10 != 6 then []
    else
      var inside := c.(tunnel := true, unsure := c.unsure || (sp != 3544 && dp != 3544));
      Read(m, env, inside, Plain(Ip6), at + n.value, left - n.value)
  }

  // ---- Transport ----

  function ReadTcp(m: Mem, at: nat, left: nat): seq<Layer> {
    var n := 4 * (Get(m, at + 12) / 0x10);
    if left < 20 || !(20 <= n <= left) then [] else One(Tcp, at, n)
  }

  function ReadIcmp4(m: Mem, at: nat, left: nat): seq<Layer> {
    var kind := Get(m, at);
    var least := match kind
      case 0 => 8 case 3 => 8 case 4 => 8 case 5 => 8 case 8 => 8 case 9 => 8 case 10 => 8 case 11 => 8 case 12 => 8
      case 13 => 20 case 14 => 20 case 15 => 8 case 16 => 8 case 17 => 12 case 18 => 12 case _ => 4;
    if left < least then [] else One(Icmp4, at, if kind in {0, 3, 4, 5, 8, 11, 12} then 8 else 4)
  }

  function ReadIcmp6(m: Mem, at: nat, left: nat): seq<Layer> {
    var kind := Get(m, at);
    var least := match kind
      case 1 => 4 case 2 => 8 case 3 => 4 case 4 => 4 case 128 => 4 case 129 => 4 case 133 => 4 case 134 => 12
      case _ => 0;
    if left < 4 || kind in {139, 140} || (left - 4) % 0x1_0000 < least then []
    else One(Icmp6, at, if kind in {1, 2, 3, 4, 128, 129} then 8 else 4)
  }
}
