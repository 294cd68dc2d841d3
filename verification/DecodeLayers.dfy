/** The packet decoder, header by header: what each decoder records and which decoder goes on. */
module DecodeLayers {
  import opened Octets
  import opened Checksum

  /** The bytes from the start of the packet on. They may go on past the captured ones. */
  type Mem = seq<Octet>

  function Byte(m: Mem, at: nat): Octet { if at < |m| then m[at] else 0 }

  function U16(m: Mem, at: nat): (r: nat)
    ensures r < 0x1_0000
  {
    Byte(m, at) * 256 + Byte(m, at + 1)
  }

  function High(b: Octet): nat { b / 16 }

  function Low(b: Octet): nat { b % 16 }

  datatype Proto = Eth | Arp | Vlan | Mpls | Pppoe | PppEncap | Ip4 | Ip6 | HopOpts | DstOpts | Ah | Udp | Tcp
                 | Icmp4 | Icmp6 | Gre | Erspan

  datatype Layer = Layer(proto: Proto, start: nat, len: nat)

  const LAYER_MAX := 32

  /** The decoding functions; some take the protocol number that was announced. */
  datatype Decoder = IpD | Ipv4ProtoD(proto: Octet) | Ipv6D | Ipv6OptionsD(kind: Octet) | Ipv6ExtensionsD(next: Octet)
                   | VlanD | MplsD | EthOverMplsD | GreD | AhD | EspD | UdpD | TeredoD | TransBridgingD
                   | ErspanD(version: nat) | PppoeD | PppD | TcpD | IcmpD | Icmp6D | ArpD

  /** A call that is still to be made. A decoder calls at most one other, and all that it does after
      that is to settle two flags. */
  datatype Job = Stop | Call(d: Decoder, at: nat, len: nat)

  /** How deep in IP decoding is: whether there is an address family, whether it is that of an
      encapsulated datagram, and, only observed, how many IP layers were pushed, recorded or not. */
  datatype Nesting = Nesting(family: bool, encapsulated: bool, pushes: nat)

  /** The other fields of the packet that steer the decoding, and whether it is to be trusted unseen.
      v6, iph and next are those of the last IP header, ext is its first extension header or zero. */
  datatype Flags = Flags(eh: nat, frag: bool, teredo: bool, unsure: bool, trust: bool, sp: nat, dp: nat,
                         v6: bool, iph: nat, next: Octet, ext: nat)

  /** A packet. Whether decoding went back to the packet's start is only observed. */
  datatype State = State(mem: Mem, layers: seq<Layer>, rebased: bool, ip: Nesting, f: Flags)

  /** Settings: what MPLS carries without a reserved label, and how many labels it may have. */
  datatype Env = Env(mplsPayload: int, mplsDepth: int)

  datatype Turn = Turn(s: State, job: Job)

  function Done(s: State): Turn { Turn(s, Stop) }

  function Go(s: State, d: Decoder, at: nat, len: nat): Turn { Turn(s, Call(d, at, len)) }

  /** Beyond the last slot a layer is dropped, with a warning. */
  function Push(s: State, proto: Proto, at: nat, len: nat): State {
    if |s.layers| < LAYER_MAX then s.(layers := s.layers + [Layer(proto, at, len % 0x1_0000)]) else s
  }

  function PushIp(s: State, proto: Proto, at: nat, len: nat): State {
    var p := Push(s, proto, at, len);
    p.(ip := p.ip.(pushes := p.ip.pushes + 1))
  }

  function NoIp(s: State): State { s.(ip := s.ip.(family := false)) }

  // ---- Ethernet and what it announces ----

  const IP := 0x0800
  const ARP := 0x0806
  const REVARP := 0x8035
  const VLAN := 0x8100
  const IPV6 := 0x86dd
  const MPLS_UNICAST := 0x8847
  const MPLS_MULTICAST := 0x8848
  const PPPOE_DISC := 0x8863
  const PPPOE_SESS := 0x8864
  const TRANS_BRIDGING := 0x6558
  const PPP := 0x880b
  const ERSPAN2 := 0x88be
  const ERSPAN3 := 0x22eb

  /** The decoder for an ethernet type; loopback and IPX frames are only counted. */
  function EtherNext(s: State, kind: nat, pppoe: bool, mpls: bool, at: nat, len: nat): Turn {
    if kind == IP then Go(s, IpD, at, len)
    else if kind == ARP || kind == REVARP then Go(s, ArpD, at, len)
    else if kind == IPV6 then Go(s, Ipv6D, at, len)
    else if kind == VLAN then Go(s, VlanD, at, len)
    else if pppoe && (kind == PPPOE_DISC || kind == PPPOE_SESS) then Go(s, PppoeD, at, len)
    else if mpls && (kind == MPLS_UNICAST || kind == MPLS_MULTICAST) then Go(s, MplsD, at, len)
    else Done(s)
  }

  function EthTurn(s: State, caplen: nat): Turn {
    if caplen < 14 then Done(s) else EtherNext(Push(s, Eth, 0, 14), U16(s.mem, 12), true, true, 14, caplen - 14)
  }

  function TransBridgingTurn(s: State, at: nat, len: nat): Turn {
    if len < 14 then Done(s)
    else EtherNext(Push(s.(f := s.f.(eh := at)), Eth, at, 14), U16(s.mem, at + 12), false, false, at + 14, len - 14)
  }

  // Goes on at the start of the packet, not after the inner header.
  function EthOverMplsTurn(s: State, at: nat, len: nat): Turn {
    if len < 14 then Done(NoIp(s))
    else
      var p := Push(s.(f := s.f.(eh := at)), Eth, at, 14);
      EtherNext(p.(rebased := true), U16(s.mem, at + 12), true, false, 14, len - 14)
  }

  function ArpTurn(s: State, at: nat, len: nat): Turn {
    if len < 28 then Done(s) else Done(Push(s, Arp, at, 28))
  }

  function VlanTurn(s: State, at: nat, len: nat): Turn {
    if len < 4 then Done(NoIp(s))
    else if U16(s.mem, at + 2) > 1518 then
      EtherNext(Push(s, Vlan, at, 4), U16(s.mem, at + 2), true, true, at + 4, len - 4)
    else if len < 6 then Done(NoIp(s))
    else if Byte(s.mem, at + 4) != 0xaa || Byte(s.mem, at + 5) != 0xaa then Done(s)
    else if len < 12 then Done(NoIp(s))
    else EtherNext(Push(s, Vlan, at, 4).(rebased := true), U16(s.mem, at + 10), true, true, 12, len - 12)
  }

  // ---- MPLS ----

  datatype Labels = Bad | Bottom(end: nat, payload: int)

  /** Peels labels off, up to and including the bottom of the stack. The chain counter is a byte. */
  function PeelLabels(m: Mem, env: Env, at: nat, left: nat, chain: nat): (r: Labels)
    ensures r.Bottom? ==> at + 4 <= r.end <= at + left && (r.end - at) % 4 == 0
    decreases left
  {
    if left < 4 then Bad
    else
      var tag, bos := Byte(m, at) * 4096 + Byte(m, at + 1) * 16 + Byte(m, at + 2) / 16, Byte(m, at + 2) % 2 == 1;
      if tag == 3 || (tag == 1 && bos) || (env.mplsDepth != -1 && chain >= env.mplsDepth) then Bad
      else if bos then Bottom(at + 4, if tag == 0 then 1 else if tag == 2 then 3 else env.mplsPayload)
      else PeelLabels(m, env, at + 4, left - 4, (chain + 1) % 256)
  }

  function MplsTurn(s: State, env: Env, at: nat, len: nat): Turn {
    match PeelLabels(s.mem, env, at, len, 0)
    case Bad => Done(NoIp(s))
    case Bottom(end, payload) =>
      var p, left := Push(s, Mpls, at, end - at), at + len - end;
      if payload == 1 then Go(p, IpD, end, left)
      else if payload == 3 then Go(p, Ipv6D, end, left)
      else if payload == 2 then Go(p, EthOverMplsD, end, left)
      else Done(p)
  }

  // ---- PPP ----

  function PppoeTurn(s: State, at: nat, len: nat): Turn {
    if len < 6 || U16(s.mem, s.f.eh + 12) != PPPOE_SESS then Done(s)
    else Go(Push(s, Pppoe, at, 6), PppD, at + 6, len - 6)
  }

  // Only TCP is sent with a VJ header: the protocol field is put back.
  function Patch(m: Mem, at: nat, b: Octet): Mem { if at < |m| then m[at := b] else m }

  // An odd first byte is a whole, compressed protocol number.
  function PppLength(m: Mem, at: nat): nat { if Byte(m, at) % 2 == 1 then 1 else 2 }

  function PppProtocol(m: Mem, at: nat): nat { if Byte(m, at) % 2 == 1 then Byte(m, at) else U16(m, at) }

  function PppTurn(s: State, at: nat, len: nat): Turn {
    var n, protocol := PppLength(s.mem, at), PppProtocol(s.mem, at);
    if len < 2 || (protocol == 0x2f && len < n + 20) then Done(s)
    else
      var patched := if protocol == 0x2f then s.(mem := Patch(s.mem, at + n + 9, 6)) else s;
      var p := Push(patched, PppEncap, at, n);
      if protocol == 0x2f || protocol == 0x21 then Go(p, IpD, at + n, len - n)
      else if protocol == 0x57 then Go(p, Ipv6D, at + n, len - n)
      else if protocol == 0x2b then Done(p)
      else Done(s)
  }

  // ---- IP version 4 ----

  function Ipv4ProtoTurn(s: State, proto: Octet, at: nat, len: nat): Turn {
    if proto == 6 then Go(s, TcpD, at, len)
    else if proto == 17 then Go(s, UdpD, at, len)
    else if proto == 1 then Go(s, IcmpD, at, len)
    else if proto == 41 then Go(s, Ipv6D, at, len)
    else if proto == 47 then Go(s, GreD, at, len)
    else if proto == 4 then Go(s, IpD, at, len)
    else if proto == 50 then Go(s, EspD, at, len)
    else if proto == 51 then Go(s, AhD, at, len)
    else Done(s)
  }

  // The second IP layer is the last.
  function Enter(s: State): State { if s.ip.family then s.(ip := s.ip.(encapsulated := true)) else s }

  function IpTurn(s: State, at: nat, len: nat): Turn {
    if len < 20 then Done(NoIp(s))
    else if s.ip.family && s.ip.encapsulated then Done(s)
    else IpHeaderTurn(Enter(s), at, len)
  }

  function FragOffset(m: Mem, at: nat): nat { U16(m, at + 6) % 0x2000 }

  predicate IsFragment(m: Mem, at: nat) { FragOffset(m, at) != 0 || U16(m, at + 6) / 0x2000 % 2 == 1 }

  // A first fragment still shows the UDP header.
  predicate FirstUdp(m: Mem, at: nat) { FragOffset(m, at) == 0 && Byte(m, at + 9) == 17 }

  // What building the IP view of a header sets.
  function Accept(s: State, v6: bool, at: nat): State {
    s.(ip := s.ip.(family := true), f := s.f.(v6 := v6, iph := at))
  }

  function SetFrag(s: State, frag: bool): State { s.(f := s.f.(frag := frag)) }

  function IpHeaderTurn(s: State, at: nat, len: nat): Turn {
    var m := s.mem;
    var hlen, ipLen := 4 * Low(Byte(m, at)), U16(m, at + 2);
    if High(Byte(m, at)) != 4 then Done(NoIp(s))
    else if hlen < 20 || ipLen > len || ipLen < hlen then Done(NoIp(Accept(s, false, at)))
    else
      var frag := IsFragment(m, at);
      var p := SetFrag(PushIp(Accept(s, false, at), Ip4, at, hlen), frag);
      if !frag || FirstUdp(m, at) then Go(p, Ipv4ProtoD(Byte(m, at + 9)), at + hlen, ipLen - hlen) else Done(p)
  }

  function AhTurn(s: State, at: nat, len: nat): Turn {
    var n := 8 + 4 * Byte(s.mem, at + 1);
    if len < 8 || n > len then Done(s) else Go(Push(s, Ah, at, n), Ipv4ProtoD(Byte(s.mem, at)), at + n, len - n)
  }

  function EspNext(s: State, next: Octet, at: nat, len: nat): Turn {
    if next == 4 then Go(s, IpD, at, len)
    else if next == 41 then Go(s, Ipv6D, at, len)
    else if next == 6 then Go(s, TcpD, at, len)
    else if next == 17 then Go(s, UdpD, at, len)
    else if next == 1 then Go(s, IcmpD, at, len)
    else if next == 47 then Go(s, GreD, at, len)
    else Done(s)
  }

  // The trailer says how much padding there is and what the payload, if it is not encrypted, holds.
  function EspTurn(s: State, at: nat, len: nat): Turn {
    if len < 22 then Done(s)
    else
      var n := len - 22;
      var padding, next := Byte(s.mem, at + 8 + n), Byte(s.mem, at + 8 + n + 1);
      if padding >= n then Done(s.(f := s.f.(trust := true)))
      else
        var t := EspNext(s.(f := s.f.(unsure := true)), next, at + 8, n - padding);
        if t.job.Call? then t else Done(s.(f := s.f.(unsure := false, trust := true)))
  }

  // ---- IP version 6 ----

  predicate Prefix(m: Mem, at: nat) {
    || (Byte(m, at) == 0x20 && Byte(m, at + 1) == 0x01 && Byte(m, at + 2) == 0 && Byte(m, at + 3) == 0)
    || (Byte(m, at) == 0xfe && Byte(m, at + 1) == 0x80 && forall i :: at + 2 <= i < at + 8 ==> Byte(m, i) == 0)
  }

  function NoTeredo(s: State): State { s.(f := s.f.(teredo := false)) }

  function Ipv6Turn(s: State, at: nat, len: nat): Turn {
    if len < 40 || High(Byte(s.mem, at)) != 6 || (s.ip.family && s.ip.encapsulated) then Done(NoTeredo(s))
    else Ipv6HeaderTurn(Enter(s), at, len)
  }

  function Ipv6HeaderTurn(s: State, at: nat, len: nat): Turn
    requires len >= 40
  {
    var payload := U16(s.mem, at + 4);
    if payload + 40 > len || (s.f.teredo && !Prefix(s.mem, at + 8) && !Prefix(s.mem, at + 24)) then Done(NoTeredo(s))
    else Go(PushIp(Accept(s, true, at), Ip6, at, 40), Ipv6ExtensionsD(Byte(s.mem, at + 6)), at + 40, payload)
  }

  function Ipv6ExtensionsTurn(s: State, next: Octet, at: nat, len: nat): Turn {
    var e := s.(f := s.f.(next := next));
    if next == 6 then Go(e, TcpD, at, len)
    else if next == 17 then Go(e, UdpD, at, len)
    else if next == 58 then Go(e, Icmp6D, at, len)
    else if next == 0 || next == 60 || next == 43 || next == 44 || next == 51 then Go(e, Ipv6OptionsD(next), at, len)
    else if next == 47 then Go(e, GreD, at, len)
    else if next == 4 then Go(e, IpD, at, len)
    else if next == 41 then Go(e, Ipv6D, at, len)
    else if next == 50 then Go(e, EspD, at, len)
    else Done(e)
  }

  function OptionsLength(m: Mem, kind: Octet, at: nat): (n: nat)
    ensures n >= 8
  {
    if kind == 44 then 8 else if kind == 51 then 8 + 4 * Byte(m, at + 1) else 8 + 8 * Byte(m, at + 1)
  }

  function Fragmented(s: State, at: nat): State {
    SetFrag(s, s.f.frag || U16(s.mem, at + 2) / 8 != 0 || U16(s.mem, at + 2) % 2 == 1)
  }

  /** The scan of hop and destination options up to the end the header claims, which may lie past
      the bytes that are left: padding and the known kinds, each inside that end. */
  predicate HopScan(m: Mem, at: nat, end: nat)
    decreases end - at
  {
    if at >= end then true
    else if Byte(m, at) == 0 then HopScan(m, at + 1, end)
    else
      Byte(m, at) in {1, 4, 5, 6, 7, 0x8a, 0xc2, 0xc9}
      && at + 2 + Byte(m, at + 1) <= end && HopScan(m, at + 2 + Byte(m, at + 1), end)
  }

  predicate HopsOk(m: Mem, at: nat) { HopScan(m, at + 2, at + 8 + 8 * Byte(m, at + 1)) }

  // Routing and fragment headers are passed over without a layer of their own.
  function OptionsRecorded(s: State, kind: Octet, at: nat, len: nat): State {
    var n := OptionsLength(s.mem, kind, at);
    if kind == 0 && HopsOk(s.mem, at) then Push(s, HopOpts, at, n)
    else if kind == 60 && HopsOk(s.mem, at) then Push(s, DstOpts, at, n)
    else if kind == 51 && n <= len then Push(s, Ah, at, n)
    else s
  }

  // Only the first extension header is remembered.
  function Remember(s: State, at: nat): State { if s.f.ext == 0 then s.(f := s.f.(ext := at)) else s }

  function Ipv6OptionsTurn(s: State, kind: Octet, at: nat, len: nat): Turn {
    var n, e := OptionsLength(s.mem, kind, at), Remember(s, at);
    var f := Fragmented(e, at);
    if len < 8 then Done(s)
    else if kind == 44 && len == 8 then Done(e)
    else if kind == 44 && f.f.frag && (U16(s.mem, at + 2) / 8 > 0 || Byte(s.mem, at) != 17) then Done(f)
    else
      var p := if kind == 44 then f else OptionsRecorded(e, kind, at, len);
      if n > len then Done(p) else Go(p, Ipv6ExtensionsD(Byte(s.mem, at)), at + n, len - n)
  }

  // ---- GRE ----

  /** Walks the source route entries; the result may lie past the end, which the caller checks. */
  function RouteEnd(m: Mem, at: nat, hlen: nat, len: nat): (r: nat)
    ensures r >= hlen + 4
    decreases len - hlen
  {
    if hlen + 4 > len || (U16(m, at + hlen) == 0 && Byte(m, at + hlen + 3) == 0) then hlen + 4
    else RouteEnd(m, at, hlen + 4 + Byte(m, at + hlen + 3), len)
  }

  /** The length of a GRE header by its version and flags, if they are acceptable. */
  function GreLength(m: Mem, at: nat, len: nat): (n: int)
    ensures n < 0 || n >= 4
  {
    var flags, version := Byte(m, at), Byte(m, at + 1);
    var checksum, route, key, seqn := flags / 128 == 1, flags / 64 % 2 == 1, flags / 32 % 2 == 1, flags / 16 % 2 == 1;
    var both := 4 + (if key then 4 else 0) + (if seqn then 4 else 0);
    if version % 8 == 0 then
      var n := both + if checksum || route then 4 else 0;
      if flags % 8 != 0 || version / 8 != 0 then -1 else if route then RouteEnd(m, at, n, len) else n
    else if version % 8 == 1 then
      if checksum || route || flags % 16 != 0 || version / 8 % 16 != 0 || U16(m, at + 2) != PPP || !key then -1
      else both + if version / 128 == 1 then 4 else 0
    else -1
  }

  function GreTurn(s: State, at: nat, len: nat): Turn {
    var n, kind := GreLength(s.mem, at, len), U16(s.mem, at + 2);
    if len < 4 || s.ip.encapsulated || n < 0 || n > len then Done(s)
    else
      var p, to, left := Push(s, Gre, at, n), at + n, len - n;
      if kind == IP then Go(p, IpD, to, left)
      else if kind == TRANS_BRIDGING then Go(p, TransBridgingD, to, left)
      else if kind == ARP || kind == REVARP then Go(NoIp(p), ArpD, to, left)
      else if kind == IPV6 then Go(p, Ipv6D, to, left)
      else if kind == PPP then Go(p, PppD, to, left)
      else if kind == ERSPAN2 then Go(p, ErspanD(2), to, left)
      else if kind == ERSPAN3 then Go(p, ErspanD(3), to, left)
      else if kind == VLAN then Go(p, VlanD, to, left)
      else Done(p)
  }

  function ErspanTurn(s: State, version: nat, at: nat, len: nat): Turn {
    var n := if version == 2 then 8 else 20;
    if len < n || s.ip.encapsulated || High(Byte(s.mem, at)) != version - 1 then Done(s)
    else Go(Push(s, Erspan, at, n), TransBridgingD, at + n, len - n)
  }

  // ---- Transport ----

  function Bytes(m: Mem, at: nat, n: nat): (r: seq<Octet>)
    ensures |r| == n
  {
    seq<Octet>(n, i requires 0 <= i < n => Byte(m, at + i))
  }

  /** The length that a UDP datagram should have, as 16 bits: its own field, or, in a fragment, what
      the IP header leaves from here on. */
  function UdpLength(s: State, at: nat): (n: nat)
    ensures n < 0x1_0000
  {
    if !s.f.frag then U16(s.mem, at + 4)
    else if s.f.v6 then (U16(s.mem, s.f.iph + 4) - (at - s.f.ext)) % 0x1_0000
    else (U16(s.mem, s.f.iph + 2) - 4 * Low(Byte(s.mem, s.f.iph))) % 0x1_0000
  }

  /** Addresses, protocol and length, from the last IP header. */
  function PseudoHeader(s: State, at: nat, len: nat): (h: seq<Octet>)
    ensures |h| == if s.f.v6 then 36 else 12
  {
    if s.f.v6 then Bytes(s.mem, s.f.iph + 8, 32) + [0, s.f.next, len % 0x1_0000 / 256, len % 256]
    else Bytes(s.mem, s.f.iph + 12, 8) + [0, Byte(s.mem, s.f.iph + 9)] + Bytes(s.mem, at + 4, 2)
  }

  /** A checksum that does not verify. A zero field means none, which IPv6 does not allow; a
      fragment is not checked. Either byte order of the host gives the same answer (HostsAgree). */
  predicate BadUdpSum(s: State, at: nat, len: nat) {
    var stored := U16(s.mem, at + 6);
    if s.f.v6 && stored == 0 then true
    else !s.f.frag && stored != 0 && Computed(Words(true, PseudoHeader(s, at, len) + Bytes(s.mem, at, len))) != 0
  }

  function UdpTurn(s: State, at: nat, len: nat): Turn {
    var uhlen := UdpLength(s, at);
    if len < 8 || uhlen < 8 || uhlen != len || (BadUdpSum(s, at, len) && s.f.unsure) then Done(s)
    else
      var p := Push(s.(f := s.f.(sp := U16(s.mem, at), dp := U16(s.mem, at + 2))), Udp, at, 8);
      if s.f.frag then Done(p) else Go(p, TeredoD, at + 8, len - 8)
  }

  // Where an IPv6 datagram would start, behind the indicators.
  function TeredoStart(m: Mem, at: nat, len: nat): (skip: nat)
    ensures skip > len || (len >= 2 && skip <= len)
  {
    var auth := if U16(m, at) == 1 then 13 + Byte(m, at + 2) + Byte(m, at + 3) else 0;
    if len < 2 || (U16(m, at) == 1 && len < 13) || len < auth then len + 1
    else if U16(m, at + auth) != 0 then auth
    else if len - auth < 8 then len + 1
    else auth + 8
  }

  function TeredoTurn(s: State, at: nat, len: nat): Turn {
    var skip := TeredoStart(s.mem, at, len);
    if skip > len || High(Byte(s.mem, at + skip)) != 6 then Done(s)
    else
      var unsure := s.f.unsure || (s.f.sp != 3544 && s.f.dp != 3544);
      Go(s.(f := s.f.(teredo := true, unsure := unsure)), Ipv6D, at + skip, len - skip)
  }

  function TcpTurn(s: State, at: nat, len: nat): Turn {
    var n := 4 * High(Byte(s.mem, at + 12));
    if len < 20 || n < 20 || n > len then Done(s)
    else Done(Push(s.(f := s.f.(sp := U16(s.mem, at), dp := U16(s.mem, at + 2))), Tcp, at, n))
  }

  function IcmpTurn(s: State, at: nat, len: nat): Turn {
    var kind := Byte(s.mem, at);
    var least := if kind in {0, 3, 4, 5, 8, 9, 10, 11, 12, 15, 16} then 8
                 else if kind in {13, 14} then 20 else if kind in {17, 18} then 12 else 4;
    if len < 4 || len < least then Done(s)
    else Done(Push(s, Icmp4, at, if kind in {0, 3, 4, 5, 8, 11, 12} then 8 else 4))
  }

  function Icmp6Turn(s: State, at: nat, len: nat): Turn {
    var kind := Byte(s.mem, at);
    var least := if kind in {1, 3, 4, 128, 129, 133} then 4 else if kind == 2 then 8 else if kind == 134 then 12 else 0;
    if len < 4 || (len - 4) % 0x1_0000 < least || kind in {139, 140} then Done(s)
    else Done(Push(s, Icmp6, at, if kind in {1, 2, 3, 4, 128, 129} then 8 else 4))
  }

  // ---- The whole decoding ----

  function Next(s: State, env: Env, d: Decoder, at: nat, len: nat): Turn {
    match d
    case IpD => IpTurn(s, at, len)
    case Ipv4ProtoD(proto) => Ipv4ProtoTurn(s, proto, at, len)
    case Ipv6D => Ipv6Turn(s, at, len)
    case Ipv6OptionsD(kind) => Ipv6OptionsTurn(s, kind, at, len)
    case Ipv6ExtensionsD(next) => Ipv6ExtensionsTurn(s, next, at, len)
    case VlanD => VlanTurn(s, at, len)
    case MplsD => MplsTurn(s, env, at, len)
    case EthOverMplsD => EthOverMplsTurn(s, at, len)
    case GreD => GreTurn(s, at, len)
    case AhD => AhTurn(s, at, len)
    case EspD => EspTurn(s, at, len)
    case UdpD => UdpTurn(s, at, len)
    case TeredoD => TeredoTurn(s, at, len)
    case TransBridgingD => TransBridgingTurn(s, at, len)
    case ErspanD(version) => ErspanTurn(s, version, at, len)
    case PppoeD => PppoeTurn(s, at, len)
    case PppD => PppTurn(s, at, len)
    case TcpD => TcpTurn(s, at, len)
    case IcmpD => IcmpTurn(s, at, len)
    case Icmp6D => Icmp6Turn(s, at, len)
    case ArpD => ArpTurn(s, at, len)
  }

  /** Dispatchers call on without consuming anything. */
  function Rank(d: Decoder): nat {
    if d.Ipv4ProtoD? || d.Ipv6ExtensionsD? || d.TeredoD? then 1 else 0
  }

  /** Every turn of the mutual recursion consumes bytes or goes down in rank. */
  lemma TurnDecreases(s: State, env: Env, d: Decoder, at: nat, len: nat)
    ensures var job := Next(s, env, d, at, len).job;
            job.Call? ==> job.len < len || (job.len == len && Rank(job.d) < Rank(d))
  {
    hide Push, U16, High, Prefix, PeelLabels, GreLength, TeredoStart, Patch;
  }

  /** What a decoder does when its call returns: the mark of an uncertain encapsulation is cleared,
      and ESP that led to no new layer is taken for encrypted. */
  function Settle(s: State, d: Decoder, after: State): State {
    if d.TeredoD? then after.(f := after.f.(unsure := false))
    else if d.EspD? then after.(f := after.f.(unsure := false, trust := after.f.trust || |after.layers| == |s.layers|))
    else after
  }

  function Run(s: State, env: Env, job: Job): State
    decreases if job.Call? then job.len + 1 else 0, if job.Call? then Rank(job.d) else 0
  {
    match job
    case Stop => s
    case Call(d, at, len) =>
      TurnDecreases(s, env, d, at, len);
      var t := Next(s, env, d, at, len);
      if t.job.Stop? then t.s else Settle(s, d, Run(t.s, env, t.job))
  }

  /** An ethernet frame, from a cleared packet. */
  function Fresh(m: Mem): State {
    State(m, [], false, Nesting(false, false, 0), Flags(0, false, false, false, false, 0, 0, false, 0, 0, 0))
  }

  function DecodeFrame(m: Mem, env: Env, caplen: nat): State {
    var t := EthTurn(Fresh(m), caplen);
    Run(t.s, env, t.job)
  }
}
