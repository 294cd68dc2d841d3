/** What holds of every decoded frame: where its layers lie, how they follow each other, how many. */
module DecodeSafety {
  import opened DecodeLayers
  import opened Octets

  // ---- What a layer announces ----

  /** The layers that belong to IP and can be recorded after a header that is not. */
  const INNER: set<Proto> := {Tcp, Udp, Icmp4, Icmp6, Ip4, Ip6, Gre, Ah, HopOpts, DstOpts}

  /** What may follow a protocol number. ESP, routing and fragment headers have no layer of their
      own, and hop and destination options have one only if their scan succeeds. */
  function ByProto(p: Octet): set<Proto> {
    if p == 6 then {Tcp} else if p == 17 then {Udp} else if p == 1 then {Icmp4} else if p == 58 then {Icmp6}
    else if p == 41 then {Ip6} else if p == 4 then {Ip4} else if p == 47 then {Gre} else if p == 51 then {Ah}
    else if p == 50 then {Ip4, Ip6, Tcp, Udp, Icmp4, Gre}
    else if p in {0, 60, 43, 44} then INNER
    else {}
  }

  function ByEther(kind: nat): set<Proto> {
    if kind == IP then {Ip4} else if kind == IPV6 then {Ip6} else if kind in {ARP, REVARP} then {Arp}
    else if kind == VLAN then {Vlan} else if kind in {PPPOE_DISC, PPPOE_SESS} then {Pppoe}
    else if kind in {MPLS_UNICAST, MPLS_MULTICAST} then {Mpls}
    else {}
  }

  function ByPpp(protocol: nat): set<Proto> {
    if protocol in {0x21, 0x2f} then {Ip4} else if protocol == 0x57 then {Ip6} else {}
  }

  /** The protocols that the header of a layer allows for the next one. */
  function Announced(m: Mem, l: Layer): set<Proto> {
    match l.proto
    case Eth => ByEther(U16(m, l.start + 12))
    case Vlan => ByEther(U16(m, l.start + 2))
    case Mpls => {Ip4, Ip6, Eth}
    case Pppoe => {PppEncap}
    case PppEncap => ByPpp(PppProtocol(m, l.start))
    case Gre =>
      var kind := U16(m, l.start + 2);
      if kind == TRANS_BRIDGING then {Eth} else if kind == PPP then {PppEncap}
      else if kind in {ERSPAN2, ERSPAN3} then {Erspan} else ByEther(kind)
    case Erspan => {Eth}
    case Ip4 => ByProto(Byte(m, l.start + 9))
    case Ip6 => ByProto(Byte(m, l.start + 6))
    case HopOpts => ByProto(Byte(m, l.start))
    case DstOpts => ByProto(Byte(m, l.start))
    case Ah => ByProto(Byte(m, l.start))
    case Udp => {Ip6}
    case _ => {}
  }

  /** What the header of a layer says about itself. */
  predicate Lawful(m: Mem, l: Layer) {
    match l.proto
    case Ip4 => High(Byte(m, l.start)) == 4 && l.len == 4 * Low(Byte(m, l.start)) && l.len >= 20
    case Ip6 => High(Byte(m, l.start)) == 6 && l.len == 40
    case Tcp => l.len == 4 * High(Byte(m, l.start + 12)) && l.len >= 20
    case Udp => l.len == 8
    case Eth => l.len == 14
    case Vlan => l.len == 4
    case Arp => l.len == 28
    case Ah => l.len == 8 + 4 * Byte(m, l.start + 1)
    case HopOpts => l.len == OptionsClaim(m, l.start)
    case DstOpts => l.len == OptionsClaim(m, l.start)
    case Pppoe => l.len == 6
    case PppEncap => l.len == PppLength(m, l.start)
    case Mpls => l.len == (StackEnd(m, l.start) - l.start) % 0x1_0000
    case Gre => l.len == GreClaim(m, l.start) % 0x1_0000
    case Erspan => l.len == if High(Byte(m, l.start)) == 1 then 8 else 20
    case Icmp4 => l.len == if Byte(m, l.start) in {0, 3, 4, 5, 8, 11, 12} then 8 else 4
    case Icmp6 => l.len == if Byte(m, l.start) in {1, 2, 3, 4, 128, 129} then 8 else 4
  }

  /** Where a label stack ends: behind the first label that is marked as its bottom. */
  function StackEnd(m: Mem, at: nat): (end: nat)
    ensures end >= at
    decreases |m| - at
  {
    if at >= |m| then at else if Byte(m, at + 2) % 2 == 1 then at + 4 else StackEnd(m, at + 4)
  }

  /** Where source routes end: behind the first empty entry. */
  function RouteStop(m: Mem, at: nat, hlen: nat): (n: nat)
    ensures n >= hlen + 4
    decreases |m| - at - hlen
  {
    if at + hlen >= |m| || (U16(m, at + hlen) == 0 && Byte(m, at + hlen + 3) == 0) then hlen + 4
    else RouteStop(m, at, hlen + 4 + Byte(m, at + hlen + 3))
  }

  /** The length that a GRE header claims for itself: that of its flags and of its source routes. */
  function GreClaim(m: Mem, at: nat): (n: nat)
    ensures n >= 4
  {
    if Byte(m, at) / 64 % 2 == 0 then
      var n := GreLength(m, at, 0);
      if n < 4 then 4 else n
    else RouteStop(m, at, 8 + 4 * (Byte(m, at) / 32 % 2) + 4 * (Byte(m, at) / 16 % 2))
  }

  /** The length that a hop or destination options header claims for itself. */
  function OptionsClaim(m: Mem, at: nat): nat { 8 + 8 * Byte(m, at + 1) }

  /** The end that an IP header sets for everything inside it. */
  function Extent(m: Mem, l: Layer, caplen: nat): nat {
    if l.proto == Ip4 then l.start + U16(m, l.start + 2)
    else if l.proto == Ip6 then l.start + 40 + U16(m, l.start + 4)
    else caplen
  }

  /** The claim of a hop or destination options header is not compared with the bytes that are left
      before its layer is recorded. If it is larger, decoding stops, so that layer is the last. */
  predicate Loose(m: Mem, l: Layer) { (l.proto == HopOpts || l.proto == DstOpts) && l.len == OptionsClaim(m, l.start) }

  predicate Fits(m: Mem, layers: seq<Layer>, k: nat, end: nat)
    requires k < |layers|
  {
    layers[k].start + layers[k].len <= end || (k == |layers| - 1 && Loose(m, layers[k]))
  }

  /** Each layer starts where the one before it ends, or later, and is one that the header of that
      one announces. */
  predicate Linked(m: Mem, layers: seq<Layer>) {
    && (forall k :: 0 <= k < |layers| ==> Lawful(m, layers[k]))
    && (forall k {:trigger layers[k]} :: 0 < k < |layers| ==>
          && layers[k - 1].start + layers[k - 1].len <= layers[k].start
          && layers[k].proto in Announced(m, layers[k - 1]))
  }

  /** All layers lie inside the captured bytes. */
  predicate Inside(layers: seq<Layer>, caplen: nat) {
    forall k :: 0 <= k < |layers| ==> layers[k].start + layers[k].len <= caplen
  }

  /** Each layer lies inside every IP datagram around it. */
  predicate Enclosed(m: Mem, layers: seq<Layer>, caplen: nat) {
    forall j, k :: 0 <= j < k < |layers| ==> layers[k].start + layers[k].len <= Extent(m, layers[j], caplen)
  }

  /** The same, but for a last layer that is an options header. */
  predicate NearlyEnclosed(m: Mem, layers: seq<Layer>, caplen: nat) {
    forall j, k :: 0 <= j < k < |layers| ==> Fits(m, layers, k, Extent(m, layers[j], caplen))
  }

  /** A decoded packet. Frames whose decoding went back to the packet's start keep only the bounds. */
  predicate Parsed(s: State, caplen: nat) {
    && |s.layers| <= LAYER_MAX
    && (forall k :: 0 <= k < |s.layers| ==> Fits(s.mem, s.layers, k, caplen))
    && (!s.rebased ==> Linked(s.mem, s.layers) && NearlyEnclosed(s.mem, s.layers, caplen))
  }

  predicate Settled(s: State, caplen: nat) {
    && Parsed(s, caplen) && Inside(s.layers, caplen)
    && (!s.rebased ==> Enclosed(s.mem, s.layers, caplen))
  }

  // ---- The invariant between two turns ----

  // The bytes of a header that the definitions above look at.
  function Head(m: Mem, l: Layer): nat {
    match l.proto
    case Eth => 14
    case Vlan => 4
    case Mpls => StackEnd(m, l.start) - l.start
    case PppEncap => PppLength(m, l.start)
    case Gre => GreClaim(m, l.start)
    case Ip4 => 20
    case Ip6 => 40
    case Tcp => 20
    case HopOpts => 8
    case DstOpts => 8
    case Ah => 8
    case Erspan => 8
    case Icmp4 => 4
    case Icmp6 => 4
    case _ => 0
  }

  predicate Behind(m: Mem, l: Layer, at: nat, len: nat, caplen: nat) {
    && l.start + l.len <= at && l.start + Head(m, l) <= at
    && l.start + l.len <= caplen && at + len <= Extent(m, l, caplen)
  }

  /** What a decoder may record first. */
  function First(d: Decoder): set<Proto> {
    match d
    case IpD => {Ip4}
    case Ipv4ProtoD(proto) => ByProto(proto)
    case Ipv6D => {Ip6}
    case Ipv6OptionsD(kind) => if kind == 51 then {Ah} else INNER
    case Ipv6ExtensionsD(next) => ByProto(next)
    case VlanD => {Vlan}
    case MplsD => {Mpls}
    case EthOverMplsD => {Eth}
    case GreD => {Gre}
    case AhD => {Ah}
    case EspD => ByProto(50)
    case UdpD => {Udp}
    case TeredoD => {Ip6}
    case TransBridgingD => {Eth}
    case ErspanD(_) => {Erspan}
    case PppoeD => {Pppoe}
    case PppD => {PppEncap}
    case TcpD => {Tcp}
    case IcmpD => {Icmp4}
    case Icmp6D => {Icmp6}
    case ArpD => {Arp}
  }

  /** All the bytes at hand are captured, all layers are behind them, and the last one, unless it
      is the last there is room for, announces whatever may be recorded now. */
  predicate Ready(s: State, caplen: nat, first: set<Proto>, at: nat, len: nat) {
    && at + len <= caplen && |s.layers| <= LAYER_MAX
    && Inside(s.layers, caplen)
    && (!s.rebased ==>
          && Linked(s.mem, s.layers) && Enclosed(s.mem, s.layers, caplen)
          && (forall k :: 0 <= k < |s.layers| ==> Behind(s.mem, s.layers[k], at, len, caplen))
          && (0 < |s.layers| < LAYER_MAX ==> first <= Announced(s.mem, s.layers[|s.layers| - 1])))
  }

  lemma ReadyIsSettled(s: State, caplen: nat, first: set<Proto>, at: nat, len: nat)
    requires Ready(s, caplen, first, at, len)
    ensures Settled(s, caplen)
  {
    hide Linked, Extent, Lawful;
  }

  /** Going on inside the bytes at hand, with nothing recorded. */
  lemma ReadyInside(s: State, caplen: nat, first: set<Proto>, at: nat, len: nat, narrower: set<Proto>, to: nat,
                    left: nat)
    requires Ready(s, caplen, first, at, len)
    requires narrower <= first && at <= to && to + left <= at + len
    ensures Ready(s, caplen, narrower, to, left)
  {
    hide Linked, Enclosed, Announced, Head, Extent;
  }

  /** Recording a layer at the front of the bytes at hand, and going on inside it. */
  lemma ReadyPush(s: State, caplen: nat, first: set<Proto>, at: nat, len: nat, proto: Proto, n: nat, to: nat, left: nat)
    requires Ready(s, caplen, first, at, len) && proto in first && n <= len
    requires var l := Layer(proto, at, n % 0x1_0000);
      Lawful(s.mem, l) && Head(s.mem, l) <= n && (proto.Ip4? || proto.Ip6? ==> to + left <= Extent(s.mem, l, caplen))
    requires at + n <= to && to + left <= at + len
    ensures Ready(Push(s, proto, at, n), caplen, Announced(s.mem, Layer(proto, at, n % 0x1_0000)), to, left)
  {
    hide Announced, Head, Extent, Lawful, Linked, Enclosed;
    var l := Layer(proto, at, n % 0x1_0000);
    assert l.len <= n;
    ExtentOthers(s.mem, l, caplen);
    if |s.layers| < LAYER_MAX {
      if !s.rebased {
        LinkedPush(s.mem, s.layers, l);
        EnclosedPush(s.mem, s.layers, l, caplen);
      }
    } else {
      ReadyInside(s, caplen, first, at, len, {}, to, left);
    }
  }

  lemma ExtentOthers(m: Mem, l: Layer, caplen: nat)
    ensures !l.proto.Ip4? && !l.proto.Ip6? ==> Extent(m, l, caplen) == caplen
  {
  }

  lemma LinkedPush(m: Mem, layers: seq<Layer>, l: Layer)
    requires Linked(m, layers) && Lawful(m, l)
    requires |layers| > 0 ==>
      var last := layers[|layers| - 1];
      last.start + last.len <= l.start && l.proto in Announced(m, last)
    ensures Linked(m, layers + [l])
  {
    hide Announced, Lawful;
    var more := layers + [l];
    forall k | 0 < k < |more|
      ensures more[k - 1].start + more[k - 1].len <= more[k].start && more[k].proto in Announced(m, more[k - 1])
    {
      assert more[k - 1] == layers[k - 1];
      assert k < |layers| ==> more[k] == layers[k];
    }
  }

  lemma EnclosedPush(m: Mem, layers: seq<Layer>, l: Layer, caplen: nat)
    requires Enclosed(m, layers, caplen)
    requires forall k :: 0 <= k < |layers| ==> l.start + l.len <= Extent(m, layers[k], caplen)
    ensures Enclosed(m, layers + [l], caplen)
  {
    hide Extent;
  }

  lemma ReadySame(s: State, s': State, caplen: nat, first: set<Proto>, at: nat, len: nat)
    requires Ready(s, caplen, first, at, len)
    requires s'.mem == s.mem && s'.layers == s.layers && s'.rebased == s.rebased
    ensures Ready(s', caplen, first, at, len)
  {
    hide Linked, Enclosed, Behind, Announced;
  }

  // The last layer of a packet.
  lemma PushLast(s: State, caplen: nat, first: set<Proto>, at: nat, len: nat, proto: Proto, n: nat)
    requires Ready(s, caplen, first, at, len) && proto in first && n <= len
    requires var l := Layer(proto, at, n % 0x1_0000);
      Lawful(s.mem, l) && Head(s.mem, l) <= n && !l.proto.Ip4? && !l.proto.Ip6?
    ensures Settled(Push(s, proto, at, n), caplen)
  {
    hide Announced, Head, Lawful, Ready, Settled;
    ReadyPush(s, caplen, first, at, len, proto, n, at + n, 0);
    ReadyIsSettled(Push(s, proto, at, n), caplen, Announced(s.mem, Layer(proto, at, n % 0x1_0000)), at + n, 0);
  }

  // An options header that claims more than there is.
  lemma PushLoose(s: State, caplen: nat, at: nat, len: nat, proto: Proto, n: nat)
    requires Ready(s, caplen, INNER, at, len) && (proto == HopOpts || proto == DstOpts) && n == OptionsClaim(s.mem, at)
    ensures Parsed(Push(s, proto, at, n), caplen)
    ensures Inside(Push(s, proto, at, n).layers, caplen) <==> |s.layers| == LAYER_MAX || at + n <= caplen
  {
    hide Linked, Announced, Head, Extent;
    var l := Layer(proto, at, n % 0x1_0000);
    if |s.layers| < LAYER_MAX {
      if !s.rebased {
        LinkedPush(s.mem, s.layers, l);
      }
      assert (s.layers + [l])[|s.layers|] == l;
    }
  }

  lemma PushRebased(s: State, caplen: nat, first: set<Proto>, at: nat, len: nat, proto: Proto, n: nat, next: set<Proto>,
                    to: nat, left: nat)
    requires Ready(s, caplen, first, at, len) && n <= len && to + left <= len
    ensures Ready(Push(s, proto, at, n).(rebased := true), caplen, next, to, left)
  {
    hide Linked, Enclosed, Behind, Announced, Extent, Head;
    assert n % 0x1_0000 <= n;
  }

  // ---- One turn keeps the invariant ----

  /** A place where a decoder does something out of the ordinary: an options header that is recorded
      although it claims more than the captured bytes, or more than the bytes at hand; decoding that
      goes back to the packet's start; and an IP datagram behind an LLC header in a VLAN tag. */
  datatype Spot = Overrun(caplen: nat) | Excess | Return | LlcIp

  // A hop or destination options header about to be recorded: scanned, and with a slot left for it.
  predicate RecordsOptions(s: State, job: Job) {
    && job.Call? && (job.d == Ipv6OptionsD(0) || job.d == Ipv6OptionsD(60))
    && |s.layers| < LAYER_MAX && job.len >= 8 && HopsOk(s.mem, job.at)
  }

  // A VLAN tag with a length and an LLC header in place of a type.
  predicate Llc(m: Mem, at: nat, len: nat) {
    len >= 12 && U16(m, at + 2) <= 1518 && Byte(m, at + 4) == 0xaa && Byte(m, at + 5) == 0xaa
  }

  predicate At(spot: Spot, s: State, job: Job) {
    match spot
    case Overrun(caplen) => RecordsOptions(s, job) && job.at + OptionsClaim(s.mem, job.at) > caplen
    case Excess => RecordsOptions(s, job) && OptionsClaim(s.mem, job.at) > job.len
    case Return =>
      && job.Call?
      && ((job.d.EthOverMplsD? && job.len >= 14) || (job.d.VlanD? && Llc(s.mem, job.at, job.len)))
    case LlcIp => job.Call? && job.d.VlanD? && Llc(s.mem, job.at, job.len) && U16(s.mem, job.at + 10) in {IP, IPV6}
  }

  predicate Kept(t: Turn, caplen: nat) {
    match t.job
    case Stop => Settled(t.s, caplen)
    case Call(d, at, len) => Ready(t.s, caplen, First(d), at, len)
  }

  // A turn keeps the invariant unless it records an options header that claims too much, and stops.
  predicate KeptOrLoose(s: State, job: Job, t: Turn, caplen: nat) {
    if At(Excess, s, job)
    then t.job.Stop? && Parsed(t.s, caplen) && (Inside(t.s.layers, caplen) <==> !At(Overrun(caplen), s, job))
    else Kept(t, caplen) && !At(Overrun(caplen), s, job)
  }

  lemma EtherKept(s: State, kind: nat, pppoe: bool, mpls: bool, at: nat, len: nat, caplen: nat)
    requires Ready(s, caplen, ByEther(kind), at, len)
    ensures Kept(EtherNext(s, kind, pppoe, mpls, at, len), caplen)
  {
    hide Ready, Settled;
    ReadyIsSettled(s, caplen, ByEther(kind), at, len);
  }

  lemma TransBridgingKept(s: State, at: nat, len: nat, caplen: nat)
    requires Ready(s, caplen, {Eth}, at, len)
    ensures Kept(TransBridgingTurn(s, at, len), caplen)
  {
    hide Ready, Settled, EtherNext, ByEther;
    ReadyIsSettled(s, caplen, {Eth}, at, len);
    if len >= 14 {
      var kind := U16(s.mem, at + 12);
      var e := s.(f := s.f.(eh := at));
      ReadySame(s, e, caplen, {Eth}, at, len);
      ReadyPush(e, caplen, {Eth}, at, len, Eth, 14, at + 14, len - 14);
      EtherKept(Push(e, Eth, at, 14), kind, false, false, at + 14, len - 14, caplen);
    }
  }

  lemma EthOverMplsKept(s: State, at: nat, len: nat, caplen: nat)
    requires Ready(s, caplen, {Eth}, at, len)
    ensures Kept(EthOverMplsTurn(s, at, len), caplen)
  {
    hide Ready, Settled, EtherNext, ByEther;
    ReadySame(s, NoIp(s), caplen, {Eth}, at, len);
    ReadyIsSettled(NoIp(s), caplen, {Eth}, at, len);
    if len >= 14 {
      var kind := U16(s.mem, at + 12);
      var e := s.(f := s.f.(eh := at));
      ReadySame(s, e, caplen, {Eth}, at, len);
      PushRebased(e, caplen, {Eth}, at, len, Eth, 14, ByEther(kind), 14, len - 14);
      EtherKept(Push(e, Eth, at, 14).(rebased := true), kind, true, false, 14, len - 14, caplen);
    }
  }

  lemma VlanKept(s: State, at: nat, len: nat, caplen: nat)
    requires Ready(s, caplen, {Vlan}, at, len)
    ensures Kept(VlanTurn(s, at, len), caplen)
  {
    hide Ready, Settled, EtherNext, ByEther;
    ReadyIsSettled(s, caplen, {Vlan}, at, len);
    ReadySame(s, NoIp(s), caplen, {Vlan}, at, len);
    ReadyIsSettled(NoIp(s), caplen, {Vlan}, at, len);
    if len >= 4 {
      if U16(s.mem, at + 2) > 1518 {
        var p := Push(s, Vlan, at, 4);
        ReadyPush(s, caplen, {Vlan}, at, len, Vlan, 4, at + 4, len - 4);
        EtherKept(p, U16(s.mem, at + 2), true, true, at + 4, len - 4, caplen);
      } else if len >= 12 {
        var r, kind := Push(s, Vlan, at, 4).(rebased := true), U16(s.mem, at + 10);
        PushRebased(s, caplen, {Vlan}, at, len, Vlan, 4, ByEther(kind), 12, len - 12);
        EtherKept(r, kind, true, true, 12, len - 12, caplen);
      }
    }
  }

  /** Peeling a stack off ends at its bottom. */
  lemma {:induction false} PeelsStack(m: Mem, env: Env, at: nat, left: nat, chain: nat)
    ensures var r := PeelLabels(m, env, at, left, chain); r.Bottom? ==> r.end == StackEnd(m, at)
    decreases left
  {
    if left >= 4 {
      PeelsStack(m, env, at + 4, left - 4, (chain + 1) % 256);
      if at >= |m| {
        NoBottom(m, env, at, left, chain);
      }
    }
  }

  lemma {:induction false} NoBottom(m: Mem, env: Env, at: nat, left: nat, chain: nat)
    requires at >= |m|
    ensures PeelLabels(m, env, at, left, chain).Bad?
    decreases left
  {
    if left >= 4 {
      NoBottom(m, env, at + 4, left - 4, (chain + 1) % 256);
    }
  }

  lemma MplsKept(s: State, env: Env, at: nat, len: nat, caplen: nat)
    requires Ready(s, caplen, {Mpls}, at, len)
    ensures Kept(MplsTurn(s, env, at, len), caplen)
  {
    hide Ready, Settled, PeelLabels;
    ReadySame(s, NoIp(s), caplen, {Mpls}, at, len);
    ReadyIsSettled(NoIp(s), caplen, {Mpls}, at, len);
    var r := PeelLabels(s.mem, env, at, len, 0);
    if r.Bottom? {
      var n, left := r.end - at, at + len - r.end;
      var p := Push(s, Mpls, at, n);
      PeelsStack(s.mem, env, at, len, 0);
      ReadyPush(s, caplen, {Mpls}, at, len, Mpls, n, r.end, left);
      ReadyIsSettled(p, caplen, {Ip4, Ip6, Eth}, r.end, left);
      ReadyInside(p, caplen, {Ip4, Ip6, Eth}, r.end, left, {Ip4}, r.end, left);
      ReadyInside(p, caplen, {Ip4, Ip6, Eth}, r.end, left, {Ip6}, r.end, left);
      ReadyInside(p, caplen, {Ip4, Ip6, Eth}, r.end, left, {Eth}, r.end, left);
    }
  }

  lemma PppoeKept(s: State, at: nat, len: nat, caplen: nat)
    requires Ready(s, caplen, {Pppoe}, at, len)
    ensures Kept(PppoeTurn(s, at, len), caplen)
  {
    hide Ready, Settled;
    ReadyIsSettled(s, caplen, {Pppoe}, at, len);
    if len >= 6 {
      ReadyPush(s, caplen, {Pppoe}, at, len, Pppoe, 6, at + 6, len - 6);
    }
  }

  lemma ErspanKept(s: State, version: nat, at: nat, len: nat, caplen: nat)
    requires Ready(s, caplen, {Erspan}, at, len)
    ensures Kept(ErspanTurn(s, version, at, len), caplen)
  {
    hide Ready, Settled;
    var n := if version == 2 then 8 else 20;
    ReadyIsSettled(s, caplen, {Erspan}, at, len);
    if len >= n && High(Byte(s.mem, at)) == version - 1 {
      ReadyPush(s, caplen, {Erspan}, at, len, Erspan, n, at + n, len - n);
    }
  }

  lemma GreKept(s: State, at: nat, len: nat, caplen: nat)
    requires Ready(s, caplen, {Gre}, at, len)
    ensures Kept(GreTurn(s, at, len), caplen)
  {
    hide Ready, Settled, GreLength, GreClaim, Push, U16;
    ReadyIsSettled(s, caplen, {Gre}, at, len);
    var n, kind := GreLength(s.mem, at, len), U16(s.mem, at + 2);
    if len >= 4 && 0 <= n <= len {
      GreIsClaimed(s.mem, at, len);
      var p, l := Push(s, Gre, at, n), Layer(Gre, at, n % 0x1_0000);
      ReadyPush(s, caplen, {Gre}, at, len, Gre, n, at + n, len - n);
      ReadyIsSettled(p, caplen, Announced(s.mem, l), at + n, len - n);
      ReadySame(p, NoIp(p), caplen, Announced(s.mem, l), at + n, len - n);
    }
  }

  /** A header that is accepted is as long as it claims. */
  lemma GreIsClaimed(m: Mem, at: nat, len: nat)
    requires 0 <= GreLength(m, at, len) <= len
    ensures GreLength(m, at, len) == GreClaim(m, at)
  {
    hide RouteEnd, RouteStop, U16;
    var flags := Byte(m, at);
    if flags / 64 % 2 == 1 {
      RoutesStop(m, at, 8 + 4 * (flags / 32 % 2) + 4 * (flags / 16 % 2), len);
    }
  }

  lemma {:induction false} RoutesStop(m: Mem, at: nat, hlen: nat, len: nat)
    requires RouteEnd(m, at, hlen, len) <= len
    ensures RouteEnd(m, at, hlen, len) == RouteStop(m, at, hlen)
    decreases len - hlen
  {
    if hlen + 4 <= len && !(U16(m, at + hlen) == 0 && Byte(m, at + hlen + 3) == 0) {
      RoutesStop(m, at, hlen + 4 + Byte(m, at + hlen + 3), len);
    }
  }

  lemma IpKept(s: State, at: nat, len: nat, caplen: nat)
    requires Ready(s, caplen, {Ip4}, at, len)
    ensures Kept(IpTurn(s, at, len), caplen)
  {
    hide Ready, Settled, ByProto, Push, IsFragment, FirstUdp, U16, High, Low;
    var m := s.mem;
    ReadyIsSettled(s, caplen, {Ip4}, at, len);
    ReadySame(s, NoIp(s), caplen, {Ip4}, at, len);
    ReadyIsSettled(NoIp(s), caplen, {Ip4}, at, len);
    ReadySame(s, NoIp(Enter(s)), caplen, {Ip4}, at, len);
    ReadyIsSettled(NoIp(Enter(s)), caplen, {Ip4}, at, len);
    var b := NoIp(Accept(Enter(s), false, at));
    ReadySame(s, b, caplen, {Ip4}, at, len);
    ReadyIsSettled(b, caplen, {Ip4}, at, len);
    var hlen, ipLen := 4 * Low(Byte(m, at)), U16(m, at + 2);
    if High(Byte(m, at)) == 4 && 20 <= hlen <= ipLen <= len {
      var frag := IsFragment(m, at);
      ReadySame(s, Enter(s), caplen, {Ip4}, at, len);
      IpPushed(Enter(s), at, len, frag, caplen);
    }
  }

  lemma IpPushed(e: State, at: nat, len: nat, frag: bool, caplen: nat)
    requires var m := e.mem; High(Byte(m, at)) == 4 && 20 <= 4 * Low(Byte(m, at)) <= U16(m, at + 2) <= len
    requires Ready(e, caplen, {Ip4}, at, len)
    ensures var m := e.mem;
      var hlen, ipLen := 4 * Low(Byte(m, at)), U16(m, at + 2);
      var p := SetFrag(PushIp(Accept(e, false, at), Ip4, at, hlen), frag);
      Settled(p, caplen) && Ready(p, caplen, ByProto(Byte(m, at + 9)), at + hlen, ipLen - hlen)
  {
    hide Ready, Settled, ByProto, Push;
    var m := e.mem;
    var hlen, ipLen, first := 4 * Low(Byte(m, at)), U16(m, at + 2), ByProto(Byte(m, at + 9));
    var f := Accept(e, false, at);
    var p := SetFrag(PushIp(f, Ip4, at, hlen), frag);
    ReadySame(e, f, caplen, {Ip4}, at, len);
    ReadyPush(f, caplen, {Ip4}, at, len, Ip4, hlen, at + hlen, ipLen - hlen);
    assert Announced(m, Layer(Ip4, at, hlen % 0x1_0000)) == first;
    assert p.mem == Push(f, Ip4, at, hlen).mem by { PushKeeps(f, Ip4, at, hlen); }
    ReadySame(Push(f, Ip4, at, hlen), p, caplen, first, at + hlen, ipLen - hlen);
    ReadyIsSettled(p, caplen, first, at + hlen, ipLen - hlen);
  }

  lemma PushKeeps(s: State, proto: Proto, at: nat, n: nat)
    ensures Push(s, proto, at, n) == s.(layers := Push(s, proto, at, n).layers)
  {
  }

  lemma AhKept(s: State, at: nat, len: nat, caplen: nat)
    requires Ready(s, caplen, {Ah}, at, len)
    ensures Kept(AhTurn(s, at, len), caplen)
  {
    hide Ready, Settled, ByProto;
    var n := 8 + 4 * Byte(s.mem, at + 1);
    ReadyIsSettled(s, caplen, {Ah}, at, len);
    if n <= len {
      ReadyPush(s, caplen, {Ah}, at, len, Ah, n, at + n, len - n);
    }
  }

  lemma Ipv6Kept(s: State, at: nat, len: nat, caplen: nat)
    requires Ready(s, caplen, {Ip6}, at, len)
    ensures Kept(Ipv6Turn(s, at, len), caplen)
  {
    hide Ready, Settled, ByProto, Prefix;
    ReadySame(s, NoTeredo(s), caplen, {Ip6}, at, len);
    ReadyIsSettled(NoTeredo(s), caplen, {Ip6}, at, len);
    ReadySame(s, NoTeredo(Enter(s)), caplen, {Ip6}, at, len);
    ReadyIsSettled(NoTeredo(Enter(s)), caplen, {Ip6}, at, len);
    var payload := U16(s.mem, at + 4);
    if payload + 40 <= len && High(Byte(s.mem, at)) == 6 {
      var e, first := Accept(Enter(s), true, at), ByProto(Byte(s.mem, at + 6));
      ReadySame(s, e, caplen, {Ip6}, at, len);
      ReadyPush(e, caplen, {Ip6}, at, len, Ip6, 40, at + 40, payload);
      ReadySame(Push(e, Ip6, at, 40), PushIp(e, Ip6, at, 40), caplen, first, at + 40, payload);
    }
  }

  lemma Ipv6OptionsKept(s: State, kind: Octet, at: nat, len: nat, caplen: nat)
    requires Ready(s, caplen, First(Ipv6OptionsD(kind)), at, len)
    ensures KeptOrLoose(s, Call(Ipv6OptionsD(kind), at, len), Ipv6OptionsTurn(s, kind, at, len), caplen)
  {
    hide Ready, Settled, Parsed, ByProto, OptionsRecorded, U16, HopsOk, Inside;
    var first, e, n := First(Ipv6OptionsD(kind)), Remember(s, at), OptionsLength(s.mem, kind, at);
    var f := Fragmented(e, at);
    ReadyIsSettled(s, caplen, first, at, len);
    ReadySame(s, e, caplen, first, at, len);
    ReadyIsSettled(e, caplen, first, at, len);
    ReadySame(s, f, caplen, first, at, len);
    ReadyIsSettled(f, caplen, first, at, len);
    ReadyBounds(s, caplen, first, at, len);
    if kind != 44 {
      OptionsRecordedKept(e, kind, at, len, caplen);
    } else if n <= len {
      ByProtoInner(Byte(s.mem, at));
      ReadyInside(f, caplen, INNER, at, len, ByProto(Byte(s.mem, at)), at + n, len - n);
    }
  }

  lemma ReadyBounds(s: State, caplen: nat, first: set<Proto>, at: nat, len: nat)
    requires Ready(s, caplen, first, at, len)
    ensures at + len <= caplen && |s.layers| <= LAYER_MAX
  {
  }

  lemma OptionsRecordedKept(s: State, kind: Octet, at: nat, len: nat, caplen: nat)
    requires Ready(s, caplen, First(Ipv6OptionsD(kind)), at, len) && kind != 44
    ensures var p, n := OptionsRecorded(s, kind, at, len), OptionsLength(s.mem, kind, at);
            if n <= len then Ready(p, caplen, ByProto(Byte(s.mem, at)), at + n, len - n)
            else if (kind == 0 || kind == 60) && |s.layers| < LAYER_MAX && HopsOk(s.mem, at)
            then Parsed(p, caplen) && (Inside(p.layers, caplen) <==> at + n <= caplen)
            else Settled(p, caplen)
  {
    hide Ready, Parsed, Inside, Settled, ByProto, Push, HopsOk;
    var first, n := First(Ipv6OptionsD(kind)), OptionsLength(s.mem, kind, at);
    ReadyIsSettled(s, caplen, first, at, len);
    ReadyBounds(s, caplen, first, at, len);
    if n <= len && kind == 51 {
      ReadyPush(s, caplen, first, at, len, Ah, n, at + n, len - n);
    } else if n <= len {
      ByProtoInner(Byte(s.mem, at));
      ReadyInside(s, caplen, INNER, at, len, ByProto(Byte(s.mem, at)), at + n, len - n);
      ReadyPush(s, caplen, first, at, len, HopOpts, n, at + n, len - n);
      ReadyPush(s, caplen, first, at, len, DstOpts, n, at + n, len - n);
    } else if kind != 51 {
      PushLoose(s, caplen, at, len, HopOpts, n);
      PushLoose(s, caplen, at, len, DstOpts, n);
      PushFull(s, HopOpts, at, n);
      PushFull(s, DstOpts, at, n);
    }
  }

  lemma PushFull(s: State, proto: Proto, at: nat, n: nat)
    ensures |s.layers| >= LAYER_MAX ==> Push(s, proto, at, n) == s
  {
  }

  lemma ByProtoInner(p: Octet)
    ensures ByProto(p) <= INNER
  {
  }

  lemma Ipv4ProtoKept(s: State, proto: Octet, at: nat, len: nat, caplen: nat)
    requires Ready(s, caplen, ByProto(proto), at, len)
    ensures Kept(Ipv4ProtoTurn(s, proto, at, len), caplen)
  {
    hide Ready, Settled;
    ReadyIsSettled(s, caplen, ByProto(proto), at, len);
  }

  lemma Ipv6ExtensionsKept(s: State, next: Octet, at: nat, len: nat, caplen: nat)
    requires Ready(s, caplen, ByProto(next), at, len)
    ensures Kept(Ipv6ExtensionsTurn(s, next, at, len), caplen)
  {
    hide Ready, Settled;
    var e := s.(f := s.f.(next := next));
    ReadySame(s, e, caplen, ByProto(next), at, len);
    ReadyIsSettled(e, caplen, ByProto(next), at, len);
  }

  lemma EspKept(s: State, at: nat, len: nat, caplen: nat)
    requires Ready(s, caplen, ByProto(50), at, len)
    ensures Kept(EspTurn(s, at, len), caplen)
  {
    hide Ready, Settled;
    ReadyIsSettled(s, caplen, ByProto(50), at, len);
    var u := s.(f := s.f.(unsure := true));
    ReadySame(s, u, caplen, ByProto(50), at, len);
    ReadyIsSettled(u, caplen, ByProto(50), at, len);
    var b := EspTurn(s, at, len).s;
    ReadySame(s, b, caplen, ByProto(50), at, len);
    ReadyIsSettled(b, caplen, ByProto(50), at, len);
    var job := EspTurn(s, at, len).job;
    if job.Call? {
      ReadyInside(u, caplen, ByProto(50), at, len, First(job.d), job.at, job.len);
    }
  }

  lemma UdpKept(s: State, at: nat, len: nat, caplen: nat)
    requires Ready(s, caplen, {Udp}, at, len)
    ensures Kept(UdpTurn(s, at, len), caplen)
  {
    hide Ready, Settled;
    ReadyIsSettled(s, caplen, {Udp}, at, len);
    if len >= 8 {
      var e := s.(f := s.f.(sp := U16(s.mem, at), dp := U16(s.mem, at + 2)));
      ReadySame(s, e, caplen, {Udp}, at, len);
      ReadyPush(e, caplen, {Udp}, at, len, Udp, 8, at + 8, len - 8);
      ReadyIsSettled(Push(e, Udp, at, 8), caplen, {Ip6}, at + 8, len - 8);
    }
  }

  lemma TeredoKept(s: State, at: nat, len: nat, caplen: nat)
    requires Ready(s, caplen, {Ip6}, at, len)
    ensures Kept(TeredoTurn(s, at, len), caplen)
  {
    hide Ready, Settled, TeredoStart;
    ReadyIsSettled(s, caplen, {Ip6}, at, len);
    var skip := TeredoStart(s.mem, at, len);
    if skip <= len {
      ReadyInside(s, caplen, {Ip6}, at, len, {Ip6}, at + skip, len - skip);
      var p := s.(f := s.f.(teredo := true, unsure := s.f.unsure || (s.f.sp != 3544 && s.f.dp != 3544)));
      ReadySame(s, p, caplen, {Ip6}, at + skip, len - skip);
    }
  }

  lemma LeavesKept(s: State, d: Decoder, at: nat, len: nat, caplen: nat)
    requires d.TcpD? || d.IcmpD? || d.Icmp6D? || d.ArpD?
    requires Ready(s, caplen, First(d), at, len)
    ensures d.TcpD? ==> Kept(TcpTurn(s, at, len), caplen)
    ensures d.IcmpD? ==> Kept(IcmpTurn(s, at, len), caplen)
    ensures d.Icmp6D? ==> Kept(Icmp6Turn(s, at, len), caplen)
    ensures d.ArpD? ==> Kept(ArpTurn(s, at, len), caplen)
  {
    hide Ready, Settled;
    ReadyIsSettled(s, caplen, First(d), at, len);
    if d.TcpD? {
      var n := 4 * High(Byte(s.mem, at + 12));
      var e := s.(f := s.f.(sp := U16(s.mem, at), dp := U16(s.mem, at + 2)));
      ReadySame(s, e, caplen, {Tcp}, at, len);
      if 20 <= n <= len {
        PushLast(e, caplen, {Tcp}, at, len, Tcp, n);
      }
    } else if d.ArpD? {
      if len >= 28 {
        PushLast(s, caplen, {Arp}, at, len, Arp, 28);
      }
    } else if d.IcmpD? {
      var n := if Byte(s.mem, at) in {0, 3, 4, 5, 8, 11, 12} then 8 else 4;
      if n <= len {
        PushLast(s, caplen, {Icmp4}, at, len, Icmp4, n);
      }
    } else {
      var n := if Byte(s.mem, at) in {1, 2, 3, 4, 128, 129} then 8 else 4;
      if n <= len {
        PushLast(s, caplen, {Icmp6}, at, len, Icmp6, n);
      }
    }
  }

  // ---- Putting back a protocol field ----

  lemma BytePatched(m: Mem, x: nat, b: Octet)
    ensures |Patch(m, x, b)| == |m|
    ensures forall i: nat :: i != x ==> Byte(Patch(m, x, b), i) == Byte(m, i)
  {
  }

  lemma {:induction false} RoutesPatched(m: Mem, x: nat, b: Octet, at: nat, hlen: nat)
    requires at + RouteStop(m, at, hlen) <= x
    ensures RouteStop(Patch(m, x, b), at, hlen) == RouteStop(m, at, hlen)
    decreases |m| - at - hlen
  {
    hide Patch, Byte;
    BytePatched(m, x, b);
    if at + hlen < |m| && !(U16(m, at + hlen) == 0 && Byte(m, at + hlen + 3) == 0) {
      RoutesPatched(m, x, b, at, hlen + 4 + Byte(m, at + hlen + 3));
    }
  }

  lemma GrePatched(m: Mem, x: nat, b: Octet, at: nat)
    requires at + GreClaim(m, at) <= x
    ensures GreClaim(Patch(m, x, b), at) == GreClaim(m, at)
  {
    hide Patch, Byte, RouteEnd, RouteStop;
    BytePatched(m, x, b);
    if Byte(m, at) / 64 % 2 == 1 {
      RoutesPatched(m, x, b, at, 8 + 4 * (Byte(m, at) / 32 % 2) + 4 * (Byte(m, at) / 16 % 2));
    }
  }

  lemma {:induction false} StackPatched(m: Mem, x: nat, b: Octet, at: nat)
    requires StackEnd(m, at) <= x
    ensures StackEnd(Patch(m, x, b), at) == StackEnd(m, at)
    decreases |m| - at
  {
    hide Patch, Byte;
    BytePatched(m, x, b);
    if at < |m| && Byte(m, at + 2) % 2 == 0 {
      StackPatched(m, x, b, at + 4);
    }
  }

  lemma PatchBehind(m: Mem, x: nat, b: Octet, l: Layer, caplen: nat)
    requires l.start + Head(m, l) <= x
    ensures var m' := Patch(m, x, b);
      && Announced(m', l) == Announced(m, l) && Lawful(m', l) == Lawful(m, l)
      && Extent(m', l, caplen) == Extent(m, l, caplen) && Head(m', l) == Head(m, l)
  {
    hide Patch, Byte, GreClaim, StackEnd, High, Low, ByEther, ByProto, ByPpp;
    BytePatched(m, x, b);
    if l.proto == Gre {
      GrePatched(m, x, b, l.start);
    } else if l.proto == Mpls {
      StackPatched(m, x, b, l.start);
    }
  }

  /** Changing a byte that is still to be decoded leaves what has been recorded true. */
  lemma ReadyPatch(s: State, x: nat, b: Octet, caplen: nat, first: set<Proto>, at: nat, len: nat)
    requires Ready(s, caplen, first, at, len) && at <= x
    ensures Ready(s.(mem := Patch(s.mem, x, b)), caplen, first, at, len)
  {
    hide Announced, Lawful, Extent, Head, Patch;
    if !s.rebased {
      forall k | 0 <= k < |s.layers|
        ensures var m, m', l := s.mem, Patch(s.mem, x, b), s.layers[k];
          && Announced(m', l) == Announced(m, l) && Lawful(m', l) == Lawful(m, l)
          && Extent(m', l, caplen) == Extent(m, l, caplen) && Head(m', l) == Head(m, l)
      {
        PatchBehind(s.mem, x, b, s.layers[k], caplen);
      }
    }
  }

  lemma PatchPush(s: State, at: nat, n: nat)
    ensures var m := Patch(s.mem, at + n + 9, 6);
            Push(s.(mem := m), PppEncap, at, n) == Push(s, PppEncap, at, n).(mem := m)
    ensures Push(s, PppEncap, at, n).mem == s.mem
  {
  }

  lemma PppKept(s: State, at: nat, len: nat, caplen: nat)
    requires Ready(s, caplen, {PppEncap}, at, len)
    ensures Kept(PppTurn(s, at, len), caplen)
  {
    hide Ready, Settled, Patch, Push, PppProtocol;
    ReadyIsSettled(s, caplen, {PppEncap}, at, len);
    if len >= 2 {
      var n := PppLength(s.mem, at);
      var p := Push(s, PppEncap, at, n);
      var first := ByPpp(PppProtocol(s.mem, at));
      ReadyPush(s, caplen, {PppEncap}, at, len, PppEncap, n, at + n, len - n);
      assert Ready(p, caplen, first, at + n, len - n);
      ReadyIsSettled(p, caplen, first, at + n, len - n);
      PatchPush(s, at, n);
      ReadyPatch(p, at + n + 9, 6, caplen, first, at + n, len - n);
    }
  }

  // ---- Any turn ----

  lemma NextKept(s: State, env: Env, d: Decoder, at: nat, len: nat, caplen: nat)
    requires Ready(s, caplen, First(d), at, len)
    ensures KeptOrLoose(s, Call(d, at, len), Next(s, env, d, at, len), caplen)
  {
    hide Ready, Kept, Parsed, Inside, HopsOk, ByProto, IpTurn, Ipv4ProtoTurn, Ipv6Turn, Ipv6OptionsTurn,
         Ipv6ExtensionsTurn, VlanTurn, MplsTurn, EthOverMplsTurn, GreTurn, AhTurn, EspTurn, UdpTurn, TeredoTurn,
         TransBridgingTurn, ErspanTurn, PppoeTurn, PppTurn, TcpTurn, IcmpTurn, Icmp6Turn, ArpTurn;
    match d {
      case IpD => IpKept(s, at, len, caplen);
      case Ipv4ProtoD(proto) => Ipv4ProtoKept(s, proto, at, len, caplen);
      case Ipv6D => Ipv6Kept(s, at, len, caplen);
      case Ipv6OptionsD(kind) => Ipv6OptionsKept(s, kind, at, len, caplen);
      case Ipv6ExtensionsD(next) => Ipv6ExtensionsKept(s, next, at, len, caplen);
      case VlanD => VlanKept(s, at, len, caplen);
      case MplsD => MplsKept(s, env, at, len, caplen);
      case EthOverMplsD => EthOverMplsKept(s, at, len, caplen);
      case GreD => GreKept(s, at, len, caplen);
      case AhD => AhKept(s, at, len, caplen);
      case EspD => EspKept(s, at, len, caplen);
      case UdpD => UdpKept(s, at, len, caplen);
      case TeredoD => TeredoKept(s, at, len, caplen);
      case TransBridgingD => TransBridgingKept(s, at, len, caplen);
      case ErspanD(version) => ErspanKept(s, version, at, len, caplen);
      case PppoeD => PppoeKept(s, at, len, caplen);
      case PppD => PppKept(s, at, len, caplen);
      case _ => LeavesKept(s, d, at, len, caplen);
    }
  }

  lemma SettleKeeps(s: State, d: Decoder, after: State)
    ensures var r := Settle(s, d, after);
      && r.mem == after.mem && r.layers == after.layers && r.rebased == after.rebased && r.ip.pushes == after.ip.pushes
  {
  }

  /** Whether decoding gets to such a place. */
  predicate Gets(spot: Spot, s: State, env: Env, job: Job)
    decreases if job.Call? then job.len + 1 else 0, if job.Call? then Rank(job.d) else 0
  {
    match job
    case Stop => false
    case Call(d, at, len) =>
      At(spot, s, job)
      || (TurnDecreases(s, env, d, at, len);
          var t := Next(s, env, d, at, len);
          Gets(spot, t.s, env, t.job))
  }

  predicate FrameGets(spot: Spot, m: Mem, env: Env, caplen: nat) {
    var t := EthTurn(Fresh(m), caplen);
    Gets(spot, t.s, env, t.job)
  }

  lemma {:induction false} RunKept(s: State, env: Env, job: Job, caplen: nat)
    requires Kept(Turn(s, job), caplen)
    ensures Parsed(Run(s, env, job), caplen)
    ensures Inside(Run(s, env, job).layers, caplen) <==> !Gets(Overrun(caplen), s, env, job)
    decreases if job.Call? then job.len + 1 else 0, if job.Call? then Rank(job.d) else 0
  {
    hide Ready, Linked, NearlyEnclosed, Enclosed, Fits, Inside, Next, First, At, Settle;
    match job {
      case Stop =>
      case Call(d, at, len) =>
        NextKept(s, env, d, at, len, caplen);
        TurnDecreases(s, env, d, at, len);
        var t := Next(s, env, d, at, len);
        if !At(Excess, s, job) {
          RunKept(t.s, env, t.job, caplen);
        }
        SettleKeeps(s, d, Run(t.s, env, t.job));
    }
  }

  // ---- When all layers are inside the datagrams around them ----

  predicate EndsAtIp6(s: State, end: nat) {
    exists j :: 0 <= j < |s.layers| && s.layers[j].proto == Ip6
                && end == s.layers[j].start + 40 + U16(s.mem, s.layers[j].start + 4)
  }

  /** Behind an IPv6 header the bytes at hand, up to the next decoder that is not its own, end where
      that header says, and its layer, if any slot is left, has been recorded. */
  predicate AtIp6(s: State, job: Job) {
    job.Call? && (job.d.Ipv6OptionsD? || job.d.Ipv6ExtensionsD?) && |s.layers| < LAYER_MAX ==>
      EndsAtIp6(s, job.at + job.len)
  }

  lemma Ipv6AtIp6(s: State, at: nat, len: nat)
    ensures var t := Ipv6Turn(s, at, len); AtIp6(t.s, t.job)
  {
    hide U16, Prefix, High;
    var t := Ipv6Turn(s, at, len);
    if t.job.Call? && |t.s.layers| < LAYER_MAX {
      assert t.s.layers[|s.layers|] == Layer(Ip6, at, 40) && t.s.mem == s.mem;
    }
  }

  lemma PushAtIp6(s: State, proto: Proto, at: nat, n: nat, end: nat)
    requires |s.layers| < LAYER_MAX ==> EndsAtIp6(s, end)
    ensures var p := Push(s, proto, at, n); |p.layers| < LAYER_MAX ==> EndsAtIp6(p, end)
  {
    if |s.layers| + 1 < LAYER_MAX {
      var p := Push(s, proto, at, n);
      var j :| 0 <= j < |s.layers| && s.layers[j].proto == Ip6
               && end == s.layers[j].start + 40 + U16(s.mem, s.layers[j].start + 4);
      assert p.layers[j] == s.layers[j];
    }
  }

  lemma OptionsAtIp6(s: State, kind: Octet, at: nat, len: nat)
    requires AtIp6(s, Call(Ipv6OptionsD(kind), at, len))
    ensures var t := Ipv6OptionsTurn(s, kind, at, len); AtIp6(t.s, t.job)
  {
    hide Push, HopsOk, U16, EndsAtIp6;
    var e := Remember(s, at);
    var n := OptionsLength(s.mem, kind, at);
    SameAtIp6(s, e, at + len);
    SameAtIp6(s, Fragmented(e, at), at + len);
    PushAtIp6(e, HopOpts, at, n, at + len);
    PushAtIp6(e, DstOpts, at, n, at + len);
    PushAtIp6(e, Ah, at, n, at + len);
  }

  lemma SameAtIp6(s: State, s': State, end: nat)
    requires s'.mem == s.mem && s'.layers == s.layers
    ensures EndsAtIp6(s', end) == EndsAtIp6(s, end)
  {
  }

  lemma ExcessLeaves(s: State, kind: Octet, at: nat, len: nat)
    requires AtIp6(s, Call(Ipv6OptionsD(kind), at, len)) && At(Excess, s, Call(Ipv6OptionsD(kind), at, len))
    ensures var t := Ipv6OptionsTurn(s, kind, at, len); forall caplen: nat :: !Enclosed(t.s.mem, t.s.layers, caplen)
  {
    hide Push, HopsOk, U16, EndsAtIp6, Enclosed;
    var e, n := Remember(s, at), OptionsLength(s.mem, kind, at);
    SameAtIp6(s, e, at + len);
    NotEnclosed(e, if kind == 0 then HopOpts else DstOpts, at, n, at + len);
  }

  lemma NotEnclosed(s: State, proto: Proto, at: nat, n: nat, end: nat)
    requires |s.layers| < LAYER_MAX && EndsAtIp6(s, end) && end < at + n && n < 0x1_0000
    ensures var p := Push(s, proto, at, n); forall caplen: nat :: !Enclosed(p.mem, p.layers, caplen)
  {
    hide U16;
    var p, l := Push(s, proto, at, n), Layer(proto, at, n);
    var j :| 0 <= j < |s.layers| && s.layers[j].proto == Ip6
             && end == s.layers[j].start + 40 + U16(s.mem, s.layers[j].start + 4);
    assert p.layers[j] == s.layers[j] && p.layers[|s.layers|] == l && p.mem == s.mem;
    forall caplen: nat
      ensures !Enclosed(p.mem, p.layers, caplen)
    {
      assert Extent(p.mem, p.layers[j], caplen) == end;
    }
  }

  lemma ExtensionsAtIp6(s: State, next: Octet, at: nat, len: nat)
    requires AtIp6(s, Call(Ipv6ExtensionsD(next), at, len))
    ensures var t := Ipv6ExtensionsTurn(s, next, at, len); AtIp6(t.s, t.job)
  {
    hide EndsAtIp6;
    SameAtIp6(s, s.(f := s.f.(next := next)), at + len);
  }

  // No other decoder calls one of the two.
  lemma OthersAtIp6(s: State, env: Env, d: Decoder, at: nat, len: nat)
    requires !d.Ipv6D? && !d.Ipv6OptionsD? && !d.Ipv6ExtensionsD?
    ensures var job := Next(s, env, d, at, len).job; job.Call? ==> !job.d.Ipv6OptionsD? && !job.d.Ipv6ExtensionsD?
  {
    hide Push, U16, Byte, High, Low, PeelLabels, GreLength, TeredoStart, Patch, UdpLength, BadUdpSum, IsFragment,
         FirstUdp;
  }

  lemma NextAtIp6(s: State, env: Env, d: Decoder, at: nat, len: nat)
    requires AtIp6(s, Call(d, at, len))
    ensures var t := Next(s, env, d, at, len); AtIp6(t.s, t.job)
    ensures At(Excess, s, Call(d, at, len)) ==>
              var t := Next(s, env, d, at, len); forall caplen: nat :: !Enclosed(t.s.mem, t.s.layers, caplen)
  {
    hide EndsAtIp6, Enclosed, Ipv6Turn, Ipv6OptionsTurn, Ipv6ExtensionsTurn;
    match d {
      case Ipv6D => Ipv6AtIp6(s, at, len);
      case Ipv6OptionsD(kind) =>
        OptionsAtIp6(s, kind, at, len);
        if At(Excess, s, Call(d, at, len)) {
          ExcessLeaves(s, kind, at, len);
        }
      case Ipv6ExtensionsD(next) => ExtensionsAtIp6(s, next, at, len);
      case _ => OthersAtIp6(s, env, d, at, len);
    }
  }

  /** All layers end up inside the datagrams around them, if decoding stays in front of itself, exactly
      when it gets to no options header that claims more than the bytes at hand. */
  lemma {:induction false} RunEnclosed(s: State, env: Env, job: Job, caplen: nat)
    requires Kept(Turn(s, job), caplen) && AtIp6(s, job)
    ensures var d := Run(s, env, job);
            !d.rebased ==> (Enclosed(d.mem, d.layers, caplen) <==> !Gets(Excess, s, env, job))
    decreases if job.Call? then job.len + 1 else 0, if job.Call? then Rank(job.d) else 0
  {
    hide Ready, Linked, NearlyEnclosed, Enclosed, Fits, Inside, Next, First, At, Settle, AtIp6;
    match job {
      case Stop =>
      case Call(d, at, len) =>
        NextKept(s, env, d, at, len, caplen);
        NextAtIp6(s, env, d, at, len);
        TurnDecreases(s, env, d, at, len);
        var t := Next(s, env, d, at, len);
        if !At(Excess, s, job) {
          RunEnclosed(t.s, env, t.job, caplen);
        }
        SettleKeeps(s, d, Run(t.s, env, t.job));
    }
  }

  // ---- What a turn leaves alone ----

  predicate Extends(s: State, t: State) { s.layers <= t.layers && t.mem == s.mem && t.rebased == s.rebased }

  lemma PushExtends()
    ensures forall s: State, proto, at, n {:trigger Push(s, proto, at, n)} :: Extends(s, Push(s, proto, at, n))
  {
  }

  lemma LinkExtends(s: State, env: Env, at: nat, len: nat)
    ensures var t := VlanTurn(s, at, len).s;
            s.layers <= t.layers && t.mem == s.mem && (t.rebased <==> s.rebased || Llc(s.mem, at, len))
    ensures var t := EthOverMplsTurn(s, at, len).s;
            s.layers <= t.layers && t.mem == s.mem && (t.rebased <==> s.rebased || len >= 14)
    ensures Extends(s, TransBridgingTurn(s, at, len).s) && Extends(s, MplsTurn(s, env, at, len).s)
  {
    hide Push, Byte, U16, PeelLabels;
    PushExtends();
  }

  lemma TunnelExtends(s: State, version: nat, at: nat, len: nat)
    ensures Extends(s, PppoeTurn(s, at, len).s) && Extends(s, GreTurn(s, at, len).s)
    ensures Extends(s, ErspanTurn(s, version, at, len).s)
  {
    hide Push, Byte, U16, High, GreLength;
    PushExtends();
  }

  // Only a protocol field behind the header is put back.
  lemma PppExtends(s: State, at: nat, len: nat)
    ensures var t := PppTurn(s, at, len).s;
            && s.layers <= t.layers && t.rebased == s.rebased
            && forall i: nat :: i <= at ==> Byte(t.mem, i) == Byte(s.mem, i)
  {
    hide Push, Byte, Patch, PppProtocol;
    PushExtends();
    BytePatched(s.mem, at + PppLength(s.mem, at) + 9, 6);
  }

  lemma IpExtends(s: State, at: nat, len: nat)
    ensures Extends(s, IpTurn(s, at, len).s)
  {
    hide Push, Byte, U16, High, Low, IsFragment, FirstUdp;
    PushExtends();
  }

  lemma Ipv6Extends(s: State, at: nat, len: nat)
    ensures Extends(s, Ipv6Turn(s, at, len).s)
  {
    hide Push, Byte, U16, High, Prefix;
    PushExtends();
  }

  lemma IpsecExtends(s: State, at: nat, len: nat)
    ensures Extends(s, AhTurn(s, at, len).s) && Extends(s, EspTurn(s, at, len).s)
  {
    hide Push, Byte;
    PushExtends();
  }

  lemma HeaderExtends(s: State, kind: Octet, at: nat, len: nat)
    ensures Extends(s, Ipv4ProtoTurn(s, kind, at, len).s) && Extends(s, Ipv6ExtensionsTurn(s, kind, at, len).s)
    ensures Extends(s, Ipv6OptionsTurn(s, kind, at, len).s)
  {
    hide Push, Byte, U16, HopsOk, OptionsLength;
    PushExtends();
  }

  lemma TransportExtends(s: State, at: nat, len: nat)
    ensures Extends(s, UdpTurn(s, at, len).s) && Extends(s, TeredoTurn(s, at, len).s)
    ensures Extends(s, TcpTurn(s, at, len).s) && Extends(s, IcmpTurn(s, at, len).s)
    ensures Extends(s, Icmp6Turn(s, at, len).s) && Extends(s, ArpTurn(s, at, len).s)
  {
    hide Push, Byte, U16, High, TeredoStart, UdpLength, BadUdpSum;
    PushExtends();
  }

  /** A turn takes back no layer, changes no byte up to its own place, and notes whether it goes back. */
  lemma NextExtends(s: State, env: Env, d: Decoder, at: nat, len: nat)
    ensures var t := Next(s, env, d, at, len).s;
            && s.layers <= t.layers
            && (forall i: nat :: i <= at ==> Byte(t.mem, i) == Byte(s.mem, i))
            && (t.rebased <==> s.rebased || At(Return, s, Call(d, at, len)))
  {
    hide IpTurn, Ipv4ProtoTurn, Ipv6Turn, Ipv6OptionsTurn, Ipv6ExtensionsTurn, VlanTurn, MplsTurn, EthOverMplsTurn,
         GreTurn, AhTurn, EspTurn, UdpTurn, TeredoTurn, TransBridgingTurn, ErspanTurn, PppoeTurn, PppTurn, TcpTurn,
         IcmpTurn, Icmp6Turn, ArpTurn, Byte, Llc;
    match d {
      case IpD => IpExtends(s, at, len);
      case Ipv6D => Ipv6Extends(s, at, len);
      case Ipv4ProtoD(proto) => HeaderExtends(s, proto, at, len);
      case Ipv6ExtensionsD(next) => HeaderExtends(s, next, at, len);
      case Ipv6OptionsD(kind) => HeaderExtends(s, kind, at, len);
      case VlanD => LinkExtends(s, env, at, len);
      case TransBridgingD => LinkExtends(s, env, at, len);
      case EthOverMplsD => LinkExtends(s, env, at, len);
      case MplsD => LinkExtends(s, env, at, len);
      case GreD => TunnelExtends(s, 0, at, len);
      case ErspanD(version) => TunnelExtends(s, version, at, len);
      case PppoeD => TunnelExtends(s, 0, at, len);
      case PppD => PppExtends(s, at, len);
      case AhD => IpsecExtends(s, at, len);
      case EspD => IpsecExtends(s, at, len);
      case _ => TransportExtends(s, at, len);
    }
  }

  /** No decoder takes back or changes a layer that was recorded before it. */
  lemma {:induction false} RunExtends(s: State, env: Env, job: Job)
    ensures s.layers <= Run(s, env, job).layers
    decreases if job.Call? then job.len + 1 else 0, if job.Call? then Rank(job.d) else 0
  {
    hide Next, Settle;
    match job {
      case Stop =>
      case Call(d, at, len) =>
        NextExtends(s, env, d, at, len);
        TurnDecreases(s, env, d, at, len);
        var t := Next(s, env, d, at, len);
        RunExtends(t.s, env, t.job);
        SettleKeeps(s, d, Run(t.s, env, t.job));
    }
  }

  // ---- When decoding goes back ----

  lemma {:induction false} RunReturns(s: State, env: Env, job: Job)
    ensures Run(s, env, job).rebased <==> s.rebased || Gets(Return, s, env, job)
    decreases if job.Call? then job.len + 1 else 0, if job.Call? then Rank(job.d) else 0
  {
    hide Next, At, Settle;
    match job {
      case Stop =>
      case Call(d, at, len) =>
        NextExtends(s, env, d, at, len);
        TurnDecreases(s, env, d, at, len);
        var t := Next(s, env, d, at, len);
        RunReturns(t.s, env, t.job);
        SettleKeeps(s, d, Run(t.s, env, t.job));
    }
  }

  // ---- Every frame ----

  /** Every frame, whatever its bytes: at most 32 layers. They are inside the captured bytes if and only
      if decoding gets to no options header that claims more of them than there are. Unless decoding
      goes back to the packet's start, each layer is as long as its header says, announced by the header
      before it and behind it; and each one is inside every IP datagram around it if and only if decoding
      gets to no options header that claims more than the bytes at hand. Such a header would be the last
      layer, with the length it claims. */
  lemma FrameIsParsed(m: Mem, env: Env, caplen: nat)
    ensures var d := DecodeFrame(m, env, caplen);
      && Parsed(d, caplen)
      && (Inside(d.layers, caplen) <==> !FrameGets(Overrun(caplen), m, env, caplen))
      && (d.rebased <==> FrameGets(Return, m, env, caplen))
      && (!FrameGets(Return, m, env, caplen) ==>
            && Linked(d.mem, d.layers)
            && (Enclosed(d.mem, d.layers, caplen) <==> !FrameGets(Excess, m, env, caplen)))
  {
    hide Linked, NearlyEnclosed, Enclosed, Inside, Fits, EtherNext, Run, Gets, Ready;
    var t := EthTurn(Fresh(m), caplen);
    FrameStarts(m, caplen);
    RunKept(t.s, env, t.job, caplen);
    RunEnclosed(t.s, env, t.job, caplen);
    RunReturns(t.s, env, t.job);
  }

  lemma FrameStarts(m: Mem, caplen: nat)
    ensures var t := EthTurn(Fresh(m), caplen); Kept(t, caplen) && AtIp6(t.s, t.job) && !t.s.rebased
  {
    hide Parsed, Linked, Inside, EtherNext;
    var s := Fresh(m);
    assert Linked(m, []) && Enclosed(m, [], caplen) && Inside([], caplen) by { NothingLinked(m, caplen); }
    assert Ready(s, caplen, {Eth}, 0, caplen);
    ReadyIsSettled(s, caplen, {Eth}, 0, caplen);
    if caplen >= 14 {
      ReadyPush(s, caplen, {Eth}, 0, caplen, Eth, 14, 14, caplen - 14);
      EtherKept(Push(s, Eth, 0, 14), U16(m, 12), true, true, 14, caplen - 14, caplen);
      EtherCalls(Push(s, Eth, 0, 14), U16(m, 12), 14, caplen - 14);
    }
  }

  lemma EtherCalls(s: State, kind: nat, at: nat, len: nat)
    ensures var t := EtherNext(s, kind, true, true, at, len);
            t.s == s && (t.job.Call? ==> !t.job.d.Ipv6OptionsD? && !t.job.d.Ipv6ExtensionsD?)
  {
  }

  lemma NothingLinked(m: Mem, caplen: nat)
    ensures Linked(m, []) && Enclosed(m, [], caplen) && Inside([], caplen)
  {
  }

  // ---- At most two IP layers ----

  function IpCount(p: Proto): nat { if p.Ip4? || p.Ip6? then 1 else 0 }

  function IpLayers(layers: seq<Layer>): nat {
    if layers == [] then 0 else IpLayers(layers[..|layers| - 1]) + IpCount(layers[|layers| - 1].proto)
  }

  /** Without an address family nothing has been pushed yet, and then one layer until a second one
      encapsulates it; the family is only reset when no decoder that could push is called again. */
  predicate TwoIp(s: State, job: Job) {
    && IpLayers(s.layers) <= s.ip.pushes <= 2
    && (job.Call? && job.d != ArpD ==>
          if s.ip.family then s.ip.encapsulated || s.ip.pushes == 1 else !s.ip.encapsulated && s.ip.pushes == 0)
  }

  // Recording a layer changes nothing that the invariant speaks of but the number of IP layers.
  lemma PushCounts()
    ensures forall s, proto, at, n {:trigger Push(s, proto, at, n)} ::
      var p := Push(s, proto, at, n);
      && IpLayers(p.layers) <= IpLayers(s.layers) + IpCount(proto)
      && p.ip == s.ip
  {
    hide Push, IpLayers, IpCount;
    forall s: State, proto, at: nat, n: nat {
      PushCountsOne(s, proto, at, n);
    }
  }

  lemma PushCountsOne(s: State, proto: Proto, at: nat, n: nat)
    ensures var p := Push(s, proto, at, n);
      && IpLayers(p.layers) <= IpLayers(s.layers) + IpCount(proto)
      && p.ip == s.ip
  {
    hide IpLayers, IpCount;
    IpLayersMore(s.layers, Layer(proto, at, n % 0x1_0000));
  }

  lemma IpLayersMore(layers: seq<Layer>, l: Layer)
    ensures IpLayers(layers + [l]) == IpLayers(layers) + IpCount(l.proto)
  {
    assert (layers + [l])[..|layers|] == layers;
  }

  // The invariant before a turn that pushes no IP layer.
  predicate TwoIpNow(s: State) { TwoIp(s, Call(IpD, 0, 0)) }

  lemma IpTwoIp(s: State, at: nat, len: nat)
    requires TwoIpNow(s)
    ensures var t := IpTurn(s, at, len); TwoIp(t.s, t.job)
  {
    hide IpLayers, IpHeaderTurn;
    if !(s.ip.family && s.ip.encapsulated) {
      EnteredTwoIp(Enter(s), at, len);
    }
  }

  // Room for one more IP layer.
  lemma EnteredTwoIp(s: State, at: nat, len: nat)
    requires IpLayers(s.layers) <= s.ip.pushes <= 1 && (s.ip.pushes == 0 || s.ip.encapsulated)
    ensures var t := IpHeaderTurn(s, at, len); TwoIp(t.s, t.job)
  {
    hide Push, IpLayers, U16, High, Low, IsFragment, FirstUdp, Byte;
    PushCounts();
  }

  lemma Ipv6TwoIp(s: State, at: nat, len: nat)
    requires TwoIpNow(s)
    ensures var t := Ipv6Turn(s, at, len); TwoIp(t.s, t.job)
  {
    hide Push, IpLayers, U16, Prefix, High;
    PushCounts();
  }

  lemma EtherNextTwoIp(s: State, kind: nat, pppoe: bool, mpls: bool, at: nat, len: nat)
    requires TwoIpNow(s)
    ensures var t := EtherNext(s, kind, pppoe, mpls, at, len); TwoIp(t.s, t.job)
  {
    hide IpLayers;
  }

  lemma VlanTwoIp(s: State, at: nat, len: nat)
    requires TwoIpNow(s)
    ensures var t := VlanTurn(s, at, len); TwoIp(t.s, t.job)
  {
    hide Push, IpLayers, U16, EtherNext;
    PushCounts();
    var p := Push(s, Vlan, at, 4);
    EtherNextTwoIp(p, U16(s.mem, at + 2), true, true, at + 4, if len < 4 then 0 else len - 4);
    EtherNextTwoIp(p.(rebased := true), U16(s.mem, at + 10), true, true, 12, if len < 12 then 0 else len - 12);
  }

  lemma TransBridgingTwoIp(s: State, at: nat, len: nat)
    requires TwoIpNow(s)
    ensures var t := TransBridgingTurn(s, at, len); TwoIp(t.s, t.job)
    ensures var t := EthOverMplsTurn(s, at, len); TwoIp(t.s, t.job)
  {
    hide Push, IpLayers, U16, EtherNext;
    PushCounts();
    if len >= 14 {
      var p, kind := Push(s.(f := s.f.(eh := at)), Eth, at, 14), U16(s.mem, at + 12);
      EtherNextTwoIp(p, kind, false, false, at + 14, len - 14);
      EtherNextTwoIp(p.(rebased := true), kind, true, false, 14, len - 14);
    }
  }

  lemma GreTwoIp(s: State, version: nat, at: nat, len: nat)
    requires TwoIpNow(s)
    ensures var t := GreTurn(s, at, len); TwoIp(t.s, t.job)
    ensures var t := ErspanTurn(s, version, at, len); TwoIp(t.s, t.job)
  {
    hide Push, IpLayers, U16, GreLength, High;
    PushCounts();
  }

  lemma TunnelTwoIp(s: State, env: Env, at: nat, len: nat)
    requires TwoIpNow(s)
    ensures var t := MplsTurn(s, env, at, len); TwoIp(t.s, t.job)
    ensures var t := PppoeTurn(s, at, len); TwoIp(t.s, t.job)
  {
    hide Push, IpLayers, U16, PeelLabels;
    PushCounts();
  }

  lemma PppTwoIp(s: State, at: nat, len: nat)
    requires TwoIpNow(s)
    ensures var t := PppTurn(s, at, len); TwoIp(t.s, t.job)
  {
    hide Push, IpLayers, Patch, PppLength, PppProtocol;
    PushCounts();
    PushCounts();
  }

  lemma IpsecTwoIp(s: State, at: nat, len: nat)
    requires TwoIpNow(s)
    ensures var t := AhTurn(s, at, len); TwoIp(t.s, t.job)
    ensures var t := EspTurn(s, at, len); TwoIp(t.s, t.job)
  {
    hide IpLayers, Push;
    PushCounts();
    assert TwoIpNow(s.(f := s.f.(unsure := true)));
  }

  lemma UdpTwoIp(s: State, at: nat, len: nat)
    requires TwoIpNow(s)
    ensures var t := UdpTurn(s, at, len); TwoIp(t.s, t.job)
    ensures var t := TeredoTurn(s, at, len); TwoIp(t.s, t.job)
  {
    hide Push, IpLayers, U16, TeredoStart, High;
    PushCounts();
  }

  lemma DispatchTwoIp(s: State, proto: Octet, at: nat, len: nat)
    requires TwoIpNow(s)
    ensures var t := Ipv4ProtoTurn(s, proto, at, len); TwoIp(t.s, t.job)
    ensures var t := Ipv6ExtensionsTurn(s, proto, at, len); TwoIp(t.s, t.job)
  {
    hide IpLayers;
  }

  lemma Ipv6OptionsTwoIp(s: State, kind: Octet, at: nat, len: nat)
    requires TwoIpNow(s)
    ensures var t := Ipv6OptionsTurn(s, kind, at, len); TwoIp(t.s, t.job)
  {
    hide Push, IpLayers, U16;
    PushCounts();
  }

  lemma LeavesTwoIp(s: State, at: nat, len: nat)
    requires IpLayers(s.layers) <= s.ip.pushes <= 2
    ensures var t := TcpTurn(s, at, len); TwoIp(t.s, t.job)
    ensures var t := IcmpTurn(s, at, len); TwoIp(t.s, t.job)
    ensures var t := Icmp6Turn(s, at, len); TwoIp(t.s, t.job)
    ensures var t := ArpTurn(s, at, len); TwoIp(t.s, t.job)
  {
    hide Push, IpLayers, High;
    PushCounts();
  }

  lemma NextTwoIp(s: State, env: Env, d: Decoder, at: nat, len: nat)
    requires TwoIp(s, Call(d, at, len))
    ensures var t := Next(s, env, d, at, len); TwoIp(t.s, t.job)
  {
    hide IpLayers, IpTurn, Ipv4ProtoTurn, Ipv6Turn, Ipv6OptionsTurn, Ipv6ExtensionsTurn, VlanTurn, MplsTurn,
         EthOverMplsTurn, GreTurn, AhTurn, EspTurn, UdpTurn, TeredoTurn, TransBridgingTurn, ErspanTurn, PppoeTurn,
         PppTurn, TcpTurn, IcmpTurn, Icmp6Turn, ArpTurn;
    LeavesTwoIp(s, at, len);
    match d {
      case IpD => IpTwoIp(s, at, len);
      case Ipv6D => Ipv6TwoIp(s, at, len);
      case Ipv4ProtoD(proto) => DispatchTwoIp(s, proto, at, len);
      case Ipv6ExtensionsD(next) => DispatchTwoIp(s, next, at, len);
      case Ipv6OptionsD(kind) => Ipv6OptionsTwoIp(s, kind, at, len);
      case VlanD => VlanTwoIp(s, at, len);
      case TransBridgingD => TransBridgingTwoIp(s, at, len);
      case EthOverMplsD => TransBridgingTwoIp(s, at, len);
      case GreD => GreTwoIp(s, 0, at, len);
      case ErspanD(version) => GreTwoIp(s, version, at, len);
      case MplsD => TunnelTwoIp(s, env, at, len);
      case PppoeD => TunnelTwoIp(s, env, at, len);
      case PppD => PppTwoIp(s, at, len);
      case AhD => IpsecTwoIp(s, at, len);
      case EspD => IpsecTwoIp(s, at, len);
      case UdpD => UdpTwoIp(s, at, len);
      case TeredoD => UdpTwoIp(s, at, len);
      case _ =>
    }
  }

  lemma {:induction false} RunTwoIp(s: State, env: Env, job: Job)
    requires TwoIp(s, job)
    ensures IpLayers(Run(s, env, job).layers) <= Run(s, env, job).ip.pushes <= 2
    decreases if job.Call? then job.len + 1 else 0, if job.Call? then Rank(job.d) else 0
  {
    hide Next, Settle;
    match job {
      case Stop =>
      case Call(d, at, len) =>
        NextTwoIp(s, env, d, at, len);
        TurnDecreases(s, env, d, at, len);
        var t := Next(s, env, d, at, len);
        RunTwoIp(t.s, env, t.job);
        SettleKeeps(s, d, Run(t.s, env, t.job));
    }
  }

  /** No frame has more than two IP layers pushed, recorded or dropped. */
  lemma FrameHasTwoIp(m: Mem, env: Env, caplen: nat)
    ensures var d := DecodeFrame(m, env, caplen); IpLayers(d.layers) <= d.ip.pushes <= 2
  {
    hide Push, Run;
    PushCounts();
    var t := EthTurn(Fresh(m), caplen);
    assert IpLayers([]) == 0;
    RunTwoIp(t.s, env, t.job);
  }

  /** An ethernet frame of an IPv6 datagram, whose eight bytes of payload are a hop-by-hop header that
      claims n times eight bytes more, all of them one padding option, and of some bytes behind it. */
  function OverrunFrame(n: Octet, more: nat): Mem
    requires 0 < n <= 31
  {
    seq<Octet>(62 + more, i requires 0 <= i < 62 + more =>
      if i == 12 then 0x86 else if i == 13 then 0xdd else if i == 14 then 0x60 else if i == 19 then 8
      else if i == 55 then n else if i == 56 then 1 else if i == 57 then 4 + 8 * n
      else 0)
  }

  /** The exceptions to the bounds are real: that header is recorded past the end of its datagram, and,
      if the frame ends too early, past the end of the captured bytes. */
  lemma HopOptionsOverrun(env: Env, n: Octet, more: nat)
    requires 0 < n <= 31
    ensures var d := DecodeFrame(OverrunFrame(n, more), env, 62 + more);
      && !d.rebased
      && d.layers == [Layer(Eth, 0, 14), Layer(Ip6, 14, 40), Layer(HopOpts, 54, 8 + 8 * n)]
      && !Enclosed(d.mem, d.layers, 62 + more)
      && (Inside(d.layers, 62 + more) <==> 8 * n <= more)
  {
    hide OverrunFrame, Byte, U16, High, Enclosed, Inside, HopsOk;
    var m := OverrunFrame(n, more);
    OverrunBytes(n, more);
    OverrunScans(n, more);
    var s := Push(Fresh(m), Eth, 0, 14);
    assert EthTurn(Fresh(m), 62 + more) == Go(s, Ipv6D, 14, 48 + more);
    var p := PushIp(Accept(s, true, 14), Ip6, 14, 40);
    assert Next(s, env, Ipv6D, 14, 48 + more) == Go(p, Ipv6ExtensionsD(0), 54, 8);
    assert Next(p, env, Ipv6ExtensionsD(0), 54, 8) == Go(p, Ipv6OptionsD(0), 54, 8);
    var e := p.(f := p.f.(ext := 54));
    var d := Push(e, HopOpts, 54, 8 + 8 * n);
    assert Next(p, env, Ipv6OptionsD(0), 54, 8) == Done(d);
    Follow(s, env, Ipv6D, 14, 48 + more);
    Follow(p, env, Ipv6ExtensionsD(0), 54, 8);
    Follow(p, env, Ipv6OptionsD(0), 54, 8);
    OverrunLies(m, n, more, d.layers);
  }

  lemma OverrunBytes(n: Octet, more: nat)
    requires 0 < n <= 31
    ensures var m := OverrunFrame(n, more);
      && U16(m, 12) == IPV6 && High(Byte(m, 14)) == 6 && U16(m, 18) == 8 && Byte(m, 20) == 0 && Byte(m, 55) == n
  {
  }

  lemma OverrunLies(m: Mem, n: Octet, more: nat, layers: seq<Layer>)
    requires U16(m, 18) == 8 && n > 0
    requires layers == [Layer(Eth, 0, 14), Layer(Ip6, 14, 40), Layer(HopOpts, 54, 8 + 8 * n)]
    ensures !Enclosed(m, layers, 62 + more) && (Inside(layers, 62 + more) <==> 8 * n <= more)
  {
    assert Extent(m, layers[1], 62 + more) == 62 && layers[2].start + layers[2].len == 62 + 8 * n;
  }

  lemma OverrunScans(n: Octet, more: nat)
    requires 0 < n <= 31
    ensures HopsOk(OverrunFrame(n, more), 54)
  {
    var m := OverrunFrame(n, more);
    assert Byte(m, 55) == n && Byte(m, 56) == 1 && Byte(m, 57) == 4 + 8 * n;
    assert HopScan(m, 62 + 8 * n, 62 + 8 * n);
  }

  /** A frame of 60 bytes: a VLAN tag with a length, and an LLC header that announces ARP. */
  const LLC_ARP: Mem := seq<Octet>(60, i requires 0 <= i < 60 =>
    if i == 12 then 0x81 else if i == 18 || i == 19 then 0xaa else if i == 24 then 0x08 else if i == 25 then 0x06
    else 0)

  /** Decoding that goes back is real, too: what is recorded as ARP starts in the ethernet header. */
  lemma LlcArpGoesBack(env: Env)
    ensures var d := DecodeFrame(LLC_ARP, env, 60);
      d.rebased && d.layers == [Layer(Eth, 0, 14), Layer(Vlan, 14, 4), Layer(Arp, 12, 28)]
  {
    var m := LLC_ARP;
    var s := Push(Fresh(m), Eth, 0, 14);
    assert EthTurn(Fresh(m), 60) == Go(s, VlanD, 14, 46);
    var p := Push(s, Vlan, 14, 4).(rebased := true);
    assert Next(s, env, VlanD, 14, 46) == Go(p, ArpD, 12, 34);
    assert Next(p, env, ArpD, 12, 34) == Done(Push(p, Arp, 12, 28));
    Follow(s, env, VlanD, 14, 46);
    Follow(p, env, ArpD, 12, 34);
  }

  // ---- IP behind an LLC header ----

  /** Decoding never comes before the type of the frame, and that type is none whose first byte looks
      like the first byte of an IP header. */
  predicate BehindType(s: State, job: Job) {
    High(Byte(s.mem, 12)) != 4 && High(Byte(s.mem, 12)) != 6 && (job.Call? ==> job.at >= 12)
  }

  lemma NextBehindType(s: State, env: Env, d: Decoder, at: nat, len: nat)
    requires BehindType(s, Call(d, at, len))
    ensures var t := Next(s, env, d, at, len); BehindType(t.s, t.job)
  {
    hide Next, Byte, High;
    NextForward(s, env, d, at, len);
    NextExtends(s, env, d, at, len);
  }

  lemma NextForward(s: State, env: Env, d: Decoder, at: nat, len: nat)
    requires at >= 12
    ensures var job := Next(s, env, d, at, len).job; job.Call? ==> job.at >= 12
  {
    hide Push, U16, Byte, High, Low, PeelLabels, GreLength, TeredoStart, Patch, UdpLength, BadUdpSum, IsFragment,
         FirstUdp, HopsOk, Prefix, PppProtocol, OptionsLength, Fragmented, OptionsRecorded;
  }

  // Decoded from byte 12 on, an IP header fails its version check.
  lemma LlcIpStops(s: State, env: Env, at: nat, len: nat)
    requires At(LlcIp, s, Call(VlanD, at, len)) && BehindType(s, Call(VlanD, at, len))
    ensures Run(s, env, Call(VlanD, at, len)).layers == Push(s, Vlan, at, 4).layers
  {
    hide U16, Byte, High, Run, Push;
    var p := Push(s, Vlan, at, 4);
    assert p.mem == s.mem by { PushKeeps(s, Vlan, at, 4); }
    var d := if U16(s.mem, at + 10) == IP then IpD else Ipv6D;
    var back := p.(rebased := true);
    assert Next(s, env, VlanD, at, len) == Go(back, d, 12, len - 12);
    Follow(s, env, VlanD, at, len);
    Follow(back, env, d, 12, len - 12);
    VersionFails(back, env, d, len - 12);
  }

  lemma VersionFails(s: State, env: Env, d: Decoder, len: nat)
    requires (d.IpD? || d.Ipv6D?) && High(Byte(s.mem, 12)) != 4 && High(Byte(s.mem, 12)) != 6
    ensures var t := Next(s, env, d, 12, len); t.job.Stop? && t.s.layers == s.layers
  {
    hide Byte, High;
  }

  lemma {:induction false} RunLosesLlcIp(s: State, env: Env, job: Job)
    requires BehindType(s, job) && Gets(LlcIp, s, env, job)
    ensures var layers := Run(s, env, job).layers;
            |layers| >= LAYER_MAX || (layers != [] && layers[|layers| - 1].proto == Vlan)
    decreases if job.Call? then job.len + 1 else 0, if job.Call? then Rank(job.d) else 0
  {
    hide Next, At, Settle, BehindType, Push;
    match job {
      case Stop =>
      case Call(d, at, len) =>
        if At(LlcIp, s, job) {
          AtLlcIp(s, job);
          LlcIpStops(s, env, at, len);
          PushEnds(s, Vlan, at, 4);
        } else {
          NextBehindType(s, env, d, at, len);
          TurnDecreases(s, env, d, at, len);
          var t := Next(s, env, d, at, len);
          RunLosesLlcIp(t.s, env, t.job);
          SettleKeeps(s, d, Run(t.s, env, t.job));
        }
    }
  }

  lemma AtLlcIp(s: State, job: Job)
    ensures At(LlcIp, s, job) ==> job.Call? && job.d == VlanD
  {
  }

  lemma PushEnds(s: State, proto: Proto, at: nat, n: nat)
    ensures var layers := Push(s, proto, at, n).layers;
            |layers| >= LAYER_MAX || (layers != [] && layers[|layers| - 1].proto == proto)
  {
  }

  /** An IP datagram behind an LLC header in a VLAN tag is never recorded, in any frame: decoding goes on
      at byte 12, which is the high byte of the frame's own type, and ends there with the tag as the last
      layer, if there was a slot for it. */
  lemma LlcIpIsLost(m: Mem, env: Env, caplen: nat)
    requires FrameGets(LlcIp, m, env, caplen)
    ensures var layers := DecodeFrame(m, env, caplen).layers;
            |layers| == LAYER_MAX || (layers != [] && layers[|layers| - 1].proto == Vlan)
  {
    hide Run, Gets, Parsed;
    var t := EthTurn(Fresh(m), caplen);
    TypeByte(m, caplen, env);
    RunLosesLlcIp(t.s, env, t.job);
    FrameIsParsed(m, env, caplen);
    assert |DecodeFrame(m, env, caplen).layers| <= LAYER_MAX by { ParsedCounts(DecodeFrame(m, env, caplen), caplen); }
  }

  lemma ParsedCounts(s: State, caplen: nat)
    requires Parsed(s, caplen)
    ensures |s.layers| <= LAYER_MAX
  {
  }

  lemma TypeByte(m: Mem, caplen: nat, env: Env)
    ensures var t := EthTurn(Fresh(m), caplen); t.job.Call? ==> BehindType(t.s, t.job)
    ensures var t := EthTurn(Fresh(m), caplen); Gets(LlcIp, t.s, env, t.job) ==> t.job.Call?
  {
    hide Next;
    var kind := U16(m, 12);
    assert Byte(m, 12) == kind / 256;
  }

  // ---- Frames that are decoded in full ----

  /** Layers with those that found no slot dropped. */
  function Capped(layers: seq<Layer>): seq<Layer> {
    if |layers| <= LAYER_MAX then layers else layers[..LAYER_MAX]
  }

  /** A TCP segment in an IPv4 datagram that is not a fragment. */
  predicate TcpInIp(m: Mem, at: nat, len: nat) {
    var hlen, ipLen := 4 * Low(Byte(m, at)), U16(m, at + 2);
    && High(Byte(m, at)) == 4 && 20 <= hlen <= ipLen <= len
    && !IsFragment(m, at) && Byte(m, at + 9) == 6
    && 20 <= ipLen - hlen && 20 <= 4 * High(Byte(m, at + hlen + 12)) <= ipLen - hlen
  }

  function TcpLayers(m: Mem, at: nat): seq<Layer> {
    var hlen := 4 * Low(Byte(m, at));
    [Layer(Ip4, at, hlen), Layer(Tcp, at + hlen, 4 * High(Byte(m, at + hlen + 12)))]
  }

  /** n VLAN tags, and an IPv4 datagram announced by the last one. */
  predicate Tags(m: Mem, at: nat, n: nat)
    decreases n
  {
    n > 0 ==> U16(m, at + 2) == (if n == 1 then IP else VLAN) && Tags(m, at + 4, n - 1)
  }

  function TagLayers(at: nat, n: nat): seq<Layer>
    decreases n
  {
    if n == 0 then [] else [Layer(Vlan, at, 4)] + TagLayers(at + 4, n - 1)
  }

  lemma PushCapped(s: State, proto: Proto, at: nat, n: nat, more: seq<Layer>)
    requires |s.layers| <= LAYER_MAX && n < 0x1_0000
    ensures var p := Push(s, proto, at, n);
      && |p.layers| <= LAYER_MAX && p == s.(layers := p.layers)
      && p.layers == Capped(s.layers + [Layer(proto, at, n)])
      && Capped(p.layers + more) == Capped(s.layers + ([Layer(proto, at, n)] + more))
  {
  }

  /** The datagram of a segment is recorded with both its layers, outside or inside another one. */
  lemma TcpIsDecoded(s: State, env: Env, at: nat, len: nat)
    requires TcpInIp(s.mem, at, len) && |s.layers| <= LAYER_MAX && !(s.ip.family && s.ip.encapsulated)
    ensures Run(s, env, Call(IpD, at, len)).layers == Capped(s.layers + TcpLayers(s.mem, at))
  {
    hide Push, U16, High, Low, IsFragment, Byte, Capped;
    var m, hlen := s.mem, 4 * Low(Byte(s.mem, at));
    var left, size := U16(m, at + 2) - hlen, 4 * High(Byte(m, at + hlen + 12));
    Nibbles(Byte(m, at), Byte(m, at + hlen + 12));
    var e := Accept(Enter(s), false, at);
    PushCapped(e, Ip4, at, hlen, [Layer(Tcp, at + hlen, size)]);
    var p := SetFrag(PushIp(e, Ip4, at, hlen), false);
    assert Next(s, env, IpD, at, len) == Go(p, Ipv4ProtoD(6), at + hlen, left);
    assert Next(p, env, Ipv4ProtoD(6), at + hlen, left) == Go(p, TcpD, at + hlen, left);
    var o := p.(f := p.f.(sp := U16(m, at + hlen), dp := U16(m, at + hlen + 2)));
    PushCapped(o, Tcp, at + hlen, size, []);
    var q := Push(o, Tcp, at + hlen, size);
    assert Next(p, env, TcpD, at + hlen, left) == Done(q);
    Follow(s, env, IpD, at, len);
    Follow(p, env, Ipv4ProtoD(6), at + hlen, left);
    Follow(p, env, TcpD, at + hlen, left);
    assert TcpLayers(m, at) == [Layer(Ip4, at, hlen)] + [Layer(Tcp, at + hlen, size)];
  }

  lemma Nibbles(a: Octet, b: Octet)
    ensures 4 * Low(a) < 0x1_0000 && 4 * High(b) < 0x1_0000
  {
  }

  lemma Follow(s: State, env: Env, d: Decoder, at: nat, len: nat)
    ensures var t := Next(s, env, d, at, len);
            Run(s, env, Call(d, at, len)) == if t.job.Stop? then t.s else Settle(s, d, Run(t.s, env, t.job))
  {
    hide Next;
    TurnDecreases(s, env, d, at, len);
  }

  lemma {:induction false} TagsAreDecoded(s: State, env: Env, at: nat, len: nat, n: nat)
    requires 0 < n && 4 * n <= len && Tags(s.mem, at, n) && TcpInIp(s.mem, at + 4 * n, len - 4 * n)
    requires |s.layers| <= LAYER_MAX && !(s.ip.family && s.ip.encapsulated)
    ensures Run(s, env, Call(VlanD, at, len)).layers
            == Capped(s.layers + (TagLayers(at, n) + TcpLayers(s.mem, at + 4 * n)))
    decreases n
  {
    hide Push, U16, TcpInIp, TcpLayers, Capped, Run;
    var m, p, rest := s.mem, Push(s, Vlan, at, 4), TagLayers(at + 4, n - 1) + TcpLayers(s.mem, at + 4 * n);
    PushCapped(s, Vlan, at, 4, rest);
    assert TagLayers(at, n) + TcpLayers(m, at + 4 * n) == [Layer(Vlan, at, 4)] + rest;
    Follow(s, env, VlanD, at, len);
    if n == 1 {
      assert Next(s, env, VlanD, at, len) == Go(p, IpD, at + 4, len - 4);
      assert rest == TcpLayers(m, at + 4);
      TcpIsDecoded(p, env, at + 4, len - 4);
    } else {
      assert Next(s, env, VlanD, at, len) == Go(p, VlanD, at + 4, len - 4);
      TagsAreDecoded(p, env, at + 4, len - 4, n - 1);
    }
  }

  /** A frame of any number of VLAN tags around a TCP segment is decoded to exactly its headers,
      as far as there are slots for them. */
  lemma TaggedFrameIsDecoded(m: Mem, env: Env, caplen: nat, n: nat)
    requires 14 + 4 * n <= caplen && U16(m, 12) == (if n == 0 then IP else VLAN)
    requires Tags(m, 14, n) && TcpInIp(m, 14 + 4 * n, caplen - 14 - 4 * n)
    ensures DecodeFrame(m, env, caplen).layers
            == Capped([Layer(Eth, 0, 14)] + (TagLayers(14, n) + TcpLayers(m, 14 + 4 * n)))
  {
    hide Push, U16, TcpInIp, TcpLayers, Capped, Run, Tags;
    var s := Push(Fresh(m), Eth, 0, 14);
    PushCapped(Fresh(m), Eth, 0, 14, TagLayers(14, n) + TcpLayers(m, 14 + 4 * n));
    assert [] + ([Layer(Eth, 0, 14)] + (TagLayers(14, n) + TcpLayers(m, 14 + 4 * n)))
        == [Layer(Eth, 0, 14)] + (TagLayers(14, n) + TcpLayers(m, 14 + 4 * n));
    if n == 0 {
      assert EthTurn(Fresh(m), caplen) == Go(s, IpD, 14, caplen - 14);
      assert TagLayers(14, 0) + TcpLayers(m, 14) == TcpLayers(m, 14);
      TcpIsDecoded(s, env, 14, caplen - 14);
    } else {
      assert EthTurn(Fresh(m), caplen) == Go(s, VlanD, 14, caplen - 14);
      TagsAreDecoded(s, env, 14, caplen - 14, n);
    }
  }

  // ---- What one call guarantees ----

  /** Whatever a decoding function does, recorded layers stay; called on bytes that are ready for it,
      it leaves a parsed packet, with all layers inside the captured bytes and inside the datagrams around
      them exactly unless it gets to an options header that claims too much; called with room for it, it
      pushes at most two IP layers in all. */
  ghost predicate Decoded(before: State, after: State, env: Env, d: Decoder, at: nat, len: nat) {
    && before.layers <= after.layers
    && (forall caplen: nat :: Ready(before, caplen, First(d), at, len) ==>
          && Parsed(after, caplen)
          && (Inside(after.layers, caplen) <==> !Gets(Overrun(caplen), before, env, Call(d, at, len)))
          && (AtIp6(before, Call(d, at, len)) && !after.rebased ==>
                (Enclosed(after.mem, after.layers, caplen) <==> !Gets(Excess, before, env, Call(d, at, len)))))
    && (after.rebased <==> before.rebased || Gets(Return, before, env, Call(d, at, len)))
    && (TwoIp(before, Call(d, at, len)) ==> IpLayers(after.layers) <= after.ip.pushes <= 2)
  }

  lemma RunDecodes(s: State, env: Env, d: Decoder, at: nat, len: nat)
    ensures Decoded(s, Run(s, env, Call(d, at, len)), env, d, at, len)
  {
    hide Run, Gets, Ready, Parsed, Inside, Enclosed, First, IpLayers, TwoIp, AtIp6;
    var job, r := Call(d, at, len), Run(s, env, Call(d, at, len));
    RunExtends(s, env, job);
    RunReturns(s, env, job);
    forall caplen: nat | Ready(s, caplen, First(d), at, len)
      ensures Parsed(r, caplen) && (Inside(r.layers, caplen) <==> !Gets(Overrun(caplen), s, env, job))
      ensures AtIp6(s, job) && !r.rebased ==> (Enclosed(r.mem, r.layers, caplen) <==> !Gets(Excess, s, env, job))
    {
      RunKept(s, env, job, caplen);
      if AtIp6(s, job) {
        RunEnclosed(s, env, job, caplen);
      }
    }
    if TwoIp(s, job) {
      RunTwoIp(s, env, job);
    }
  }
}
