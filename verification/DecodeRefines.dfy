/** The decoder records exactly the headers that a packet holds, as far as there are slots for them. */
module DecodeRefines {
  import opened DecodeLayers
  import opened DecodeSafety
  import opened PacketGrammar
  import opened Checksum
  import opened Octets

  // ---- The state of the decoder, as what is around a place ----

  function View(s: State): Around {
    Around(if !s.ip.family then 0 else if s.ip.encapsulated then 2 else 1, s.f.eh, s.f.v6, s.f.iph, s.f.ext, s.f.next,
           s.f.frag, s.f.teredo, s.f.unsure)
  }

  function Maybe(m: Mem, env: Env, c: Around, h: Option<Header>, at: nat, left: nat): seq<Layer> {
    match h
    case None => []
    case Some(h) => Read(m, env, c, h, at, left)
  }

  /** The headers that a call is about to find. */
  function ReadJob(s: State, env: Env, job: Job): seq<Layer> {
    match job
    case Stop => []
    case Call(d, at, len) => ReadCall(s.mem, env, View(s), s.f.sp, s.f.dp, d, at, len)
  }

  function ReadCall(m: Mem, env: Env, c: Around, sp: nat, dp: nat, d: Decoder, at: nat, len: nat): seq<Layer> {
    match d
    case IpD => Read(m, env, c, Plain(Ip4), at, len)
    case Ipv4ProtoD(n) => Maybe(m, env, c, ByNumber4(n), at, len)
    case Ipv6D => Read(m, env, c, Plain(Ip6), at, len)
    case Ipv6OptionsD(kind) =>
      Read(m, env, c, if kind == 0 then Plain(HopOpts) else if kind == 60 then Plain(DstOpts)
                      else if kind == 44 then Fragment else if kind == 51 then Ah6 else Routing, at, len)
    case Ipv6ExtensionsD(n) => Maybe(m, env, c.(upper := n), ByNumber6(n), at, len)
    case VlanD => Read(m, env, c, Plain(Vlan), at, len)
    case MplsD => Read(m, env, c, Plain(Mpls), at, len)
    case EthOverMplsD => Read(m, env, c, EthMpls, at, len)
    case GreD => Read(m, env, c, Plain(Gre), at, len)
    case AhD => Read(m, env, c, Plain(Ah), at, len)
    case EspD => Read(m, env, c, Esp, at, len)
    case UdpD => Read(m, env, c, Plain(Udp), at, len)
    case TeredoD => Read(m, env, c, Teredo(sp, dp), at, len)
    case TransBridgingD => Read(m, env, c, Plain(Eth), at, len)
    case ErspanD(version) => Read(m, env, c, ErspanOf(version), at, len)
    case PppoeD => Read(m, env, c, Plain(Pppoe), at, len)
    case PppD => Read(m, env, c, Plain(PppEncap), at, len)
    case TcpD => Read(m, env, c, Plain(Tcp), at, len)
    case IcmpD => Read(m, env, c, Plain(Icmp4), at, len)
    case Icmp6D => Read(m, env, c, Plain(Icmp6), at, len)
    case ArpD => Read(m, env, c, Plain(Arp), at, len)
  }

  /** The ports of a packet: those of a transport header, or what they were before another one. */
  function PortsAt(m: Mem, proto: Proto, at: nat, before: (nat, nat)): (nat, nat) {
    if proto == Tcp || proto == Udp then (Two(m, at), Two(m, at + 2)) else before
  }

  function Ports(s: State): (nat, nat) { (s.f.sp, s.f.dp) }

  /** The only change to a packet's bytes: a protocol field that becomes that of TCP. */
  predicate Sixed(m: Mem, n: Mem) {
    |m| == |n| && forall i :: 0 <= i < |m| ==> n[i] == m[i] || n[i] == 6
  }

  predicate Nested(s: State) { s.ip.encapsulated ==> s.ip.family }

  /** An address family is only dropped where nothing that asks for it comes behind. */
  predicate Fine(s: State, job: Job) {
    |s.layers| <= LAYER_MAX && (job.Call? && job.d != ArpD ==> Nested(s))
  }

  /** A turn records what it finds and leaves the rest to the next one. */
  predicate Continues(s: State, env: Env, job: Job, t: Turn) {
    && Fine(t.s, t.job)
    && Capped(s.layers + ReadJob(s, env, job)) == Capped(t.s.layers + ReadJob(t.s, env, t.job))
  }

  lemma Accessors()
    ensures forall m: Mem, i: nat {:trigger Byte(m, i)} :: Byte(m, i) == Get(m, i)
    ensures forall m: Mem, i: nat {:trigger U16(m, i)} :: U16(m, i) == Two(m, i)
  {
  }

  function Added(layers: seq<Layer>, proto: Proto, at: nat, n: nat): seq<Layer> {
    if |layers| < LAYER_MAX then layers + [Layer(proto, at, n % 0x1_0000)] else layers
  }

  lemma PushAdds()
    ensures forall s: State, proto, at, n {:trigger Push(s, proto, at, n)} ::
              Push(s, proto, at, n) == s.(layers := Added(s.layers, proto, at, n))
  {
  }

  /** Recording a header changes the layers only. */
  lemma PushView(s: State, proto: Proto, at: nat, n: nat)
    ensures var p := Push(s, proto, at, n);
      && p.layers == Added(s.layers, proto, at, n) && p.mem == s.mem && View(p) == View(s) && Nested(p) == Nested(s)
      && p.f.sp == s.f.sp && p.f.dp == s.f.dp && Ports(p) == Ports(s)
  {
  }

  lemma EthView(s: State, at: nat)
    ensures var e := s.(f := s.f.(eh := at));
      e.mem == s.mem && e.layers == s.layers && View(e) == View(s).(eth := at) && Nested(e) == Nested(s)
  {
  }

  lemma BackView(s: State)
    ensures var b := s.(rebased := true);
      b.mem == s.mem && b.layers == s.layers && View(b) == View(s) && Nested(b) == Nested(s)
  {
  }

  lemma AddedReads(layers: seq<Layer>, proto: Proto, at: nat, n: nat, more: seq<Layer>)
    requires |layers| <= LAYER_MAX
    ensures |Added(layers, proto, at, n)| <= LAYER_MAX
    ensures Capped(Added(layers, proto, at, n) + more) == Capped(layers + (One(proto, at, n) + more))
  {
  }

  lemma AboveIs(m: Mem, env: Env, c: Around, h: Option<Header>, at: nat, left: nat, before: nat)
    requires left < before
    ensures Above(m, env, c, h, at, left, before) == Maybe(m, env, c, h, at, left)
  {
    hide Read;
  }

  lemma LinkIs(m: Mem, env: Env, c: Around, at: nat, left: nat)
    ensures Read(m, env, c, Plain(Eth), at, left) == ReadEth(m, env, c, at, left)
    ensures Read(m, env, c, EthMpls, at, left) == ReadEthMpls(m, env, c, at, left)
    ensures Read(m, env, c, Plain(Vlan), at, left) == ReadVlan(m, env, c, at, left)
    ensures Read(m, env, c, Plain(Mpls), at, left) == ReadMpls(m, env, c, at, left)
    ensures Read(m, env, c, Plain(Pppoe), at, left) == ReadPppoe(m, env, c, at, left)
    ensures Read(m, env, c, Plain(PppEncap), at, left) == ReadPpp(m, env, c, at, left)
    ensures Read(m, env, c, Plain(Arp), at, left) == if left < 28 then [] else One(Arp, at, 28)
  {
    hide ReadEth, ReadEthMpls, ReadVlan, ReadMpls, ReadPppoe, ReadPpp, One;
  }

  lemma IpIs(m: Mem, env: Env, c: Around, at: nat, left: nat)
    ensures Read(m, env, c, Plain(Ip4), at, left) == ReadIp4(m, env, c, at, left)
    ensures Read(m, env, c, Plain(Ip6), at, left) == ReadIp6(m, env, c, at, left)
    ensures Read(m, env, c, Plain(HopOpts), at, left) == ReadOptions(m, env, c, HopOpts, at, left)
    ensures Read(m, env, c, Plain(DstOpts), at, left) == ReadOptions(m, env, c, DstOpts, at, left)
    ensures Read(m, env, c, Routing, at, left)
            == if left < 8 then [] else ReadNext(m, env, c, at, 8 + 8 * Get(m, at + 1), left)
    ensures Read(m, env, c, Fragment, at, left) == ReadFragment(m, env, c, at, left)
    ensures Read(m, env, c, Plain(Ah), at, left) == ReadAh4(m, env, c, at, left)
    ensures Read(m, env, c, Ah6, at, left) == ReadAh6(m, env, c, at, left)
    ensures Read(m, env, c, Esp, at, left) == ReadEsp(m, env, c, at, left)
  {
    hide ReadIp4, ReadIp6, ReadOptions, ReadNext, ReadFragment, ReadAh4, ReadAh6, ReadEsp;
  }

  lemma TransportIs(m: Mem, env: Env, c: Around, v: nat, sp: nat, dp: nat, at: nat, left: nat)
    ensures Read(m, env, c, Plain(Gre), at, left) == ReadGre(m, env, c, at, left)
    ensures Read(m, env, c, ErspanOf(v), at, left) == ReadErspan(m, env, c, v, at, left)
    ensures Read(m, env, c, Plain(Udp), at, left) == ReadUdp(m, env, c, at, left)
    ensures Read(m, env, c, Teredo(sp, dp), at, left) == ReadTeredo(m, env, c, sp, dp, at, left)
    ensures Read(m, env, c, Plain(Tcp), at, left) == ReadTcp(m, at, left)
    ensures Read(m, env, c, Plain(Icmp4), at, left) == ReadIcmp4(m, at, left)
    ensures Read(m, env, c, Plain(Icmp6), at, left) == ReadIcmp6(m, at, left)
  {
    hide ReadGre, ReadErspan, ReadUdp, ReadTeredo, ReadTcp, ReadIcmp4, ReadIcmp6;
  }

  lemma NothingMore(layers: seq<Layer>)
    ensures layers + [] == layers
  {
  }

  /** A turn that records a header and leaves what is above it to the next call. */
  predicate Records(s: State, env: Env, job: Job, proto: Proto, at: nat, n: nat, t: Turn) {
    && ReadJob(s, env, job) == One(proto, at, n) + ReadJob(t.s, env, t.job)
    && t.s.layers == Added(s.layers, proto, at, n) && Ports(t.s) == PortsAt(s.mem, proto, at, Ports(s))
    && (t.s.mem == s.mem || (proto == PppEncap && Sixed(s.mem, t.s.mem)))
    && (t.job.Call? && t.job.d != ArpD ==> Nested(t.s))
  }

  lemma RecordsContinue(s: State, env: Env, job: Job, proto: Proto, at: nat, n: nat, t: Turn)
    requires |s.layers| <= LAYER_MAX && Records(s, env, job, proto, at, n, t)
    ensures Continues(s, env, job, t)
  {
    hide Added, Capped, ReadJob, One;
    AddedReads(s.layers, proto, at, n, ReadJob(t.s, env, t.job));
  }

  /** One that records nothing. */
  predicate Passes(s: State, env: Env, job: Job, t: Turn) {
    && ReadJob(s, env, job) == ReadJob(t.s, env, t.job) && t.s.layers == s.layers
    && Ports(t.s) == Ports(s) && t.s.mem == s.mem
    && (t.job.Call? && t.job.d != ArpD ==> Nested(t.s))
  }

  lemma PassesContinue(s: State, env: Env, job: Job, t: Turn)
    requires |s.layers| <= LAYER_MAX && Passes(s, env, job, t)
    ensures Continues(s, env, job, t)
  {
    hide ReadJob;
  }

  // ---- Link layers ----

  lemma EtherReads(s: State, env: Env, kind: nat, pppoe: bool, mpls: bool, at: nat, len: nat)
    ensures var t := EtherNext(s, kind, pppoe, mpls, at, len);
      t.s == s && ReadJob(s, env, t.job) == Maybe(s.mem, env, View(s), ByType(kind, pppoe, mpls), at, len)
  {
    hide Read;
  }

  lemma TransBridgingReads(s: State, env: Env, at: nat, len: nat)
    requires Nested(s)
    ensures var job, t := Call(TransBridgingD, at, len), TransBridgingTurn(s, at, len);
            if len < 14 then Passes(s, env, job, t) else Records(s, env, job, Eth, at, 14, t)
  {
    hide Read, View, Nested, Push, Added, Two, U16, EtherNext, ByType, Maybe, One;
    Accessors();
    LinkIs(s.mem, env, View(s), at, len);
    if len >= 14 {
      var e, kind := s.(f := s.f.(eh := at)), U16(s.mem, at + 12);
      EthView(s, at);
      PushView(e, Eth, at, 14);
      AboveIs(s.mem, env, View(e), ByType(kind, false, false), at + 14, len - 14, len);
      EtherReads(Push(e, Eth, at, 14), env, kind, false, false, at + 14, len - 14);
    }
  }

  lemma EthOverMplsReads(s: State, env: Env, at: nat, len: nat)
    requires Nested(s)
    ensures var job, t := Call(EthOverMplsD, at, len), EthOverMplsTurn(s, at, len);
            if len < 14 then Passes(s, env, job, t) else Records(s, env, job, Eth, at, 14, t)
  {
    hide Read, View, Nested, Push, Added, Two, U16, EtherNext, ByType, Maybe, One;
    Accessors();
    LinkIs(s.mem, env, View(s), at, len);
    if len >= 14 {
      var e, kind := s.(f := s.f.(eh := at)), U16(s.mem, at + 12);
      EthView(s, at);
      PushView(e, Eth, at, 14);
      BackView(Push(e, Eth, at, 14));
      AboveIs(s.mem, env, View(e), ByType(kind, true, false), 14, len - 14, len);
      EtherReads(Push(e, Eth, at, 14).(rebased := true), env, kind, true, false, 14, len - 14);
    }
  }

  lemma VlanReads(s: State, env: Env, at: nat, len: nat)
    requires Nested(s)
    ensures var job, t := Call(VlanD, at, len), VlanTurn(s, at, len);
            Passes(s, env, job, t) || Records(s, env, job, Vlan, at, 4, t)
  {
    hide Read, View, Nested, Push, Added, Two, U16, Byte, Get, EtherNext, ByType, Maybe, One;
    Accessors();
    LinkIs(s.mem, env, View(s), at, len);
    var p := Push(s, Vlan, at, 4);
    PushView(s, Vlan, at, 4);
    BackView(p);
    if len >= 4 && U16(s.mem, at + 2) > 1518 {
      var kind := U16(s.mem, at + 2);
      AboveIs(s.mem, env, View(s), ByType(kind, true, true), at + 4, len - 4, len);
      EtherReads(p, env, kind, true, true, at + 4, len - 4);
    } else if len >= 12 {
      var kind := U16(s.mem, at + 10);
      AboveIs(s.mem, env, View(s), ByType(kind, true, true), 12, len - 12, len);
      EtherReads(p.(rebased := true), env, kind, true, true, 12, len - 12);
    }
  }

  // ---- Label stacks ----

  predicate LabelFrom(m: Mem, env: Env, at: nat, i: nat, n: nat, chain: nat) {
    && Label(m, at + 4 * i) != 3
    && (Label(m, at + 4 * i) == 1 ==> i < n - 1)
    && (env.mplsDepth == -1 || (chain + i) % 0x100 < env.mplsDepth)
  }

  predicate StackOk(m: Mem, env: Env, at: nat, n: nat, chain: nat) {
    forall i :: 0 <= i < n ==> LabelFrom(m, env, at, i, n, chain)
  }

  lemma LabelShift(m: Mem, env: Env, at: nat, i: nat, n: nat, chain: nat)
    requires 0 < i < n
    ensures LabelFrom(m, env, at, i, n, chain) <==> LabelFrom(m, env, at + 4, i - 1, n - 1, (chain + 1) % 256)
  {
    hide Label;
    assert at + 4 + 4 * (i - 1) == at + 4 * i;
    ModuloShift(chain, i - 1);
  }

  lemma StackOkRest(m: Mem, env: Env, at: nat, n: nat, chain: nat)
    requires n > 1
    ensures StackOk(m, env, at, n, chain) <==>
              LabelFrom(m, env, at, 0, n, chain) && StackOk(m, env, at + 4, n - 1, (chain + 1) % 256)
  {
    hide LabelFrom;
    forall i | 0 < i < n
      ensures LabelFrom(m, env, at, i, n, chain) <==> LabelFrom(m, env, at + 4, i - 1, n - 1, (chain + 1) % 256)
    {
      LabelShift(m, env, at, i, n, chain);
    }
    if StackOk(m, env, at, n, chain) {
      forall i {:trigger LabelFrom(m, env, at + 4, i, n - 1, (chain + 1) % 256)} | 0 <= i < n - 1
        ensures LabelFrom(m, env, at + 4, i, n - 1, (chain + 1) % 256)
      {
        LabelShift(m, env, at, i + 1, n, chain);
      }
    }
  }

  lemma ModuloShift(chain: nat, i: nat)
    ensures ((chain + 1) % 256 + i) % 0x100 == (chain + (i + 1)) % 0x100
  {
  }

  /** The loop over labels finds the stack that is there, if all its labels may be. */
  lemma {:induction false} PeelsLabels(m: Mem, env: Env, at: nat, left: nat, chain: nat)
    requires chain < 256
    ensures var n := LabelCount(m, at, left);
      if n == 0 || !StackOk(m, env, at, n, chain) then PeelLabels(m, env, at, left, chain).Bad?
      else
        var tag := Label(m, at + 4 * (n - 1));
        PeelLabels(m, env, at, left, chain)
          == Bottom(at + 4 * n, if tag == 0 then 1 else if tag == 2 then 3 else env.mplsPayload)
    decreases left
  {
    hide Get, Byte, StackOk;
    Accessors();
    if left >= 4 {
      FirstLabel(m, env, at, chain);
      var n := LabelCount(m, at, left);
      if !IsBottom(m, at) {
        PeelsLabels(m, env, at + 4, left - 4, (chain + 1) % 256);
        if n > 1 {
          StackOkRest(m, env, at, n, chain);
          assert at + 4 * (n - 1) == at + 4 + 4 * (n - 2);
        }
      }
    }
  }

  lemma FirstLabel(m: Mem, env: Env, at: nat, chain: nat)
    ensures StackOk(m, env, at, 1, chain) <==> LabelFrom(m, env, at, 0, 1, chain)
  {
    hide LabelFrom;
  }

  lemma StackIs(m: Mem, env: Env, at: nat, n: nat)
    ensures StackOk(m, env, at, n, 0) <==> !exists i :: 0 <= i < n && !LabelOk(m, env, at, i, n)
  {
    hide Label;
    forall i | 0 <= i < n
      ensures LabelFrom(m, env, at, i, n, 0) <==> LabelOk(m, env, at, i, n)
    {
    }
  }

  lemma MplsReads(s: State, env: Env, at: nat, len: nat)
    requires Nested(s)
    ensures var job, t := Call(MplsD, at, len), MplsTurn(s, env, at, len);
            Passes(s, env, job, t) || exists n: nat :: Records(s, env, job, Mpls, at, n, t)
  {
    hide Read, View, Nested, Push, Added, Get, Byte, StackOk, LabelCount, PeelLabels, Label, One, Maybe;
    var m, n, job, t := s.mem, LabelCount(s.mem, at, len), Call(MplsD, at, len), MplsTurn(s, env, at, len);
    PeelsLabels(m, env, at, len, 0);
    StackIs(m, env, at, n);
    LinkIs(m, env, View(s), at, len);
    PushView(s, Mpls, at, 4 * n);
    if n > 0 && StackOk(m, env, at, n, 0) {
      var tag := Label(m, at + 4 * (n - 1));
      AboveIs(m, env, View(s), ByLabel(env, tag), at + 4 * n, len - 4 * n, len);
      LabelReads(Push(s, Mpls, at, 4 * n), env, tag, at + 4 * n, len - 4 * n);
      assert Records(s, env, job, Mpls, at, 4 * n, t);
    }
  }

  lemma LabelReads(s: State, env: Env, tag: nat, at: nat, len: nat)
    ensures var payload := if tag == 0 then 1 else if tag == 2 then 3 else env.mplsPayload;
      var job := if payload == 1 then Call(IpD, at, len) else if payload == 3 then Call(Ipv6D, at, len)
                 else if payload == 2 then Call(EthOverMplsD, at, len) else Stop;
      ReadJob(s, env, job) == Maybe(s.mem, env, View(s), ByLabel(env, tag), at, len)
  {
    hide Read;
  }

  // ---- PPP ----

  lemma PppoeReads(s: State, env: Env, at: nat, len: nat)
    requires Nested(s)
    ensures var job, t := Call(PppoeD, at, len), PppoeTurn(s, at, len);
            Passes(s, env, job, t) || Records(s, env, job, Pppoe, at, 6, t)
  {
    hide Ports, Read, Nested, Push, Added, Two, U16, One;
    Accessors();
    LinkIs(s.mem, env, View(s), at, len);
    PushView(s, Pppoe, at, 6);
  }

  lemma PppReads(s: State, env: Env, at: nat, len: nat)
    requires Nested(s)
    ensures var job, t := Call(PppD, at, len), PppTurn(s, at, len);
            Passes(s, env, job, t) || Records(s, env, job, PppEncap, at, PppLength(s.mem, at), t)
  {
    hide Read, View, Nested, Push, Added, Patch, PppLength, PppProtocol, Two, Get, One;
    var n := PppLength(s.mem, at);
    LinkIs(s.mem, env, View(s), at, len);
    PppIs(s.mem, at);
    PushView(s, PppEncap, at, n);
    var v := s.(mem := Patch(s.mem, at + n + 9, 6));
    RestoredView(s, at + n + 9);
    PushView(v, PppEncap, at, n);
  }

  lemma PppIs(m: Mem, at: nat)
    ensures PppLength(m, at) == if Get(m, at) % 2 == 1 then 1 else 2
    ensures PppProtocol(m, at) == if Get(m, at) % 2 == 1 then Get(m, at) else Two(m, at)
  {
  }

  lemma RestoredView(s: State, i: nat)
    ensures var v := s.(mem := Patch(s.mem, i, 6));
      v.mem == Restored(s.mem, i) && v.layers == s.layers && View(v) == View(s) && Nested(v) == Nested(s)
      && v.f.sp == s.f.sp && v.f.dp == s.f.dp && Ports(v) == Ports(s) && Sixed(s.mem, v.mem)
  {
  }

  // ---- IP ----

  /** Accepting an IP header: one more of them, and the innermost one. */
  lemma EnterView(s: State, v6: bool, at: nat, frag: bool)
    requires Nested(s) && !(s.ip.family && s.ip.encapsulated)
    ensures var e := Accept(Enter(s), v6, at);
      && View(s).ips < 2 && Nested(e) && e.mem == s.mem && e.layers == s.layers && Ports(e) == Ports(s)
      && View(e) == View(s).(ips := View(s).ips + 1, v6 := v6, ip := at)
      && View(SetFrag(e, frag)) == View(e).(frag := frag)
  {
  }

  lemma PushIpView(s: State, proto: Proto, at: nat, n: nat)
    ensures var p := PushIp(s, proto, at, n);
      && p.layers == Added(s.layers, proto, at, n) && p.mem == s.mem && View(p) == View(s) && Nested(p) == Nested(s)
      && Ports(p) == Ports(s)
  {
  }

  lemma FragView(s: State, frag: bool)
    ensures var g := SetFrag(s, frag);
      && g.layers == s.layers && g.mem == s.mem && View(g) == View(s).(frag := frag) && Nested(g) == Nested(s)
      && Ports(g) == Ports(s)
  {
  }

  lemma Ip4Is(m: Mem, at: nat)
    ensures High(Byte(m, at)) == Get(m, at) / 0x10 && Low(Byte(m, at)) == Get(m, at) % 0x10
    ensures IsFragment(m, at) <==> Two(m, at + 6) % 0x4000 != 0
    ensures FirstUdp(m, at) <==> Two(m, at + 6) % 0x2000 == 0 && Get(m, at + 9) == 17
    ensures Two(m, at + 6) % 0x4000 == 0x2000 || Two(m, at + 6) % 0x4000 == 0 <==> Two(m, at + 6) % 0x2000 == 0
  {
  }

  lemma NoFamily(s: State, env: Env, at: nat, len: nat)
    ensures s.ip.family && s.ip.encapsulated ==> View(s).ips == 2
  {
  }

  lemma IpReads(s: State, env: Env, at: nat, len: nat)
    requires Nested(s)
    ensures var job, t := Call(IpD, at, len), IpTurn(s, at, len);
            Passes(s, env, job, t) || exists n: nat :: Records(s, env, job, Ip4, at, n, t)
  {
    hide Read, View, Nested, Added, PushIp, U16, Two, Byte, Get, High, Low, IsFragment, FirstUdp, ByNumber4, One,
         Accept, SetFrag, Maybe;
    Accessors();
    IpIs(s.mem, env, View(s), at, len);
    NoFamily(s, env, at, len);
    if len >= 20 && !(s.ip.family && s.ip.encapsulated) {
      var m, n, size := s.mem, 4 * Low(Byte(s.mem, at)), U16(s.mem, at + 2);
      var e := Accept(Enter(s), false, at);
      Ip4Is(m, at);
      EnterView(s, false, at, IsFragment(m, at));
      if High(Byte(m, at)) == 4 && 20 <= n <= size <= len {
        PushIpView(e, Ip4, at, n);
        FragView(PushIp(e, Ip4, at, n), IsFragment(m, at));
        AboveIs(m, env, View(e).(frag := IsFragment(m, at)), ByNumber4(Byte(m, at + 9)), at + n, size - n, len);
        AboveIs(m, env, View(e).(frag := IsFragment(m, at)), None, at + n, size - n, len);
        assert Records(s, env, Call(IpD, at, len), Ip4, at, n, IpTurn(s, at, len));
      }
    }
  }

  lemma ProtoReads(s: State, env: Env, proto: Octet, at: nat, len: nat)
    requires Nested(s)
    ensures Passes(s, env, Call(Ipv4ProtoD(proto), at, len), Ipv4ProtoTurn(s, proto, at, len))
  {
    hide Read, View;
  }

  lemma ExtensionsReads(s: State, env: Env, next: Octet, at: nat, len: nat)
    requires Nested(s)
    ensures Passes(s, env, Call(Ipv6ExtensionsD(next), at, len), Ipv6ExtensionsTurn(s, next, at, len))
  {
    hide Read, View, Nested;
    UpperView(s, next);
  }

  lemma UpperView(s: State, next: Octet)
    ensures var e := s.(f := s.f.(next := next));
      e.mem == s.mem && e.layers == s.layers && View(e) == View(s).(upper := next) && Nested(e) == Nested(s)
  {
  }

  lemma AddressIs(m: Mem, i: nat)
    ensures Prefix(m, i) <==> TeredoAddress(m, i)
  {
    hide Get;
    Accessors();
    assert Slice(m, i, 4) == [Get(m, i), Get(m, i + 1), Get(m, i + 2), Get(m, i + 3)];
    assert Slice(m, i, 8) == [Get(m, i), Get(m, i + 1), Get(m, i + 2), Get(m, i + 3),
                              Get(m, i + 4), Get(m, i + 5), Get(m, i + 6), Get(m, i + 7)];
    assert (forall k :: i + 2 <= k < i + 8 ==> Byte(m, k) == 0) ==>
      Byte(m, i + 2) == 0 && Byte(m, i + 3) == 0 && Byte(m, i + 4) == 0 && Byte(m, i + 5) == 0
      && Byte(m, i + 6) == 0 && Byte(m, i + 7) == 0;
  }

  lemma Ipv6Reads(s: State, env: Env, at: nat, len: nat)
    requires Nested(s)
    ensures var job, t := Call(Ipv6D, at, len), Ipv6Turn(s, at, len);
            Passes(s, env, job, t) || Records(s, env, job, Ip6, at, 40, t)
  {
    hide Read, View, Nested, Added, PushIp, U16, Two, Byte, Get, High, Prefix, TeredoAddress, ByNumber6, One, Accept,
         Maybe;
    Accessors();
    IpIs(s.mem, env, View(s), at, len);
    NoFamily(s, env, at, len);
    Ip4Is(s.mem, at);
    AddressIs(s.mem, at + 8);
    AddressIs(s.mem, at + 24);
    TunnelView(s);
    if len >= 40 && !(s.ip.family && s.ip.encapsulated) {
      var e, size := Accept(Enter(s), true, at), U16(s.mem, at + 4);
      EnterView(s, true, at, false);
      PushIpView(e, Ip6, at, 40);
      if size + 40 <= len {
        AboveIs(s.mem, env, View(e).(upper := Byte(s.mem, at + 6)), ByNumber6(Byte(s.mem, at + 6)), at + 40, size, len);
      }
    }
  }

  lemma TunnelView(s: State)
    ensures View(s).tunnel == s.f.teredo && Enter(s).f == s.f
  {
  }

  // ---- Extension headers ----

  lemma {:induction false} OptionsAre(m: Mem, i: nat, end: nat)
    ensures HopScan(m, i, end) <==> Options(m, i, end)
    decreases end - i
  {
    hide Byte, Get;
    Accessors();
    if i < end {
      OptionsAre(m, i + 1, end);
      OptionsAre(m, i + 2 + Byte(m, i + 1), end);
    }
  }

  lemma RememberView(s: State, at: nat)
    ensures var e := Remember(s, at);
      && e.mem == s.mem && e.layers == s.layers && Nested(e) == Nested(s) && Ports(e) == Ports(s)
      && View(e) == View(s).(ext := if View(s).ext == 0 then at else View(s).ext)
  {
  }

  // What stands above an extension header, once it has been passed.
  lemma NextReads(s: State, e: State, env: Env, at: nat, n: nat, len: nat)
    requires 0 < n <= len && e.mem == s.mem && View(e) == View(s).(ext := if View(s).ext == 0 then at else View(s).ext)
    ensures ReadNext(s.mem, env, View(s), at, n, len)
            == ReadJob(e, env, Call(Ipv6ExtensionsD(Byte(s.mem, at)), at + n, len - n))
  {
    hide Read, View, Maybe, ByNumber6, Get, Byte;
    Accessors();
    AboveIs(s.mem, env, View(e).(upper := Get(s.mem, at)), ByNumber6(Get(s.mem, at)), at + n, len - n, len);
  }

  lemma HopReads(s: State, env: Env, kind: Octet, at: nat, len: nat)
    requires Nested(s) && (kind == 0 || kind == 60)
    ensures var job, t := Call(Ipv6OptionsD(kind), at, len), Ipv6OptionsTurn(s, kind, at, len);
            Passes(s, env, job, t) || exists p, n: nat :: Records(s, env, job, p, at, n, t)
  {
    hide Passes, Records, Read, ReadNext, View, Nested, Remember, Byte, Get, Options, Ports;
    var m, e, p := s.mem, Remember(s, at), if kind == 0 then HopOpts else DstOpts;
    var n := 8 + 8 * Byte(m, at + 1);
    RememberView(s, at);
    if n <= len {
      PushView(e, p, at, n);
      NextReads(s, e, env, at, n, len);
      NextReads(s, Push(e, p, at, n), env, at, n, len);
    } else {
      NoNext(m, env, View(s), at, n, len);
    }
    if len >= 8 && HopsOk(m, at) {
      HopRecords(s, env, kind, at, len);
    } else {
      HopPasses(s, env, kind, at, len);
    }
  }

  lemma HopRecords(s: State, env: Env, kind: Octet, at: nat, len: nat)
    requires (kind == 0 || kind == 60) && len >= 8 && HopsOk(s.mem, at) && Nested(s)
    requires var n := 8 + 8 * Byte(s.mem, at + 1);
      ReadNext(s.mem, env, View(s), at, n, len)
      == if n <= len then
           ReadJob(Push(Remember(s, at), if kind == 0 then HopOpts else DstOpts, at, n), env,
                   Call(Ipv6ExtensionsD(Byte(s.mem, at)), at + n, len - n))
         else []
    ensures Records(s, env, Call(Ipv6OptionsD(kind), at, len), if kind == 0 then HopOpts else DstOpts, at,
                    8 + 8 * Byte(s.mem, at + 1), Ipv6OptionsTurn(s, kind, at, len))
  {
    hide Read, ReadNext, View, Nested, Added, Push, Remember, Byte, Get, One, HopScan, Options, Ports;
    Accessors();
    var n := 8 + 8 * Byte(s.mem, at + 1);
    IpIs(s.mem, env, View(s), at, len);
    OptionsAre(s.mem, at + 2, at + n);
    RememberView(s, at);
    PushView(Remember(s, at), if kind == 0 then HopOpts else DstOpts, at, n);
  }

  lemma HopPasses(s: State, env: Env, kind: Octet, at: nat, len: nat)
    requires (kind == 0 || kind == 60) && !(len >= 8 && HopsOk(s.mem, at)) && Nested(s)
    requires var n := 8 + 8 * Byte(s.mem, at + 1);
      ReadNext(s.mem, env, View(s), at, n, len)
      == if n <= len then
           ReadJob(Remember(s, at), env, Call(Ipv6ExtensionsD(Byte(s.mem, at)), at + n, len - n))
         else []
    ensures Passes(s, env, Call(Ipv6OptionsD(kind), at, len), Ipv6OptionsTurn(s, kind, at, len))
  {
    hide Read, ReadNext, View, Nested, Remember, Byte, Get, HopScan, Options, Ports;
    Accessors();
    IpIs(s.mem, env, View(s), at, len);
    OptionsAre(s.mem, at + 2, at + 8 + 8 * Byte(s.mem, at + 1));
    RememberView(s, at);
  }

  lemma NoNext(m: Mem, env: Env, c: Around, at: nat, n: nat, left: nat)
    requires left < n
    ensures ReadNext(m, env, c, at, n, left) == []
  {
  }

  lemma RoutingReads(s: State, env: Env, kind: Octet, at: nat, len: nat)
    requires Nested(s) && kind !in {0, 60, 44, 51}
    ensures Passes(s, env, Call(Ipv6OptionsD(kind), at, len), Ipv6OptionsTurn(s, kind, at, len))
  {
    hide Read, ReadNext, View, Nested, Remember, Byte, Get;
    Accessors();
    var n := 8 + 8 * Byte(s.mem, at + 1);
    IpIs(s.mem, env, View(s), at, len);
    RememberView(s, at);
    if len >= 8 {
      if n <= len {
        NextReads(s, Remember(s, at), env, at, n, len);
      } else {
        NoNext(s.mem, env, View(s), at, n, len);
      }
    }
  }

  lemma Ah6Reads(s: State, env: Env, at: nat, len: nat)
    requires Nested(s)
    ensures var job, t := Call(Ipv6OptionsD(51), at, len), Ipv6OptionsTurn(s, 51, at, len);
            Passes(s, env, job, t) || exists n: nat :: Records(s, env, job, Ah, at, n, t)
  {
    hide Read, ReadNext, View, Nested, Added, Push, Remember, Byte, Get, One;
    Accessors();
    var m, e, n := s.mem, Remember(s, at), 8 + 4 * Byte(s.mem, at + 1);
    IpIs(m, env, View(s), at, len);
    RememberView(s, at);
    PushView(e, Ah, at, n);
    if n <= len {
      NextReads(s, Push(e, Ah, at, n), env, at, n, len);
      assert Records(s, env, Call(Ipv6OptionsD(51), at, len), Ah, at, n, Ipv6OptionsTurn(s, 51, at, len));
    }
  }

  lemma FragmentReads(s: State, env: Env, at: nat, len: nat)
    requires Nested(s)
    ensures Passes(s, env, Call(Ipv6OptionsD(44), at, len), Ipv6OptionsTurn(s, 44, at, len))
  {
    hide Ports, Read, ReadNext, View, Nested, Remember, SetFrag, Byte, Get, U16, Two;
    Accessors();
    var m, e := s.mem, Remember(s, at);
    IpIs(m, env, View(s), at, len);
    RememberView(s, at);
    RememberFlags(s, at);
    if len > 8 {
      var frag := s.f.frag || U16(m, at + 2) / 8 != 0 || U16(m, at + 2) % 2 == 1;
      FragView(e, frag);
      FragView(s, frag);
      NextReads(SetFrag(s, frag), SetFrag(e, frag), env, at, 8, len);
      assert Fragmented(e, at) == SetFrag(e, frag);
    }
  }

  lemma RememberFlags(s: State, at: nat)
    ensures Remember(s, at).f.frag == s.f.frag == View(s).frag
    ensures forall frag :: SetFrag(Remember(s, at), frag).f.frag == frag
  {
  }

  lemma Ah4Reads(s: State, env: Env, at: nat, len: nat)
    requires Nested(s)
    ensures var job, t := Call(AhD, at, len), AhTurn(s, at, len);
            Passes(s, env, job, t) || exists n: nat :: Records(s, env, job, Ah, at, n, t)
  {
    hide Read, View, Nested, Added, Push, Byte, Get, One, Maybe, ByNumber4;
    Accessors();
    var m, n := s.mem, 8 + 4 * Byte(s.mem, at + 1);
    IpIs(m, env, View(s), at, len);
    PushView(s, Ah, at, n);
    if n <= len {
      AboveIs(m, env, View(s), ByNumber4(Byte(m, at)), at + n, len - n, len);
      assert Records(s, env, Call(AhD, at, len), Ah, at, n, AhTurn(s, at, len));
    }
  }

  lemma EspReads(s: State, env: Env, at: nat, len: nat)
    requires Nested(s)
    ensures Passes(s, env, Call(EspD, at, len), EspTurn(s, at, len))
  {
    hide Read, View, Nested, Byte, Get, Maybe;
    Accessors();
    var m := s.mem;
    IpIs(m, env, View(s), at, len);
    if len >= 22 && Byte(m, at + len - 14) < len - 22 {
      var u, padding, next := s.(f := s.f.(unsure := true)), Byte(m, at + len - 14), Byte(m, at + len - 13);
      assert at + 8 + (len - 22) == at + len - 14 && at + 8 + (len - 22) + 1 == at + len - 13;
      UnsureView(s);
      AboveIs(m, env, View(u), ByEsp(next), at + 8, len - 22 - padding, len);
      EspNextReads(u, env, next, at + 8, len - 22 - padding);
    }
  }

  lemma UnsureView(s: State)
    ensures var u := s.(f := s.f.(unsure := true));
      u.mem == s.mem && u.layers == s.layers && View(u) == View(s).(unsure := true) && Nested(u) == Nested(s)
  {
  }

  lemma EspNextReads(s: State, env: Env, next: Octet, at: nat, len: nat)
    ensures var t := EspNext(s, next, at, len);
      && t.s == s && ReadJob(s, env, t.job) == Maybe(s.mem, env, View(s), ByEsp(next), at, len)
  {
    hide Read, View;
  }

  // ---- Tunnels ----

  lemma {:induction false} RoutesAre(m: Mem, at: nat, n: nat, len: nat)
    ensures RouteEnd(m, at, n, len) <= len <==> Routes(m, at, n) <= len
    ensures Routes(m, at, n) <= len ==> RouteEnd(m, at, n, len) == Routes(m, at, n)
    decreases len - n
  {
    hide U16, Two;
    Accessors();
    if n + 4 <= len {
      var size := Byte(m, at + n + 3);
      RoutesEnd(m, at, n);
      if !(U16(m, at + n) == 0 && size == 0) {
        RoutesAre(m, at, n + 4 + size, len);
      }
    }
  }

  // Beyond memory there are only zeros.
  lemma RoutesEnd(m: Mem, at: nat, n: nat)
    ensures at + n >= |m| ==> U16(m, at + n) == 0 && Byte(m, at + n + 3) == 0
  {
  }

  lemma GreIs(m: Mem, at: nat, len: nat)
    ensures GreSize(m, at).None? ==> GreLength(m, at, len) < 0
    ensures var n := GreSize(m, at);
      n.Some? ==>
        && (0 <= GreLength(m, at, len) <= len <==> n.value <= len)
        && (n.value <= len ==> GreLength(m, at, len) == n.value)
        && GreLength(m, at, len) >= 0
  {
    hide RouteEnd, Routes, U16, Two, Byte, Get;
    Accessors();
    var a := Byte(m, at);
    RoutesAre(m, at, 8 + 4 * (a / 32 % 2) + 4 * (a / 16 % 2), len);
  }

  lemma DepthIs(s: State)
    requires Nested(s)
    ensures View(s).ips == 2 <==> s.ip.encapsulated
  {
  }

  lemma ArpIs(m: Mem, env: Env, c: Around, d: Around, at: nat, left: nat)
    ensures Read(m, env, c, Plain(Arp), at, left) == Read(m, env, d, Plain(Arp), at, left)
  {
    LinkIs(m, env, c, at, left);
    LinkIs(m, env, d, at, left);
  }

  lemma GreNextReads(s: State, env: Env, kind: nat, at: nat, len: nat)
    requires Nested(s)
    ensures var t := GreNext(s, kind, at, len);
      && t.s.layers == s.layers && (t.job.Call? && t.job.d != ArpD ==> Nested(t.s))
      && ReadJob(t.s, env, t.job) == Maybe(s.mem, env, View(s), ByGre(kind), at, len)
  {
    hide Read, View, Nested;
    ArpIs(s.mem, env, View(NoIp(s)), View(s), at, len);
  }

  // The dispatch behind a GRE header.
  function GreNext(s: State, kind: nat, at: nat, len: nat): Turn {
    if kind == IP then Go(s, IpD, at, len)
    else if kind == TRANS_BRIDGING then Go(s, TransBridgingD, at, len)
    else if kind == ARP || kind == REVARP then Go(NoIp(s), ArpD, at, len)
    else if kind == IPV6 then Go(s, Ipv6D, at, len)
    else if kind == PPP then Go(s, PppD, at, len)
    else if kind == ERSPAN2 then Go(s, ErspanD(2), at, len)
    else if kind == ERSPAN3 then Go(s, ErspanD(3), at, len)
    else if kind == VLAN then Go(s, VlanD, at, len)
    else Done(s)
  }

  lemma GreReads(s: State, env: Env, at: nat, len: nat)
    requires Nested(s)
    ensures var job, t := Call(GreD, at, len), GreTurn(s, at, len);
            Passes(s, env, job, t) || exists n: nat :: Records(s, env, job, Gre, at, n, t)
  {
    hide Read, View, Nested, Added, Push, U16, Two, GreLength, GreSize, One, Maybe, ByGre, Records;
    GreIs(s.mem, at, len);
    var size := GreSize(s.mem, at);
    if len >= 4 && !s.ip.encapsulated && size.Some? && size.value <= len {
      GreRecords(s, env, at, len);
    } else {
      TransportIs(s.mem, env, View(s), 0, 0, 0, at, len);
      DepthIs(s);
    }
  }

  lemma GreRecords(s: State, env: Env, at: nat, len: nat)
    requires Nested(s) && len >= 4 && !s.ip.encapsulated && GreSize(s.mem, at).Some? && GreSize(s.mem, at).value <= len
    ensures Records(s, env, Call(GreD, at, len), Gre, at, GreSize(s.mem, at).value, GreTurn(s, at, len))
  {
    hide Read, View, Nested, Added, Push, U16, Two, GreLength, GreSize, One, Maybe, ByGre;
    Accessors();
    TransportIs(s.mem, env, View(s), 0, 0, 0, at, len);
    DepthIs(s);
    GreIs(s.mem, at, len);
    var n, kind := GreSize(s.mem, at).value, U16(s.mem, at + 2);
    var p := Push(s, Gre, at, n);
    PushView(s, Gre, at, n);
    assert GreTurn(s, at, len) == GreNext(p, kind, at + n, len - n);
    GreNextReads(p, env, kind, at + n, len - n);
    GreSizeFour(s.mem, at);
    AboveIs(s.mem, env, View(s), ByGre(kind), at + n, len - n, len);
  }

  lemma GreSizeFour(m: Mem, at: nat)
    ensures GreSize(m, at).Some? ==> GreSize(m, at).value >= 4
  {
  }

  lemma ErspanReads(s: State, env: Env, version: nat, at: nat, len: nat)
    requires Nested(s)
    ensures var job, t := Call(ErspanD(version), at, len), ErspanTurn(s, version, at, len);
            Passes(s, env, job, t) || Records(s, env, job, Erspan, at, if version == 2 then 8 else 20, t)
  {
    hide Ports, Read, View, Nested, Added, Push, Byte, Get, One;
    Accessors();
    TransportIs(s.mem, env, View(s), version, 0, 0, at, len);
    DepthIs(s);
    PushView(s, Erspan, at, if version == 2 then 8 else 20);
  }

  // ---- Transport ----

  lemma UdpSizeIs(s: State, at: nat)
    ensures UdpLength(s, at) == UdpSize(s.mem, View(s), at)
  {
    hide U16, Two, Byte, Get;
    Accessors();
  }

  lemma BytesAre(m: Mem, at: nat, n: nat)
    ensures Bytes(m, at, n) == Slice(m, at, n)
  {
    hide Byte, Get;
    Accessors();
    forall k | 0 <= k < n
      ensures Bytes(m, at, n)[k] == Slice(m, at, n)[k]
    {
      assert Byte(m, at + k) == Get(m, at + k);
    }
  }

  lemma PseudoIs(s: State, at: nat, len: nat)
    requires len < 0x1_0000
    ensures PseudoHeader(s, at, len) == Pseudo(s.mem, View(s), at, len)
  {
    hide Byte, Get;
    Accessors();
    BytesAre(s.mem, s.f.iph + 8, 32);
    BytesAre(s.mem, s.f.iph + 12, 8);
    assert Bytes(s.mem, at + 4, 2) == [Byte(s.mem, at + 4), Byte(s.mem, at + 5)];
    assert len % 0x1_0000 / 256 == len / 0x100 % 0x100;
  }

  lemma UdpSumIs(s: State, at: nat, len: nat)
    requires len < 0x1_0000
    ensures BadUdpSum(s, at, len) <==> !UdpSumOk(s.mem, View(s), at, len)
  {
    hide U16, Two, Words, Computed, Standard, PseudoHeader, Pseudo, Bytes, Slice;
    Accessors();
    PseudoIs(s, at, len);
    BytesAre(s.mem, at, len);
    ResultIsStandard(true, PseudoHeader(s, at, len) + Bytes(s.mem, at, len));
  }

  lemma PortsView(s: State, sp: nat, dp: nat)
    ensures var e := s.(f := s.f.(sp := sp, dp := dp));
      e.mem == s.mem && e.layers == s.layers && View(e) == View(s) && Nested(e) == Nested(s)
  {
  }

  lemma UdpReads(s: State, env: Env, at: nat, len: nat)
    requires Nested(s)
    ensures var job, t := Call(UdpD, at, len), UdpTurn(s, at, len);
            Passes(s, env, job, t) || Records(s, env, job, Udp, at, 8, t)
  {
    hide Read, View, Nested, Added, Push, U16, Two, One, UdpLength, UdpSize, BadUdpSum, UdpSumOk;
    Accessors();
    TransportIs(s.mem, env, View(s), 0, U16(s.mem, at), U16(s.mem, at + 2), at, len);
    FlagsView(s);
    UdpSizeIs(s, at);
    var e := s.(f := s.f.(sp := U16(s.mem, at), dp := U16(s.mem, at + 2)));
    PortsView(s, U16(s.mem, at), U16(s.mem, at + 2));
    PushView(e, Udp, at, 8);
    if UdpLength(s, at) == len {
      UdpSumIs(s, at, len);
    }
  }

  lemma FlagsView(s: State)
    ensures View(s).frag == s.f.frag && View(s).unsure == s.f.unsure
  {
  }

  lemma IndicatorsAre(m: Mem, at: nat, len: nat)
    ensures var n := Indicators(m, at, len);
            if n.None? then TeredoStart(m, at, len) > len else n.value <= len && TeredoStart(m, at, len) == n.value
  {
    hide U16, Two, Byte, Get;
    Accessors();
  }

  lemma TeredoReads(s: State, env: Env, at: nat, len: nat)
    requires Nested(s)
    ensures Passes(s, env, Call(TeredoD, at, len), TeredoTurn(s, at, len))
  {
    hide Read, View, Nested, TeredoStart, Indicators, Byte, Get;
    Accessors();
    TransportIs(s.mem, env, View(s), 0, s.f.sp, s.f.dp, at, len);
    IndicatorsAre(s.mem, at, len);
    InsideView(s);
  }

  lemma InsideView(s: State)
    ensures var unsure := s.f.unsure || (s.f.sp != 3544 && s.f.dp != 3544);
      var u := s.(f := s.f.(teredo := true, unsure := unsure));
      && u.mem == s.mem && u.layers == s.layers && Nested(u) == Nested(s)
      && View(s).unsure == s.f.unsure && View(u) == View(s).(tunnel := true, unsure := unsure)
  {
  }

  lemma LeavesRead(s: State, env: Env, at: nat, len: nat)
    requires Nested(s)
    ensures var job, t := Call(TcpD, at, len), TcpTurn(s, at, len);
            Passes(s, env, job, t) || exists n: nat :: Records(s, env, job, Tcp, at, n, t)
    ensures var job, t := Call(IcmpD, at, len), IcmpTurn(s, at, len);
            Passes(s, env, job, t) || exists n: nat :: Records(s, env, job, Icmp4, at, n, t)
    ensures var job, t := Call(Icmp6D, at, len), Icmp6Turn(s, at, len);
            Passes(s, env, job, t) || exists n: nat :: Records(s, env, job, Icmp6, at, n, t)
    ensures var job, t := Call(ArpD, at, len), ArpTurn(s, at, len);
            Passes(s, env, job, t) || Records(s, env, job, Arp, at, 28, t)
  {
    TcpReads(s, env, at, len);
    IcmpReads(s, env, at, len);
    Icmp6Reads(s, env, at, len);
    ArpReads(s, env, at, len);
  }

  lemma TcpReads(s: State, env: Env, at: nat, len: nat)
    ensures var job, t := Call(TcpD, at, len), TcpTurn(s, at, len);
            Passes(s, env, job, t) || exists n: nat :: Records(s, env, job, Tcp, at, n, t)
  {
    hide Read, View, Nested, Added, Push, Byte, Get, U16, Two, One;
    Accessors();
    TransportIs(s.mem, env, View(s), 0, 0, 0, at, len);
    var n := 4 * High(Byte(s.mem, at + 12));
    PortsView(s, U16(s.mem, at), U16(s.mem, at + 2));
    PushView(s.(f := s.f.(sp := U16(s.mem, at), dp := U16(s.mem, at + 2))), Tcp, at, n);
    NothingMore(One(Tcp, at, n));
    if 20 <= n <= len {
      assert Records(s, env, Call(TcpD, at, len), Tcp, at, n, TcpTurn(s, at, len));
    }
  }

  lemma IcmpReads(s: State, env: Env, at: nat, len: nat)
    ensures var job, t := Call(IcmpD, at, len), IcmpTurn(s, at, len);
            Passes(s, env, job, t) || exists n: nat :: Records(s, env, job, Icmp4, at, n, t)
  {
    hide Read, View, Nested, Added, Push, Byte, Get;
    Accessors();
    TransportIs(s.mem, env, View(s), 0, 0, 0, at, len);
    var n := if Byte(s.mem, at) in {0, 3, 4, 5, 8, 11, 12} then 8 else 4;
    PushView(s, Icmp4, at, n);
    NothingMore(One(Icmp4, at, n));
    if ReadIcmp4(s.mem, at, len) != [] {
      assert Records(s, env, Call(IcmpD, at, len), Icmp4, at, n, IcmpTurn(s, at, len));
    }
  }

  lemma Icmp6Reads(s: State, env: Env, at: nat, len: nat)
    ensures var job, t := Call(Icmp6D, at, len), Icmp6Turn(s, at, len);
            Passes(s, env, job, t) || exists n: nat :: Records(s, env, job, Icmp6, at, n, t)
  {
    hide Read, View, Nested, Added, Push, Byte, Get;
    Accessors();
    TransportIs(s.mem, env, View(s), 0, 0, 0, at, len);
    var n := if Byte(s.mem, at) in {1, 2, 3, 4, 128, 129} then 8 else 4;
    PushView(s, Icmp6, at, n);
    NothingMore(One(Icmp6, at, n));
    if ReadIcmp6(s.mem, at, len) != [] {
      assert Records(s, env, Call(Icmp6D, at, len), Icmp6, at, n, Icmp6Turn(s, at, len));
    }
  }

  lemma ArpReads(s: State, env: Env, at: nat, len: nat)
    ensures var job, t := Call(ArpD, at, len), ArpTurn(s, at, len);
            Passes(s, env, job, t) || Records(s, env, job, Arp, at, 28, t)
  {
    hide Read, View, Nested, Added, Push, One;
    LinkIs(s.mem, env, View(s), at, len);
    PushView(s, Arp, at, 28);
    NothingMore(One(Arp, at, 28));
  }

  // ---- Whole packets ----

  lemma OptionsReads(s: State, env: Env, kind: Octet, at: nat, len: nat)
    requires Nested(s)
    ensures var job, t := Call(Ipv6OptionsD(kind), at, len), Ipv6OptionsTurn(s, kind, at, len);
            Passes(s, env, job, t) || exists p, n: nat :: Records(s, env, job, p, at, n, t)
  {
    hide Passes, Records, Ipv6OptionsTurn;
    if kind == 0 || kind == 60 {
      HopReads(s, env, kind, at, len);
    } else if kind == 44 {
      FragmentReads(s, env, at, len);
    } else if kind == 51 {
      Ah6Reads(s, env, at, len);
    } else {
      RoutingReads(s, env, kind, at, len);
    }
  }

  /** One turn records one header or none, and keeps the order of all. */
  lemma NextReadsOne(s: State, env: Env, d: Decoder, at: nat, len: nat)
    requires Nested(s) || d == ArpD
    ensures var job, t := Call(d, at, len), Next(s, env, d, at, len);
            Passes(s, env, job, t) || exists p, n: nat :: Records(s, env, job, p, at, n, t)
  {
    hide Passes, Records, IpTurn, Ipv4ProtoTurn, Ipv6Turn, Ipv6OptionsTurn, Ipv6ExtensionsTurn, VlanTurn, MplsTurn,
         EthOverMplsTurn, GreTurn, AhTurn, EspTurn, UdpTurn, TeredoTurn, TransBridgingTurn, ErspanTurn, PppoeTurn,
         PppTurn, TcpTurn, IcmpTurn, Icmp6Turn, ArpTurn, Nested, PppLength;
    match d {
      case IpD => IpReads(s, env, at, len);
      case Ipv4ProtoD(proto) => ProtoReads(s, env, proto, at, len);
      case Ipv6D => Ipv6Reads(s, env, at, len);
      case Ipv6OptionsD(kind) => OptionsReads(s, env, kind, at, len);
      case Ipv6ExtensionsD(next) => ExtensionsReads(s, env, next, at, len);
      case VlanD => VlanReads(s, env, at, len);
      case MplsD => MplsReads(s, env, at, len);
      case EthOverMplsD => EthOverMplsReads(s, env, at, len);
      case GreD => GreReads(s, env, at, len);
      case AhD => Ah4Reads(s, env, at, len);
      case EspD => EspReads(s, env, at, len);
      case UdpD => UdpReads(s, env, at, len);
      case TeredoD => TeredoReads(s, env, at, len);
      case TransBridgingD => TransBridgingReads(s, env, at, len);
      case ErspanD(version) => ErspanReads(s, env, version, at, len);
      case PppoeD => PppoeReads(s, env, at, len);
      case PppD => PppReads(s, env, at, len);
      case TcpD => TcpReads(s, env, at, len);
      case IcmpD => IcmpReads(s, env, at, len);
      case Icmp6D => Icmp6Reads(s, env, at, len);
      case ArpD => ArpReads(s, env, at, len);
    }
  }

  lemma NextContinues(s: State, env: Env, d: Decoder, at: nat, len: nat)
    requires Fine(s, Call(d, at, len))
    ensures Continues(s, env, Call(d, at, len), Next(s, env, d, at, len))
  {
    hide Continues, Passes, Records, Next, Nested;
    var job, t := Call(d, at, len), Next(s, env, d, at, len);
    NextReadsOne(s, env, d, at, len);
    if Passes(s, env, job, t) {
      PassesContinue(s, env, job, t);
    } else {
      var p: Proto, n: nat :| Records(s, env, job, p, at, n, t);
      RecordsContinue(s, env, job, p, at, n, t);
    }
  }

  /** From any call on, decoding records exactly the headers that are there, behind those it has. */
  lemma {:induction false} RunReads(s: State, env: Env, job: Job)
    requires Fine(s, job)
    ensures Run(s, env, job).layers == Capped(s.layers + ReadJob(s, env, job))
    decreases if job.Call? then job.len + 1 else 0, if job.Call? then Rank(job.d) else 0
  {
    hide Next, Settle, ReadCall, Capped, Nested;
    match job {
      case Stop =>
        StopReads(s.layers);
      case Call(d, at, len) =>
        NextContinues(s, env, d, at, len);
        TurnDecreases(s, env, d, at, len);
        var t := Next(s, env, d, at, len);
        RunReads(t.s, env, t.job);
        SettleKeeps(s, d, Run(t.s, env, t.job));
    }
  }

  /** A call finds the headers that are there, in the order in which they stand. */
  predicate Finds(before: State, after: State, env: Env, d: Decoder, at: nat, len: nat) {
    Fine(before, Call(d, at, len)) ==>
      after.layers == Capped(before.layers + ReadJob(before, env, Call(d, at, len)))
  }

  lemma RunFinds(s: State, env: Env, d: Decoder, at: nat, len: nat)
    ensures Finds(s, Run(s, env, Call(d, at, len)), env, d, at, len)
  {
    hide Fine, Run, ReadJob, Capped;
    if Fine(s, Call(d, at, len)) {
      RunReads(s, env, Call(d, at, len));
    }
  }

  lemma StopReads(layers: seq<Layer>)
    requires |layers| <= LAYER_MAX
    ensures Capped(layers + []) == layers
  {
  }

  /** Every frame is decoded to exactly the headers that it holds, in order, as far as there are slots. */
  lemma FrameIsRead(m: Mem, env: Env, caplen: nat)
    ensures DecodeFrame(m, env, caplen).layers == Capped(Frame(m, env, caplen))
  {
    hide Read, Run, Push, Added, Capped, U16, Two, EtherNext, ByType, Maybe, View, One;
    Accessors();
    var s := Fresh(m);
    var c := Around(0, 0, false, 0, 0, 0, false, false, false);
    FreshView(m);
    if caplen >= 14 {
      var p, kind := Push(s, Eth, 0, 14), U16(m, 12);
      PushView(s, Eth, 0, 14);
      AddedReads([], Eth, 0, 14, Maybe(m, env, c, ByType(kind, true, true), 14, caplen - 14));
      AboveIs(m, env, c, ByType(kind, true, true), 14, caplen - 14, caplen);
      EtherReads(p, env, kind, true, true, 14, caplen - 14);
      var t := EthTurn(s, caplen);
      RunReads(t.s, env, t.job);
      EmptyBefore(One(Eth, 0, 14) + Maybe(m, env, c, ByType(kind, true, true), 14, caplen - 14));
    } else {
      RunReads(s, env, Stop);
      StopReads([]);
      EmptyBefore([]);
    }
  }

  lemma EmptyBefore(layers: seq<Layer>)
    ensures [] + layers == layers
  {
  }

  lemma FreshView(m: Mem)
    ensures var s := Fresh(m);
      s.layers == [] && s.mem == m && Nested(s) && View(s) == Around(0, 0, false, 0, 0, 0, false, false, false)
  {
  }
}
