/** The ports of every decoded frame, and what the decoder makes of the common ones. */
module DecodedFrames {
  import opened DecodeLayers
  import opened DecodeSafety
  import opened DecodeRefines
  import opened PacketGrammar
  import opened Octets

  // ---- Ports ----

  predicate HasPorts(l: Layer) { l.proto == Tcp || l.proto == Udp }

  function PortsOf(m: Mem, layers: seq<Layer>, before: (nat, nat)): (nat, nat) {
    if layers == [] then before
    else PortsOf(m, layers[1..], PortsAt(m, layers[0].proto, layers[0].start, before))
  }

  lemma {:induction false} PortsOfOne(m: Mem, l: Layer, more: seq<Layer>, before: (nat, nat))
    ensures PortsOf(m, [l] + more, before) == PortsOf(m, more, PortsAt(m, l.proto, l.start, before))
  {
    assert ([l] + more)[1..] == more;
  }

  /** The ports are those of the last header that has any. */
  lemma {:induction false} PortsAreLast(m: Mem, layers: seq<Layer>, k: nat, before: (nat, nat))
    requires k < |layers| && HasPorts(layers[k]) && (forall j | k < j < |layers| :: !HasPorts(layers[j]))
    ensures PortsOf(m, layers, before) == (Two(m, layers[k].start), Two(m, layers[k].start + 2))
  {
    hide Two;
    var first := PortsAt(m, layers[0].proto, layers[0].start, before);
    if k == 0 {
      NoPorts(m, layers[1..], first);
    } else {
      PortsAreLast(m, layers[1..], k - 1, first);
    }
  }

  lemma {:induction false} NoPorts(m: Mem, layers: seq<Layer>, before: (nat, nat))
    requires forall k | 0 <= k < |layers| :: !HasPorts(layers[k])
    ensures PortsOf(m, layers, before) == before
  {
    if layers != [] {
      NoPorts(m, layers[1..], before);
    }
  }

  lemma SixedTwice(m: Mem, n: Mem, o: Mem)
    requires Sixed(m, n) && Sixed(n, o)
    ensures Sixed(m, o) && (o == m ==> n == m)
  {
    if o == m {
      assert forall i | 0 <= i < |m| :: n[i] == m[i];
    }
  }

  predicate HasPpp(layers: seq<Layer>) { exists k :: 0 <= k < |layers| && layers[k].proto == PppEncap }

  lemma HasPppOne(l: Layer, more: seq<Layer>)
    ensures HasPpp([l] + more) <==> l.proto == PppEncap || HasPpp(more)
  {
    if l.proto == PppEncap {
      assert ([l] + more)[0] == l;
    }
    if HasPpp(more) {
      var k :| 0 <= k < |more| && more[k].proto == PppEncap;
      assert ([l] + more)[k + 1] == more[k];
    }
  }

  lemma SettlePorts(s: State, d: Decoder, after: State)
    ensures Ports(Settle(s, d, after)) == Ports(after)
  {
  }

  /** A run leaves the ports of the last header that has any, and changes bytes only behind a PPP header. */
  lemma {:induction false} RunPorts(s: State, env: Env, job: Job)
    requires Fine(s, job)
    ensures var r, found := Run(s, env, job), ReadJob(s, env, job);
      && Sixed(s.mem, r.mem) && (!HasPpp(found) ==> r.mem == s.mem)
      && (r.mem == s.mem ==> Ports(r) == PortsOf(s.mem, found, Ports(s)))
    decreases if job.Call? then job.len + 1 else 0, if job.Call? then Rank(job.d) else 0
  {
    hide Next, Settle, ReadCall, Capped, Nested, Sixed, HasPpp, PortsOf, Ports, PortsAt, Passes, Records;
    match job {
      case Stop =>
        NothingFound(s);
      case Call(d, at, len) =>
        NextContinues(s, env, d, at, len);
        TurnDecreases(s, env, d, at, len);
        var t := Next(s, env, d, at, len);
        RunPorts(t.s, env, t.job);
        var r := Run(t.s, env, t.job);
        SettleKeeps(s, d, r);
        SettlePorts(s, d, r);
        TurnPorts(s, env, d, at, len, r);
    }
  }

  lemma NothingFound(s: State)
    ensures Sixed(s.mem, s.mem) && PortsOf(s.mem, [], Ports(s)) == Ports(s)
  {
  }

  lemma TurnPorts(s: State, env: Env, d: Decoder, at: nat, len: nat, r: State)
    requires Fine(s, Call(d, at, len))
    requires var t := Next(s, env, d, at, len);
      var more := ReadJob(t.s, env, t.job);
      && Sixed(t.s.mem, r.mem) && (!HasPpp(more) ==> r.mem == t.s.mem)
      && (r.mem == t.s.mem ==> Ports(r) == PortsOf(t.s.mem, more, Ports(t.s)))
    ensures var found := ReadJob(s, env, Call(d, at, len));
      && Sixed(s.mem, r.mem) && (!HasPpp(found) ==> r.mem == s.mem)
      && (r.mem == s.mem ==> Ports(r) == PortsOf(s.mem, found, Ports(s)))
  {
    hide Next, ReadJob, Nested, Sixed, HasPpp, PortsOf, Ports, PortsAt, Added;
    var job, t := Call(d, at, len), Next(s, env, d, at, len);
    var more := ReadJob(t.s, env, t.job);
    NextReadsOne(s, env, d, at, len);
    if !Passes(s, env, job, t) {
      var p: Proto, n: nat :| Records(s, env, job, p, at, n, t);
      var l := Layer(p, at, n % 0x1_0000);
      HasPppOne(l, more);
      PortsOfOne(s.mem, l, more, Ports(s));
      NothingFound(s);
      SixedTwice(s.mem, t.s.mem, r.mem);
    }
  }

  /** The ports of a decoded frame are those of the last TCP or UDP header that it holds, or zero if there is
      none, unless the protocol field of a compressed header was put back; and that happens behind a PPP
      header only. */
  lemma FramePorts(m: Mem, env: Env, caplen: nat)
    ensures var d, found := DecodeFrame(m, env, caplen), Frame(m, env, caplen);
      && (!HasPpp(found) ==> d.mem == m)
      && (d.mem == m ==> (d.f.sp, d.f.dp) == PortsOf(m, found, (0, 0)))
  {
    hide Run, ReadCall, Push, U16, Two, EtherNext, ByType, Maybe, View, One, HasPpp, PortsOf, PortsAt, Above;
    Accessors();
    var s, c := Fresh(m), Around(0, 0, false, 0, 0, 0, false, false, false);
    FreshView(m);
    if caplen >= 14 {
      var p, kind := Push(s, Eth, 0, 14), U16(m, 12);
      PushView(s, Eth, 0, 14);
      AboveIs(m, env, c, ByType(kind, true, true), 14, caplen - 14, caplen);
      EtherReads(p, env, kind, true, true, 14, caplen - 14);
      var t := EthTurn(s, caplen);
      RunPorts(t.s, env, t.job);
      EthHasNone(m, Maybe(m, env, c, ByType(kind, true, true), 14, caplen - 14));
    } else {
      RunPorts(s, env, Stop);
    }
  }

  lemma EthHasNone(m: Mem, more: seq<Layer>)
    ensures HasPpp(One(Eth, 0, 14) + more) <==> HasPpp(more)
    ensures PortsOf(m, One(Eth, 0, 14) + more, (0, 0)) == PortsOf(m, more, (0, 0))
  {
    hide HasPpp, PortsOf;
    HasPppOne(Layer(Eth, 0, 14), more);
    PortsOfOne(m, Layer(Eth, 0, 14), more, (0, 0));
  }

  // ---- Common frames ----

  /** An IPv4 datagram in ethernet that is not a fragment, with a header of n bytes. */
  predicate InIpv4(m: Mem, caplen: nat, proto: Octet, n: nat, size: nat) {
    && 14 + size <= caplen && Two(m, 12) == 0x0800
    && Get(m, 14) / 16 == 4 && n == 4 * (Get(m, 14) % 16) && 20 <= n <= size && size == Two(m, 16)
    && Two(m, 20) % 0x4000 == 0 && Get(m, 23) == proto
  }

  /** An IPv6 datagram in ethernet, with so many bytes behind its header. */
  predicate InIpv6(m: Mem, caplen: nat, next: Octet, size: nat) {
    54 + size <= caplen && Two(m, 12) == 0x86dd && Get(m, 14) / 16 == 6 && size == Two(m, 18) && Get(m, 20) == next
  }

  lemma Ipv4Frame(m: Mem, env: Env, caplen: nat, proto: Octet, n: nat, size: nat)
    requires InIpv4(m, caplen, proto, n, size)
    ensures Frame(m, env, caplen)
            == [Layer(Eth, 0, 14), Layer(Ip4, 14, n)]
               + Maybe(m, env, Around(1, 0, false, 14, 0, 0, false, false, false), ByNumber4(proto), 14 + n, size - n)
  {
    hide Read, Two, Get, ByNumber4, Maybe;
    var c := Around(0, 0, false, 0, 0, 0, false, false, false);
    AboveIs(m, env, c, ByType(Two(m, 12), true, true), 14, caplen - 14, caplen);
    IpIs(m, env, c, 14, caplen - 14);
    AboveIs(m, env, c.(ips := 1, ip := 14), ByNumber4(proto), 14 + n, size - n, caplen - 14);
    MaybeIs(m, env, c, Plain(Ip4), 14, caplen - 14);
  }

  lemma MaybeIs(m: Mem, env: Env, c: Around, h: Header, at: nat, left: nat)
    ensures Maybe(m, env, c, Some(h), at, left) == Read(m, env, c, h, at, left)
  {
  }

  lemma Ipv6Frame(m: Mem, env: Env, caplen: nat, next: Octet, size: nat)
    requires InIpv6(m, caplen, next, size)
    ensures Frame(m, env, caplen)
            == [Layer(Eth, 0, 14), Layer(Ip6, 14, 40)]
               + Maybe(m, env, Around(1, 0, true, 14, 0, next, false, false, false), ByNumber6(next), 54, size)
  {
    hide Read, Two, Get, ByNumber6, Maybe;
    var c := Around(0, 0, false, 0, 0, 0, false, false, false);
    AboveIs(m, env, c, ByType(Two(m, 12), true, true), 14, caplen - 14, caplen);
    IpIs(m, env, c, 14, caplen - 14);
    AboveIs(m, env, c.(ips := 1, v6 := true, ip := 14, upper := next), ByNumber6(next), 54, size, caplen - 14);
    MaybeIs(m, env, c, Plain(Ip6), 14, caplen - 14);
  }

  /** Behind two headers, the ones that are found are recorded, and the ports are those of the last one. */
  lemma ThreeHeaders(m: Mem, env: Env, caplen: nat, ip: Layer, l: Layer, more: seq<Layer>)
    requires Frame(m, env, caplen) == [Layer(Eth, 0, 14), ip] + ([l] + more) && (ip.proto == Ip4 || ip.proto == Ip6)
    ensures var d := DecodeFrame(m, env, caplen);
      && [Layer(Eth, 0, 14), ip, l] <= d.layers
      && (more == [] && HasPorts(l) ==>
            d.layers == [Layer(Eth, 0, 14), ip, l] && (d.f.sp, d.f.dp) == (Two(m, l.start), Two(m, l.start + 2)))
      && (more == [] ==> d.layers == [Layer(Eth, 0, 14), ip, l])
  {
    hide DecodeFrame, Frame, Two;
    var three := [Layer(Eth, 0, 14), ip, l];
    assert [Layer(Eth, 0, 14), ip] + ([l] + more) == three + more;
    FrameIsRead(m, env, caplen);
    if more == [] {
      assert Frame(m, env, caplen) == three;
      FramePorts(m, env, caplen);
      if HasPorts(l) {
        PortsAreLast(m, three, 2, (0, 0));
      }
    }
  }

  /** Nothing that could be the start of an IPv6 datagram, or of an indicator in front of one. */
  predicate NoTunnel(m: Mem, at: nat, left: nat) { left < 2 || (Two(m, at) > 1 && Get(m, at) / 16 != 6) }

  lemma UdpIs(m: Mem, env: Env, c: Around, at: nat, left: nat)
    requires !c.frag && !c.unsure && 8 <= left == Two(m, at + 4)
    ensures var more := Read(m, env, c, Teredo(Two(m, at), Two(m, at + 2)), at + 8, left - 8);
      && Read(m, env, c, Plain(Udp), at, left) == [Layer(Udp, at, 8)] + more
      && (NoTunnel(m, at + 8, left - 8) ==> more == [])
  {
    hide Read, Two, Get, UdpSumOk;
    TransportIs(m, env, c, 0, Two(m, at), Two(m, at + 2), at, left);
    TransportIs(m, env, c, 0, Two(m, at), Two(m, at + 2), at + 8, left - 8);
  }

  /** A UDP datagram in IPv4: all three headers are recorded, and nothing behind them unless it looks like a
      tunnel. */
  lemma UdpInIpv4(m: Mem, env: Env, caplen: nat, n: nat, size: nat)
    requires InIpv4(m, caplen, 17, n, size) && 8 <= size - n == Two(m, 18 + n)
    ensures var d, three := DecodeFrame(m, env, caplen), [Layer(Eth, 0, 14), Layer(Ip4, 14, n), Layer(Udp, 14 + n, 8)];
      && three <= d.layers
      && (NoTunnel(m, 22 + n, size - n - 8) ==>
            d.layers == three && (d.f.sp, d.f.dp) == (Two(m, 14 + n), Two(m, 16 + n)))
  {
    hide Read, Two, Get, DecodeFrame, Frame, NoTunnel;
    var c := Around(1, 0, false, 14, 0, 0, false, false, false);
    Ipv4Frame(m, env, caplen, 17, n, size);
    MaybeIs(m, env, c, Plain(Udp), 14 + n, size - n);
    UdpIs(m, env, c, 14 + n, size - n);
    var more := Read(m, env, c, Teredo(Two(m, 14 + n), Two(m, 16 + n)), 22 + n, size - n - 8);
    ThreeHeaders(m, env, caplen, Layer(Ip4, 14, n), Layer(Udp, 14 + n, 8), more);
  }

  lemma UdpInIpv6(m: Mem, env: Env, caplen: nat, size: nat)
    requires InIpv6(m, caplen, 17, size) && 8 <= size == Two(m, 58)
    ensures var d, three := DecodeFrame(m, env, caplen), [Layer(Eth, 0, 14), Layer(Ip6, 14, 40), Layer(Udp, 54, 8)];
      && three <= d.layers
      && (NoTunnel(m, 62, size - 8) ==> d.layers == three && (d.f.sp, d.f.dp) == (Two(m, 54), Two(m, 56)))
  {
    hide Read, Two, Get, DecodeFrame, Frame, NoTunnel;
    var c := Around(1, 0, true, 14, 0, 17, false, false, false);
    Ipv6Frame(m, env, caplen, 17, size);
    MaybeIs(m, env, c, Plain(Udp), 54, size);
    UdpIs(m, env, c, 54, size);
    var more := Read(m, env, c, Teredo(Two(m, 54), Two(m, 56)), 62, size - 8);
    ThreeHeaders(m, env, caplen, Layer(Ip6, 14, 40), Layer(Udp, 54, 8), more);
  }

  lemma TcpInIpv6(m: Mem, env: Env, caplen: nat, size: nat)
    requires InIpv6(m, caplen, 6, size) && 20 <= 4 * (Get(m, 66) / 16) <= size
    ensures var d := DecodeFrame(m, env, caplen);
      && d.layers == [Layer(Eth, 0, 14), Layer(Ip6, 14, 40), Layer(Tcp, 54, 4 * (Get(m, 66) / 16))]
      && (d.f.sp, d.f.dp) == (Two(m, 54), Two(m, 56))
  {
    hide Read, Two, Get, DecodeFrame, Frame;
    var c := Around(1, 0, true, 14, 0, 6, false, false, false);
    Ipv6Frame(m, env, caplen, 6, size);
    MaybeIs(m, env, c, Plain(Tcp), 54, size);
    TransportIs(m, env, c, 0, 0, 0, 54, size);
    var l := Layer(Tcp, 54, 4 * (Get(m, 66) / 16));
    assert [l] + [] == [l];
    ThreeHeaders(m, env, caplen, Layer(Ip6, 14, 40), l, []);
  }

  /** ICMP: echoes from eight bytes on, and any message from twenty. */
  lemma IcmpInIpv4(m: Mem, env: Env, caplen: nat, n: nat, size: nat)
    requires InIpv4(m, caplen, 1, n, size) && (size - n >= 20 || (size - n >= 8 && Get(m, 14 + n) in {0, 8}))
    ensures DecodeFrame(m, env, caplen).layers
            == [Layer(Eth, 0, 14), Layer(Ip4, 14, n),
                Layer(Icmp4, 14 + n, if Get(m, 14 + n) in {0, 3, 4, 5, 8, 11, 12} then 8 else 4)]
  {
    hide Read, Two, Get, DecodeFrame, Frame;
    var c := Around(1, 0, false, 14, 0, 0, false, false, false);
    Ipv4Frame(m, env, caplen, 1, n, size);
    MaybeIs(m, env, c, Plain(Icmp4), 14 + n, size - n);
    TransportIs(m, env, c, 0, 0, 0, 14 + n, size - n);
    var l := Layer(Icmp4, 14 + n, if Get(m, 14 + n) in {0, 3, 4, 5, 8, 11, 12} then 8 else 4);
    assert [l] + [] == [l];
    ThreeHeaders(m, env, caplen, Layer(Ip4, 14, n), l, []);
  }

  lemma Icmp6InIpv6(m: Mem, env: Env, caplen: nat, size: nat)
    requires InIpv6(m, caplen, 58, size) && size >= 16 && Get(m, 54) !in {139, 140}
    ensures DecodeFrame(m, env, caplen).layers
            == [Layer(Eth, 0, 14), Layer(Ip6, 14, 40),
                Layer(Icmp6, 54, if Get(m, 54) in {1, 2, 3, 4, 128, 129} then 8 else 4)]
  {
    hide Read, Two, Get, DecodeFrame, Frame;
    var c := Around(1, 0, true, 14, 0, 58, false, false, false);
    Ipv6Frame(m, env, caplen, 58, size);
    MaybeIs(m, env, c, Plain(Icmp6), 54, size);
    TransportIs(m, env, c, 0, 0, 0, 54, size);
    var l := Layer(Icmp6, 54, if Get(m, 54) in {1, 2, 3, 4, 128, 129} then 8 else 4);
    assert [l] + [] == [l];
    ThreeHeaders(m, env, caplen, Layer(Ip6, 14, 40), l, []);
  }

  // ---- Frames with something inside ----

  lemma FirstHeaders(m: Mem, env: Env, caplen: nat, some: seq<Layer>, more: seq<Layer>)
    requires Frame(m, env, caplen) == some + more && |some| <= LAYER_MAX
    ensures some <= DecodeFrame(m, env, caplen).layers
    ensures more == [] ==> DecodeFrame(m, env, caplen).layers == some
  {
    hide DecodeFrame, Frame;
    FrameIsRead(m, env, caplen);
  }

  lemma ArpFrame(m: Mem, env: Env, caplen: nat)
    requires caplen >= 42 && (Two(m, 12) == 0x0806 || Two(m, 12) == 0x8035)
    ensures DecodeFrame(m, env, caplen).layers == [Layer(Eth, 0, 14), Layer(Arp, 14, 28)]
  {
    hide Read, Two, DecodeFrame, Maybe;
    var c := Around(0, 0, false, 0, 0, 0, false, false, false);
    AboveIs(m, env, c, ByType(Two(m, 12), true, true), 14, caplen - 14, caplen);
    MaybeIs(m, env, c, Plain(Arp), 14, caplen - 14);
    LinkIs(m, env, c, 14, caplen - 14);
    FirstHeaders(m, env, caplen, [Layer(Eth, 0, 14), Layer(Arp, 14, 28)], []);
  }

  lemma AhInIpv4(m: Mem, env: Env, caplen: nat, n: nat, size: nat)
    requires InIpv4(m, caplen, 51, n, size) && 8 + 4 * Get(m, 15 + n) <= size - n
    ensures [Layer(Eth, 0, 14), Layer(Ip4, 14, n), Layer(Ah, 14 + n, 8 + 4 * Get(m, 15 + n))]
            <= DecodeFrame(m, env, caplen).layers
  {
    hide Read, Two, Get, DecodeFrame, Frame, Above;
    var c := Around(1, 0, false, 14, 0, 0, false, false, false);
    Ipv4Frame(m, env, caplen, 51, n, size);
    MaybeIs(m, env, c, Plain(Ah), 14 + n, size - n);
    IpIs(m, env, c, 14 + n, size - n);
    var h := 8 + 4 * Get(m, 15 + n);
    ThreeHeaders(m, env, caplen, Layer(Ip4, 14, n), Layer(Ah, 14 + n, h),
                 Above(m, env, c, ByNumber4(Get(m, 14 + n)), 14 + n + h, size - n - h, size - n));
  }

  lemma Ipv6InIpv4(m: Mem, env: Env, caplen: nat, n: nat, size: nat)
    requires InIpv4(m, caplen, 41, n, size) && Get(m, 14 + n) / 16 == 6 && 40 + Two(m, 18 + n) <= size - n
    ensures [Layer(Eth, 0, 14), Layer(Ip4, 14, n), Layer(Ip6, 14 + n, 40)] <= DecodeFrame(m, env, caplen).layers
  {
    hide Read, Two, Get, DecodeFrame, Frame, Above, ByNumber6;
    var c := Around(1, 0, false, 14, 0, 0, false, false, false);
    Ipv4Frame(m, env, caplen, 41, n, size);
    MaybeIs(m, env, c, Plain(Ip6), 14 + n, size - n);
    IpIs(m, env, c, 14 + n, size - n);
    var next := Get(m, 20 + n);
    ThreeHeaders(m, env, caplen, Layer(Ip4, 14, n), Layer(Ip6, 14 + n, 40),
                 Above(m, env, c.(ips := 2, v6 := true, ip := 14 + n, upper := next), ByNumber6(next), 54 + n,
                       Two(m, 18 + n), size - n));
  }

  /** Behind a GRE header of version 0 without flags, ERSPAN of version 2 or a whole ethernet frame. */
  lemma GreInIpv4(m: Mem, env: Env, caplen: nat, n: nat, size: nat)
    requires InIpv4(m, caplen, 47, n, size) && size - n >= 4 && Get(m, 14 + n) == 0 && Get(m, 15 + n) == 0
    ensures var three := [Layer(Eth, 0, 14), Layer(Ip4, 14, n), Layer(Gre, 14 + n, 4)];
      var layers := DecodeFrame(m, env, caplen).layers;
      && three <= layers
      && (Two(m, 16 + n) == 0x88be && size - n >= 12 && Get(m, 18 + n) / 16 == 1 ==>
            three + [Layer(Erspan, 18 + n, 8)] <= layers)
      && (Two(m, 16 + n) == 0x6558 && size - n >= 18 ==> three + [Layer(Eth, 18 + n, 14)] <= layers)
  {
    hide Read, Two, Get, DecodeFrame, Frame, ByGre, Maybe, Above;
    var c := Around(1, 0, false, 14, 0, 0, false, false, false);
    Ipv4Frame(m, env, caplen, 47, n, size);
    MaybeIs(m, env, c, Plain(Gre), 14 + n, size - n);
    TransportIs(m, env, c, 2, 0, 0, 14 + n, size - n);
    var three, h := [Layer(Eth, 0, 14), Layer(Ip4, 14, n), Layer(Gre, 14 + n, 4)], ByGre(Two(m, 16 + n));
    AboveIs(m, env, c, h, 18 + n, size - n - 4, size - n);
    var more := Maybe(m, env, c, h, 18 + n, size - n - 4);
    assert Frame(m, env, caplen) == three + more;
    FirstHeaders(m, env, caplen, three, more);
    GreInside(m, env, c, 18 + n, size - n - 4, Two(m, 16 + n));
    if |more| > 0 {
      assert three + more == (three + [more[0]]) + more[1..];
      FirstHeaders(m, env, caplen, three + [more[0]], more[1..]);
    }
  }

  lemma GreInside(m: Mem, env: Env, c: Around, at: nat, left: nat, kind: nat)
    requires c.ips < 2
    ensures var more := Maybe(m, env, c, ByGre(kind), at, left);
      && (kind == 0x88be && left >= 8 && Get(m, at) / 16 == 1 ==> |more| > 0 && more[0] == Layer(Erspan, at, 8))
      && (kind == 0x6558 && left >= 14 ==> |more| > 0 && more[0] == Layer(Eth, at, 14))
  {
    hide Read, Two, Get, Above;
    TransportIs(m, env, c, 2, 0, 0, at, left);
    LinkIs(m, env, c, at, left);
  }

  /** A stack of one label, with what its number announces behind it. */
  lemma MplsFrame(m: Mem, env: Env, caplen: nat)
    requires caplen >= 18 && (Two(m, 12) == 0x8847 || Two(m, 12) == 0x8848) && Get(m, 16) % 2 == 1
    requires Label(m, 14) != 1 && Label(m, 14) != 3 && (env.mplsDepth == -1 || env.mplsDepth > 0)
    ensures [Layer(Eth, 0, 14), Layer(Mpls, 14, 4)] <= DecodeFrame(m, env, caplen).layers
  {
    hide Read, Two, Get, DecodeFrame, Maybe, ByLabel, Label;
    var c := Around(0, 0, false, 0, 0, 0, false, false, false);
    AboveIs(m, env, c, ByType(Two(m, 12), true, true), 14, caplen - 14, caplen);
    MaybeIs(m, env, c, Plain(Mpls), 14, caplen - 14);
    LinkIs(m, env, c, 14, caplen - 14);
    AboveIs(m, env, c, ByLabel(env, Label(m, 14)), 18, caplen - 18, caplen - 14);
    assert LabelCount(m, 14, caplen - 14) == 1;
    assert LabelOk(m, env, 14, 0, 1);
    FirstHeaders(m, env, caplen, [Layer(Eth, 0, 14), Layer(Mpls, 14, 4)],
                 Maybe(m, env, c, ByLabel(env, Label(m, 14)), 18, caplen - 18));
  }

  lemma PppIpv4(m: Mem, env: Env, c: Around, at: nat, left: nat)
    requires left >= 2 && Get(m, at) == 0 && Get(m, at + 1) == 0x21
    ensures Read(m, env, c, Plain(PppEncap), at, left)
            == [Layer(PppEncap, at, 2)] + Read(m, env, c, Plain(Ip4), at + 2, left - 2)
  {
    hide Read, Get;
    LinkIs(m, env, c, at, left);
  }

  lemma PppoeSession(m: Mem, env: Env, c: Around, at: nat, left: nat)
    requires left >= 6 && Two(m, c.eth + 12) == 0x8864
    ensures Read(m, env, c, Plain(Pppoe), at, left)
            == [Layer(Pppoe, at, 6)] + Read(m, env, c, Plain(PppEncap), at + 6, left - 6)
  {
    hide Read, Two;
    LinkIs(m, env, c, at, left);
  }

  /** A session of PPPoE with IPv4 inside. */
  lemma PppoeFrame(m: Mem, env: Env, caplen: nat)
    requires caplen >= 22 && Two(m, 12) == 0x8864 && Get(m, 20) == 0 && Get(m, 21) == 0x21
    ensures [Layer(Eth, 0, 14), Layer(Pppoe, 14, 6), Layer(PppEncap, 20, 2)] <= DecodeFrame(m, env, caplen).layers
  {
    hide Read, Two, Get, DecodeFrame, Maybe;
    var c := Around(0, 0, false, 0, 0, 0, false, false, false);
    AboveIs(m, env, c, ByType(Two(m, 12), true, true), 14, caplen - 14, caplen);
    MaybeIs(m, env, c, Plain(Pppoe), 14, caplen - 14);
    PppoeSession(m, env, c, 14, caplen - 14);
    PppIpv4(m, env, c, 20, caplen - 20);
    FirstHeaders(m, env, caplen, [Layer(Eth, 0, 14), Layer(Pppoe, 14, 6), Layer(PppEncap, 20, 2)],
                 Read(m, env, c, Plain(Ip4), 22, caplen - 22));
  }
}
