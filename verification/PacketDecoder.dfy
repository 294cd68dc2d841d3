/** The decoding functions as methods that fill in a packet and call each other. */
module PacketDecoder {
  import opened DecodeLayers
  import opened DecodeRefines
  import opened DecodeSafety
  import opened Octets
  import opened Checksum
  import opened PacketGrammar

  // The whole decoding from a call on is that from the end of its turn on, settled.
  ghost predicate Runs(s: State, env: Env, d: Decoder, at: nat, len: nat, t: Turn) {
    && Run(s, env, Call(d, at, len)) == (if t.job.Stop? then t.s else Settle(s, d, Run(t.s, env, t.job)))
    && Run(t.s, env, Stop) == t.s
    && Decoded(s, Run(s, env, Call(d, at, len)), env, d, at, len)
    && Finds(s, Run(s, env, Call(d, at, len)), env, d, at, len)
  }

  lemma RunTurn(s: State, env: Env, d: Decoder, at: nat, len: nat)
    ensures Runs(s, env, d, at, len, Next(s, env, d, at, len))
  {
    hide Decoded, Finds;
    TurnDecreases(s, env, d, at, len);
    RunFinds(s, env, d, at, len);
    RunDecodes(s, env, d, at, len);
  }

  class Packet {
    const env: Env
    var p: State  // the fields of the packet, each updated in place

    constructor (mem: Mem, env: Env)
      ensures p == Fresh(mem) && this.env == env
    {
      this.env, p := env, Fresh(mem);
    }

    /** Recording stops at the last slot; nothing else is touched. */
    method PushLayer(proto: Proto, at: nat, len: nat)
      modifies this
      ensures p == Push(old(p), proto, at, len) == old(p).(layers := p.layers)
    {
      if |p.layers| < LAYER_MAX {
        p := p.(layers := p.layers + [Layer(proto, at, len % 0x1_0000)]);
      }
    }

    // Also observes that an IP layer is pushed, recorded or not.
    method PushIpLayer(proto: Proto, at: nat, len: nat)
      modifies this
      ensures p == PushIp(old(p), proto, at, len)
      ensures p == old(p).(layers := p.layers, ip := old(p).ip.(pushes := p.ip.pushes))
    {
      hide Push;
      PushLayer(proto, at, len);
      p := p.(ip := p.ip.(pushes := p.ip.pushes + 1));
    }

    // ---- Ethernet ----

    /** Decodes a frame from a cleared packet. */
    method DecodeEthPkt(pkt: Mem, caplen: nat)
      modifies this
      ensures p == DecodeFrame(pkt, env, caplen) && p.layers == Capped(Frame(pkt, env, caplen))
      ensures Parsed(p, caplen) && (Inside(p.layers, caplen) <==> !FrameGets(Overrun(caplen), pkt, env, caplen))
      ensures !FrameGets(Return, pkt, env, caplen) ==>
                && Linked(p.mem, p.layers)
                && (Enclosed(p.mem, p.layers, caplen) <==> !FrameGets(Excess, pkt, env, caplen))
      ensures IpLayers(p.layers) <= p.ip.pushes <= 2
    {
      hide Run, Push, EtherNext, Parsed, IpLayers, Gets, Linked, Enclosed, Inside, Frame, Capped;
      FrameIsRead(pkt, env, caplen);
      FrameIsParsed(pkt, env, caplen);
      FrameHasTwoIp(pkt, env, caplen);
      p := Fresh(pkt);
      RunStop(p, env);
      if caplen < 14 {
        return;
      }
      PushLayer(Eth, 0, 14);
      DecodeEtherType(U16(p.mem, p.f.eh + 12), true, true, 14, caplen - 14);
    }

    // The switch on an ethernet type.
    method DecodeEtherType(kind: nat, pppoe: bool, mpls: bool, at: nat, len: nat)
      modifies this
      ensures var t := EtherNext(old(p), kind, pppoe, mpls, at, len); p == Run(t.s, env, t.job)
      decreases len, 2
    {
      hide Run, Decoded, Finds;
      RunStop(p, env);
      match kind {
        case 0x0800 => DecodeIP(at, len);
        case 0x0806 => DecodeARP(at, len);
        case 0x8035 => DecodeARP(at, len);
        case 0x86dd => DecodeIPV6(at, len);
        case 0x8100 => DecodeVlan(at, len);
        case 0x8863 => if pppoe { DecodePPPoEPkt(at, len); }
        case 0x8864 => if pppoe { DecodePPPoEPkt(at, len); }
        case 0x8847 => if mpls { DecodeMPLS(at, len); }
        case 0x8848 => if mpls { DecodeMPLS(at, len); }
        case _ =>
      }
    }

    method DecodeTransBridging(at: nat, len: nat)
      modifies this
      ensures p == Run(old(p), env, Call(TransBridgingD, at, len))
      ensures Decoded(old(p), p, env, TransBridgingD, at, len)
      ensures Finds(old(p), p, env, TransBridgingD, at, len)
      decreases len, 1
    {
      hide Run, Decoded, Finds, Push, EtherNext;
      RunTurn(p, env, TransBridgingD, at, len);
      if len < 14 {
        return;
      }
      p := p.(f := p.f.(eh := at));
      PushLayer(Eth, at, 14);
      DecodeEtherType(U16(p.mem, p.f.eh + 12), false, false, at + 14, len - 14);
    }

    method DecodeEthOverMPLS(at: nat, len: nat)
      modifies this
      ensures p == Run(old(p), env, Call(EthOverMplsD, at, len))
      ensures Decoded(old(p), p, env, EthOverMplsD, at, len)
      ensures Finds(old(p), p, env, EthOverMplsD, at, len)
      decreases len, 1
    {
      hide Run, Decoded, Finds, Push, EtherNext;
      RunTurn(p, env, EthOverMplsD, at, len);
      if len < 14 {
        p := p.(ip := p.ip.(family := false));
        return;
      }
      p := p.(f := p.f.(eh := at));
      PushLayer(Eth, at, 14);
      p := p.(rebased := true);
      DecodeEtherType(U16(p.mem, p.f.eh + 12), true, false, 14, len - 14);
    }

    method DecodeARP(at: nat, len: nat)
      modifies this
      ensures p == Run(old(p), env, Call(ArpD, at, len))
      ensures Decoded(old(p), p, env, ArpD, at, len)
      ensures Finds(old(p), p, env, ArpD, at, len)
      decreases len, 1
    {
      hide Run, Decoded, Finds, Push;
      RunTurn(p, env, ArpD, at, len);
      if len < 28 {
        return;
      }
      PushLayer(Arp, at, 28);
    }

    method DecodeVlan(at: nat, len: nat)
      modifies this
      ensures p == Run(old(p), env, Call(VlanD, at, len))
      ensures Decoded(old(p), p, env, VlanD, at, len)
      ensures Finds(old(p), p, env, VlanD, at, len)
      decreases len, 1
    {
      hide Run, Decoded, Finds, Push, EtherNext, U16;
      RunTurn(p, env, VlanD, at, len);
      if len < 4 {
        p := p.(ip := p.ip.(family := false));
        return;
      }
      var kind := U16(p.mem, at + 2);
      if kind <= 1518 {
        if len < 6 {
          p := p.(ip := p.ip.(family := false));
          return;
        }
        if Byte(p.mem, at + 4) == 0xaa && Byte(p.mem, at + 5) == 0xaa {
          if len < 12 {
            p := p.(ip := p.ip.(family := false));
            return;
          }
          PushLayer(Vlan, at, 4);
          p := p.(rebased := true);
          DecodeEtherType(U16(p.mem, at + 10), true, true, 12, len - 12);
        }
      } else {
        PushLayer(Vlan, at, 4);
        DecodeEtherType(kind, true, true, at + 4, len - 4);
      }
    }

    method DecodeMPLS(at: nat, len: nat)
      modifies this
      ensures p == Run(old(p), env, Call(MplsD, at, len))
      ensures Decoded(old(p), p, env, MplsD, at, len)
      ensures Finds(old(p), p, env, MplsD, at, len)
      decreases len, 1
    {
      hide Run, Decoded, Finds, Push, PeelLabels;
      RunTurn(p, env, MplsD, at, len);
      var labels := PeelMpls(at, len);
      if labels.Bad? {
        p := p.(ip := p.ip.(family := false));
        return;
      }
      var to, payload := labels.end, labels.payload;
      var left := at + len - to;
      PushLayer(Mpls, at, to - at);
      if payload == 1 {
        DecodeIP(to, left);
      } else if payload == 3 {
        DecodeIPV6(to, left);
      } else if payload == 2 {
        DecodeEthOverMPLS(to, left);
      }
    }

    /** The loop over labels. */
    method PeelMpls(at: nat, len: nat) returns (labels: Labels)
      ensures labels == PeelLabels(p.mem, env, at, len, 0)
    {
      var to: nat, stackLen: nat, chainLen: nat := at, len, 0;
      while true
        invariant PeelLabels(p.mem, env, at, len, 0) == PeelLabels(p.mem, env, to, stackLen, chainLen)
        decreases stackLen
      {
        if stackLen < 4 {
          return Bad;
        }
        var tag := Byte(p.mem, to) * 4096 + Byte(p.mem, to + 1) * 16 + Byte(p.mem, to + 2) / 16;
        var bos := Byte(p.mem, to + 2) % 2 == 1;
        var payload := env.mplsPayload;
        if tag == 3 || (tag == 1 && bos) {
          return Bad;
        } else if tag == 0 {
          payload := 1;
        } else if tag == 2 {
          payload := 3;
        }
        if env.mplsDepth != -1 && chainLen >= env.mplsDepth {
          return Bad;
        }
        if bos {
          return Bottom(to + 4, payload);
        }
        to, stackLen, chainLen := to + 4, stackLen - 4, (chainLen + 1) % 256;
      }
    }

    method DecodePPPoEPkt(at: nat, len: nat)
      modifies this
      ensures p == Run(old(p), env, Call(PppoeD, at, len))
      ensures Decoded(old(p), p, env, PppoeD, at, len)
      ensures Finds(old(p), p, env, PppoeD, at, len)
      decreases len, 1
    {
      hide Run, Decoded, Finds, Push, U16;
      RunTurn(p, env, PppoeD, at, len);
      if len < 6 {
        return;
      }
      if U16(p.mem, p.f.eh + 12) == PPPOE_SESS {
        PushLayer(Pppoe, at, 6);
        DecodePppPktEncapsulated(at + 6, len - 6);
      }
    }

    method DecodePppPktEncapsulated(at: nat, len: nat)
      modifies this
      ensures p == Run(old(p), env, Call(PppD, at, len))
      ensures Decoded(old(p), p, env, PppD, at, len)
      ensures Finds(old(p), p, env, PppD, at, len)
      decreases len, 1
    {
      hide Run, Decoded, Finds, Push, PppLength, PppProtocol, Patch;
      RunTurn(p, env, PppD, at, len);
      if len < 2 {
        return;
      }
      var hlen, protocol := PppHeader(at);
      if protocol == 0x2f {
        if len < hlen + 20 {
          return;
        }
        p := p.(mem := Patch(p.mem, at + hlen + 9, 6));
      }
      if protocol == 0x2f || protocol == 0x21 {
        PushLayer(PppEncap, at, hlen);
        DecodeIP(at + hlen, len - hlen);
      } else if protocol == 0x57 {
        PushLayer(PppEncap, at, hlen);
        DecodeIPV6(at + hlen, len - hlen);
      } else if protocol == 0x2b {
        PushLayer(PppEncap, at, hlen);
      }
    }

    method PppHeader(at: nat) returns (hlen: nat, protocol: nat)
      ensures 1 <= hlen <= 2 && hlen == PppLength(p.mem, at) && protocol == PppProtocol(p.mem, at)
    {
      if Byte(p.mem, at) % 2 == 1 {
        hlen := 1;
        protocol := Byte(p.mem, at);
      } else {
        protocol := U16(p.mem, at);
        hlen := 2;
      }
    }

    // ---- IP ----

    method DecodeIPv4Proto(proto: Octet, at: nat, len: nat)
      modifies this
      ensures p == Run(old(p), env, Call(Ipv4ProtoD(proto), at, len))
      ensures Decoded(old(p), p, env, Ipv4ProtoD(proto), at, len)
      ensures Finds(old(p), p, env, Ipv4ProtoD(proto), at, len)
      decreases len, 2
    {
      hide Run, Decoded, Finds, Push;
      RunTurn(p, env, Ipv4ProtoD(proto), at, len);
      match proto {
        case 6 => DecodeTCP(at, len);
        case 17 => DecodeUDP(at, len);
        case 1 => DecodeICMP(at, len);
        case 41 => DecodeIPV6(at, len);
        case 47 => DecodeGRE(at, len);
        case 4 => DecodeIP(at, len);
        case 50 => DecodeESP(at, len);
        case 51 => DecodeAH(at, len);
        case _ =>
      }
    }

    method DecodeIP(at: nat, len: nat)
      modifies this
      ensures p == Run(old(p), env, Call(IpD, at, len))
      ensures Decoded(old(p), p, env, IpD, at, len)
      ensures Finds(old(p), p, env, IpD, at, len)
      decreases len, 1
    {
      hide Run, Decoded, Finds, IpHeaderTurn;
      RunTurn(p, env, IpD, at, len);
      if len < 20 {
        p := p.(ip := p.ip.(family := false));
        return;
      }
      if p.ip.family {
        if p.ip.encapsulated {
          return;
        }
        p := p.(ip := p.ip.(encapsulated := true));
      }
      DecodeIPHeader(at, len);
    }

    // The checks on the header itself, once the layer may be decoded.
    method DecodeIPHeader(at: nat, len: nat)
      requires len >= 20
      modifies this
      ensures var t := IpHeaderTurn(old(p), at, len); p == Run(t.s, env, t.job)
      decreases len, 0
    {
      hide Run, Decoded, Finds, PushIp, U16, High, Low, IsFragment, FirstUdp, Byte;
      RunStop(IpHeaderTurn(p, at, len).s, env);
      if High(Byte(p.mem, at)) != 4 {
        p := p.(ip := p.ip.(family := false));
        return;
      }
      p := Accept(p, false, at);
      var ipLen, hlen := U16(p.mem, at + 2), 4 * Low(Byte(p.mem, at));
      if hlen < 20 || ipLen > len || ipLen < hlen {
        p := p.(ip := p.ip.(family := false));
        return;
      }
      PushIpLayer(Ip4, at, hlen);
      p := p.(f := p.f.(frag := IsFragment(p.mem, at)));
      if !p.f.frag || FirstUdp(p.mem, at) {
        DecodeIPv4Proto(Byte(p.mem, at + 9), at + hlen, ipLen - hlen);
      }
    }

    method DecodeAH(at: nat, len: nat)
      modifies this
      ensures p == Run(old(p), env, Call(AhD, at, len))
      ensures Decoded(old(p), p, env, AhD, at, len)
      ensures Finds(old(p), p, env, AhD, at, len)
      decreases len, 1
    {
      hide Run, Decoded, Finds, Push;
      RunTurn(p, env, AhD, at, len);
      if len < 8 {
        return;
      }
      var extlen := 8 + 4 * Byte(p.mem, at + 1);
      if extlen > len {
        return;
      }
      PushLayer(Ah, at, extlen);
      DecodeIPv4Proto(Byte(p.mem, at), at + extlen, len - extlen);
    }

    method DecodeESP(at: nat, len: nat)
      modifies this
      ensures p == Run(old(p), env, Call(EspD, at, len))
      ensures Decoded(old(p), p, env, EspD, at, len)
      ensures Finds(old(p), p, env, EspD, at, len)
      decreases len, 1
    {
      hide Run, Decoded, Finds, EspNext;
      RunTurn(p, env, EspD, at, len);
      if len < 22 {
        return;
      }
      var payload, left := at + 8, len - 22;
      var padLength, nextHeader := Byte(p.mem, payload + left), Byte(p.mem, payload + left + 1);
      if padLength >= left {
        p := p.(f := p.f.(trust := true));
        return;
      }
      left := left - padLength;
      var saveLayer := |p.layers|;
      p := p.(f := p.f.(unsure := true));
      var known := DecodeEspPayload(nextHeader, payload, left);
      p := p.(f := p.f.(unsure := false));
      if !known || saveLayer == |p.layers| {
        p := p.(f := p.f.(trust := true));
      }
    }

    method DecodeEspPayload(nextHeader: Octet, at: nat, len: nat) returns (known: bool)
      modifies this
      ensures var t := EspNext(old(p), nextHeader, at, len);
              p == Run(t.s, env, t.job) && known == t.job.Call? && (!known ==> p == old(p))
      decreases len, 2
    {
      hide Run, Decoded, Finds;
      RunStop(p, env);
      known := true;
      match nextHeader {
        case 4 => DecodeIP(at, len);
        case 41 => DecodeIPV6(at, len);
        case 6 => DecodeTCP(at, len);
        case 17 => DecodeUDP(at, len);
        case 1 => DecodeICMP(at, len);
        case 47 => DecodeGRE(at, len);
        case _ => known := false;
      }
    }

    method DecodeIPV6(at: nat, len: nat)
      modifies this
      ensures p == Run(old(p), env, Call(Ipv6D, at, len))
      ensures Decoded(old(p), p, env, Ipv6D, at, len)
      ensures Finds(old(p), p, env, Ipv6D, at, len)
      decreases len, 1
    {
      hide Run, Decoded, Finds, High, Ipv6HeaderTurn;
      RunTurn(p, env, Ipv6D, at, len);
      if len < 40 || High(Byte(p.mem, at)) != 6 {
        p := p.(f := p.f.(teredo := false));
        return;
      }
      if p.ip.family {
        if p.ip.encapsulated {
          p := p.(f := p.f.(teredo := false));
          return;
        }
        p := p.(ip := p.ip.(encapsulated := true));
      }
      DecodeIPV6Header(at, len);
    }

    method DecodeIPV6Header(at: nat, len: nat)
      requires len >= 40
      modifies this
      ensures var t := Ipv6HeaderTurn(old(p), at, len); p == Run(t.s, env, t.job)
      decreases len, 0
    {
      hide Run, Decoded, Finds, PushIp, U16, Prefix;
      RunStop(Ipv6HeaderTurn(p, at, len).s, env);
      var payload := U16(p.mem, at + 4);
      if payload + 40 > len {
        p := p.(f := p.f.(teredo := false));
        return;
      }
      if p.f.teredo && !Prefix(p.mem, at + 8) && !Prefix(p.mem, at + 24) {
        p := p.(f := p.f.(teredo := false));
        return;
      }
      p := Accept(p, true, at);
      PushIpLayer(Ip6, at, 40);
      DecodeIPV6Extensions(Byte(p.mem, at + 6), at + 40, payload);
    }

    method DecodeIPV6Extensions(next: Octet, at: nat, len: nat)
      modifies this
      ensures p == Run(old(p), env, Call(Ipv6ExtensionsD(next), at, len))
      ensures Decoded(old(p), p, env, Ipv6ExtensionsD(next), at, len)
      ensures Finds(old(p), p, env, Ipv6ExtensionsD(next), at, len)
      decreases len, 2
    {
      hide Run, Decoded, Finds, Push;
      RunTurn(p, env, Ipv6ExtensionsD(next), at, len);
      p := p.(f := p.f.(next := next));
      match next {
        case 6 => DecodeTCP(at, len);
        case 17 => DecodeUDP(at, len);
        case 58 => DecodeICMP6(at, len);
        case 0 => DecodeIPV6Options(next, at, len);
        case 60 => DecodeIPV6Options(next, at, len);
        case 43 => DecodeIPV6Options(next, at, len);
        case 44 => DecodeIPV6Options(next, at, len);
        case 51 => DecodeIPV6Options(next, at, len);
        case 47 => DecodeGRE(at, len);
        case 4 => DecodeIP(at, len);
        case 41 => DecodeIPV6(at, len);
        case 50 => DecodeESP(at, len);
        case _ =>
      }
    }

    method DecodeIPV6Options(kind: Octet, at: nat, len: nat)
      modifies this
      ensures p == Run(old(p), env, Call(Ipv6OptionsD(kind), at, len))
      ensures Decoded(old(p), p, env, Ipv6OptionsD(kind), at, len)
      ensures Finds(old(p), p, env, Ipv6OptionsD(kind), at, len)
      decreases len, 1
    {
      hide Run, Decoded, Finds, U16, OptionsRecorded, OptionsLength;
      RunTurn(p, env, Ipv6OptionsD(kind), at, len);
      if len < 8 {
        return;
      }
      if p.f.ext == 0 {
        p := p.(f := p.f.(ext := at));
      }
      if kind == 44 {
        if len <= 8 {
          return;
        }
        if U16(p.mem, at + 2) / 8 != 0 || U16(p.mem, at + 2) % 2 == 1 {
          p := p.(f := p.f.(frag := true));
        }
        if p.f.frag && (U16(p.mem, at + 2) / 8 > 0 || Byte(p.mem, at) != 17) {
          return;
        }
      } else {
        RecordOptions(kind, at, len);
      }
      var hdrlen := OptionsLength(p.mem, kind, at);
      if hdrlen > len {
        return;
      }
      DecodeIPV6Extensions(Byte(p.mem, at), at + hdrlen, len - hdrlen);
    }

    // What each kind of options header adds to the layers.
    method RecordOptions(kind: Octet, at: nat, len: nat)
      modifies this
      ensures p == OptionsRecorded(old(p), kind, at, len) == old(p).(layers := p.layers)
    {
      hide Push, HopsOk;
      match kind {
        case 0 =>
          var ok := CheckHopOptions(at);
          if ok {
            PushLayer(HopOpts, at, 8 + 8 * Byte(p.mem, at + 1));
          }
        case 60 =>
          var ok := CheckHopOptions(at);
          if ok {
            PushLayer(DstOpts, at, 8 + 8 * Byte(p.mem, at + 1));
          }
        case 51 =>
          var hdrlen := 8 + 4 * Byte(p.mem, at + 1);
          if hdrlen <= len {
            PushLayer(Ah, at, hdrlen);
          }
        case _ =>
      }
    }

    /** The scan of the options. It ends, and it looks only at the claim of the header. */
    method CheckHopOptions(at: nat) returns (ok: bool)
      ensures ok == HopsOk(p.mem, at)
    {
      var to, end := at + 2, at + 8 + 8 * Byte(p.mem, at + 1);
      while to < end
        invariant HopScan(p.mem, to, end) == HopsOk(p.mem, at)
        decreases end - to
      {
        var kind := Byte(p.mem, to);
        if kind == 0 {
          to := to + 1;
        } else if kind in {1, 4, 5, 6, 7, 0x8a, 0xc2, 0xc9} {
          to := to + 1;
          var oplen := Byte(p.mem, to);
          if to + oplen + 1 > end {
            return false;
          }
          to := to + oplen + 1;
        } else {
          return false;
        }
      }
      return true;
    }

    // ---- Tunnels ----

    method DecodeGRE(at: nat, len: nat)
      modifies this
      ensures p == Run(old(p), env, Call(GreD, at, len))
      ensures Decoded(old(p), p, env, GreD, at, len)
      ensures Finds(old(p), p, env, GreD, at, len)
      decreases len, 1
    {
      hide Run, Decoded, Finds, Push, U16, GreLength;
      RunTurn(p, env, GreD, at, len);
      if len < 4 {
        return;
      }
      if p.ip.encapsulated {
        return;
      }
      var hlen := GreHeader(at, len);
      if hlen < 0 || hlen > len {
        return;
      }
      PushLayer(Gre, at, hlen);
      var kind, to, left := U16(p.mem, at + 2), at + hlen, len - hlen;
      match kind {
        case 0x0800 => DecodeIP(to, left);
        case 0x6558 => DecodeTransBridging(to, left);
        case 0x0806 =>
          p := p.(ip := p.ip.(family := false));
          DecodeARP(to, left);
        case 0x8035 =>
          p := p.(ip := p.ip.(family := false));
          DecodeARP(to, left);
        case 0x86dd => DecodeIPV6(to, left);
        case 0x880b => DecodePppPktEncapsulated(to, left);
        case 0x88be => DecodeERSPAN(2, to, left);
        case 0x22eb => DecodeERSPAN(3, to, left);
        case 0x8100 => DecodeVlan(to, left);
        case _ =>
      }
    }

    // The header length by version and flags; negative if they are not acceptable.
    method GreHeader(at: nat, len: nat) returns (hlen: int)
      ensures hlen == GreLength(p.mem, at, len)
    {
      hide U16;
      var flags, version := Byte(p.mem, at), Byte(p.mem, at + 1);
      hlen := 4;
      match version % 8 {
        case 0 =>
          if flags % 8 != 0 || version / 8 != 0 {
            return -1;
          }
          if flags / 128 == 1 || flags / 64 % 2 == 1 {
            hlen := hlen + 4;
          }
          if flags / 32 % 2 == 1 {
            hlen := hlen + 4;
          }
          if flags / 16 % 2 == 1 {
            hlen := hlen + 4;
          }
          if flags / 64 % 2 == 1 {
            hlen := SkipRoutes(at, hlen, len);
          }
        case 1 =>
          if flags / 128 == 1 || flags / 64 % 2 == 1 || flags % 16 != 0 || version / 8 % 16 != 0 {
            return -1;
          }
          if U16(p.mem, at + 2) != PPP {
            return -1;
          }
          if flags / 32 % 2 == 0 {
            return -1;
          }
          hlen := hlen + 4;
          if flags / 16 % 2 == 1 {
            hlen := hlen + 4;
          }
          if version / 128 == 1 {
            hlen := hlen + 4;
          }
        case _ =>
          return -1;
      }
    }

    /** The loop over source route entries ends: each one takes at least its own header. */
    method SkipRoutes(at: nat, start: nat, len: nat) returns (hlen: nat)
      ensures hlen == RouteEnd(p.mem, at, start, len)
    {
      hlen := start;
      while true
        invariant RouteEnd(p.mem, at, hlen, len) == RouteEnd(p.mem, at, start, len)
        decreases len - hlen
      {
        var entry := at + hlen;
        hlen := hlen + 4;
        if hlen > len {
          break;
        }
        if U16(p.mem, entry) == 0 && Byte(p.mem, entry + 3) == 0 {
          break;
        }
        hlen := hlen + Byte(p.mem, entry + 3);
      }
    }

    // The two versions differ in their number and the length of their header.
    method DecodeERSPAN(version: nat, at: nat, len: nat)
      modifies this
      ensures p == Run(old(p), env, Call(ErspanD(version), at, len))
      ensures Decoded(old(p), p, env, ErspanD(version), at, len)
      ensures Finds(old(p), p, env, ErspanD(version), at, len)
      decreases len, 1
    {
      hide Run, Decoded, Finds, Push, High;
      RunTurn(p, env, ErspanD(version), at, len);
      var hlen := if version == 2 then 8 else 20;
      if len < hlen {
        return;
      }
      if p.ip.encapsulated {
        return;
      }
      if High(Byte(p.mem, at)) != version - 1 {
        return;
      }
      PushLayer(Erspan, at, hlen);
      DecodeTransBridging(at + hlen, len - hlen);
    }

    // ---- Transport ----

    method DecodeUDP(at: nat, len: nat)
      modifies this
      ensures p == Run(old(p), env, Call(UdpD, at, len))
      ensures Decoded(old(p), p, env, UdpD, at, len)
      ensures Finds(old(p), p, env, UdpD, at, len)
      decreases len, 1
    {
      hide Run, Decoded, Finds, Push, U16, UdpLength, BadUdpSum;
      RunTurn(p, env, UdpD, at, len);
      if len < 8 {
        return;
      }
      var uhlen := UdpLength(p, at);
      if uhlen < 8 || uhlen > len || uhlen < len {
        return;
      }
      var bad := CheckUdp(at, len);
      if bad {
        if p.f.unsure {
          return;
        }
      }
      p := p.(f := p.f.(sp := U16(p.mem, at), dp := U16(p.mem, at + 2)));
      PushLayer(Udp, at, 8);
      if !p.f.frag {
        DecodeTeredo(at + 8, len - 8);
      }
    }

    /** The checksum of the datagram, where one is needed, by the routines of Checksum. */
    method CheckUdp(at: nat, len: nat) returns (bad: bool)
      requires 8 <= len
      ensures bad == BadUdpSum(p, at, len)
    {
      hide Words, Computed;
      var csum: Word := 0;
      if !p.f.v6 {
        if !p.f.frag && U16(p.mem, at + 6) != 0 {
          csum := InChksumUdp(true, PseudoHeader(p, at, len), Bytes(p.mem, at, len));
        }
      } else {
        if U16(p.mem, at + 6) == 0 {
          csum := 1;
        } else if !p.f.frag {
          csum := InChksumUdp6(true, PseudoHeader(p, at, len), Bytes(p.mem, at, len));
        }
      }
      bad := csum != 0;
    }

    method DecodeTeredo(at: nat, len: nat)
      modifies this
      ensures p == Run(old(p), env, Call(TeredoD, at, len))
      ensures Decoded(old(p), p, env, TeredoD, at, len)
      ensures Finds(old(p), p, env, TeredoD, at, len)
      decreases len, 2
    {
      hide Run, Decoded, Finds, TeredoStart, High;
      RunTurn(p, env, TeredoD, at, len);
      var skip := SkipIndicators(at, len);
      if skip > len {
        return;
      }
      if High(Byte(p.mem, at + skip)) == 6 {
        p := p.(f := p.f.(teredo := true));
        if p.f.sp != 3544 && p.f.dp != 3544 {
          p := p.(f := p.f.(unsure := true));
        }
        DecodeIPV6(at + skip, len - skip);
        p := p.(f := p.f.(unsure := false));
      }
    }

    // Past the authentication and origin indicators; beyond the end if they do not fit.
    method SkipIndicators(at: nat, len: nat) returns (skip: nat)
      ensures skip == TeredoStart(p.mem, at, len)
    {
      skip := 0;
      if len < 2 {
        return len + 1;
      }
      if U16(p.mem, at) == 1 {
        if len < 13 {
          return len + 1;
        }
        skip := 13 + Byte(p.mem, at + 2) + Byte(p.mem, at + 3);
        if len < skip {
          return len + 1;
        }
      }
      if U16(p.mem, at + skip) == 0 {
        if len - skip < 8 {
          return len + 1;
        }
        skip := skip + 8;
      }
    }

    method DecodeTCP(at: nat, len: nat)
      modifies this
      ensures p == Run(old(p), env, Call(TcpD, at, len))
      ensures Decoded(old(p), p, env, TcpD, at, len)
      ensures Finds(old(p), p, env, TcpD, at, len)
      decreases len, 1
    {
      hide Run, Decoded, Finds, Push, High, U16;
      RunTurn(p, env, TcpD, at, len);
      if len < 20 {
        return;
      }
      var hlen := 4 * High(Byte(p.mem, at + 12));
      if hlen < 20 {
        return;
      }
      if hlen > len {
        return;
      }
      p := p.(f := p.f.(sp := U16(p.mem, at), dp := U16(p.mem, at + 2)));
      PushLayer(Tcp, at, hlen);
    }

    method DecodeICMP(at: nat, len: nat)
      modifies this
      ensures p == Run(old(p), env, Call(IcmpD, at, len))
      ensures Decoded(old(p), p, env, IcmpD, at, len)
      ensures Finds(old(p), p, env, IcmpD, at, len)
      decreases len, 1
    {
      hide Run, Decoded, Finds, Push;
      RunTurn(p, env, IcmpD, at, len);
      if len < 4 {
        return;
      }
      var kind := Byte(p.mem, at);
      match kind {
        case 13 => if len < 20 { return; }
        case 14 => if len < 20 { return; }
        case 17 => if len < 12 { return; }
        case 18 => if len < 12 { return; }
        case _ =>
          if kind in {0, 3, 4, 5, 8, 9, 10, 11, 12, 15, 16} && len < 8 {
            return;
          }
      }
      PushLayer(Icmp4, at, if kind in {0, 3, 4, 5, 8, 11, 12} then 8 else 4);
    }

    method DecodeICMP6(at: nat, len: nat)
      modifies this
      ensures p == Run(old(p), env, Call(Icmp6D, at, len))
      ensures Decoded(old(p), p, env, Icmp6D, at, len)
      ensures Finds(old(p), p, env, Icmp6D, at, len)
      decreases len, 1
    {
      hide Run, Decoded, Finds, Push;
      RunTurn(p, env, Icmp6D, at, len);
      if len < 4 {
        return;
      }
      var kind, dsize := Byte(p.mem, at), (len - 4) % 0x1_0000;
      match kind {
        case 128 => if dsize < 4 { return; }
        case 129 => if dsize < 4 { return; }
        case 2 => if dsize < 8 { return; }
        case 1 => if dsize < 4 { return; }
        case 3 => if dsize < 4 { return; }
        case 4 => if dsize < 4 { return; }
        case 134 => if dsize < 12 { return; }
        case 133 => if dsize < 4 { return; }
        case 139 => return;
        case 140 => return;
        case _ =>
      }
      PushLayer(Icmp6, at, if kind in {1, 2, 3, 4, 128, 129} then 8 else 4);
    }
  }

  lemma RunStop(s: State, env: Env)
    ensures Run(s, env, Stop) == s
  {
  }
}
