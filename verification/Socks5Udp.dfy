/** The SOCKS5 UDP request and reply codec (section 7 of RFC 1928) of crates/daemon/src/socks5.rs. */
module Socks5Udp {
  import opened Bytes
  import opened Net
  import Trojan

  const MAX_DOMAIN := 253

  datatype UdpError = BadData | FragmentUnsupported | ZeroPort

  /** The host behind the address type, and the offset after it; None when truncated or not acceptable. */
  function ParseHostAt(packet: Octets): Option<(Host, nat)>
    requires |packet| >= 4
  {
    if packet[3] == 0x01 then
      if |packet| < 8 then None else Some((Address(V4(packet[4..8])), 8))
    else if packet[3] == 0x03 then
      if |packet| < 5 then None
      else
        var length := packet[4] as int;
        if length == 0 || length > MAX_DOMAIN || |packet| < 5 + length then None
        else if !IsUtf8(packet[5..5 + length]) then None
        else
          var domain := Lower(TrimEnd(packet[5..5 + length]));
          if domain == [] then None else Some((Domain(domain), 5 + length))
    else if packet[3] == 0x04 then
      if |packet| < 20 then None else Some((Address(V6(packet[4..20])), 20))
    else None
  }

  /** `parse_udp_request`: total on all packets; the payload is what follows the port. */
  function ParseUdpRequest(packet: Octets): Result<(Target, Octets), UdpError>
  {
    if |packet| < 4 || packet[0] != 0 || packet[1] != 0 then Err(BadData)
    else if packet[2] != 0 then Err(FragmentUnsupported)
    else
      match ParseHostAt(packet)
      case None => Err(BadData)
      case Some((host, offset)) =>
        if |packet| < offset + 2 then Err(BadData)
        else
          match NewTarget(host, GetU16(packet, offset))
          case None => Err(ZeroPort)
          case Some(target) => Ok((target, packet[offset + 2..]))
  }

  /** `encode_udp_response`: refuses only domains that are empty or over 255 octets. */
  function EncodeUdpResponse(source: Target, payload: Octets): Result<Octets, UdpError>
  {
    if Trojan.EncodableHost(source.host) then Ok(Response(source, payload)) else Err(BadData)
  }

  /** Both codecs write the address type, address and port alike; SOCKS5 puts three zero octets before. */
  function Response(source: Target, payload: Octets): Octets
    requires Trojan.EncodableHost(source.host)
  {
    [0x00, 0x00, 0x00] + Trojan.EncodeTarget(source) + payload
  }

  /** Names that survive the inbound normalisation: within the bound, lower case, no trailing dot. */
  predicate Stable(h: Host)
  {
    h.Domain? ==> 1 <= |h.name| <= 253 && IsLower(h.name) && h.name[|h.name| - 1] != DOT
  }

  lemma StableName(name: Octets)
    ensures Lower(TrimEnd(name)) == name <==> IsLower(name) && (name == [] || name[|name| - 1] != DOT)
  {
    hide Lower, IsLower;
    LowerFixedPoint(name);
    if |name| > 0 && name[|name| - 1] == DOT {
      assert |Lower(TrimEnd(name))| == |TrimEnd(name)| <= |name[..|name| - 1]|;
    }
  }

  lemma HostOfResponse(source: Target, payload: Octets)
    requires Trojan.EncodableHost(source.host) && HostTyped(source.host)
    ensures var packet := Response(source, payload);
            var end := 3 + |Trojan.EncodeHost(source.host)|;
            && |packet| >= end + 2 && GetU16(packet, end) == source.port && packet[end + 2..] == payload
            && match source.host
               case Address(_) => ParseHostAt(packet) == Some((source.host, end))
               case Domain(name) =>
                 var domain := Lower(TrimEnd(name));
                 ParseHostAt(packet) == if |name| > MAX_DOMAIN || domain == [] then None
                                        else Some((Domain(domain), end))
  {
    hide PutU16, IsUtf8, Lower, TrimEnd;
    var host, tail := Trojan.EncodeHost(source.host), PutU16(source.port) + payload;
    assert Response(source, payload) == [0x00, 0x00, 0x00] + (host + tail);
    PortAndPayload([0x00, 0x00, 0x00] + host, source.port, payload);
    assert [0x00, 0x00, 0x00] + (host + tail) == ([0x00, 0x00, 0x00] + host) + tail;
    HostReads(source.host, tail);
  }

  lemma PortAndPayload(before: Octets, port: U16, payload: Octets)
    ensures var packet := before + (PutU16(port) + payload);
            GetU16(packet, |before|) == port && packet[|before| + 2..] == payload
  {
    var packet := before + (PutU16(port) + payload);
    assert packet[|before|] == PutU16(port)[0] && packet[|before| + 1] == PutU16(port)[1];
  }

  lemma HostReads(host: Host, tail: Octets)
    requires Trojan.EncodableHost(host) && HostTyped(host)
    ensures var packet := [0x00, 0x00, 0x00] + (Trojan.EncodeHost(host) + tail);
            var end := 3 + |Trojan.EncodeHost(host)|;
            match host
            case Address(_) => ParseHostAt(packet) == Some((host, end))
            case Domain(name) =>
              var domain := Lower(TrimEnd(name));
              ParseHostAt(packet) == if |name| > MAX_DOMAIN || domain == [] then None
                                     else Some((Domain(domain), end))
  {
    hide IsUtf8, Lower, TrimEnd, ParseHostAt, Trojan.EncodeHost;
    match host
    case Address(ip) =>
      AddressShape(ip, tail);
      AddressReads(ip, tail);
    case Domain(name) =>
      DomainShape(name, tail);
      DomainReads(name, tail);
  }

  lemma AddressShape(ip: Ip, tail: Octets)
    ensures [0x00, 0x00, 0x00] + (Trojan.EncodeHost(Address(ip)) + tail)
            == [0x00, 0x00, 0x00, if ip.V4? then 0x01 else 0x04] + (ip.octets + tail)
    ensures |Trojan.EncodeHost(Address(ip))| == 1 + |ip.octets|
  {
  }

  lemma DomainShape(name: Octets, tail: Octets)
    requires 1 <= |name| <= 255
    ensures [0x00, 0x00, 0x00] + (Trojan.EncodeHost(Domain(name)) + tail)
            == [0x00, 0x00, 0x00, 0x03, |name|] + (name + tail)
    ensures |Trojan.EncodeHost(Domain(name))| == 2 + |name|
  {
  }

  lemma AddressReads(ip: Ip, tail: Octets)
    ensures ParseHostAt([0x00, 0x00, 0x00, if ip.V4? then 0x01 else 0x04] + (ip.octets + tail))
            == Some((Address(ip), 4 + |ip.octets|))
  {
    var packet := [0x00, 0x00, 0x00, if ip.V4? then 0x01 else 0x04] + (ip.octets + tail);
    assert packet[4..4 + |ip.octets|] == ip.octets;
  }

  lemma DomainReads(name: Octets, tail: Octets)
    requires 1 <= |name| <= 255 && IsUtf8(name)
    ensures var domain := Lower(TrimEnd(name));
            ParseHostAt([0x00, 0x00, 0x00, 0x03, |name|] + (name + tail))
            == if |name| > MAX_DOMAIN || domain == [] then None else Some((Domain(domain), 5 + |name|))
  {
    hide IsUtf8, Lower, TrimEnd, ParseHostAt;
    var head: Octets := [0x00, 0x00, 0x00, 0x03, |name|];
    var packet := head + (name + tail);
    Middle(head, name, tail);
    assert packet[..5][3] == packet[3] && packet[..5][4] == packet[4];
    DomainAt(packet, name);
  }

  lemma DomainAt(packet: Octets, name: Octets)
    requires 1 <= |name| <= 255 && IsUtf8(name) && |packet| >= 5 + |name|
    requires packet[3] == 0x03 && packet[4] == |name| && packet[5..5 + |name|] == name
    ensures var domain := Lower(TrimEnd(name));
            ParseHostAt(packet)
            == if |name| > MAX_DOMAIN || domain == [] then None else Some((Domain(domain), 5 + |name|))
  {
    hide IsUtf8, Lower, TrimEnd;
    var length := packet[4] as int;
    assert length == |name| && packet[5..5 + length] == name;
  }

  /**
   * Encoding refuses exactly the empty and over-long domains; of the rest, parsing undoes encoding exactly for the
   * targets with a real port and, for domains, a stable name.
   */
  lemma ResponseRoundTrip(source: Target, payload: Octets)
    requires HostTyped(source.host)
    ensures EncodeUdpResponse(source, payload).Err? <==> source.host.Domain? && !(1 <= |source.host.name| <= 255)
    ensures EncodeUdpResponse(source, payload).Ok? ==>
              (ParseUdpRequest(EncodeUdpResponse(source, payload).value) == Ok((source, payload))
               <==> source.port != 0 && Stable(source.host))
  {
    if Trojan.EncodableHost(source.host) {
      hide ParseHostAt, Lower, TrimEnd;
      HostOfResponse(source, payload);
      if source.host.Domain? { StableName(source.host.name); }
      var packet := Response(source, payload);
      assert packet[0] == 0 && packet[1] == 0 && packet[2] == 0;
    }
  }

  /** The smallest failures: port zero is refused, an upper-case name comes back in lower case. */
  lemma UnstableTargets(payload: Octets)
    ensures var zero := Target(Address(V4([127, 0, 0, 1])), 0);
            ParseUdpRequest(Response(zero, payload)) == Err(ZeroPort)
    ensures ParseUdpRequest(Response(Target(Domain([65]), 53), payload)) == Ok((Target(Domain([97]), 53), payload))
  {
    var zero, upper := Target(Address(V4([127, 0, 0, 1])), 0), Target(Domain([65]), 53);
    assert IsUtf8([65]) by { AsciiIsUtf8([65]); }
    HostOfResponse(zero, payload);
    HostOfResponse(upper, payload);
    assert TrimEnd([65]) == [65] && Lower([65]) == [97];
  }

  lemma NormalisedNameIsStable(name: Octets)
    requires IsUtf8(name) && |name| <= MAX_DOMAIN && Lower(TrimEnd(name)) != []
    ensures var host := Domain(Lower(TrimEnd(name)));
            HostTyped(host) && Stable(host) && Trojan.EncodableHost(host)
  {
    hide IsUtf8;
    TrimEndKeepsUtf8(name);
    LowerKeepsUtf8(TrimEnd(name));
    LowerFixedPoint(TrimEnd(name));
  }

  /** Whatever a client sends, an accepted target has a port and a host the Trojan codec can carry. */
  lemma AcceptedTargetIsSendable(packet: Octets)
    requires ParseUdpRequest(packet).Ok?
    ensures var (target, payload) := ParseUdpRequest(packet).value;
            && target.port != 0 && HostTyped(target.host) && Stable(target.host)
            && Trojan.EncodableHost(target.host) && payload == packet[|packet| - |payload|..]
  {
    hide IsUtf8, Lower, TrimEnd, IsLower, GetU16;
    if packet[3] == 0x03 {
      NormalisedNameIsStable(packet[5..5 + packet[4] as int]);
    }
  }

  /**
   * Across both protocols: the target and payload of an accepted client packet, sent in a Trojan frame with
   * anything after it, come out of the frame parser unchanged.
   */
  lemma ThroughTrojan(packet: Octets, rest: Octets)
    requires ParseUdpRequest(packet).Ok? && |ParseUdpRequest(packet).value.1| <= Trojan.MAX_PAYLOAD
    ensures var (target, payload) := ParseUdpRequest(packet).value;
            var d := Trojan.Datagram(target, payload);
            && Trojan.Sendable(d)
            && Trojan.ParseUdpFrame(Trojan.Frame(d) + rest).Parsed?
            && Trojan.DatagramOf(Trojan.Frame(d) + rest,
                                 Trojan.ParsedUdpFrame(target, |Trojan.Frame(d)| - |payload|, |Trojan.Frame(d)|)) == d
            && Trojan.ParseUdpFrame(Trojan.Frame(d) + rest).value.source == target
  {
    hide ParseUdpRequest, Trojan.Frame, Trojan.ParseUdpFrame;
    AcceptedTargetIsSendable(packet);
    var (target, payload) := ParseUdpRequest(packet).value;
    Trojan.FrameRoundTrip(Trojan.Datagram(target, payload), rest);
  }

  /**
   * And back: a datagram that arrives in a Trojan frame reaches the client in a SOCKS5 reply that denotes the
   * same source and payload, unless its domain has more than 253 octets, an upper-case letter or a final dot.
   */
  lemma BackToClient(data: Octets)
    requires Trojan.ParseUdpFrame(data).Parsed?
    ensures var f := Trojan.ParseUdpFrame(data).value;
            && f.payloadStart <= f.consumed <= |data| && Trojan.EncodableHost(f.source.host)
            && var payload := data[f.payloadStart..f.consumed];
               && EncodeUdpResponse(f.source, payload).Ok?
               && (ParseUdpRequest(EncodeUdpResponse(f.source, payload).value) == Ok((f.source, payload))
                   <==> Stable(f.source.host))
  {
    hide ParseUdpRequest, Response, Trojan.ParseUdpFrame, Trojan.Frame;
    Trojan.ParsedFrameIsEncoding(data);
    var f := Trojan.ParseUdpFrame(data).value;
    ResponseRoundTrip(f.source, data[f.payloadStart..f.consumed]);
  }

  /** Packets with a fragment number or with reserved octets that are not zero are refused, and so are headless ones. */
  lemma HeadsAreChecked(packet: Octets)
    ensures |packet| < 4 || packet[0] != 0 || packet[1] != 0 ==> ParseUdpRequest(packet) == Err(BadData)
    ensures |packet| >= 4 && packet[0] == 0 && packet[1] == 0 && packet[2] != 0 ==>
              ParseUdpRequest(packet) == Err(FragmentUnsupported)
  {
  }

  /** An accepted packet is three zero octets and its target: exactly the reply encoding, for every address. */
  lemma AcceptedPacketIsEncoding(packet: Octets)
    requires ParseUdpRequest(packet).Ok?
    ensures packet[..3] == [0, 0, 0]
    ensures var (target, payload) := ParseUdpRequest(packet).value;
            && (target.host.Address? ==> packet == Response(target, payload))
            && (target.host.Domain? ==>
                  exists name :: 1 <= |name| <= 253 && IsUtf8(name) && Lower(TrimEnd(name)) == target.host.name
                                 && packet == Response(Target(Domain(name), target.port), payload))
  {
    hide IsUtf8, Lower, TrimEnd, PutU16, GetU16, Response, ParseHostAt;
    var (target, payload) := ParseUdpRequest(packet).value;
    var written := HostWritten(packet);
    var offset := ParseHostAt(packet).value.1;
    assert packet[..3] == [packet[0], packet[1], packet[2]];
    assert 3 <= offset && offset + 2 <= |packet| && target.port == GetU16(packet, offset);
    U16RoundTrip(packet, offset);
    WrittenPacket(packet, written, offset, target.port);
    assert target.host.Domain? ==> packet == Response(Target(Domain(written.name), target.port), payload);
  }

  /** The host as it stands in the packet, before it is lowered and trimmed. */
  lemma HostWritten(packet: Octets) returns (written: Host)
    requires |packet| >= 4 && ParseHostAt(packet).Some?
    ensures var (host, offset) := ParseHostAt(packet).value;
            && Trojan.EncodableHost(written) && 3 <= offset <= |packet| && packet[3..offset] == Trojan.EncodeHost(written)
            && (host.Address? ==> written == host)
            && (host.Domain? ==> written.Domain? && 1 <= |written.name| <= 253 && IsUtf8(written.name)
                                 && Lower(TrimEnd(written.name)) == host.name)
  {
    hide IsUtf8, Lower, TrimEnd;
    var (host, offset) := ParseHostAt(packet).value;
    if packet[3] == 0x03 {
      written := Domain(packet[5..offset]);
      assert packet[3..offset] == [0x03, packet[4]] + packet[5..offset];
    } else {
      written := host;
      assert packet[3..offset] == [packet[3]] + packet[4..offset];
    }
  }

  lemma WrittenPacket(packet: Octets, written: Host, offset: nat, port: U16)
    requires Trojan.EncodableHost(written) && 3 <= offset && offset + 2 <= |packet|
    requires packet[..3] == [0, 0, 0] && packet[3..offset] == Trojan.EncodeHost(written)
    requires packet[offset..offset + 2] == PutU16(port)
    ensures packet == Response(Target(written, port), packet[offset + 2..])
  {
    hide PutU16, Trojan.EncodeHost;
    assert packet == packet[..3] + (packet[3..offset] + packet[offset..offset + 2]) + packet[offset + 2..];
  }

  /** The reply for 1.2.3.4 port 53, octet by octet. */
  lemma ReplyOctets()
    ensures Response(Target(Address(V4([1, 2, 3, 4])), 53), [7]) == [0, 0, 0, 1, 1, 2, 3, 4, 0, 53, 7]
    ensures Response(Target(Domain([97]), 258), []) == [0, 0, 0, 3, 1, 97, 1, 2]
  {
  }
}
