/** The Trojan UDP frame codec of crates/daemon/src/trojan.rs. */
module Trojan {
  import opened Bytes
  import opened Net

  const VERIFIER_BYTES := 56
  const MAX_PAYLOAD := 65_535
  /** Type and length octets, a 255-octet domain, port, length, CRLF and the largest payload. */
  const MAX_FRAME := 65_798

  const CRLF: Octets := [CR, LF]

  /** One UDP datagram as the association sends or receives it. */
  datatype Datagram = Datagram(target: Target, payload: Octets)

  /** `Ok(None)`, `Err(InvalidData)` and `Ok(Some(..))` of the incremental parser. */
  datatype Parse<+T> = NeedMore | Malformed | Parsed(value: T)

  datatype ParsedUdpFrame = ParsedUdpFrame(source: Target, payloadStart: nat, consumed: nat)

  /** What `encode_host` accepts: every address, and domains of 1 to 255 octets. */
  predicate EncodableHost(h: Host) { h.Domain? ==> 1 <= |h.name| <= 255 }

  function EncodeHost(h: Host): Octets
    requires EncodableHost(h)
  {
    match h
    case Address(V4(octets)) => [0x01] + octets
    case Domain(name) => [0x03, |name|] + name
    case Address(V6(octets)) => [0x04] + octets
  }

  function EncodeTarget(t: Target): Octets
    requires EncodableHost(t.host)
  {
    EncodeHost(t.host) + PutU16(t.port)
  }

  predicate Encodable(d: Datagram)
  {
    EncodableHost(d.target.host) && |d.payload| <= MAX_PAYLOAD
  }

  /** The octets of a frame that `encode_udp_frame` accepts to write. */
  function Frame(d: Datagram): (r: Octets)
    requires Encodable(d)
    ensures |r| > |d.payload|
  {
    EncodeTarget(d.target) + PutU16(|d.payload|) + CRLF + d.payload
  }

  function EncodeUdpFrame(d: Datagram): (r: Result<Octets, ()>)
  {
    if Encodable(d) then Ok(Frame(d)) else Err(())
  }

  /** The preface that opens a UDP association, with the wildcard target 0.0.0.0:0. */
  function EncodeUdpAssociateRequest(verifier: Octets): (r: Octets)
    requires |verifier| == VERIFIER_BYTES
    ensures |r| == VERIFIER_BYTES + 12
    ensures r == verifier + CRLF + [0x03] + EncodeTarget(Target(Address(V4([0, 0, 0, 0])), 0)) + CRLF
  {
    verifier + CRLF + [0x03] + [0x01, 0, 0, 0, 0, 0, 0] + CRLF
  }

  /** The host part of `parse_target`: the host and the offset just past it. */
  function ParseHost(data: Octets): Parse<(Host, nat)>
  {
    if |data| == 0 then NeedMore
    else if data[0] == 0x01 then
      if |data| < 5 then NeedMore else Parsed((Address(V4(data[1..5])), 5))
    else if data[0] == 0x03 then
      if |data| < 2 then NeedMore
      else if data[1] == 0 then Malformed
      else
        var end := 2 + data[1] as int;
        if |data| < end then NeedMore
        else if !IsUtf8(data[2..end]) then Malformed
        else Parsed((Domain(data[2..end]), end))
    else if data[0] == 0x04 then
      if |data| < 17 then NeedMore else Parsed((Address(V6(data[1..17])), 17))
    else Malformed
  }

  function ParseTarget(data: Octets): Parse<(Target, nat)>
  {
    match ParseHost(data)
    case NeedMore => NeedMore
    case Malformed => Malformed
    case Parsed((host, hostEnd)) =>
      if |data| < hostEnd + 2 then NeedMore
      else
        match NewTarget(host, GetU16(data, hostEnd))
        case None => Malformed
        case Some(target) => Parsed((target, hostEnd + 2))
  }

  function ParseUdpFrame(data: Octets): (r: Parse<ParsedUdpFrame>)
    ensures r.Parsed? ==> 0 < r.value.payloadStart <= r.value.consumed <= |data|
  {
    match ParseTarget(data)
    case NeedMore => NeedMore
    case Malformed => Malformed
    case Parsed((source, addressLen)) =>
      if |data| < addressLen + 4 then NeedMore
      else if data[addressLen + 2..addressLen + 4] != CRLF then Malformed
      else
        var start := addressLen + 4;
        var consumed := start + GetU16(data, addressLen);
        if |data| < consumed then NeedMore
        else Parsed(ParsedUdpFrame(source, start, consumed))
  }

  /** The datagrams the parser can produce: a real port, an encodable and well-typed host. */
  predicate Sendable(d: Datagram)
  {
    Encodable(d) && HostTyped(d.target.host) && d.target.port != 0
  }

  /** The datagram that a parsed frame denotes. */
  function DatagramOf(data: Octets, f: ParsedUdpFrame): Datagram
    requires f.payloadStart <= f.consumed <= |data|
  {
    Datagram(f.source, data[f.payloadStart..f.consumed])
  }

  // ---------------------------------------------------------------- laws of the codec

  lemma HostRoundTrip(h: Host, rest: Octets)
    requires EncodableHost(h) && HostTyped(h)
    ensures ParseHost(EncodeHost(h) + rest) == Parsed((h, |EncodeHost(h)|))
  {
    var data := EncodeHost(h) + rest;
    match h
    case Address(V4(octets)) => assert data[1..5] == octets;
    case Domain(name) => assert data[2..2 + |name|] == name;
    case Address(V6(octets)) => assert data[1..17] == octets;
  }

  /** The parser inverts the encoder, whatever follows the frame in the buffer. */
  lemma FrameRoundTrip(d: Datagram, rest: Octets)
    requires Sendable(d)
    ensures var data := Frame(d) + rest;
            var f := ParsedUdpFrame(d.target, |Frame(d)| - |d.payload|, |Frame(d)|);
            ParseUdpFrame(data) == Parsed(f) && DatagramOf(data, f) == d
  {
    hide ParseHost, EncodeHost, PutU16, IsUtf8;
    var data := Frame(d) + rest;
    var host := EncodeHost(d.target.host);
    var tail := PutU16(d.target.port) + PutU16(|d.payload|) + CRLF + d.payload + rest;
    assert data == host + tail;
    HostRoundTrip(d.target.host, tail);
    var a := |host| + 2;
    assert GetU16(data, |host|) == d.target.port;
    assert GetU16(data, a) == |d.payload|;
    assert data[a + 2..a + 4] == CRLF;
    assert data[a + 4..a + 4 + |d.payload|] == d.payload;
  }

  lemma ParsedHostIsEncoding(data: Octets)
    requires ParseHost(data).Parsed?
    ensures var (h, end) := ParseHost(data).value;
            end <= |data| && EncodableHost(h) && HostTyped(h) && EncodeHost(h) == data[..end]
  {
  }

  /** Every accepted frame is the encoding of the datagram it denotes: the wire form is canonical. */
  lemma ParsedFrameIsEncoding(data: Octets)
    requires ParseUdpFrame(data).Parsed?
    ensures var f := ParseUdpFrame(data).value;
            && f.payloadStart <= f.consumed <= |data|
            && Sendable(DatagramOf(data, f))
            && Frame(DatagramOf(data, f)) == data[..f.consumed]
  {
    hide ParseHost, EncodeHost, PutU16, IsUtf8;
    ParsedHostIsEncoding(data);
    var (h, hostEnd) := ParseHost(data).value;
    U16RoundTrip(data, hostEnd);
    U16RoundTrip(data, hostEnd + 2);
    var f := ParseUdpFrame(data).value;
    var d := DatagramOf(data, f);
    assert data[..f.consumed] == data[..hostEnd] + data[hostEnd..hostEnd + 2] + data[hostEnd + 2..hostEnd + 4]
                                 + data[hostEnd + 4..hostEnd + 6] + data[hostEnd + 6..f.consumed];
  }

  lemma HostVerdictIsStable(data: Octets, more: Octets)
    requires !ParseHost(data).NeedMore?
    ensures ParseHost(data + more) == ParseHost(data)
  {
    hide IsUtf8;
    var all := data + more;
    if data[0] == 0x01 {
      assert all[1..5] == data[1..5];
    } else if data[0] == 0x03 {
      if data[1] != 0 { assert all[2..2 + data[1] as int] == data[2..2 + data[1] as int]; }
    } else if data[0] == 0x04 {
      assert all[1..17] == data[1..17];
    }
  }

  /** Once the parser has accepted or refused, no later octet changes its verdict. */
  lemma VerdictIsStable(data: Octets, more: Octets)
    requires !ParseUdpFrame(data).NeedMore?
    ensures ParseUdpFrame(data + more) == ParseUdpFrame(data)
  {
    hide ParseHost;
    var all := data + more;
    HostVerdictIsStable(data, more);
    if ParseTarget(data).Parsed? {
      var a := ParseTarget(data).value.1;
      assert all[a + 2..a + 4] == data[a + 2..a + 4];
    }
  }

  /** On every strict prefix of a frame the parser asks for more. */
  lemma StrictPrefixNeedsMore(d: Datagram, n: nat)
    requires Sendable(d) && n < |Frame(d)|
    ensures ParseUdpFrame(Frame(d)[..n]) == NeedMore
  {
    var data, rest := Frame(d)[..n], Frame(d)[n..];
    assert data + rest == Frame(d) + [];
    FrameRoundTrip(d, []);
    if !ParseUdpFrame(data).NeedMore? {
      VerdictIsStable(data, rest);
      ParsedFrameIsEncoding(data);
    }
  }

  /** 65,798 octets always decide: the parser then has a frame or an error. */
  lemma FullBufferDecides(data: Octets)
    requires |data| >= 65_798
    ensures !ParseUdpFrame(data).NeedMore?
  {
  }

  /** The bound of FullBufferDecides is exact: a longer wait is really possible one octet earlier. */
  lemma FullBufferBoundIsTight(name: Octets, port: U16, payload: Octets)
    requires |name| == 255 && IsUtf8(name) && port != 0 && |payload| == 65_535
    ensures var frame := Frame(Datagram(Target(Domain(name), port), payload));
            |frame| == 65_798 && ParseUdpFrame(frame[..65_797]) == NeedMore
  {
    StrictPrefixNeedsMore(Datagram(Target(Domain(name), port), payload), MAX_FRAME - 1);
  }

  // ---------------------------------------------------------------- streams of frames

  predicate AllEncodable(ds: seq<Datagram>) { forall i :: 0 <= i < |ds| ==> Encodable(ds[i]) }

  predicate AllSendable(ds: seq<Datagram>)
    ensures AllSendable(ds) ==> AllEncodable(ds)
  {
    forall i :: 0 <= i < |ds| ==> Sendable(ds[i])
  }

  /** The octets of a sequence of datagrams sent one after the other. */
  function Stream(ds: seq<Datagram>): Octets
    requires AllEncodable(ds)
  {
    if ds == [] then [] else Frame(ds[0]) + Stream(ds[1..])
  }

  lemma {:induction false} StreamAppend(ds: seq<Datagram>, d: Datagram)
    requires Encodable(d) && AllEncodable(ds)
    ensures Stream(ds + [d]) == Stream(ds) + Frame(d)
  {
    hide Frame;
    if ds == [] {
      assert ds + [d] == [d];
      assert Stream([d]) == Frame(d) + Stream([]);
    } else {
      StreamAppend(ds[1..], d);
      assert (ds + [d])[1..] == ds[1..] + [d];
    }
  }

  /** A stream that starts with the frame of `d` starts with the datagram `d`. */
  lemma HeadOfStream(d: Datagram, ds: seq<Datagram>)
    requires Sendable(d) && AllSendable(ds) && Frame(d) <= Stream(ds)
    ensures ds != [] && ds[0] == d
  {
    hide Frame, ParseUdpFrame;
    var all := Stream(ds);
    assert all == Frame(d) + all[|Frame(d)|..];
    FrameRoundTrip(d, all[|Frame(d)|..]);
    if ds != [] { FrameRoundTrip(ds[0], Stream(ds[1..])); }
  }

  /** A buffer that holds a whole non-empty stream holds a complete frame. */
  lemma StreamNeedsNoMore(ds: seq<Datagram>)
    requires AllSendable(ds) && ds != []
    ensures !ParseUdpFrame(Stream(ds)).NeedMore?
  {
    hide Frame, ParseUdpFrame;
    FrameRoundTrip(ds[0], Stream(ds[1..]));
  }

  lemma CancelPrefix(a: Octets, b: Octets, rx: Octets, c: Octets)
    requires (a + b) + rx <= a + c
    ensures b + rx <= c
    ensures (a + b) + rx == a + c ==> b + rx == c
  {
    assert b + rx == ((a + b) + rx)[|a|..];
    assert c == (a + c)[|a|..];
  }

  /**
   * Unique decoding. If what a receiver took off the stream as datagrams `got` with `rx` left over is a
   * prefix of the stream of `sent`, then `got` is a prefix of `sent`; and when the left-over holds no
   * complete frame and the whole stream has arrived, nothing is missing.
   */
  lemma {:induction false} UniqueDecoding(got: seq<Datagram>, rx: Octets, sent: seq<Datagram>)
    requires AllSendable(got) && AllSendable(sent)
    requires Stream(got) + rx <= Stream(sent)
    ensures got <= sent
    ensures Stream(got) + rx == Stream(sent) && ParseUdpFrame(rx).NeedMore? ==> got == sent && rx == []
  {
    hide Frame, ParseUdpFrame;
    if got == [] {
      assert Stream(got) + rx == rx;
      if sent != [] { StreamNeedsNoMore(sent); }
    } else {
      assert Frame(got[0]) <= Stream(got) + rx;
      HeadOfStream(got[0], sent);
      CancelPrefix(Frame(got[0]), Stream(got[1..]), rx, Stream(sent[1..]));
      UniqueDecoding(got[1..], rx, sent[1..]);
      assert got == [got[0]] + got[1..] && sent == [sent[0]] + sent[1..];
    }
  }

  // ---------------------------------------------------------------- when waiting is worth it

  /** Frames octet by octet: address types 1, 3 and 4, then port, length and line end, high octets first. */
  lemma FrameOctets()
    ensures Frame(Datagram(Target(Address(V4([1, 2, 3, 4])), 53), [7, 8])) == [1, 1, 2, 3, 4, 0, 53, 0, 2, 13, 10, 7, 8]
    ensures Frame(Datagram(Target(Domain([97]), 258), [])) == [3, 1, 97, 1, 2, 0, 0, 13, 10]
    ensures var ip := [0, 0, 0, 0, 0, 0, 0, 0, 0, 0, 0, 0, 0, 0, 0, 1];
            Frame(Datagram(Target(Address(V6(ip)), 1), [])) == [4] + ip + [0, 1, 0, 0, 13, 10]
  {
  }

  /** Some octets, this many, complete the text to UTF-8. */
  ghost predicate Completes(part: Octets, n: nat)
  {
    exists more: Octets :: |more| == n && IsUtf8(part + more)
  }

  /** The part of a domain that has arrived, when the domain is not complete. */
  predicate InDomain(data: Octets) { |data| >= 2 && data[0] == 0x03 && |data| < 2 + data[1] as int }

  /** The parser waits for the end of the line of which one octet has arrived. */
  predicate InLineEnd(data: Octets)
  {
    ParseTarget(data).Parsed? && |data| == ParseTarget(data).value.1 + 3
  }

  /** Nothing that has arrived rules a frame out: the domain can still be UTF-8, the line end still CRLF. */
  ghost predicate Promising(data: Octets)
  {
    && (InDomain(data) ==> Completes(data[2..], 2 + data[1] as int - |data|))
    && (InLineEnd(data) ==> data[|data| - 1] == CR)
  }

  lemma FirstOfMore(part: Octets, n: nat) returns (b: Byte)
    requires n > 0 && Completes(part, n)
    ensures Completes(part + [b], n - 1)
    ensures n == 1 ==> IsUtf8(part + [b])
  {
    var more: Octets :| |more| == n && IsUtf8(part + more);
    b := more[0];
    assert (part + [b]) + more[1..] == part + more;
    if n == 1 { assert part + [b] == part + more; }
  }

  /** A wait in the host part: one more octet keeps the promise. */
  lemma HostGoesOn(data: Octets) returns (b: Byte)
    requires ParseHost(data).NeedMore? && Promising(data)
    ensures var next := data + [b];
            && !ParseHost(next).Malformed?
            && (ParseHost(next).NeedMore? ==> Promising(next))
            && (ParseHost(next).Parsed? ==> ParseHost(next).value.1 == |next|)
  {
    hide IsUtf8;
    if |data| == 0 {
      b := 0x01;
    } else if data[0] == 0x03 && |data| == 1 {
      b := 1;
      assert [] + [97] == [97];
      AsciiIsUtf8([97]);
      assert (data + [b])[2..] == [] && Completes([], 1);
    } else if data[0] == 0x03 {
      var n := 2 + data[1] as int - |data|;
      b := FirstOfMore(data[2..], n);
      assert (data + [b])[2..] == data[2..] + [b];
      if n == 1 { assert (data + [b])[2..2 + data[1] as int] == data[2..] + [b]; }
    } else {
      b := 0;
    }
  }

  /** After the host: port, length, line end and payload. */
  lemma RestGoesOn(data: Octets) returns (b: Byte)
    requires ParseHost(data).Parsed? && ParseUdpFrame(data).NeedMore? && Promising(data)
    ensures var next := data + [b];
            !ParseUdpFrame(next).Malformed? && (ParseUdpFrame(next).NeedMore? ==> Promising(next))
  {
    hide ParseHost, IsUtf8;
    HostKnown(data);
    var hostEnd := ParseHost(data).value.1;
    b := if |data| <= hostEnd + 1 then 1 else if |data| == hostEnd + 4 then CR else if |data| == hostEnd + 5 then LF else 0;
    HostVerdictIsStable(data, [b]);
    HostKnown(data + [b]);
    if |data| == hostEnd + 5 {
      assert (data + [b])[hostEnd + 4..hostEnd + 6] == CRLF;
    } else if |data| > hostEnd + 5 {
      assert (data + [b])[hostEnd + 4..hostEnd + 6] == data[hostEnd + 4..hostEnd + 6];
    }
  }

  lemma HostKnown(data: Octets)
    requires ParseHost(data).Parsed?
    ensures 0 < ParseHost(data).value.1 <= |data| && !InDomain(data)
  {
  }

  lemma {:induction false} PromiseIsKept(data: Octets) returns (more: Octets)
    requires ParseUdpFrame(data).NeedMore? && Promising(data)
    ensures ParseUdpFrame(data + more).Parsed?
    decreases MAX_FRAME - |data|
  {
    hide ParseHost, IsUtf8, Promising;
    if |data| >= MAX_FRAME { FullBufferDecides(data); }
    var b;
    if ParseHost(data).NeedMore? {
      b := HostGoesOn(data);
      NotYet(data + [b]);
    } else {
      b := RestGoesOn(data);
    }
    if ParseUdpFrame(data + [b]).Parsed? {
      more := [b];
    } else {
      var later := PromiseIsKept(data + [b]);
      more := [b] + later;
      assert data + more == (data + [b]) + later;
    }
  }

  /** A host that has just been completed, or not yet, promises as much as before. */
  lemma NotYet(data: Octets)
    requires !ParseHost(data).Malformed?
    requires ParseHost(data).NeedMore? ==> Promising(data)
    requires ParseHost(data).Parsed? ==> ParseHost(data).value.1 == |data|
    ensures ParseUdpFrame(data).NeedMore? && Promising(data)
  {
    if ParseHost(data).Parsed? { HostKnown(data); }
    hide ParseHost;
  }

  lemma CompletedName(data: Octets, more: Octets)
    requires InDomain(data) && ParseHost(data + more).Parsed?
    ensures Completes(data[2..], 2 + data[1] as int - |data|)
  {
    var all, end := data + more, 2 + data[1] as int;
    assert all[2..end] == data[2..] + more[..end - |data|];
  }

  lemma LineEndKept(data: Octets, more: Octets)
    requires InLineEnd(data) && ParseUdpFrame(data + more).Parsed?
    ensures data[|data| - 1] == CR
  {
    hide ParseHost;
    HostVerdictIsStable(data, more);
    var all, a := data + more, ParseTarget(data).value.1;
    assert ParseTarget(all) == ParseTarget(data);
    assert all[a + 2..a + 4] == CRLF;
    assert all[a + 2..a + 4][0] == data[|data| - 1];
  }

  /**
   * Waiting, exactly. While the parser asks for more, some continuation is a frame if and only if nothing that has
   * arrived rules it out; the parser itself looks at a domain and at the line end only when they are complete.
   */
  lemma WaitingIsWorthIt(data: Octets)
    requires ParseUdpFrame(data).NeedMore?
    ensures (exists more :: ParseUdpFrame(data + more).Parsed?) <==> Promising(data)
  {
    hide IsUtf8;
    if Promising(data) {
      var more := PromiseIsKept(data);
      assert ParseUdpFrame(data + more).Parsed?;
    }
    if more :| ParseUdpFrame(data + more).Parsed? {
      if InDomain(data) { CompletedName(data, more); }
      if InLineEnd(data) { LineEndKept(data, more); }
    }
  }

  /** Two waits that are in vain: an octet that is no UTF-8 in a domain, and a line end that does not begin with CR. */
  lemma VainWaits(more: Octets)
    ensures ParseUdpFrame([3, 2, 0xFF]).NeedMore? && !ParseUdpFrame([3, 2, 0xFF] + more).Parsed?
    ensures var data := [1, 1, 2, 3, 4, 0, 53, 0, 0, 7];
            ParseUdpFrame(data).NeedMore? && !ParseUdpFrame(data + more).Parsed?
  {
    var data := [1, 1, 2, 3, 4, 0, 53, 0, 0, 7];
    assert ParseTarget(data).Parsed? && InLineEnd(data) && !Promising(data);
    WaitingIsWorthIt(data);
  }
}
