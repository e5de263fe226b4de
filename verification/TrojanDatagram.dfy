/** The framed UDP association of crates/daemon/src/trojan_datagram.rs: send queue and receive buffer in place. */
module TrojanDatagram {
  import opened Bytes
  import opened Io
  import opened Net
  import opened Trojan
  import opened TrojanFlow

  const TLS_PLAINTEXT_READ_CHUNK := 16 * 1024

  datatype ReceivedDatagram = ReceivedDatagram(source: Target, length: nat)

  ghost function Weight(script: seq<ReadStep>): nat
  {
    if script == [] then 0
    else 1 + (if script[0].Chunk? then |script[0].octets| else 0) + Weight(script[1..])
  }

  class TrojanDatagramExecution {
    var pending: seq<PendingFrame>
    var pendingBytes: nat
    var rx: Octets

    /** The association preface, every datagram enqueued after it, and the plaintext the carrier took. */
    ghost const preface: Octets
    ghost var sent: seq<Datagram>
    ghost var accepted: Octets
    /** All plaintext read from the carrier, and the datagrams handed to the caller. */
    ghost var received: Octets
    ghost var delivered: seq<Datagram>

    /** The queue stays within its bounds and `pendingBytes` counts it exactly. */
    ghost predicate QueueValid()
      reads this
    {
      && WellFormed(pending)
      && |pending| <= MAX_PENDING_FRAMES
      && pendingBytes == |Remaining(pending)| <= MAX_PENDING_BYTES
    }

    /** What the carrier took followed by what is queued is all that was enqueued. */
    ghost predicate SendValid()
      reads this
    {
      QueueValid() && AllEncodable(sent) && accepted + Remaining(pending) == preface + Stream(sent)
    }

    /** The receive buffer is bounded and nothing read is lost, repeated or reordered. */
    ghost predicate ReceiveValid()
      reads this
    {
      |rx| <= MAX_RX_BYTES && AllSendable(delivered) && received == Stream(delivered) + rx
    }

    ghost predicate Valid()
      reads this
    {
      SendValid() && ReceiveValid()
    }

    ghost function Value(): State
      reads this
    {
      State(pending, rx)
    }

    constructor (verifier: Octets)
      requires |verifier| == VERIFIER_BYTES
      ensures Valid()
      ensures preface == EncodeUdpAssociateRequest(verifier)
      ensures pending == [PendingFrame(preface, 0)] && sent == [] && accepted == []
      ensures rx == [] && received == [] && delivered == []
    {
      var request := EncodeUdpAssociateRequest(verifier);
      preface := request;
      pending, pendingBytes, rx := [PendingFrame(request, 0)], |request|, [];
      sent, accepted, received, delivered := [], [], [], [];
      new;
      assert pending[1..] == [];
    }

    /** Refuses without any change when a bound would be passed, else queues the frame last. */
    method Enqueue(bytes: Octets) returns (r: Result<(), IoError>)
      requires QueueValid()
      modifies this`pending, this`pendingBytes
      ensures QueueValid()
      ensures r.Ok? <==> |old(pending)| < 64 && old(pendingBytes) + |bytes| <= 524_288
      ensures r.Ok? ==> pending == old(pending) + [PendingFrame(bytes, 0)]
      ensures r.Ok? ==> Remaining(pending) == old(Remaining(pending)) + bytes
      ensures r.Err? ==> r.error == QuotaExceeded && pending == old(pending) && pendingBytes == old(pendingBytes)
    {
      if |pending| >= MAX_PENDING_FRAMES {
        return Err(QuotaExceeded);
      }
      var next := pendingBytes + |bytes|;
      if next > MAX_PENDING_BYTES {
        return Err(QuotaExceeded);
      }
      RemainingAppend(pending, PendingFrame(bytes, 0));
      pendingBytes := next;
      pending := pending + [PendingFrame(bytes, 0)];
      return Ok(());
    }

    /** Hands queued octets to the carrier until the queue is empty or the carrier stops. */
    method DrainPending(script: seq<WriteStep>) returns (r: Result<(), IoError>, rest: seq<WriteStep>)
      requires QueueValid()
      modifies this`pending, this`pendingBytes, this`accepted
      ensures QueueValid()
      ensures var d := Drained(old(pending), script);
              r == d.verdict && pending == d.after && rest == d.rest && accepted == old(accepted) + d.taken
      ensures accepted + Remaining(pending) == old(accepted + Remaining(pending))
    {
      hide Remaining;
      rest := script;
      ghost var whole := Drained(pending, script);
      assert old(accepted) + whole.taken == accepted + whole.taken;
      while true
        invariant QueueValid() && |pending| <= |old(pending)|
        invariant accepted + Remaining(pending) == old(accepted + Remaining(pending))
        invariant var d := Drained(pending, rest);
                  && whole.after == d.after && whole.verdict == d.verdict && whole.rest == d.rest
                  && old(accepted) + whole.taken == accepted + d.taken
        decreases |pending| + |rest|
      {
        if pending == [] {
          assert accepted + [] == accepted;
          return Ok(()), rest;
        }
        var remaining := Offered(pending);
        if remaining == [] {
          DropSpentHead(pending);
          pending := pending[1..];
          continue;
        }
        assert accepted + [] == accepted;
        if rest == [] {
          return Ok(()), rest;
        }
        var step := rest[0];
        rest := rest[1..];
        match step {
          case Accepts(count) =>
            var written := Min(count, |remaining|);
            if written == 0 {
              return Err(WriteZero), rest;
            }
            ShortenedRemains(pending, written);
            ghost var d := Drained(Shortened(pending, written), rest);
            Associate(accepted, remaining[..written], d.taken);
            Associate(accepted, remaining[..written], Remaining(Shortened(pending, written)));
            accepted := accepted + remaining[..written];
            pendingBytes := SaturatingSub(pendingBytes, written);
            pending := Shortened(pending, written);
          case WriteBlocks =>
            return Ok(()), rest;
          case WriteInterrupted =>
          case WriteFails =>
            return Err(CarrierFailure), rest;
        }
      }
    }

    /** Reads until the carrier has no more or the buffer is full; the octets at hand are exactly appended. */
    method ReadPlaintextIntoRx(script: seq<ReadStep>) returns (r: Result<(), IoError>)
      requires |rx| <= MAX_RX_BYTES
      modifies this`rx, this`received
      ensures |rx| <= MAX_RX_BYTES
      ensures (r, rx) == ReadIn(old(rx), script)
      ensures old(rx) <= rx && received == old(received) + rx[|old(rx)|..]
    {
      var rest := script;
      while true
        invariant |rx| <= MAX_RX_BYTES
        invariant old(rx) <= rx && received == old(received) + rx[|old(rx)|..]
        invariant rx + Arrivals(rest) == old(rx) + Arrivals(script)
        invariant Breaks(rest) == Breaks(script)
        decreases Weight(rest)
      {
        assert rx + [] == rx && (rx + Arrivals(rest))[..|rx|] == rx;
        if |rx| >= MAX_RX_BYTES {
          return Err(InvalidData);
        }
        var room := MAX_RX_BYTES - |rx|;
        var limit := if room < TLS_PLAINTEXT_READ_CHUNK then room else TLS_PLAINTEXT_READ_CHUNK;
        if rest == [] {
          return Ok(());
        }
        match rest[0] {
          case Chunk(octets) =>
            if octets == [] {
              return Ok(());
            }
            var read := if |octets| <= limit then |octets| else limit;
            ghost var previous := rest;
            rest := if read == |octets| then rest[1..] else [Chunk(octets[read..])] + rest[1..];
            TakeFromChunk(rx, previous, read, rest);
            rx := rx + octets[..read];
            received := received + octets[..read];
          case ReadInterrupted =>
            rest := rest[1..];
          case ReadBlocks =>
            return Ok(());
          case ReadFails =>
            return Err(CarrierFailure);
        }
      }
    }

    /** Takes one complete frame off the front of `rx`, copying its payload to the caller. */
    method TakeFrame(output: array<Byte>) returns (r: Result<Option<ReceivedDatagram>, IoError>)
      requires ReceiveValid()
      modifies this`rx, this`delivered, output
      ensures ReceiveValid()
      ensures Hands(Take(old(rx), output.Length), r, old(output[..]), output[..])
      ensures rx == AfterTake(old(rx), output.Length)
      ensures delivered == old(delivered) + DatagramsOf(Take(old(rx), output.Length))
      ensures r == Ok(None) <==> Waits(old(rx))
      ensures r == Ok(None) ==> rx == old(rx) && |rx| < MAX_FRAME
    {
      hide ParseUdpFrame, Stream, Frame;
      assert delivered + [] == delivered;
      if |rx| >= MAX_FRAME { FullBufferDecides(rx); }
      var parsed := ParseUdpFrame(rx);
      if parsed.NeedMore? {
        return Ok(None);
      }
      if parsed.Malformed? {
        return Err(InvalidData);
      }
      var frame := parsed.value;
      TookFrame(delivered, rx);
      var length := frame.consumed - frame.payloadStart;
      if output.Length < length {
        return Err(InvalidInput);
      }
      CopyInto(output, rx[frame.payloadStart..frame.consumed]);
      delivered := delivered + [DatagramOf(rx, frame)];
      rx := rx[frame.consumed..];
      return Ok(Some(ReceivedDatagram(frame.source, length)));
    }

    /**
     * Encodes, queues and starts to write one datagram. A datagram that cannot be encoded or queued leaves no
     * octet behind; every other error comes after the datagram was queued in full, and it stays queued.
     */
    method Send(d: Datagram, script: seq<WriteStep>, refreshOk: bool) returns (r: Result<(), IoError>)
      requires Valid()
      modifies this`pending, this`pendingBytes, this`accepted, this`sent
      ensures Valid()
      ensures r == Err(InvalidInput) <==> !Encodable(d)
      ensures r == Err(QuotaExceeded) <==>
                Encodable(d) && (|old(pending)| >= 64
                                 || old(pendingBytes) + |Frame(d)| > 524_288)
      ensures r.Err? && r.error in {InvalidInput, QuotaExceeded} ==>
                sent == old(sent) && pending == old(pending) && accepted == old(accepted)
      ensures !(r.Err? && r.error in {InvalidInput, QuotaExceeded}) ==>
                && sent == old(sent) + [d] && WellFormed(old(pending) + [PendingFrame(Frame(d), 0)])
                && var written := Drained(old(pending) + [PendingFrame(Frame(d), 0)], script);
                   && pending == written.after && accepted == old(accepted) + written.taken
                   && r == if written.verdict.Ok? && !refreshOk then Err(CarrierFailure) else written.verdict
    {
      hide Stream, Frame, Remaining, Drained;
      var encoded := EncodeUdpFrame(d);
      if encoded.Err? {
        return Err(InvalidInput);
      }
      var queued := Enqueue(encoded.value);
      if queued.Err? {
        return Err(queued.error);
      }
      StreamAppend(sent, d);
      sent := sent + [d];
      Regroup(accepted, old(Remaining(pending)), encoded.value, preface, Stream(old(sent)));
      DrainStops(pending, script);
      var drained, _ := DrainPending(script);
      if drained.Err? {
        return drained;
      }
      if !refreshOk {
        return Err(CarrierFailure);
      }
      return drained;
    }

    /** The two drains around the encrypted I/O of the carrier. */
    method Flush(env: Service) returns (r: Result<(), IoError>)
      requires QueueValid()
      modifies this`pending, this`pendingBytes, this`accepted
      ensures QueueValid()
      ensures var d := Flushed(old(pending), env);
              r == d.verdict && pending == d.after && accepted == old(accepted) + d.taken
      ensures accepted + Remaining(pending) == old(accepted + Remaining(pending))
    {
      hide Drained, Remaining;
      var rest;
      r, rest := DrainPending(env.before);
      if r.Err? {
        return;
      }
      if !env.ioOk {
        return Err(CarrierFailure);
      }
      ghost var first, second := Drained(old(pending), env.before), Drained(pending, env.after);
      Associate(old(accepted), first.taken, second.taken);
      r, rest := DrainPending(env.after);
    }

    method ServiceReady(env: Service) returns (r: Result<(), IoError>)
      requires Valid()
      modifies this`pending, this`pendingBytes, this`accepted, this`rx, this`received
      ensures Valid()
      ensures var s := ServiceOnce(old(Value()), env);
              r == s.verdict && Value() == s.state && accepted == old(accepted) + s.taken
      ensures old(rx) <= rx <= old(rx) + Arrivals(env.arriving) && received == old(received) + rx[|old(rx)|..]
      ensures r.Ok? ==> rx == old(rx) + Arrivals(env.arriving) && |rx| < MAX_RX_BYTES
    {
      hide Stream, Remaining, Arrivals, Flushed;
      r := Flush(env);
      if r.Err? {
        Regroup([], old(received), rx[|old(rx)|..], Stream(delivered), old(rx));
        return;
      }
      r := ReadPlaintextIntoRx(env.arriving);
      Regroup([], old(received), rx[|old(rx)|..], Stream(delivered), old(rx));
      if r.Ok? && !env.refreshOk {
        return Err(CarrierFailure);
      }
    }

    /**
     * One datagram, none, or an error, each exactly when ReceiveOnce says so. The carrier is serviced only while
     * the buffer holds less than one largest frame, so a full buffer is never mistaken for an incomplete one.
     */
    method Receive(buffer: array<Byte>, env: Service) returns (r: Result<Option<ReceivedDatagram>, IoError>)
      requires Valid()
      modifies this, buffer
      ensures Valid() && sent == old(sent)
      ensures var one := ReceiveOnce(old(Value()), buffer.Length, env);
              && Hands(one.outcome, r, old(buffer[..]), buffer[..])
              && Value() == one.state && accepted == old(accepted) + one.taken
              && delivered == old(delivered) + DatagramsOf(one.outcome)
      ensures old(received) <= received <= old(received) + Arrivals(env.arriving)
      ensures received != old(received) ==> |old(rx)| < MAX_FRAME
      ensures r == Ok(None) ==>
                Waits(rx) && |rx| < MAX_FRAME && !env.eof && received == old(received) + Arrivals(env.arriving)
    {
      hide ParseUdpFrame, Stream, Remaining, Arrivals, ServiceOnce, Take, Hands;
      assert accepted + [] == accepted && received + [] == received;
      r := TakeFrame(buffer);
      HandsAlike(Take(old(rx), buffer.Length), r, old(buffer[..]), buffer[..]);
      if r != Ok(None) {
        return;
      }
      assert delivered + [] == delivered;
      r := ServiceAndTake(buffer, env);
    }

    /** The slow path of `Receive`, when no frame is buffered. */
    method ServiceAndTake(buffer: array<Byte>, env: Service) returns (r: Result<Option<ReceivedDatagram>, IoError>)
      requires Valid() && Take(rx, buffer.Length) == Ok(None)
      modifies this, buffer
      ensures Valid() && sent == old(sent)
      ensures var one := ReceiveOnce(old(Value()), buffer.Length, env);
              && Hands(one.outcome, r, old(buffer[..]), buffer[..])
              && Value() == one.state && accepted == old(accepted) + one.taken
              && delivered == old(delivered) + DatagramsOf(one.outcome)
      ensures old(received) <= received <= old(received) + Arrivals(env.arriving)
      ensures r == Ok(None) ==>
                Waits(rx) && |rx| < MAX_FRAME && !env.eof && received == old(received) + Arrivals(env.arriving)
    {
      hide ParseUdpFrame, Stream, Remaining, Arrivals, ServiceOnce, Take;
      var serviced := ServiceReady(env);
      assert delivered + [] == delivered;
      if serviced.Err? {
        return Err(serviced.error);
      }
      r := TakeFrame(buffer);
      if r == Ok(None) && env.eof {
        return Err(UnexpectedEof);
      }
    }

    /**
     * Call after call until the carrier has nothing more to offer and no frame is buffered, as the readiness loops
     * of the inbound listeners do.
     */
    method ReceiveAll(buffer: array<Byte>, carrier: seq<Service>) returns (got: seq<Datagram>, error: Option<IoError>)
      requires Valid()
      modifies this, buffer
      ensures Valid() && sent == old(sent) && delivered == old(delivered) + got
      ensures Delivery(got, Value(), error) == Deliver(old(Value()), buffer.Length, carrier)
    {
      hide ReceiveOnce, ParseUdpFrame, Stream, Remaining;
      got := [];
      var left := carrier;
      ghost var whole := Deliver(Value(), buffer.Length, carrier);
      FromNothing(whole);
      assert delivered + [] == delivered;
      while !(Waits(rx) && left == [])
        invariant Valid() && sent == old(sent) && delivered == old(delivered) + got
        invariant whole == Prefixed(got, Deliver(Value(), buffer.Length, left))
        decreases |left|, |rx|
      {
        var waits := Waits(rx);
        ghost var before := Value();
        if !waits { BufferShrinks(before, buffer.Length); }
        var r := Receive(buffer, if waits then left[0] else UNTOUCHED);
        ghost var next := if waits then left[1..] else left;
        if waits {
          left := left[1..];
        }
        match r {
          case Err(e) =>
            assert got + [] == got;
            return got, Some(e);
          case Ok(None) =>
            assert old(delivered) + got + [] == old(delivered) + got;
          case Ok(Some(one)) =>
            var d := Datagram(one.source, buffer[..one.length]);
            PrefixedTwice(got, [d], Deliver(Value(), buffer.Length, next));
            Associate3(old(delivered), got, [d]);
            got := got + [d];
        }
      }
      assert got + [] == got;
      error := None;
    }
  }

  /** `open`: connects, queues the preface and starts to write it; an error of the connect or of the drain is the result. */
  method Open(verifier: Octets, connectOk: bool, script: seq<WriteStep>)
    returns (r: Result<TrojanDatagramExecution, IoError>)
    requires |verifier| == VERIFIER_BYTES
    ensures var first := [PendingFrame(EncodeUdpAssociateRequest(verifier), 0)];
            var written := Drained(first, script);
            && (r.Ok? <==> connectOk && written.verdict.Ok?)
            && (r.Err? ==> r.error == if connectOk then written.verdict.error else CarrierFailure)
            && (r.Ok? ==>
                  var a := r.value;
                  && fresh(a) && a.Valid() && a.sent == [] && a.received == [] && a.delivered == []
                  && a.preface == EncodeUdpAssociateRequest(verifier)
                  && a.Value() == State(written.after, []) && a.accepted == written.taken)
  {
    hide Drained, Stream, Remaining;
    if !connectOk {
      return Err(CarrierFailure);
    }
    var a := new TrojanDatagramExecution(verifier);
    var drained, _ := a.DrainPending(script);
    assert [] + Drained([PendingFrame(a.preface, 0)], script).taken == Drained([PendingFrame(a.preface, 0)], script).taken;
    if drained.Err? {
      return Err(drained.error);
    }
    return Ok(a);
  }

  /** The outcome of a call as the caller sees it: the payload in front of an otherwise unchanged buffer. */
  ghost predicate Hands(outcome: Result<Option<Datagram>, IoError>, r: Result<Option<ReceivedDatagram>, IoError>,
                        before: Octets, buffer: Octets)
  {
    |buffer| == |before| &&
    match outcome
    case Err(error) => r == Err(error) && buffer == before
    case Ok(None) => r == Ok(None) && buffer == before
    case Ok(Some(d)) =>
      && r == Ok(Some(ReceivedDatagram(d.target, |d.payload|))) && |d.payload| <= |buffer|
      && buffer[..|d.payload|] == d.payload && buffer[|d.payload|..] == before[|d.payload|..]
  }

  /** What the caller sees decides whether there was a datagram, an error or nothing. */
  lemma HandsAlike(outcome: Result<Option<Datagram>, IoError>, r: Result<Option<ReceivedDatagram>, IoError>,
                   before: Octets, buffer: Octets)
    requires Hands(outcome, r, before, buffer)
    ensures r == Ok(None) <==> outcome == Ok(None)
    ensures r == Ok(None) ==> buffer == before
  {
  }

  function DatagramsOf(outcome: Result<Option<Datagram>, IoError>): seq<Datagram>
  {
    if outcome.Ok? && outcome.value.Some? then [outcome.value.value] else []
  }

  lemma FromNothing(r: Delivery)
    ensures r == Prefixed([], r)
  {
    assert [] + r.got == r.got;
  }

  lemma PrefixedTwice(a: seq<Datagram>, b: seq<Datagram>, r: Delivery)
    ensures Prefixed(a, Prefixed(b, r)) == Prefixed(a + b, r)
  {
    assert a + (b + r.got) == (a + b) + r.got;
  }

  lemma Associate3(a: seq<Datagram>, b: seq<Datagram>, c: seq<Datagram>)
    ensures (a + b) + c == a + (b + c)
  {
  }

  /** A call that does not touch the carrier shortens the buffer or fails. */
  lemma BufferShrinks(s: State, room: nat)
    requires WellFormed(s.pending) && !Waits(s.rx)
    ensures var one := ReceiveOnce(s, room, UNTOUCHED);
            one.outcome != Ok(None) && (one.outcome.Ok? ==> |one.state.rx| < |s.rx|)
  {
    hide ParseUdpFrame;
  }

  lemma DropSpentHead(q: seq<PendingFrame>)
    requires WellFormed(q) && q != [] && q[0].bytes[q[0].offset..] == []
    ensures Remaining(q) == Remaining(q[1..])
  {
  }

  /** Taking a parsed frame off the buffer appends exactly its datagram to what was delivered. */
  lemma TookFrame(delivered: seq<Datagram>, rx: Octets)
    requires AllSendable(delivered) && ParseUdpFrame(rx).Parsed?
    ensures var f := ParseUdpFrame(rx).value;
            && f.payloadStart <= f.consumed <= |rx|
            && Sendable(DatagramOf(rx, f)) && rx == Frame(DatagramOf(rx, f)) + rx[f.consumed..]
            && AllSendable(delivered + [DatagramOf(rx, f)])
            && Stream(delivered) + rx == Stream(delivered + [DatagramOf(rx, f)]) + rx[f.consumed..]
  {
    hide Frame, ParseUdpFrame;
    ParsedFrameIsEncoding(rx);
    var f := ParseUdpFrame(rx).value;
    var d := DatagramOf(rx, f);
    StreamAppend(delivered, d);
    assert rx == Frame(d) + rx[f.consumed..];
    Regroup([], Stream(delivered) + Frame(d), rx[f.consumed..], Stream(delivered), Frame(d));
  }

  method CopyInto(output: array<Byte>, payload: Octets)
    requires |payload| <= output.Length
    modifies output
    ensures output[..|payload|] == payload
    ensures output[|payload|..] == old(output[..])[|payload|..]
  {
    for i := 0 to |payload|
      invariant output[..i] == payload[..i]
      invariant output[|payload|..] == old(output[..])[|payload|..]
    {
      output[i] := payload[i];
    }
  }

  lemma Regroup(a: Octets, b: Octets, x: Octets, c: Octets, d: Octets)
    requires a + b == c + d
    ensures a + (b + x) == c + (d + x)
  {
    assert a + (b + x) == (a + b) + x && c + (d + x) == (c + d) + x;
  }

  lemma TakeFromChunk(rx: Octets, script: seq<ReadStep>, read: nat, rest: seq<ReadStep>)
    requires script != [] && script[0].Chunk?
    requires 0 < read <= |script[0].octets|
    requires rest == if read == |script[0].octets| then script[1..]
                     else [Chunk(script[0].octets[read..])] + script[1..]
    ensures rx + Arrivals(script) == (rx + script[0].octets[..read]) + Arrivals(rest)
    ensures Breaks(rest) == Breaks(script)
    ensures Weight(rest) < Weight(script)
  {
    var octets, later := script[0].octets, script[1..];
    assert script == [Chunk(octets)] + later;
    ChunkFirst(octets, later);
    if read < |octets| { ChunkFirst(octets[read..], later); }
    hide Arrivals, Breaks, Weight;
    if read < |octets| {
      assert octets == octets[..read] + octets[read..];
      Associate(octets[..read], octets[read..], Arrivals(later));
    } else {
      assert octets[..read] == octets;
    }
    Associate(rx, octets[..read], Arrivals(rest));
  }

  lemma ChunkFirst(octets: Octets, later: seq<ReadStep>)
    requires octets != []
    ensures var script := [Chunk(octets)] + later;
            && Arrivals(script) == octets + Arrivals(later) && Breaks(script) == Breaks(later)
            && Weight(script) == 1 + |octets| + Weight(later)
  {
    assert ([Chunk(octets)] + later)[1..] == later;
  }

  /**
   * End to end. Let `b` have read any part of the plaintext that `a`'s carrier took after the preface, in
   * whatever chunks. The datagrams `b` handed out are the first ones `a` sent, in order; when the queue of
   * `a` is empty, `b` has read everything and its last receive found no frame, they are all of them.
   */
  lemma EndToEnd(a: TrojanDatagramExecution, b: TrojanDatagramExecution)
    requires a.SendValid() && b.ReceiveValid() && AllSendable(a.sent)
    requires |a.preface| <= |a.accepted| && b.received <= a.accepted[|a.preface|..]
    ensures b.delivered <= a.sent
    ensures a.pending == [] && b.received == a.accepted[|a.preface|..] && ParseUdpFrame(b.rx).NeedMore? ==>
              b.delivered == a.sent && b.rx == []
  {
    hide Frame, ParseUdpFrame, Stream;
    var all := a.preface + Stream(a.sent);
    var wire := a.accepted[|a.preface|..];
    assert wire + Remaining(a.pending) == all[|a.preface|..] == Stream(a.sent);
    assert Stream(b.delivered) + b.rx <= Stream(a.sent);
    UniqueDecoding(b.delivered, b.rx, a.sent);
  }

  /**
   * End to end, for any receiver with an empty buffer: what a sender's carrier took after the preface, once its
   * queue is empty, arrives in any bursts that find room, and the receiver hands out exactly the
   * datagrams that were sent.
   */
  lemma EverythingArrives(a: TrojanDatagramExecution, pending: seq<PendingFrame>, room: nat, carrier: seq<Service>)
    requires a.SendValid() && AllSendable(a.sent) && a.pending == []
    requires |a.preface| <= |a.accepted| && AllArrivals(carrier) == a.accepted[|a.preface|..]
    requires WellFormed(pending) && room >= MAX_PAYLOAD && AllHealthy(carrier) && Fits([], carrier)
    ensures var r := Deliver(State(pending, []), room, carrier);
            r.error == None && r.got == a.sent && r.state.rx == []
  {
    hide Frame, ParseUdpFrame, Stream, Deliver, Fits;
    assert a.accepted + Remaining(a.pending) == a.accepted;
    assert a.accepted[|a.preface|..] == (a.preface + Stream(a.sent))[|a.preface|..] == Stream(a.sent);
    assert [] + AllArrivals(carrier) == AllArrivals(carrier);
    DrainsExactly(State(pending, []), room, carrier, a.sent);
  }
}
