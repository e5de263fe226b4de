/**
 * The Trojan association of crates/daemon/src/trojan_datagram.rs on values: what each call does to the send queue
 * and the receive buffer, whatever the carrier answers, and what whole sequences of calls deliver.
 */
module TrojanFlow {
  import opened Bytes
  import opened Io
  import opened Net
  import opened Trojan

  const MAX_PENDING_FRAMES := 64
  const MAX_PENDING_BYTES := 512 * 1024
  const MAX_RX_BYTES := 128 * 1024

  /** Everything the carrier does while one call services it. */
  datatype Service = Service(
    before: seq<WriteStep>, ioOk: bool, after: seq<WriteStep>, arriving: seq<ReadStep>, refreshOk: bool, eof: bool)

  datatype PendingFrame = PendingFrame(bytes: Octets, offset: nat)

  datatype State = State(pending: seq<PendingFrame>, rx: Octets)

  predicate WellFormed(q: seq<PendingFrame>) { forall i :: 0 <= i < |q| ==> q[i].offset <= |q[i].bytes| }

  /** The octets of the queue that the carrier has not taken yet. */
  function Remaining(q: seq<PendingFrame>): Octets
    requires WellFormed(q)
  {
    if q == [] then [] else q[0].bytes[q[0].offset..] + Remaining(q[1..])
  }

  lemma {:induction false} RemainingAppend(q: seq<PendingFrame>, f: PendingFrame)
    requires WellFormed(q) && f.offset <= |f.bytes|
    ensures WellFormed(q + [f]) && Remaining(q + [f]) == Remaining(q) + f.bytes[f.offset..]
  {
    if q == [] {
      assert q + [f] == [f];
      assert Remaining([f]) == f.bytes[f.offset..] + Remaining([]);
    } else {
      RemainingAppend(q[1..], f);
      assert (q + [f])[1..] == q[1..] + [f];
    }
  }

  // ---------------------------------------------------------------- writing

  /** What a drain leaves in the queue, what the carrier took, how it ended, and the answers not asked for. */
  datatype Drain = Drain(after: seq<PendingFrame>, taken: Octets, verdict: Result<(), IoError>, rest: seq<WriteStep>)

  /** The octets that one write offers: the rest of the first frame. */
  function Offered(q: seq<PendingFrame>): Octets
    requires WellFormed(q) && q != []
  {
    q[0].bytes[q[0].offset..]
  }

  /** The queue after the carrier took some of the offered octets; a frame written out leaves the queue. */
  function Shortened(q: seq<PendingFrame>, written: nat): (r: seq<PendingFrame>)
    requires WellFormed(q) && q != [] && written <= |Offered(q)|
    ensures WellFormed(r)
  {
    var frame := q[0].(offset := q[0].offset + written);
    if frame.offset == |frame.bytes| then q[1..] else [frame] + q[1..]
  }

  /** `drain_pending`: each write takes the smaller of its count and what it was offered. */
  function Drained(q: seq<PendingFrame>, script: seq<WriteStep>): (d: Drain)
    requires WellFormed(q)
    ensures WellFormed(d.after)
    decreases |q| + |script|
  {
    if q == [] then Drain([], [], Ok(()), script)
    else if Offered(q) == [] then Drained(q[1..], script)
    else if script == [] then Drain(q, [], Ok(()), [])
    else
      match script[0]
      case WriteInterrupted => Drained(q, script[1..])
      case WriteBlocks => Drain(q, [], Ok(()), script[1..])
      case WriteFails => Drain(q, [], Err(CarrierFailure), script[1..])
      case Accepts(count) =>
        if count == 0 then Drain(q, [], Err(WriteZero), script[1..])
        else
          var written := Min(count, |Offered(q)|);
          var d := Drained(Shortened(q, written), script[1..]);
          d.(taken := Offered(q)[..written] + d.taken)
  }

  lemma ShortenedRemains(q: seq<PendingFrame>, written: nat)
    requires WellFormed(q) && q != [] && written <= |Offered(q)|
    ensures Remaining(q) == Offered(q)[..written] + Remaining(Shortened(q, written))
  {
    var tail, kept := Remaining(q[1..]), Offered(q)[written..];
    ShortenedKeeps(q, written);
    assert Offered(q) == Offered(q)[..written] + kept;
    Associate(Offered(q)[..written], kept, tail);
  }

  lemma ShortenedKeeps(q: seq<PendingFrame>, written: nat)
    requires WellFormed(q) && q != [] && written <= |Offered(q)|
    ensures Remaining(Shortened(q, written)) == Offered(q)[written..] + Remaining(q[1..])
  {
    var frame := q[0].(offset := q[0].offset + written);
    var tail := Remaining(q[1..]);
    assert Offered(q)[written..] == frame.bytes[frame.offset..];
    if frame.offset < |frame.bytes| {
      var r := [frame] + q[1..];
      assert r[0] == frame && r[1..] == q[1..];
    } else {
      assert [] + tail == tail;
    }
  }

  /** Partial, blocked, interrupted and failed writes neither lose, repeat nor reorder an octet. */
  lemma {:induction false} DrainConserves(q: seq<PendingFrame>, script: seq<WriteStep>)
    requires WellFormed(q)
    ensures var d := Drained(q, script);
            |d.after| <= |q| && Remaining(q) == d.taken + Remaining(d.after)
    decreases |q| + |script|
  {
    if q == [] {
    } else if Offered(q) == [] {
      DrainConserves(q[1..], script);
    } else if script != [] && script[0].WriteInterrupted? {
      DrainConserves(q, script[1..]);
    } else if script != [] && script[0].Accepts? && script[0].count > 0 {
      var written := Min(script[0].count, |Offered(q)|);
      var shorter := Shortened(q, written);
      ShortenedRemains(q, written);
      DrainConserves(shorter, script[1..]);
      var d := Drained(shorter, script[1..]);
      Associate(Offered(q)[..written], d.taken, Remaining(d.after));
    }
  }

  /** The last answer that a drain asked for says how it ended, and all answers before it let it go on. */
  ghost predicate EndedBy(d: Drain, script: seq<WriteStep>)
  {
    && |d.rest| <= |script| && d.rest == script[|script| - |d.rest|..]
    && var used := |script| - |d.rest|;
       && (forall i :: 0 <= i < used - 1 ==> GoesOn(script[i]))
       && match d.verdict
          case Ok(_) => d.after == [] || d.rest == [] || (used > 0 && script[used - 1] == WriteBlocks)
          case Err(WriteZero) => used > 0 && script[used - 1] == Accepts(0)
          case Err(error) => error == CarrierFailure && used > 0 && script[used - 1] == WriteFails
  }

  /** An answer that lets the drain go on, before the answers that end it. */
  lemma EndedByLater(d: Drain, script: seq<WriteStep>, taken: Octets)
    requires script != [] && GoesOn(script[0]) && EndedBy(d, script[1..])
    ensures EndedBy(d.(taken := taken), script)
  {
    var later := script[1..];
    var used := |later| - |d.rest|;
    assert script[|script| - |d.rest|..] == later[used..];
    forall i | 0 <= i < used ensures GoesOn(script[i]) || i == used {
      if i > 0 { assert script[i] == later[i - 1]; }
    }
    if used > 0 { assert script[used] == later[used - 1]; }
  }

  /** Only the last answer asked for can end a drain, and it says how. */
  lemma {:induction false} DrainStops(q: seq<PendingFrame>, script: seq<WriteStep>)
    requires WellFormed(q)
    ensures EndedBy(Drained(q, script), script)
    decreases |q| + |script|
  {
    hide EndedBy;
    if q == [] {
      StopsAtOnce(Drained(q, script), script);
    } else if Offered(q) == [] {
      DrainStops(q[1..], script);
    } else if script == [] || !GoesOn(script[0]) {
      StopsAtOnce(Drained(q, script), script);
    } else {
      var next := if script[0].Accepts? then Shortened(q, Min(script[0].count, |Offered(q)|)) else q;
      DrainStops(next, script[1..]);
      EndedByLater(Drained(next, script[1..]), script, Drained(q, script).taken);
    }
  }

  lemma StopsAtOnce(d: Drain, script: seq<WriteStep>)
    requires (d.verdict.Ok? && (d.after == [] || script == []) && d.rest == script)
             || (script != [] && d.rest == script[1..]
                 && match script[0]
                    case WriteBlocks => d.verdict.Ok?
                    case WriteFails => d.verdict == Err(CarrierFailure)
                    case Accepts(count) => count == 0 && d.verdict == Err(WriteZero)
                    case WriteInterrupted => false)
    ensures EndedBy(d, script)
  {
  }

  predicate NoFailure(script: seq<WriteStep>)
  {
    forall i :: 0 <= i < |script| ==> script[i] != WriteFails && script[i] != Accepts(0)
  }

  lemma NoFailureNoError(q: seq<PendingFrame>, script: seq<WriteStep>)
    requires WellFormed(q) && NoFailure(script)
    ensures Drained(q, script).verdict.Ok?
  {
    DrainStops(q, script);
  }

  /** How many answers take something. */
  function Takings(script: seq<WriteStep>): nat
  {
    if script == [] then 0 else (if script[0].Accepts? then 1 else 0) + Takings(script[1..])
  }

  /** A carrier that goes on often enough, however little it takes each time, empties the queue. */
  lemma {:induction false} EagerCarrierTakesAll(q: seq<PendingFrame>, script: seq<WriteStep>)
    requires WellFormed(q) && (forall i :: 0 <= i < |script| ==> GoesOn(script[i]))
    requires Takings(script) >= |Remaining(q)|
    ensures var d := Drained(q, script); d.verdict.Ok? && d.after == [] && d.taken == Remaining(q)
    decreases |q| + |script|
  {
    if q != [] {
      if Offered(q) == [] {
        EagerCarrierTakesAll(q[1..], script);
      } else {
        assert GoesOn(script[0]);
        forall i | 0 <= i < |script[1..]| ensures GoesOn(script[1..][i]) { assert script[1..][i] == script[i + 1]; }
        if script[0].Accepts? {
          var written := Min(script[0].count, |Offered(q)|);
          ShortenedRemains(q, written);
          EagerCarrierTakesAll(Shortened(q, written), script[1..]);
        } else {
          EagerCarrierTakesAll(q, script[1..]);
        }
      }
    }
  }

  // ---------------------------------------------------------------- reading

  /** The octets that reads deliver before the carrier blocks, ends or fails. */
  function Arrivals(script: seq<ReadStep>): Octets
  {
    if script == [] then []
    else match script[0]
      case Chunk(octets) => if octets == [] then [] else octets + Arrivals(script[1..])
      case ReadInterrupted => Arrivals(script[1..])
      case ReadBlocks => []
      case ReadFails => []
  }

  /** Whether the carrier stops delivering because it fails. */
  predicate Breaks(script: seq<ReadStep>)
  {
    script != [] && match script[0]
      case Chunk(octets) => octets != [] && Breaks(script[1..])
      case ReadInterrupted => Breaks(script[1..])
      case ReadBlocks => false
      case ReadFails => true
  }

  /** The receive buffer after reading, and whether it filled up or the carrier failed. */
  function ReadIn(rx: Octets, script: seq<ReadStep>): (Result<(), IoError>, Octets)
  {
    var all := rx + Arrivals(script);
    if |all| >= MAX_RX_BYTES then (Err(InvalidData), all[..MAX_RX_BYTES])
    else (if Breaks(script) then Err(CarrierFailure) else Ok(()), all)
  }

  /** `take_frame` into a buffer of `room` octets: the datagram at the front, if it is complete and fits. */
  function Take(rx: Octets, room: nat): Result<Option<Datagram>, IoError>
  {
    match ParseUdpFrame(rx)
    case NeedMore => Ok(None)
    case Malformed => Err(InvalidData)
    case Parsed(f) =>
      if room < f.consumed - f.payloadStart then Err(InvalidInput) else Ok(Some(DatagramOf(rx, f)))
  }

  function AfterTake(rx: Octets, room: nat): (r: Octets)
    ensures Take(rx, room).Ok? && Take(rx, room).value.Some? ==> |r| < |rx|
  {
    var taken := Take(rx, room);
    if taken.Ok? && taken.value.Some? then rx[ParseUdpFrame(rx).value.consumed..] else rx
  }

  // ---------------------------------------------------------------- one call

  /** The two drains around the encrypted I/O. */
  function Flushed(q: seq<PendingFrame>, env: Service): (d: Drain)
    requires WellFormed(q)
    ensures WellFormed(d.after)
  {
    var first := Drained(q, env.before);
    if first.verdict.Err? then first
    else if !env.ioOk then first.(verdict := Err(CarrierFailure))
    else
      var second := Drained(first.after, env.after);
      second.(taken := first.taken + second.taken)
  }

  datatype Serviced = Serviced(verdict: Result<(), IoError>, state: State, taken: Octets)

  /** `service_ready`: flush, read everything at hand, refresh the registration. */
  function ServiceOnce(s: State, env: Service): (r: Serviced)
    requires WellFormed(s.pending)
    ensures WellFormed(r.state.pending)
  {
    var flushed := Flushed(s.pending, env);
    if flushed.verdict.Err? then Serviced(flushed.verdict, State(flushed.after, s.rx), flushed.taken)
    else
      var (verdict, rx) := ReadIn(s.rx, env.arriving);
      Serviced(if verdict.Ok? && !env.refreshOk then Err(CarrierFailure) else verdict,
               State(flushed.after, rx), flushed.taken)
  }

  datatype Received = Received(outcome: Result<Option<Datagram>, IoError>, state: State, taken: Octets)

  /** `receive`: a buffered datagram if there is one, else one after servicing the carrier, else the end or none. */
  function ReceiveOnce(s: State, room: nat, env: Service): (r: Received)
    requires WellFormed(s.pending)
    ensures WellFormed(r.state.pending)
  {
    var first := Take(s.rx, room);
    if first != Ok(None) then Received(first, s.(rx := AfterTake(s.rx, room)), [])
    else
      var serviced := ServiceOnce(s, env);
      if serviced.verdict.Err? then Received(Err(serviced.verdict.error), serviced.state, serviced.taken)
      else
        var second := Take(serviced.state.rx, room);
        Received(if second == Ok(None) && env.eof then Err(UnexpectedEof) else second,
                 serviced.state.(rx := AfterTake(serviced.state.rx, room)), serviced.taken)
  }

  // ---------------------------------------------------------------- sequences of calls

  /** The datagrams of a sequence of calls, the state after it, and the error that ended it, if any. */
  datatype Delivery = Delivery(got: seq<Datagram>, state: State, error: Option<IoError>)

  function Prefixed(got: seq<Datagram>, r: Delivery): Delivery { r.(got := got + r.got) }

  const UNTOUCHED := Service([], true, [], [], true, false)

  /** A call services the carrier exactly when no frame, good or bad, is buffered. */
  predicate Waits(rx: Octets) { ParseUdpFrame(rx).NeedMore? }

  /**
   * Call after call of `receive` until the carrier has nothing more to offer and no frame is buffered. `carrier`
   * holds what each service will meet; a call that finds a buffered frame does not touch the carrier.
   */
  function Deliver(s: State, room: nat, carrier: seq<Service>): Delivery
    requires WellFormed(s.pending)
    decreases |carrier|, |s.rx|
  {
    if Waits(s.rx) && carrier == [] then Delivery([], s, None)
    else
      var one := ReceiveOnce(s, room, if Waits(s.rx) then carrier[0] else UNTOUCHED);
      var left := if Waits(s.rx) then carrier[1..] else carrier;
      match one.outcome
      case Err(error) => Delivery([], one.state, Some(error))
      case Ok(None) => Deliver(one.state, room, left)
      case Ok(Some(d)) => Prefixed([d], Deliver(one.state, room, left))
  }

  /** The carrier works: no write, read, refresh or encrypted I/O fails, and it has not ended. */
  predicate Healthy(env: Service)
  {
    NoFailure(env.before) && NoFailure(env.after) && env.ioOk && env.refreshOk && !env.eof && !Breaks(env.arriving)
  }

  predicate AllHealthy(carrier: seq<Service>) { forall i :: 0 <= i < |carrier| ==> Healthy(carrier[i]) }

  /** Everything that will arrive. */
  function AllArrivals(carrier: seq<Service>): Octets
  {
    if carrier == [] then [] else Arrivals(carrier[0].arriving) + AllArrivals(carrier[1..])
  }

  /** What is left of a buffer when its complete frames are gone. */
  function Backlog(rx: Octets): (r: Octets)
    ensures !ParseUdpFrame(r).Parsed? && |r| <= |rx|
    decreases |rx|
  {
    match ParseUdpFrame(rx)
    case Parsed(f) => Backlog(rx[f.consumed..])
    case _ => rx
  }

  /** Every burst finds room behind the backlog of an incomplete frame. */
  predicate Fits(rx: Octets, carrier: seq<Service>)
    decreases |carrier|
  {
    carrier == []
    || (var all := Backlog(rx) + Arrivals(carrier[0].arriving); |all| < MAX_RX_BYTES && Fits(all, carrier[1..]))
  }

  lemma FitsAfterFrame(rx: Octets, carrier: seq<Service>)
    requires ParseUdpFrame(rx).Parsed?
    ensures Fits(rx, carrier) <==> Fits(rx[ParseUdpFrame(rx).value.consumed..], carrier)
  {
  }

  /** The beginning of a stream of valid frames is incomplete, or starts with the stream's first datagram. */
  lemma NextFrame(rx: Octets, ds: seq<Datagram>)
    requires AllSendable(ds) && rx <= Stream(ds) && !Waits(rx)
    ensures ds != [] && ParseUdpFrame(rx).Parsed?
    ensures var f := ParseUdpFrame(rx).value;
            DatagramOf(rx, f) == ds[0] && Frame(ds[0]) == rx[..f.consumed] && |ds[0].payload| == f.consumed - f.payloadStart
  {
    hide Frame, ParseUdpFrame;
    var rest := Stream(ds)[|rx|..];
    assert rx + rest == Stream(ds);
    VerdictIsStable(rx, rest);
    if ds == [] {
      assert rx == [] && rest == [];
      EmptyWaits();
    } else {
      FrameRoundTrip(ds[0], Stream(ds[1..]));
      ParsedFrameIsEncoding(rx);
      var f := ParseUdpFrame(rx).value;
      assert rx[f.payloadStart..f.consumed] == (rx + rest)[f.payloadStart..f.consumed];
    }
  }

  lemma EmptyWaits()
    ensures Waits([])
  {
  }

  lemma DropFrame(rx: Octets, ds: seq<Datagram>, later: Octets, consumed: nat)
    requires AllSendable(ds) && ds != [] && rx + later == Stream(ds)
    requires consumed <= |rx| && Frame(ds[0]) == rx[..consumed]
    ensures rx[consumed..] + later == Stream(ds[1..])
  {
    assert Stream(ds) == Frame(ds[0]) + Stream(ds[1..]);
    assert rx[consumed..] + later == (rx + later)[consumed..];
  }

  lemma HealthyService(s: State, env: Service)
    requires WellFormed(s.pending) && Healthy(env) && Waits(s.rx)
    ensures var r := ServiceOnce(s, env);
            var all := s.rx + Arrivals(env.arriving);
            if |all| < MAX_RX_BYTES then r.verdict == Ok(()) && r.state.rx == all else r.verdict == Err(InvalidData)
  {
    NoFailureNoError(s.pending, env.before);
    NoFailureNoError(Drained(s.pending, env.before).after, env.after);
  }

  /** What a call for the first datagram of a stream does. */
  lemma TakesFirst(s: State, room: nat, env: Service, ds: seq<Datagram>)
    requires WellFormed(s.pending) && room >= MAX_PAYLOAD
    requires AllSendable(ds) && s.rx <= Stream(ds) && !Waits(s.rx)
    ensures ds != [] && ParseUdpFrame(s.rx).Parsed?
    ensures ReceiveOnce(s, room, env)
            == Received(Ok(Some(ds[0])), s.(rx := s.rx[ParseUdpFrame(s.rx).value.consumed..]), [])
  {
    hide ParseUdpFrame, Frame, Stream, ServiceOnce;
    NextFrame(s.rx, ds);
    assert Sendable(ds[0]);
  }

  /**
   * Exact draining. Let a stream of valid frames arrive in any bursts through a working carrier, and let calls be
   * made with buffers for the largest payload. No call fails if and only if every burst finds room behind the
   * backlog. Then exactly the datagrams of the stream come out and nothing stays behind; otherwise the call that
   * meets the burst fails with invalid data, after a beginning of the datagrams.
   */
  lemma {:induction false} DrainsExactly(s: State, room: nat, carrier: seq<Service>, ds: seq<Datagram>)
    requires WellFormed(s.pending) && room >= MAX_PAYLOAD && AllHealthy(carrier)
    requires AllSendable(ds) && s.rx + AllArrivals(carrier) == Stream(ds)
    ensures var r := Deliver(s, room, carrier);
            if Fits(s.rx, carrier) then r.error == None && r.got == ds && r.state.rx == []
            else r.error == Some(InvalidData) && r.got <= ds
    decreases |carrier|, |s.rx|
  {
    hide ParseUdpFrame, Frame, Stream, Arrivals, ServiceOnce;
    if !Waits(s.rx) {
      TakesFirst(s, room, UNTOUCHED, ds);
      NextFrame(s.rx, ds);
      var consumed := ParseUdpFrame(s.rx).value.consumed;
      DropFrame(s.rx, ds, AllArrivals(carrier), consumed);
      FitsAfterFrame(s.rx, carrier);
      DrainsExactly(s.(rx := s.rx[consumed..]), room, carrier, ds[1..]);
      assert ds == [ds[0]] + ds[1..];
    } else if carrier == [] {
      NothingLeft(s.rx, ds);
    } else {
      DrainsBurst(s, room, carrier, ds);
    }
  }

  lemma NothingLeft(rx: Octets, ds: seq<Datagram>)
    requires AllSendable(ds) && Waits(rx) && rx + [] == Stream(ds)
    ensures ds == [] && rx == []
  {
    hide ParseUdpFrame, Frame;
    assert rx == Stream(ds);
    if ds != [] { StreamNeedsNoMore(ds); }
  }

  /** What draining a stream gives: all of it when it fits, a beginning and an error otherwise. */
  ghost predicate Exact(r: Delivery, fits: bool, ds: seq<Datagram>)
  {
    if fits then r.error == None && r.got == ds && r.state.rx == []
    else r.error == Some(InvalidData) && r.got <= ds
  }

  lemma ExactPrefixed(r: Delivery, fits: bool, ds: seq<Datagram>)
    requires ds != [] && Exact(r, fits, ds[1..])
    ensures Exact(Prefixed([ds[0]], r), fits, ds)
  {
    assert ds == [ds[0]] + ds[1..];
  }

  /** The first call of a sequence that services the carrier. */
  lemma DeliverServiced(s: State, room: nat, carrier: seq<Service>)
    requires WellFormed(s.pending) && Waits(s.rx) && carrier != []
    ensures var one := ReceiveOnce(s, room, carrier[0]);
            Deliver(s, room, carrier)
            == match one.outcome
               case Err(error) => Delivery([], one.state, Some(error))
               case Ok(None) => Deliver(one.state, room, carrier[1..])
               case Ok(Some(d)) => Prefixed([d], Deliver(one.state, room, carrier[1..]))
  {
    hide ReceiveOnce, Waits;
  }

  lemma FitsServiced(rx: Octets, carrier: seq<Service>)
    requires Waits(rx) && carrier != []
    ensures var all := rx + Arrivals(carrier[0].arriving);
            Fits(rx, carrier) <==> |all| < MAX_RX_BYTES && Fits(all, carrier[1..])
  {
    hide ParseUdpFrame, Arrivals;
    assert Backlog(rx) == rx;
  }

  lemma RefusedBurst(s: State, room: nat, env: Service)
    requires WellFormed(s.pending) && Waits(s.rx) && ServiceOnce(s, env).verdict == Err(InvalidData)
    ensures ReceiveOnce(s, room, env).outcome == Err(InvalidData)
  {
    hide ParseUdpFrame, ServiceOnce;
  }

  /** The step of DrainsExactly in which the carrier is serviced. */
  lemma {:induction false} DrainsBurst(s: State, room: nat, carrier: seq<Service>, ds: seq<Datagram>)
    requires WellFormed(s.pending) && room >= MAX_PAYLOAD && AllHealthy(carrier) && carrier != [] && Waits(s.rx)
    requires AllSendable(ds) && s.rx + AllArrivals(carrier) == Stream(ds)
    ensures Exact(Deliver(s, room, carrier), Fits(s.rx, carrier), ds)
    decreases |carrier|, |s.rx|, 1
  {
    hide ParseUdpFrame, Frame, Stream, Arrivals, ServiceOnce, Deliver, Fits, ReceiveOnce, Healthy, AllHealthy, AllArrivals;
    var env, left := carrier[0], carrier[1..];
    var all := s.rx + Arrivals(env.arriving);
    FirstBurst(s.rx, carrier);
    HealthyService(s, env);
    DeliverServiced(s, room, carrier);
    FitsServiced(s.rx, carrier);
    if |all| >= MAX_RX_BYTES {
      RefusedBurst(s, room, env);
    } else {
      BurstTaken(s, room, env, left, all, ds);
    }
  }

  lemma FirstBurst(rx: Octets, carrier: seq<Service>)
    requires carrier != [] && AllHealthy(carrier)
    ensures Healthy(carrier[0]) && AllHealthy(carrier[1..])
    ensures rx + AllArrivals(carrier) == (rx + Arrivals(carrier[0].arriving)) + AllArrivals(carrier[1..])
  {
    hide Healthy, Arrivals;
    Associate(rx, Arrivals(carrier[0].arriving), AllArrivals(carrier[1..]));
  }

  lemma {:induction false} BurstTaken(s: State, room: nat, env: Service, left: seq<Service>, all: Octets, ds: seq<Datagram>)
    requires WellFormed(s.pending) && room >= MAX_PAYLOAD && Healthy(env) && AllHealthy(left) && Waits(s.rx)
    requires ServiceOnce(s, env).verdict == Ok(()) && ServiceOnce(s, env).state.rx == all
    requires AllSendable(ds) && all + AllArrivals(left) == Stream(ds)
    ensures var one := ReceiveOnce(s, room, env);
            match one.outcome
            case Err(_) => false
            case Ok(None) => Exact(Deliver(one.state, room, left), Fits(all, left), ds)
            case Ok(Some(d)) => Exact(Prefixed([d], Deliver(one.state, room, left)), Fits(all, left), ds)
    decreases |left| + 1, |s.rx|, 0
  {
    hide ParseUdpFrame, Frame, Stream, Arrivals, ServiceOnce, Deliver, Fits, ReceiveOnce, Healthy, AllHealthy, AllArrivals;
    ReceiveAfterService(s, room, env, ds);
    var s' := ServiceOnce(s, env).state;
    if Waits(all) {
      DrainsExactly(s', room, left, ds);
    } else {
      NextFrame(all, ds);
      var consumed := ParseUdpFrame(all).value.consumed;
      DropFrame(all, ds, AllArrivals(left), consumed);
      FitsAfterFrame(all, left);
      DrainsExactly(s'.(rx := all[consumed..]), room, left, ds[1..]);
      ExactPrefixed(Deliver(s'.(rx := all[consumed..]), room, left), Fits(all, left), ds);
    }
  }

  lemma ReceiveAfterService(s: State, room: nat, env: Service, ds: seq<Datagram>)
    requires WellFormed(s.pending) && room >= MAX_PAYLOAD && Healthy(env) && Waits(s.rx)
    requires ServiceOnce(s, env).verdict == Ok(())
    requires AllSendable(ds) && ServiceOnce(s, env).state.rx <= Stream(ds)
    ensures var s' := ServiceOnce(s, env).state;
            if Waits(s'.rx) then
              ReceiveOnce(s, room, env).outcome == Ok(None) && ReceiveOnce(s, room, env).state == s'
            else
              && ds != [] && ParseUdpFrame(s'.rx).Parsed?
              && ReceiveOnce(s, room, env).outcome == Ok(Some(ds[0]))
              && ReceiveOnce(s, room, env).state == s'.(rx := s'.rx[ParseUdpFrame(s'.rx).value.consumed..])
  {
    hide ParseUdpFrame, Frame, Stream, ServiceOnce;
    var s' := ServiceOnce(s, env).state;
    if !Waits(s'.rx) {
      NextFrame(s'.rx, ds);
      assert Sendable(ds[0]);
    }
  }

  /** Dropping the complete frames of a beginning of a stream leaves an incomplete frame of the rest. */
  lemma {:induction false} BacklogOfStream(rx: Octets, later: Octets, ds: seq<Datagram>) returns (rest: seq<Datagram>)
    requires AllSendable(ds) && rx + later == Stream(ds)
    ensures AllSendable(rest) && Backlog(rx) + later == Stream(rest) && Waits(Backlog(rx))
    decreases |rx|
  {
    hide ParseUdpFrame, Frame, Stream;
    if Waits(rx) {
      rest := ds;
    } else {
      NextFrame(rx, ds);
      var consumed := ParseUdpFrame(rx).value.consumed;
      DropFrame(rx, ds, later, consumed);
      rest := BacklogOfStream(rx[consumed..], later, ds[1..]);
    }
  }

  /** Bursts of up to 65,274 octets always find room, for the backlog is shorter than one largest frame. */
  lemma {:induction false} SmallBurstsFit(rx: Octets, carrier: seq<Service>, ds: seq<Datagram>)
    requires AllSendable(ds) && rx + AllArrivals(carrier) == Stream(ds)
    requires forall i :: 0 <= i < |carrier| ==> |Arrivals(carrier[i].arriving)| <= 65_274
    ensures Fits(rx, carrier)
    decreases |carrier|
  {
    hide ParseUdpFrame, Frame, Stream, Arrivals, Backlog;
    if carrier != [] {
      var rest := BacklogOfStream(rx, AllArrivals(carrier), ds);
      if |Backlog(rx)| >= MAX_FRAME { FullBufferDecides(Backlog(rx)); }
      var burst := Arrivals(carrier[0].arriving);
      Associate(Backlog(rx), burst, AllArrivals(carrier[1..]));
      SmallBurstsFit(Backlog(rx) + burst, carrier[1..], rest);
    }
  }

  /** A carrier that offers these octets in one burst. */
  function Burst(octets: Octets): (env: Service)
    ensures Healthy(env) && Arrivals(env.arriving) == octets
  {
    var env := UNTOUCHED.(arriving := [Chunk(octets)]);
    assert env.arriving[1..] == [] && octets + [] == octets;
    env
  }

  /** The largest datagram there is. */
  function Largest(): (d: Datagram)
    ensures Sendable(d) && |Frame(d)| == MAX_FRAME
  {
    var name: Octets := seq(255, _ => 97);
    AsciiIsUtf8(name);
    Datagram(Target(Domain(name), 53), seq(MAX_PAYLOAD, _ => 0))
  }

  /**
   * The same two valid frames are delivered when they come one after the other, and lost when they come in one
   * burst: the buffer fills up, and the call fails although complete frames stand in the buffer.
   */
  lemma OneBurstLosesFrames(room: nat)
    requires room >= MAX_PAYLOAD
    ensures var start, d := State([], []), Largest();
            var slow := Deliver(start, room, [Burst(Frame(d)), Burst(Frame(d))]);
            var fast := Deliver(start, room, [Burst(Frame(d) + Frame(d))]);
            && slow.error == None && slow.got == [d, d]
            && fast.error == Some(InvalidData) && fast.got == [] && ParseUdpFrame(fast.state.rx).Parsed?
  {
    hide ParseUdpFrame, Frame, Deliver, Stream, Fits, Largest, Burst;
    var d, start := Largest(), State([], []);
    var one, two := Burst(Frame(d)), Burst(Frame(d) + Frame(d));
    var ds := [d, d];
    TwoFrames(d);
    TwoBursts(one, one);
    OneBurst(two);
    assert [] + (Frame(d) + Frame(d)) == Frame(d) + Frame(d);
    DrainsExactly(start, room, [one, one], ds);
    TwoFit(one, d);
    TooMuch(start, room, two, d);
  }

  lemma TwoFrames(d: Datagram)
    requires Sendable(d)
    ensures AllSendable([d, d]) && Stream([d, d]) == Frame(d) + Frame(d)
  {
    hide Frame;
    assert [d, d][1..] == [d] && [d][1..] == [];
    assert Stream([d]) == Frame(d) + [];
  }

  lemma TwoBursts(a: Service, b: Service)
    ensures AllArrivals([a, b]) == Arrivals(a.arriving) + Arrivals(b.arriving)
    ensures Healthy(a) && Healthy(b) ==> AllHealthy([a, b])
  {
    hide Healthy, Arrivals;
    assert [a, b][1..] == [b] && [b][1..] == [];
    assert AllArrivals([b]) == Arrivals(b.arriving) + [];
  }

  lemma OneBurst(a: Service)
    ensures AllArrivals([a]) == Arrivals(a.arriving)
  {
    hide Arrivals;
    assert [a][1..] == [];
  }

  lemma TwoFit(one: Service, d: Datagram)
    requires Sendable(d) && |Frame(d)| == MAX_FRAME && Arrivals(one.arriving) == Frame(d)
    ensures Fits([], [one, one])
  {
    hide Frame, Stream, Arrivals, ParseUdpFrame;
    assert [one, one][1..] == [one] && [one][1..] == [];
    EmptyWaits();
    assert Backlog([]) == [];
    assert [] + Frame(d) == Frame(d);
    FrameRoundTrip(d, []);
    assert Frame(d) + [] == Frame(d);
    assert Frame(d)[|Frame(d)|..] == [];
    assert Backlog(Frame(d)) == [];
    assert Fits(Frame(d), []) && Fits(Frame(d), [one]);
  }

  lemma TooMuch(start: State, room: nat, two: Service, d: Datagram)
    requires start == State([], []) && Healthy(two) && Sendable(d) && |Frame(d)| == MAX_FRAME
    requires Arrivals(two.arriving) == Frame(d) + Frame(d)
    ensures var r := Deliver(start, room, [two]);
            r.error == Some(InvalidData) && r.got == [] && ParseUdpFrame(r.state.rx).Parsed?
  {
    hide Frame, ParseUdpFrame, Arrivals, Healthy;
    EmptyWaits();
    HealthyService(start, two);
    var all := start.rx + Arrivals(two.arriving);
    assert all == Frame(d) + Frame(d);
    var flushed := Flushed(start.pending, two);
    var kept := all[..MAX_RX_BYTES];
    assert kept == Frame(d) + Frame(d)[..MAX_RX_BYTES - MAX_FRAME];
    FrameRoundTrip(d, Frame(d)[..MAX_RX_BYTES - MAX_FRAME]);
    assert flushed.verdict.Ok? ==> ServiceOnce(start, two).state.rx == kept;
  }

  // ---------------------------------------------------------------- how much a write takes, how a call fails

  /** One write takes the smaller of its count and what it was offered, and no write crosses a frame. */
  lemma OneWriteTakes(q: seq<PendingFrame>, count: nat)
    requires WellFormed(q) && q != [] && Offered(q) != [] && count > 0
    ensures var d := Drained(q, [Accepts(count)]);
            && d.verdict == Ok(()) && d.taken == Offered(q)[..Min(count, |Offered(q)|)]
            && |Remaining(d.after)| == |Remaining(q)| - Min(count, |Offered(q)|)
  {
    var written := Min(count, |Offered(q)|);
    assert [Accepts(count)][1..] == [];
    ShortenedRemains(q, written);
    DrainConserves(Shortened(q, written), []);
    NothingOffered(Shortened(q, written));
  }

  lemma {:induction false} NothingOffered(q: seq<PendingFrame>)
    requires WellFormed(q)
    ensures Drained(q, []).taken == [] && Drained(q, []).verdict == Ok(())
    decreases |q|
  {
    if q != [] && Offered(q) == [] { NothingOffered(q[1..]); }
  }

  /** An interrupted write is tried again: the interruption changes nothing. */
  lemma InterruptionsDoNotMatter(q: seq<PendingFrame>, script: seq<WriteStep>)
    requires WellFormed(q) && q != [] && Offered(q) != []
    ensures Drained(q, [WriteInterrupted] + script) == Drained(q, script)
  {
    assert ([WriteInterrupted] + script)[1..] == script;
  }

  /** What arrives: each chunk in turn, interruptions or not, until the carrier blocks, fails or ends. */
  lemma ArrivalSteps(octets: Octets, script: seq<ReadStep>)
    requires octets != []
    ensures Arrivals([Chunk(octets)] + script) == octets + Arrivals(script)
    ensures Arrivals([ReadInterrupted] + script) == Arrivals(script)
    ensures Arrivals([ReadBlocks] + script) == [] && Arrivals([ReadFails] + script) == [] && Arrivals([Chunk([])] + script) == []
    ensures Breaks([Chunk(octets)] + script) == Breaks(script) && Breaks([ReadInterrupted] + script) == Breaks(script)
    ensures Breaks([ReadFails] + script) && !Breaks([ReadBlocks] + script) && !Breaks([Chunk([])] + script) && !Breaks([])
  {
    assert ([Chunk(octets)] + script)[1..] == script && ([ReadInterrupted] + script)[1..] == script;
  }

  /** A complete frame in front is taken exactly when its payload fits; one that is malformed is an error. */
  lemma TakeExact(d: Datagram, rest: Octets, room: nat)
    requires Sendable(d)
    ensures Take(Frame(d) + rest, room) == if |d.payload| <= room then Ok(Some(d)) else Err(InvalidInput)
    ensures AfterTake(Frame(d) + rest, room) == if |d.payload| <= room then rest else Frame(d) + rest
    ensures forall rx :: ParseUdpFrame(rx).Malformed? ==> Take(rx, room) == Err(InvalidData)
  {
    hide ParseUdpFrame, Frame;
    FrameRoundTrip(d, rest);
    assert (Frame(d) + rest)[|Frame(d)|..] == rest;
  }

  /** A service succeeds exactly when both drains, the encrypted I/O, the reads and the refresh do, and it all fits. */
  lemma ServiceSucceedsIff(s: State, env: Service)
    requires WellFormed(s.pending)
    ensures ServiceOnce(s, env).verdict.Ok? <==>
              && Drained(s.pending, env.before).verdict.Ok? && env.ioOk
              && Drained(Drained(s.pending, env.before).after, env.after).verdict.Ok?
              && |s.rx| + |Arrivals(env.arriving)| < 131_072 && !Breaks(env.arriving) && env.refreshOk
  {
    hide Drained, Arrivals, Breaks;
  }

  /** A carrier that ends while no frame is complete is reported, and not mistaken for one that has nothing yet. */
  lemma EndIsReported(s: State, room: nat, env: Service)
    requires WellFormed(s.pending) && Waits(s.rx) && ServiceOnce(s, env).verdict.Ok? && Waits(s.rx + Arrivals(env.arriving))
    ensures ReceiveOnce(s, room, env).outcome == if env.eof then Err(UnexpectedEof) else Ok(None)
  {
    hide Drained, Arrivals, Breaks, ParseUdpFrame;
  }
}
