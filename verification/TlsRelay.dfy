/** The full-duplex relay between a client and a TLS session in crates/transport/src/tls.rs. */
module TlsRelay {
  import opened Bytes
  import opened Io

  const IO_CHUNK := 16 * 1024

  datatype Pending = Pending(bytes: Octets, offset: nat)

  const NOTHING := Pending([], 0)

  predicate PendingValid(p: Pending) { p.offset <= |p.bytes| <= IO_CHUNK }

  predicate IsEmpty(p: Pending) { p.offset >= |p.bytes| }

  function Remaining(p: Pending): Octets { if p.offset <= |p.bytes| then p.bytes[p.offset..] else [] }

  // ---------------------------------------------------------------- one direction

  /** What a writer took of the pending octets, and the answer that stopped it, if they did not all go. */
  datatype Written = Written(after: Pending, taken: Octets, stop: Option<WriteStep>)

  function WriteOut(p: Pending, script: seq<WriteStep>): Written
    decreases |script|
  {
    if IsEmpty(p) then Written(p, [], None)
    else if script == [] then Written(p, [], Some(WriteBlocks))
    else
      match script[0]
      case WriteInterrupted => WriteOut(p, script[1..])
      case Accepts(offered) =>
        if offered == 0 then Written(p, [], Some(script[0]))
        else
          var count := Min(offered, |Remaining(p)|);
          var rest := WriteOut(p.(offset := p.offset + count), script[1..]);
          rest.(taken := Remaining(p)[..count] + rest.taken)
      case _ => Written(p, [], Some(script[0]))
  }

  /** What a writer took, after what it had taken before. */
  function After(taken: Octets, w: Written): Written { w.(taken := taken + w.taken) }

  /** One round of the write loop. */
  lemma OneWrite(p: Pending, script: seq<WriteStep>, taken: Octets)
    ensures var w := After(taken, WriteOut(p, script));
            if IsEmpty(p) then w == Written(p, taken, None)
            else if script == [] then w == Written(p, taken, Some(WriteBlocks))
            else match script[0]
              case WriteInterrupted => w == After(taken, WriteOut(p, script[1..]))
              case Accepts(offered) =>
                if offered == 0 then w == Written(p, taken, Some(script[0]))
                else
                  var count := Min(offered, |Remaining(p)|);
                  w == After(taken + Remaining(p)[..count],
                             WriteOut(p.(offset := p.offset + count), script[1..]))
              case _ => w == Written(p, taken, Some(script[0]))
  {
    assert taken + [] == taken;
    if !IsEmpty(p) && script != [] && script[0].Accepts? {
      var count := Min(script[0].count, |Remaining(p)|);
      var rest := WriteOut(p.(offset := p.offset + count), script[1..]);
      Associate(taken, Remaining(p)[..count], rest.taken);
    }
  }

  /** The write loop shared by `feed_upstream` and `write_pending`. */
  method WriteLoop(pending: Pending, script: seq<WriteStep>) returns (w: Written)
    ensures w == WriteOut(pending, script)
  {
    hide WriteOut, After, Remaining, IsEmpty;
    var p, taken := pending, [];
    ghost var whole := WriteOut(pending, script);
    assert whole == After([], whole) by { FromNothing(whole); }
    for i := 0 to |script|
      invariant whole == After(taken, WriteOut(p, script[i..]))
    {
      assert script[i..][1..] == script[i + 1..];
      OneWrite(p, script[i..], taken);
      if IsEmpty(p) {
        return Written(p, taken, None);
      }
      match script[i] {
        case WriteInterrupted =>
        case Accepts(offered) =>
          if offered == 0 {
            return Written(p, taken, Some(script[i]));
          }
          var count := Min(offered, |Remaining(p)|);
          taken := taken + Remaining(p)[..count];
          p := p.(offset := p.offset + count);
        case _ =>
          return Written(p, taken, Some(script[i]));
      }
    }
    OneWrite(p, script[|script|..], taken);
    return Written(p, taken, if IsEmpty(p) then None else Some(WriteBlocks));
  }

  lemma FromNothing(w: Written)
    ensures w == After([], w)
  {
    assert [] + w.taken == w.taken;
  }

  /** What the writer took comes off the front, and all of it goes unless the writer stops for a reason. */
  lemma {:induction false} WriteOutConserves(p: Pending, script: seq<WriteStep>)
    requires PendingValid(p)
    ensures var w := WriteOut(p, script);
            && PendingValid(w.after) && Remaining(p) == w.taken + Remaining(w.after)
            && (w.stop.None? <==> IsEmpty(w.after))
    decreases |script|
  {
    if !IsEmpty(p) && script != [] {
      var step := script[0];
      if step.WriteInterrupted? {
        WriteOutConserves(p, script[1..]);
      } else if step.Accepts? && step.count > 0 {
        var count := Min(step.count, |Remaining(p)|);
        var q := p.(offset := p.offset + count);
        WriteOutConserves(q, script[1..]);
        var rest := WriteOut(q, script[1..]);
        assert Remaining(p) == Remaining(p)[..count] + Remaining(q);
        Associate(Remaining(p)[..count], rest.taken, Remaining(rest.after));
      }
    }
  }

  /** A buffer that was written out is cleared. */
  function Cleared(p: Pending): Pending { if IsEmpty(p) then NOTHING else p }

  datatype ChunkRead = ChunkRead(ok: bool, ended: bool, after: Pending, got: Octets)

  /** One chunk into an empty buffer; a buffer that still holds octets is left alone. */
  function ReadChunk(p: Pending, step: ReadStep): ChunkRead
  {
    if !IsEmpty(p) then ChunkRead(true, false, p, [])
    else
      match step
      case Chunk(octets) =>
        var got := if |octets| <= IO_CHUNK then octets else octets[..IO_CHUNK];
        ChunkRead(true, got == [], Pending(got, 0), got)
      case ReadFails => ChunkRead(false, false, NOTHING, [])
      case _ => ChunkRead(true, false, NOTHING, [])
  }

  lemma ReadChunkConserves(p: Pending, step: ReadStep)
    requires PendingValid(p)
    ensures var c := ReadChunk(p, step);
            PendingValid(c.after) && Remaining(c.after) == Remaining(p) + c.got && (c.got != [] ==> IsEmpty(p))
    ensures IsEmpty(p) && step.Chunk? ==>
              var c := ReadChunk(p, step);
              c.ok && c.got == step.octets[..Min(|step.octets|, 16_384)] && (c.ended <==> step.octets == [])
    ensures IsEmpty(p) && !step.Chunk? ==>
              var c := ReadChunk(p, step); !c.ended && c.got == [] && (c.ok <==> !step.ReadFails?)
  {
  }

  // ---------------------------------------------------------------- poll registration

  datatype Registration = Registration(registered: bool, readable: bool, writable: bool)

  const UNREGISTERED := Registration(false, false, false)

  /** `update_registration`: registered exactly while there is interest, and for exactly that interest. */
  function UpdateRegistration(state: Registration, readable: bool, writable: bool): (r: Registration)
    ensures state.registered || state == UNREGISTERED ==>
              (r.registered <==> readable || writable) && r.readable == readable && r.writable == writable
  {
    if !readable && !writable then
      if state.registered then UNREGISTERED else state
    else if !state.registered then Registration(true, readable, writable)
    else if state.readable != readable || state.writable != writable then
      state.(readable := readable, writable := writable)
    else state
  }

  // ---------------------------------------------------------------- the loop

  /** One readiness event with the outcome of the calls it leads to. */
  datatype Event =
    | Client(readable: bool, writable: bool, closed: bool, read: ReadStep, write: seq<WriteStep>)
    | Remote(readable: bool, writable: bool, closed: bool, decrypted: Octets, ended: bool, readOk: bool, writeOk: bool)

  /** A read of decrypted plaintext takes between one octet and all there is, or fails. */
  datatype Pull = Pull(count: nat) | PullFails

  /** Everything the environment decides in one turn of the loop. */
  datatype Turn = Turn(
    feed: seq<WriteStep>, fill: Pull, shutdownOk: bool, wantsRead: bool, wantsWrite: bool, events: seq<Event>)

  datatype End = Done | Failed | Stalled | Running

  /**
   * The loop's variables, the decrypted plaintext that TLS still holds, and what has gone through so far: octets read
   * from the client and accepted by TLS, octets decrypted, read from TLS and written to the client, and how often each
   * end was closed.
   */
  datatype Relay = Relay(
    clientEof: bool, remoteEof: bool, closeNotifySent: bool, clientWriteShutdown: bool,
    upstream: Pending, downstream: Pending, client: Registration, remote: Registration, plain: Octets,
    fromClient: Octets, toTls: Octets, decrypted: Octets, fromTls: Octets, toClient: Octets,
    closeNotifies: nat, shutdowns: nat)

  /** The start of a relay whose session may already hold plaintext. */
  function Start(plain: Octets): Relay
  {
    Relay(false, false, false, false, NOTHING, NOTHING, UNREGISTERED, UNREGISTERED, plain, [], [], plain, [], [], 0, 0)
  }

  /** `feed_upstream`: a writer that takes nothing only pauses the relay. */
  function FeedUpstream(s: Relay, script: seq<WriteStep>): (bool, Relay)
  {
    var w := WriteOut(s.upstream, script);
    var ok := w.stop != Some(WriteFails);
    (ok, s.(upstream := if ok then Cleared(w.after) else w.after, toTls := s.toTls + w.taken))
  }

  function PullCount(plain: Octets, count: nat): (n: nat)
    ensures n <= |plain| && n <= IO_CHUNK && (n == 0 <==> plain == [])
  {
    Min(if count == 0 then 1 else count, Min(IO_CHUNK, |plain|))
  }

  /** `fill_downstream`: one chunk of the plaintext that TLS holds, into an empty buffer. */
  function FillDownstream(s: Relay, pull: Pull): (bool, Relay)
  {
    if !IsEmpty(s.downstream) then (true, s)
    else
      match pull
      case PullFails => (false, s.(downstream := NOTHING))
      case Pull(count) =>
        var n := PullCount(s.plain, count);
        (true, s.(downstream := Pending(s.plain[..n], 0), plain := s.plain[n..], fromTls := s.fromTls + s.plain[..n]))
  }

  /** `read_client`. */
  function ReadClient(s: Relay, step: ReadStep): (bool, Relay)
  {
    var c := ReadChunk(s.upstream, step);
    (c.ok, s.(upstream := c.after, fromClient := s.fromClient + c.got, clientEof := s.clientEof || c.ended))
  }

  /** `write_pending`: a client that takes nothing while octets wait for it is an error. */
  function WritePending(s: Relay, script: seq<WriteStep>): (bool, Relay)
  {
    var w := WriteOut(s.downstream, script);
    var ok := w.stop != Some(WriteFails) && w.stop != Some(Accepts(0));
    (ok, s.(downstream := if ok then Cleared(w.after) else w.after, toClient := s.toClient + w.taken))
  }

  /** The one-shot shutdowns: each direction is closed once, when its source has ended and its buffer is empty. */
  function CloseUpstream(s: Relay): Relay
  {
    if s.clientEof && IsEmpty(s.upstream) && !s.closeNotifySent
    then s.(closeNotifySent := true, closeNotifies := s.closeNotifies + 1) else s
  }

  function CloseDownstream(s: Relay, shutdownOk: bool): (bool, Relay)
  {
    if s.remoteEof && IsEmpty(s.downstream) && !s.clientWriteShutdown then
      if !shutdownOk then (false, s)
      else
        var closed := s.(clientWriteShutdown := true, shutdowns := s.shutdowns + 1, clientEof := true);
        (true, if s.closeNotifySent then closed
               else closed.(closeNotifySent := true, closeNotifies := s.closeNotifies + 1))
    else (true, s)
  }

  function CloseEnds(s: Relay, shutdownOk: bool): (bool, Relay) { CloseDownstream(CloseUpstream(s), shutdownOk) }

  /** The interest a turn registers, which also gates its events. */
  datatype Interest = Interest(clientRead: bool, clientWrite: bool, remoteRead: bool, remoteWrite: bool)

  function InterestOf(s: Relay, t: Turn): Interest
  {
    Interest(!s.clientEof && IsEmpty(s.upstream), !IsEmpty(s.downstream), !s.remoteEof && t.wantsRead, t.wantsWrite)
  }

  function Register(s: Relay, i: Interest): Relay
  {
    s.(client := UpdateRegistration(s.client, i.clientRead, i.clientWrite),
       remote := UpdateRegistration(s.remote, i.remoteRead, i.remoteWrite))
  }

  /** The end test, and the registrations when the relay goes on. */
  function Conclude(s: Relay, t: Turn): (End, Relay)
  {
    if s.clientEof && s.remoteEof && IsEmpty(s.upstream) && IsEmpty(s.downstream) && !t.wantsWrite then (Done, s)
    else
      var s' := Register(s, InterestOf(s, t));
      (if !s'.client.registered && !s'.remote.registered then Stalled else Running, s')
  }

  function HandleEvent(s: Relay, e: Event, i: Interest): (bool, Relay)
  {
    match e
    case Client(readable, writable, closed, read, write) =>
      var (readOk, s1) := if readable && i.clientRead then ReadClient(s, read) else (true, s);
      if !readOk then (false, s1)
      else
        var (writeOk, s2) := if writable && i.clientWrite then WritePending(s1, write) else (true, s1);
        if !writeOk then (false, s2) else (true, s2.(clientEof := s2.clientEof || closed))
    case Remote(readable, writable, closed, decrypted, ended, readOk, writeOk) =>
      if readable && i.remoteRead && !readOk then (false, s)
      else
        var more := if readable && i.remoteRead then decrypted else [];
        var s1 := s.(remoteEof := s.remoteEof || (readable && i.remoteRead && ended),
                     plain := s.plain + more, decrypted := s.decrypted + more);
        if writable && i.remoteWrite && !writeOk then (false, s1) else (true, s1.(remoteEof := s1.remoteEof || closed))
  }

  function HandleEvents(s: Relay, events: seq<Event>, i: Interest): (bool, Relay)
    decreases |events|
  {
    if events == [] then (true, s)
    else
      var (ok, s1) := HandleEvent(s, events[0], i);
      if ok then HandleEvents(s1, events[1..], i) else (false, s1)
  }

  /** The part of a turn before it polls: transfers, shutdowns, the end test and the registrations. */
  function BeforePoll(s: Relay, t: Turn): (End, Relay)
  {
    var (fed, s1) := FeedUpstream(s, t.feed);
    if !fed then (Failed, s1)
    else
      var (filled, s2) := FillDownstream(s1, t.fill);
      if !filled then (Failed, s2)
      else
        var (shut, s3) := CloseEnds(s2, t.shutdownOk);
        if !shut then (Failed, s3) else Conclude(s3, t)
  }

  function OneTurn(s: Relay, t: Turn): (End, Relay)
  {
    var (end, s1) := BeforePoll(s, t);
    if end != Running then (end, s1)
    else
      var (ok, s2) := HandleEvents(s1, t.events, InterestOf(s1, t));
      (if ok then Running else Failed, s2)
  }

  /** The whole relay over the turns the environment grants it. */
  function Relayed(s: Relay, turns: seq<Turn>): (End, Relay)
    decreases |turns|
  {
    if turns == [] then (Running, s)
    else
      var (end, s1) := OneTurn(s, turns[0]);
      if end == Running then Relayed(s1, turns[1..]) else (end, s1)
  }

  method Feed(s: Relay, script: seq<WriteStep>) returns (ok: bool, s': Relay)
    ensures (ok, s') == FeedUpstream(s, script)
  {
    var w := WriteLoop(s.upstream, script);
    ok := w.stop != Some(WriteFails);
    s' := s.(upstream := if ok then Cleared(w.after) else w.after, toTls := s.toTls + w.taken);
  }

  method WriteToClient(s: Relay, script: seq<WriteStep>) returns (ok: bool, s': Relay)
    ensures (ok, s') == WritePending(s, script)
  {
    var w := WriteLoop(s.downstream, script);
    ok := w.stop != Some(WriteFails) && w.stop != Some(Accepts(0));
    s' := s.(downstream := if ok then Cleared(w.after) else w.after, toClient := s.toClient + w.taken);
  }

  method Prepare(s: Relay, t: Turn) returns (end: End, s': Relay)
    ensures (end, s') == BeforePoll(s, t)
  {
    hide FeedUpstream, FillDownstream, CloseEnds, Conclude;
    var fed, s1 := Feed(s, t.feed);
    if !fed {
      return Failed, s1;
    }
    var (filled, s2) := FillDownstream(s1, t.fill);
    if !filled {
      return Failed, s2;
    }
    var (shut, s3) := CloseEnds(s2, t.shutdownOk);
    if !shut {
      return Failed, s3;
    }
    var (last, s4) := Conclude(s3, t);
    return last, s4;
  }

  method HandleOneEvent(s: Relay, e: Event, i: Interest) returns (ok: bool, s': Relay)
    ensures (ok, s') == HandleEvent(s, e, i)
  {
    hide ReadClient, WritePending;
    if e.Remote? {
      var (done, after) := HandleEvent(s, e, i);
      return done, after;
    }
    ok, s' := true, s;
    if e.readable && i.clientRead {
      var (readOk, s1) := ReadClient(s', e.read);
      s' := s1;
      if !readOk {
        return false, s';
      }
    }
    if e.writable && i.clientWrite {
      ok, s' := WriteToClient(s', e.write);
      if !ok {
        return;
      }
    }
    s' := s'.(clientEof := s'.clientEof || e.closed);
  }

  method HandleEventLoop(s: Relay, events: seq<Event>, i: Interest) returns (ok: bool, s': Relay)
    ensures (ok, s') == HandleEvents(s, events, i)
  {
    hide HandleEvent;
    s' := s;
    for j := 0 to |events|
      invariant HandleEvents(s, events, i) == HandleEvents(s', events[j..], i)
    {
      assert events[j..][1..] == events[j + 1..];
      ok, s' := HandleOneEvent(s', events[j], i);
      if !ok {
        return;
      }
    }
    ok := true;
  }

  /** `relay_to_client`. */
  method RelayToClient(plain: Octets, turns: seq<Turn>) returns (end: End, s: Relay)
    ensures (end, s) == Relayed(Start(plain), turns)
  {
    hide BeforePoll, HandleEvents;
    s := Start(plain);
    for i := 0 to |turns|
      invariant Relayed(Start(plain), turns) == Relayed(s, turns[i..])
    {
      assert turns[i..][1..] == turns[i + 1..];
      end, s := Prepare(s, turns[i]);
      if end != Running {
        return;
      }
      var ok;
      ok, s := HandleEventLoop(s, turns[i].events, InterestOf(s, turns[i]));
      if !ok {
        return Failed, s;
      }
    }
    end := Running;
  }

  // ---------------------------------------------------------------- conservation

  /**
   * Both buffers hold at most one chunk, neither direction loses, repeats or reorders an octet, each end is closed at
   * most once, and the client's end only after the remote side has ended and with no plaintext left behind.
   */
  ghost predicate Conserves(s: Relay)
  {
    && PendingValid(s.upstream) && PendingValid(s.downstream)
    && s.fromClient == s.toTls + Remaining(s.upstream)
    && s.fromTls == s.toClient + Remaining(s.downstream)
    && s.decrypted == s.fromTls + s.plain
    && (s.clientWriteShutdown ==> s.plain == [] && IsEmpty(s.downstream))
    && s.closeNotifies == (if s.closeNotifySent then 1 else 0)
    && s.shutdowns == (if s.clientWriteShutdown then 1 else 0)
    && (s.clientWriteShutdown ==> s.clientEof && s.remoteEof && s.closeNotifySent)
    && (s.client.registered || s.client == UNREGISTERED) && (s.remote.registered || s.remote == UNREGISTERED)
  }

  lemma FeedKeeps(s: Relay, script: seq<WriteStep>)
    requires Conserves(s)
    ensures Conserves(FeedUpstream(s, script).1)
  {
    hide WriteOut;
    WriteOutConserves(s.upstream, script);
    var w := WriteOut(s.upstream, script);
    Associate(s.toTls, w.taken, Remaining(w.after));
  }

  lemma WritePendingKeeps(s: Relay, script: seq<WriteStep>)
    requires Conserves(s)
    ensures Conserves(WritePending(s, script).1)
    ensures WritePending(s, script).1.clientWriteShutdown == s.clientWriteShutdown
  {
    hide WriteOut;
    WriteOutConserves(s.downstream, script);
    var w := WriteOut(s.downstream, script);
    Associate(s.toClient, w.taken, Remaining(w.after));
  }

  lemma FillKeeps(s: Relay, pull: Pull)
    requires Conserves(s)
    ensures Conserves(FillDownstream(s, pull).1)
    ensures var (ok, s') := FillDownstream(s, pull); ok && IsEmpty(s'.downstream) ==> s'.plain == []
  {
    if IsEmpty(s.downstream) && pull.Pull? {
      var n := PullCount(s.plain, pull.count);
      assert s.plain == s.plain[..n] + s.plain[n..];
      Associate(s.fromTls, s.plain[..n], s.plain[n..]);
      assert s.toClient + Remaining(s.downstream) == s.toClient;
    }
  }

  lemma ReadClientKeeps(s: Relay, step: ReadStep)
    requires Conserves(s)
    ensures Conserves(ReadClient(s, step).1)
    ensures ReadClient(s, step).1.clientWriteShutdown == s.clientWriteShutdown
  {
    hide ReadChunk;
    ReadChunkConserves(s.upstream, step);
    Associate(s.toTls, Remaining(s.upstream), ReadChunk(s.upstream, step).got);
  }

  lemma BeforePollKeeps(s: Relay, t: Turn)
    requires Conserves(s)
    ensures Conserves(BeforePoll(s, t).1)
    ensures BeforePoll(s, t).0 == Done ==> CleanEnd(BeforePoll(s, t).1)
    ensures BeforePoll(s, t).0 == Stalled ==> NothingToDo(BeforePoll(s, t).1, t)
    ensures var (end, s') := BeforePoll(s, t);
            end == Running && s'.clientWriteShutdown ==> !InterestOf(s', t).remoteRead
  {
    hide FeedUpstream, FillDownstream, CloseEnds, Conclude, Conserves, CleanEnd, NothingToDo, InterestOf;
    FeedKeeps(s, t.feed);
    var s1 := FeedUpstream(s, t.feed).1;
    FillKeeps(s1, t.fill);
    var s2 := FillDownstream(s1, t.fill).1;
    if FillDownstream(s1, t.fill).0 {
      CloseKeeps(s2, t.shutdownOk);
      var (shut, s3) := CloseEnds(s2, t.shutdownOk);
      if shut { ConcludeKeeps(s3, t); }
    }
  }

  /** After the shutdown step, a side that has ended with an empty buffer is closed. */
  ghost predicate EndsClosed(s: Relay)
  {
    && (s.clientEof && IsEmpty(s.upstream) ==> s.closeNotifySent)
    && (s.remoteEof && IsEmpty(s.downstream) ==> s.clientWriteShutdown)
  }

  lemma CloseKeeps(s: Relay, shutdownOk: bool)
    requires Conserves(s) && (IsEmpty(s.downstream) ==> s.plain == [])
    ensures var (ok, s') := CloseEnds(s, shutdownOk); Conserves(s') && (ok ==> EndsClosed(s'))
    ensures CloseEnds(s, shutdownOk).1.downstream == s.downstream && CloseEnds(s, shutdownOk).1.plain == s.plain
  {
    hide Remaining;
  }

  lemma ConcludeKeeps(s: Relay, t: Turn)
    requires Conserves(s) && EndsClosed(s) && (IsEmpty(s.downstream) ==> s.plain == [])
    ensures var (end, s') := Conclude(s, t);
            && Conserves(s') && (end == Running ==> s'.clientWriteShutdown ==> !InterestOf(s', t).remoteRead)
            && (end == Done ==> CleanEnd(s')) && (end == Stalled ==> NothingToDo(s', t))
  {
    hide UpdateRegistration;
    if IsEmpty(s.upstream) { assert s.toTls + Remaining(s.upstream) == s.toTls; }
    if IsEmpty(s.downstream) { assert s.toClient + Remaining(s.downstream) == s.toClient; }
    assert s.fromTls + [] == s.fromTls;
  }

  /** Events of a turn never bring plaintext after the client's end was shut. */
  lemma HandleEventKeeps(s: Relay, e: Event, i: Interest)
    requires Conserves(s) && (s.clientWriteShutdown ==> !i.remoteRead)
    ensures Conserves(HandleEvent(s, e, i).1)
    ensures HandleEvent(s, e, i).1.clientWriteShutdown == s.clientWriteShutdown
  {
    hide ReadClient, WritePending;
    if e.Remote? {
      Associate(s.fromTls, s.plain, if e.readable && i.remoteRead then e.decrypted else []);
      assert s.plain + [] == s.plain;
    } else {
      ReadClientKeeps(s, e.read);
      WritePendingKeeps(if e.readable && i.clientRead then ReadClient(s, e.read).1 else s, e.write);
    }
  }

  lemma {:induction false} HandleEventsKeep(s: Relay, events: seq<Event>, i: Interest)
    requires Conserves(s) && (s.clientWriteShutdown ==> !i.remoteRead)
    ensures Conserves(HandleEvents(s, events, i).1)
    decreases |events|
  {
    hide HandleEvent, Conserves;
    if events != [] {
      HandleEventKeeps(s, events[0], i);
      HandleEventsKeep(HandleEvent(s, events[0], i).1, events[1..], i);
    }
  }

  /** Both sides have ended, all that was read has been passed on, and each end was closed exactly once. */
  ghost predicate CleanEnd(s: Relay)
  {
    && s.clientEof && s.remoteEof && IsEmpty(s.upstream) && IsEmpty(s.downstream)
    && s.fromClient == s.toTls && s.decrypted == s.toClient && s.plain == []
    && s.closeNotifies == 1 && s.shutdowns == 1
  }

  /** No direction can make progress: nothing to write to the client, nothing to read from it, no TLS traffic. */
  ghost predicate NothingToDo(s: Relay, t: Turn)
  {
    IsEmpty(s.downstream) && (s.clientEof || !IsEmpty(s.upstream)) && !t.wantsWrite && (s.remoteEof || !t.wantsRead)
  }

  /**
   * Over every sequence of turns, however they end: conservation in both directions within one chunk each, one
   * close_notify and one shutdown at most. `Ok` means a clean end. The relay gives up for lack of interest only
   * in a turn in which there is nothing to do.
   */
  lemma {:induction false} RelayConserves(s: Relay, turns: seq<Turn>)
    requires Conserves(s)
    ensures var (end, after) := Relayed(s, turns);
            && Conserves(after)
            && (end == Done ==> CleanEnd(after))
            && (end == Stalled ==> exists i :: 0 <= i < |turns| && NothingToDo(after, turns[i]))
    decreases |turns|
  {
    hide BeforePoll, HandleEvents, Conserves, CleanEnd, NothingToDo;
    if turns != [] {
      var t := turns[0];
      BeforePollKeeps(s, t);
      var (end, s1) := BeforePoll(s, t);
      if end == Running {
        HandleEventsKeep(s1, t.events, InterestOf(s1, t));
        var s2 := HandleEvents(s1, t.events, InterestOf(s1, t)).1;
        RelayConserves(s2, turns[1..]);
        var (end', after) := Relayed(s, turns);
        if end' == Stalled {
          var i :| 0 <= i < |turns[1..]| && NothingToDo(after, turns[1..][i]);
          assert turns[1..][i] == turns[i + 1];
        }
      }
    }
  }

  /**
   * In particular for the relay as it starts: what was read from the client and what TLS decrypted has been passed on,
   * but for one chunk each way and the plaintext TLS still holds, and the client's end is shut only after all of it.
   */
  lemma RelayIsConservative(plain: Octets, turns: seq<Turn>)
    ensures var (end, after) := Relayed(Start(plain), turns);
            && after.fromClient == after.toTls + Remaining(after.upstream)
            && after.decrypted == after.toClient + Remaining(after.downstream) + after.plain
            && |Remaining(after.upstream)| <= IO_CHUNK && |Remaining(after.downstream)| <= IO_CHUNK
            && (after.clientWriteShutdown ==> after.toClient == after.decrypted)
            && (after.closeNotifySent ==> after.clientEof)
            && (after.closeNotifySent && !IsEmpty(after.upstream) ==> after.clientWriteShutdown)
            && (end == Done ==> CleanEnd(after))
  {
    hide Relayed, CleanEnd, Start, Closing;
    StartCloses(plain);
    NothingReadAfterCloseNotify(Start(plain), turns);
    RelayConserves(Start(plain), turns);
    var after := Relayed(Start(plain), turns).1;
    assert PendingValid(after.upstream) && PendingValid(after.downstream);
    assert |Remaining(after.upstream)| <= |after.upstream.bytes|;
    assert |Remaining(after.downstream)| <= |after.downstream.bytes|;
    if after.clientWriteShutdown { assert after.toClient + [] + [] == after.toClient; }
  }

  // ---------------------------------------------------------------- progress

  /** All that a writer offers to take. */
  function Offered(script: seq<WriteStep>): nat
  {
    if script == [] then 0 else (if script[0].Accepts? then script[0].count else 0) + Offered(script[1..])
  }

  ghost predicate Willing(p: Pending, script: seq<WriteStep>)
  {
    (forall i :: 0 <= i < |script| ==> GoesOn(script[i])) && Offered(script) >= |Remaining(p)|
  }

  /** A writer that goes on and offers enough, in whatever pieces, takes everything. */
  lemma {:induction false} WillingWriterTakesAll(p: Pending, script: seq<WriteStep>)
    requires PendingValid(p) && Willing(p, script)
    ensures WriteOut(p, script).stop.None? && WriteOut(p, script).taken == Remaining(p)
    decreases |script|
  {
    hide WriteOut, Willing;
    OneWrite(p, script, []);
    FromNothing(WriteOut(p, script));
    if !IsEmpty(p) {
      var q := WillingTail(p, script);
      WillingWriterTakesAll(q, script[1..]);
      var taken := Remaining(p)[..q.offset - p.offset];
      assert [] + taken == taken;
      if script[0].WriteInterrupted? { FromNothing(WriteOut(p, script[1..])); }
    }
  }

  /** A willing writer that takes something is willing for the rest. */
  lemma WillingTail(p: Pending, script: seq<WriteStep>) returns (q: Pending)
    requires PendingValid(p) && Willing(p, script) && !IsEmpty(p)
    ensures script != [] && GoesOn(script[0]) && PendingValid(q) && Willing(q, script[1..])
    ensures q == (if script[0].Accepts? then p.(offset := p.offset + Min(script[0].count, |Remaining(p)|)) else p)
    ensures Remaining(p) == Remaining(p)[..q.offset - p.offset] + Remaining(q)
  {
    assert GoesOn(script[0]);
    forall i | 0 <= i < |script[1..]| ensures GoesOn(script[1..][i]) { assert script[1..][i] == script[i + 1]; }
    q := if script[0].Accepts? then p.(offset := p.offset + Min(script[0].count, |Remaining(p)|)) else p;
  }

  /** So with a willing TLS writer, and a willing client, all that was read so far has been passed on. */
  lemma WillingEndsGetEverything(s: Relay, feed: seq<WriteStep>, write: seq<WriteStep>)
    requires Conserves(s)
    ensures Willing(s.upstream, feed) ==>
              var (ok, s') := FeedUpstream(s, feed); ok && IsEmpty(s'.upstream) && s'.toTls == s.fromClient
    ensures Willing(s.downstream, write) ==>
              var (ok, s') := WritePending(s, write); ok && IsEmpty(s'.downstream) && s'.toClient == s.fromTls
  {
    hide WriteOut, Willing;
    if Willing(s.upstream, feed) {
      WillingWriterTakesAll(s.upstream, feed);
      WriteOutConserves(s.upstream, feed);
    }
    if Willing(s.downstream, write) {
      WillingWriterTakesAll(s.downstream, write);
      WriteOutConserves(s.downstream, write);
    }
  }

  /**
   * A relay that goes on to poll waits for exactly what can move data: the client's octets when there is room for
   * them, the client's readiness when octets wait for it, and whatever TLS wants; and for at least one of these. It
   * never sleeps on decrypted plaintext without waiting for the client to take it.
   */
  lemma WaitsForProgress(s: Relay, t: Turn)
    requires Conserves(s) && BeforePoll(s, t).0 == Running
    ensures var s' := BeforePoll(s, t).1;
            && s'.client.readable == (!s'.clientEof && IsEmpty(s'.upstream))
            && s'.client.writable == !IsEmpty(s'.downstream)
            && s'.remote.readable == (!s'.remoteEof && t.wantsRead) && s'.remote.writable == t.wantsWrite
            && (s'.client.registered <==> s'.client.readable || s'.client.writable)
            && (s'.remote.registered <==> s'.remote.readable || s'.remote.writable)
            && (s'.client.registered || s'.remote.registered)
            && (s'.plain != [] ==> s'.client.writable)
  {
    hide FeedUpstream, FillDownstream, CloseEnds, Conserves, UpdateRegistration;
    FeedKeeps(s, t.feed);
    var s1 := FeedUpstream(s, t.feed).1;
    FillKeeps(s1, t.fill);
    var s2 := FillDownstream(s1, t.fill).1;
    CloseKeeps(s2, t.shutdownOk);
    var s3 := CloseEnds(s2, t.shutdownOk).1;
    Registered(s3);
  }

  lemma Registered(s: Relay)
    requires Conserves(s)
    ensures (s.client.registered || s.client == UNREGISTERED) && (s.remote.registered || s.remote == UNREGISTERED)
  {
  }

  // ---------------------------------------------------------------- ends are seen, and the relay ends

  /**
   * What a client event brings is not overlooked: an end of stream or a closed socket sets the flag, octets that the
   * client offers are read, and a failed read fails the relay.
   */
  lemma ClientEventIsSeen(s: Relay, e: Event, i: Interest)
    requires e.Client? && (i.clientRead ==> IsEmpty(s.upstream))
    ensures var (ok, s') := HandleEvent(s, e, i);
            && (ok && e.closed ==> s'.clientEof)
            && (e.readable && i.clientRead ==>
                  && (e.read == Chunk([]) ==> s'.clientEof)
                  && (e.read.Chunk? ==> s'.fromClient == s.fromClient + e.read.octets[..Min(|e.read.octets|, 16_384)])
                  && (e.read.ReadFails? ==> !ok))
  {
    hide ReadClient, WritePending;
    ReadIsSeen(s, e.read);
    WriteTouches(if e.readable && i.clientRead then ReadClient(s, e.read).1 else s, e.write);
  }

  lemma ReadIsSeen(s: Relay, read: ReadStep)
    ensures var (ok, s') := ReadClient(s, read);
            IsEmpty(s.upstream) ==>
              && (read == Chunk([]) ==> ok && s'.clientEof)
              && (read.Chunk? ==> ok && s'.fromClient == s.fromClient + read.octets[..Min(|read.octets|, 16_384)])
              && (read.ReadFails? ==> !ok)
  {
  }

  lemma WriteTouches(s: Relay, script: seq<WriteStep>)
    ensures var s' := WritePending(s, script).1;
            s' == s.(downstream := s'.downstream, toClient := s'.toClient)
  {
    hide WriteOut;
  }

  /** Nor is what a remote event brings: the end, decrypted plaintext, and a failed read or write. */
  lemma RemoteEventIsSeen(s: Relay, e: Event, i: Interest)
    requires e.Remote?
    ensures var (ok, s') := HandleEvent(s, e, i);
            && (ok && e.closed ==> s'.remoteEof)
            && (ok && e.readable && i.remoteRead ==> s'.decrypted == s.decrypted + e.decrypted)
            && (ok && e.readable && i.remoteRead && e.ended ==> s'.remoteEof)
            && ((e.readable && i.remoteRead && !e.readOk) || (e.writable && i.remoteWrite && !e.writeOk) ==> !ok)
  {
  }

  /** A pull brings as much plaintext as TLS answers, up to a chunk. */
  lemma PullBrings(s: Relay, count: nat)
    requires IsEmpty(s.downstream) && count > 0
    ensures var (ok, s') := FillDownstream(s, Pull(count));
            var n := Min(count, Min(16_384, |s.plain|));
            && ok && Remaining(s'.downstream) == s.plain[..n] && s'.plain == s.plain[n..]
            && s'.fromTls == s.fromTls + s.plain[..n]
    ensures !FillDownstream(s, PullFails).0
  {
  }

  /** How a writer that stops is taken: TLS that takes nothing only pauses the relay, a client that does is an error. */
  lemma StoppedWriters(s: Relay)
    requires !IsEmpty(s.upstream) && !IsEmpty(s.downstream)
    ensures FeedUpstream(s, [WriteBlocks]).0 && FeedUpstream(s, [Accepts(0)]).0 && !FeedUpstream(s, [WriteFails]).0
    ensures WritePending(s, [WriteBlocks]).0 && !WritePending(s, [Accepts(0)]).0 && !WritePending(s, [WriteFails]).0
  {
  }

  /** The ends seen so far. */
  ghost predicate EndsKept(s: Relay, s': Relay)
  {
    (s.clientEof ==> s'.clientEof) && (s.remoteEof ==> s'.remoteEof)
  }

  lemma BeforePollKeepsEnds(s: Relay, t: Turn)
    ensures EndsKept(s, BeforePoll(s, t).1)
  {
    hide WriteOut, UpdateRegistration, FillDownstream;
    FillTouches(FeedUpstream(s, t.feed).1, t.fill);
  }

  lemma {:induction false} EventsKeepEnds(s: Relay, events: seq<Event>, i: Interest)
    ensures EndsKept(s, HandleEvents(s, events, i).1)
    decreases |events|
  {
    if events != [] {
      assert EndsKept(s, HandleEvent(s, events[0], i).1) by { hide WriteOut, ReadChunk; }
      hide HandleEvent;
      EventsKeepEnds(HandleEvent(s, events[0], i).1, events[1..], i);
    }
  }

  /** An end that was seen stays seen, over every run. */
  lemma {:induction false} EndsStaySeen(s: Relay, turns: seq<Turn>)
    ensures var after := Relayed(s, turns).1;
            (s.clientEof ==> after.clientEof) && (s.remoteEof ==> after.remoteEof)
    decreases |turns|
  {
    hide BeforePoll, HandleEvents, InterestOf;
    if turns != [] {
      BeforePollKeepsEnds(s, turns[0]);
      var (end, s1) := BeforePoll(s, turns[0]);
      if end == Running {
        EventsKeepEnds(s1, turns[0].events, InterestOf(s1, turns[0]));
        EndsStaySeen(HandleEvents(s1, turns[0].events, InterestOf(s1, turns[0])).1, turns[1..]);
      }
    }
  }

  /** A turn that does not fail answers the ends it has seen: close_notify, and shutting the client's end. */
  lemma EndsAreAnswered(s: Relay, t: Turn)
    requires Conserves(s) && BeforePoll(s, t).0 != Failed
    ensures var s' := BeforePoll(s, t).1;
            && (s.clientEof && IsEmpty(s'.upstream) ==> s'.closeNotifySent)
            && (s.remoteEof && IsEmpty(s'.downstream) ==> s'.clientWriteShutdown)
  {
    hide FeedUpstream, FillDownstream, CloseEnds, Conserves, UpdateRegistration;
    BeforePollKeepsEnds(s, t);
    FeedKeeps(s, t.feed);
    var s1 := FeedUpstream(s, t.feed).1;
    FillKeeps(s1, t.fill);
    CloseKeeps(FillDownstream(s1, t.fill).1, t.shutdownOk);
  }

  /** The relay returns only when TLS has nothing left to write. */
  lemma DoneMeansWritten(s: Relay, t: Turn)
    requires OneTurn(s, t).0 == Done
    ensures !t.wantsWrite
  {
    hide FeedUpstream, FillDownstream, CloseEnds, HandleEvents;
  }

  /** A writer that goes on and offers a whole chunk. */
  ghost predicate Generous(script: seq<WriteStep>)
  {
    (forall i :: 0 <= i < |script| ==> GoesOn(script[i])) && Offered(script) >= IO_CHUNK
  }

  /** A turn in which nothing fails, TLS has nothing to write, and the client is ready to be written to. */
  ghost predicate GenerousTurn(t: Turn)
  {
    && Generous(t.feed) && t.fill.Pull? && t.shutdownOk && !t.wantsWrite
    && (forall i :: 0 <= i < |t.events| && t.events[i].Client? ==> Generous(t.events[i].write))
    && (exists i :: 0 <= i < |t.events| && t.events[i].Client? && t.events[i].writable)
  }

  ghost predicate BothEnded(s: Relay) { Conserves(s) && s.clientEof && s.remoteEof }

  lemma GenerousIsWilling(p: Pending, script: seq<WriteStep>)
    requires PendingValid(p) && Generous(script)
    ensures Willing(p, script)
  {
  }

  /** Before the poll of a generous turn everything for TLS is gone, and a chunk for the client is at hand if there is one. */
  lemma GenerousPrepare(s: Relay, t: Turn)
    requires BothEnded(s) && GenerousTurn(t)
    ensures var (end, s') := BeforePoll(s, t);
            && BothEnded(s') && IsEmpty(s'.upstream)
            && if IsEmpty(s.downstream) && s.plain == [] then end == Done
               else end == Running && !IsEmpty(s'.downstream) && InterestOf(s', t) == Interest(false, true, false, false)
                    && (if IsEmpty(s.downstream) then |s'.plain| < |s.plain| else s'.plain == s.plain)
  {
    hide Conserves, FeedUpstream, FillDownstream, CloseEnds, UpdateRegistration, Willing, Generous;
    BeforePollKeeps(s, t);
    BeforePollKeepsEnds(s, t);
    GenerousFeed(s, t.feed);
    var s1 := FeedUpstream(s, t.feed).1;
    GenerousFill(s1, t.fill);
    var s2 := FillDownstream(s1, t.fill).1;
    GenerousClose(s2);
    FeedKeeps(s, t.feed);
    FillKeeps(s1, t.fill);
    CloseKeeps(s2, true);
    GenerousConclude(CloseEnds(s2, true).1, t);
  }

  lemma GenerousFeed(s: Relay, feed: seq<WriteStep>)
    requires BothEnded(s) && Generous(feed)
    ensures var (ok, s') := FeedUpstream(s, feed);
            ok && IsEmpty(s'.upstream) && s'.downstream == s.downstream && s'.plain == s.plain && s'.clientEof && s'.remoteEof
  {
    hide WriteOut;
    GenerousIsWilling(s.upstream, feed);
    WillingEndsGetEverything(s, feed, []);
  }

  lemma GenerousFill(s: Relay, pull: Pull)
    requires pull.Pull?
    ensures var (ok, s') := FillDownstream(s, pull);
            && ok && s'.upstream == s.upstream && s'.clientEof == s.clientEof && s'.remoteEof == s.remoteEof
            && if !IsEmpty(s.downstream) then s' == s
               else if s.plain == [] then IsEmpty(s'.downstream) && s'.plain == []
               else !IsEmpty(s'.downstream) && |s'.plain| < |s.plain|
  {
  }

  lemma GenerousClose(s: Relay)
    requires s.clientEof && s.remoteEof
    ensures var (ok, s') := CloseEnds(s, true);
            && ok && s'.upstream == s.upstream && s'.downstream == s.downstream && s'.plain == s.plain
            && s'.clientEof && s'.remoteEof
  {
  }

  lemma GenerousConclude(s: Relay, t: Turn)
    requires Conserves(s) && s.clientEof && s.remoteEof && IsEmpty(s.upstream) && !t.wantsWrite
    ensures var (end, s') := Conclude(s, t);
            && s'.upstream == s.upstream && s'.downstream == s.downstream && s'.plain == s.plain
            && if IsEmpty(s.downstream) then end == Done
               else end == Running && InterestOf(s', t) == Interest(false, true, false, false)
  {
    hide UpdateRegistration;
  }

  /** Of the events of a generous turn, only writing to the client matters, and it takes everything. */
  lemma GenerousEvent(s: Relay, e: Event)
    requires BothEnded(s) && IsEmpty(s.upstream) && (e.Client? ==> Generous(e.write))
    ensures var (ok, s') := HandleEvent(s, e, Interest(false, true, false, false));
            && ok && BothEnded(s') && IsEmpty(s'.upstream) && s'.plain == s.plain
            && (IsEmpty(s.downstream) || (e.Client? && e.writable) ==> IsEmpty(s'.downstream))
  {
    hide WriteOut, Generous, Conserves;
    var i := Interest(false, true, false, false);
    HandleEventKeeps(s, e, i);
    if e.Client? && e.writable {
      GenerousWrite(s, e.write);
    } else if e.Remote? {
      assert s.plain + [] == s.plain;
    }
  }

  lemma GenerousWrite(s: Relay, write: seq<WriteStep>)
    requires Conserves(s) && Generous(write)
    ensures var (ok, s') := WritePending(s, write);
            && ok && IsEmpty(s'.downstream) && s'.upstream == s.upstream && s'.plain == s.plain
            && s'.clientEof == s.clientEof && s'.remoteEof == s.remoteEof
  {
    hide WriteOut;
    GenerousIsWilling(s.downstream, write);
    WillingEndsGetEverything(s, [], write);
  }

  lemma {:induction false} GenerousEvents(s: Relay, events: seq<Event>)
    requires BothEnded(s) && IsEmpty(s.upstream)
    requires forall i :: 0 <= i < |events| && events[i].Client? ==> Generous(events[i].write)
    ensures var (ok, s') := HandleEvents(s, events, Interest(false, true, false, false));
            && ok && BothEnded(s') && IsEmpty(s'.upstream) && s'.plain == s.plain
            && (IsEmpty(s.downstream) || (exists i :: 0 <= i < |events| && events[i].Client? && events[i].writable)
                ==> IsEmpty(s'.downstream))
    decreases |events|
  {
    hide HandleEvent, BothEnded, Generous;
    if events != [] {
      GenerousEvent(s, events[0]);
      var rest := events[1..];
      forall i | 0 <= i < |rest| ensures rest[i] == events[i + 1] { }
      GenerousEvents(HandleEvent(s, events[0], Interest(false, true, false, false)).1, rest);
      if i :| 0 <= i < |events| && events[i].Client? && events[i].writable {
        if i > 0 { assert rest[i - 1].Client? && rest[i - 1].writable; }
      }
    }
  }

  /**
   * The relay ends. Once both sides have ended, turns in which nothing fails and both ends take what they are given
   * pass on all that is left, one chunk or less at a time, and then the relay returns cleanly.
   */
  lemma {:induction false} RelayEnds(s: Relay, turns: seq<Turn>)
    requires BothEnded(s) && (forall i :: 0 <= i < |turns| ==> GenerousTurn(turns[i]))
    requires |turns| > |s.plain| + if IsEmpty(s.downstream) then 0 else 1
    ensures Relayed(s, turns).0 == Done
    decreases |turns|
  {
    hide BeforePoll, HandleEvents, BothEnded, GenerousTurn, InterestOf;
    var t := turns[0];
    assert GenerousTurn(t);
    GenerousPrepare(s, t);
    var (end, s1) := BeforePoll(s, t);
    if end == Running {
      EventsOfGenerous(t);
      GenerousEvents(s1, t.events);
      forall i | 0 <= i < |turns[1..]| ensures GenerousTurn(turns[1..][i]) { assert turns[1..][i] == turns[i + 1]; }
      RelayEnds(HandleEvents(s1, t.events, InterestOf(s1, t)).1, turns[1..]);
    }
  }

  lemma EventsOfGenerous(t: Turn)
    requires GenerousTurn(t)
    ensures forall i :: 0 <= i < |t.events| && t.events[i].Client? ==> Generous(t.events[i].write)
    ensures exists i :: 0 <= i < |t.events| && t.events[i].Client? && t.events[i].writable
  {
  }

  /**
   * When the remote side ends first, close_notify can be queued while octets of the client still wait: the
   * rule "close_notify only after the upstream buffer is empty" holds exactly when that same step does not
   * also shut the client's end.
   */
  lemma CloseNotifyMayOvertake(s: Relay)
    requires Conserves(s) && !s.closeNotifySent
    ensures var after := CloseEnds(s, true).1;
            after.closeNotifySent ==>
              (IsEmpty(after.upstream) && s.clientEof) || (s.remoteEof && IsEmpty(s.downstream))
    ensures var after := CloseEnds(s, true).1;
            after.closeNotifySent && !IsEmpty(after.upstream) <==>
              s.remoteEof && IsEmpty(s.downstream) && !IsEmpty(s.upstream)
  {
  }

  /** close_notify comes after the client's end of stream; only shutting the client's end can put it over its octets. */
  ghost predicate Closing(s: Relay)
  {
    (s.closeNotifySent ==> s.clientEof) && (s.closeNotifySent && !IsEmpty(s.upstream) ==> s.clientWriteShutdown)
  }

  lemma BeforePollCloses(s: Relay, t: Turn)
    requires Closing(s)
    ensures var (end, s') := BeforePoll(s, t);
            && Closing(s') && s'.fromClient == s.fromClient && (s.closeNotifySent ==> s'.closeNotifySent)
            && (end == Running && s'.closeNotifySent ==> !InterestOf(s', t).clientRead)
  {
    hide FeedUpstream, FillDownstream, CloseEnds, Conclude, Closing, InterestOf;
    FeedCloses(s, t.feed);
    var s1 := FeedUpstream(s, t.feed).1;
    FillTouches(s1, t.fill);
    var s2 := FillDownstream(s1, t.fill).1;
    CloseCloses(s2, t.shutdownOk);
    ConcludeCloses(CloseEnds(s2, t.shutdownOk).1, t);
  }

  lemma FeedCloses(s: Relay, script: seq<WriteStep>)
    requires Closing(s)
    ensures var s' := FeedUpstream(s, script).1;
            Closing(s') && s'.fromClient == s.fromClient && s'.closeNotifySent == s.closeNotifySent
  {
  }

  lemma CloseCloses(s: Relay, shutdownOk: bool)
    requires Closing(s)
    ensures var s' := CloseEnds(s, shutdownOk).1;
            Closing(s') && s'.fromClient == s.fromClient && (s.closeNotifySent ==> s'.closeNotifySent)
  {
  }

  lemma ConcludeCloses(s: Relay, t: Turn)
    requires Closing(s)
    ensures var s' := Conclude(s, t).1;
            && Closing(s') && s'.fromClient == s.fromClient && s'.closeNotifySent == s.closeNotifySent
            && (s'.closeNotifySent ==> !InterestOf(s', t).clientRead)
  {
    hide UpdateRegistration;
  }

  lemma FillTouches(s: Relay, pull: Pull)
    ensures var s' := FillDownstream(s, pull).1;
            s' == s.(downstream := s'.downstream, plain := s'.plain, fromTls := s'.fromTls)
    ensures Closing(s) ==> Closing(FillDownstream(s, pull).1)
  {
  }

  lemma EventCloses(s: Relay, e: Event, i: Interest)
    requires Closing(s) && (s.closeNotifySent ==> !i.clientRead)
    ensures var s' := HandleEvent(s, e, i).1;
            && Closing(s') && s'.closeNotifySent == s.closeNotifySent
            && (s.closeNotifySent ==> s'.fromClient == s.fromClient)
  {
    hide WriteOut, ReadChunk;
  }

  lemma {:induction false} EventsClose(s: Relay, events: seq<Event>, i: Interest)
    requires Closing(s) && (s.closeNotifySent ==> !i.clientRead)
    ensures var s' := HandleEvents(s, events, i).1;
            && Closing(s') && s'.closeNotifySent == s.closeNotifySent
            && (s.closeNotifySent ==> s'.fromClient == s.fromClient)
    decreases |events|
  {
    hide HandleEvent, Closing;
    if events != [] {
      EventCloses(s, events[0], i);
      EventsClose(HandleEvent(s, events[0], i).1, events[1..], i);
    }
  }

  /**
   * Over every run: close_notify is sent only after the client has ended, octets of the client wait behind it only if
   * its end was shut as well, and once it is sent nothing more is read from the client.
   */
  lemma {:induction false} NothingReadAfterCloseNotify(s: Relay, turns: seq<Turn>)
    requires Closing(s)
    ensures var after := Relayed(s, turns).1;
            && (after.closeNotifySent ==> after.clientEof)
            && (after.closeNotifySent && !IsEmpty(after.upstream) ==> after.clientWriteShutdown)
            && (s.closeNotifySent ==> after.closeNotifySent && after.fromClient == s.fromClient)
    decreases |turns|
  {
    hide BeforePoll, HandleEvents, InterestOf;
    if turns != [] {
      BeforePollCloses(s, turns[0]);
      var (end, s1) := BeforePoll(s, turns[0]);
      if end == Running {
        EventsClose(s1, turns[0].events, InterestOf(s1, turns[0]));
        NothingReadAfterCloseNotify(HandleEvents(s1, turns[0].events, InterestOf(s1, turns[0])).1, turns[1..]);
      }
    }
  }

  lemma StartCloses(plain: Octets)
    ensures Closing(Start(plain)) && Conserves(Start(plain))
  {
    assert [] + plain == plain;
  }

  /** A client that sends one octet, a remote side that closes, and a TLS writer that takes nothing. */
  const OVERTAKING: seq<Turn> := [
    Turn([], Pull(1), true, true, true,
         [Client(true, false, false, Chunk([7]), []), Remote(false, false, true, [], false, true, true)]),
    Turn([], Pull(1), true, true, true, [])]

  /** The relay of OVERTAKING after its first turn. */
  const HALFWAY := Relay(false, true, false, false, Pending([7], 0), NOTHING, Registration(true, true, false),
                         Registration(true, true, true), [], [7], [], [], [], [], 0, 0)

  lemma OvertakingStarts()
    ensures OneTurn(Start([]), OVERTAKING[0]) == (Running, HALFWAY)
  {
    var first := OVERTAKING[0];
    var ready := BeforePoll(Start([]), first).1;
    var i := InterestOf(ready, first);
    var read := HandleEvent(ready, first.events[0], i).1;
    assert read == HALFWAY.(remoteEof := false) by { assert [] + [7] == [7]; }
    assert HandleEvent(read, first.events[1], i) == (true, HALFWAY);
    assert first.events[1..] == [first.events[1]] && [first.events[1]][1..] == [];
    assert HandleEvents(HALFWAY, [], i) == (true, HALFWAY);
  }

  lemma OvertakingEnds()
    ensures var (end, after) := OneTurn(HALFWAY, OVERTAKING[1]);
            end == Running && after.closeNotifySent && Remaining(after.upstream) == [7]
  {
  }

  /** Such a run exists from the start: close_notify goes out before the octet that was read earlier. */
  lemma OvertakingRun()
    ensures var (end, after) := Relayed(Start([]), OVERTAKING);
            end == Running && after.closeNotifySent && Remaining(after.upstream) == [7]
  {
    hide OneTurn, Start;
    OvertakingStarts();
    OvertakingEnds();
    assert OVERTAKING[1..] == [OVERTAKING[1]] && OVERTAKING[1..][1..] == [];
  }
}
