/** The persistent DNS-over-TLS session of crates/dns/src/dot.rs, framed as in section 3.3 of RFC 7858. */
module Dot {
  import opened Bytes
  import opened Names
  import opened Net
  import opened Addresses
  import opened AliasClosure
  import opened DnsResponse

  const MAX_MESSAGE := 65_535

  /**
   * One TLS connection: a number of its own, the requests written to it, the octets read from it, and the
   * octets that arrived and were not read.
   */
  datatype Session = Session(id: nat, sent: seq<Octets>, consumed: Octets, buffer: Octets)

  /** What happens in one attempt: the connect (if one is needed), the write, and the octets that arrive. */
  datatype Attempt = Attempt(connectOk: bool, writeOk: bool, arrivals: Octets)

  /** The resolver's connection state: the kept session and how many were ever opened. */
  datatype State = State(session: Option<Session>, openings: nat)

  function Framed(message: Octets): Octets
    requires |message| <= MAX_MESSAGE
  {
    PutU16(|message|) + message
  }

  /** `exchange_message`: the response and the session after it; None for every I/O failure. */
  function ExchangeMessage(s: Session, request: Octets, a: Attempt): Option<(Octets, Session)>
  {
    if |request| > MAX_MESSAGE || !a.writeOk then None
    else
      var data := s.buffer + a.arrivals;
      if |data| < 2 || GetU16(data, 0) < DNS_HEADER_BYTES || |data| < 2 + GetU16(data, 0) then None
      else
        var end := 2 + GetU16(data, 0);
        Some((data[2..end], Session(s.id, s.sent + [request], s.consumed + data[..end], data[end..])))
  }

  datatype Exchanged = Exchanged(response: Option<Octets>, state: State, connects: nat, sends: nat)

  /** The session an attempt works with: the kept one, or a new one when connecting succeeds. */
  function SessionFor(s: State, a: Attempt): Option<Session>
  {
    if s.session.Some? then s.session
    else if a.connectOk then Some(Session(s.openings, [], [], []))
    else None
  }

  /** `DotState::exchange` over a list of attempts: keep the session that answers, drop every one that fails. */
  function Exchange(s: State, request: Octets, attempts: seq<Attempt>): Exchanged
    decreases |attempts|
  {
    if attempts == [] then Exchanged(None, s, 0, 0)
    else
      var a := attempts[0];
      var connects := if s.session.None? then 1 else 0;
      var used := SessionFor(s, a);
      if used.None? then
        var rest := Exchange(s, request, attempts[1..]);
        rest.(connects := rest.connects + connects)
      else
        var openings := if s.session.None? then s.openings + 1 else s.openings;
        var sends := if |request| <= MAX_MESSAGE then 1 else 0;
        match ExchangeMessage(used.value, request, a)
        case Some((response, session)) => Exchanged(Some(response), State(Some(session), openings), connects, sends)
        case None =>
          var rest := Exchange(State(None, openings), request, attempts[1..]);
          rest.(connects := rest.connects + connects, sends := rest.sends + sends)
  }

  /** Each attempt connects at most once and sends at most once, and a failed exchange leaves no session. */
  lemma {:induction false} ExchangeBounds(s: State, request: Octets, attempts: seq<Attempt>)
    requires attempts != []
    ensures var r := Exchange(s, request, attempts);
            && r.connects <= |attempts| && r.sends <= |attempts|
            && (r.response.None? <==> r.state.session.None?)
            && s.openings <= r.state.openings <= s.openings + r.connects
    decreases |attempts|
  {
    hide ExchangeMessage;
    if |attempts| > 1 {
      ExchangeBounds(s, request, attempts[1..]);
      ExchangeBounds(State(None, if s.session.None? then s.openings + 1 else s.openings), request, attempts[1..]);
    }
  }

  // ---------------------------------------------------------------- alignment with an in-order server

  /** The server's answer to the k-th request of a connection. */
  type Server = (nat, nat) -> Octets

  ghost predicate Answerable(server: Server) { forall id, k :: |server(id, k)| <= MAX_MESSAGE }

  /** The framed answers to the first n requests of a connection, in order. */
  ghost function Answers(server: Server, id: nat, n: nat): Octets
    requires Answerable(server)
  {
    if n == 0 then [] else Answers(server, id, n - 1) + Framed(server(id, n - 1))
  }

  /** A session has read exactly the answers to the requests it wrote, and nothing waits unread. */
  ghost predicate Aligned(server: Server, s: State)
    requires Answerable(server)
  {
    s.session.Some? ==>
      var session := s.session.value;
      session.consumed == Answers(server, session.id, |session.sent|) && session.buffer == []
  }

  /** The server answers in order and never unasked: what has arrived is a beginning of the answers so far. */
  ghost predicate InOrder(server: Server, session: Session, arrivals: Octets)
    requires Answerable(server)
  {
    session.consumed + (session.buffer + arrivals) <= Answers(server, session.id, |session.sent| + 1)
  }

  /** Every attempt of an exchange that reaches the server meets an in-order server. */
  ghost predicate ServerInOrder(server: Server, s: State, request: Octets, attempts: seq<Attempt>)
    requires Answerable(server)
    decreases |attempts|
  {
    attempts != [] ==>
      var used := SessionFor(s, attempts[0]);
      if used.None? then ServerInOrder(server, s, request, attempts[1..])
      else
        && InOrder(server, used.value, attempts[0].arrivals)
        && (ExchangeMessage(used.value, request, attempts[0]).None? ==>
              ServerInOrder(server, State(None, if s.session.None? then s.openings + 1 else s.openings), request, attempts[1..]))
  }

  lemma CancelConsumed(consumed: Octets, data: Octets, frame: Octets)
    requires consumed + data <= consumed + frame
    ensures data <= frame
  {
    assert data == (consumed + data)[|consumed|..] && frame == (consumed + frame)[|consumed|..];
  }

  /** On an aligned session the response is the server's answer to this very request, and it stays aligned. */
  lemma AlignedMessage(server: Server, session: Session, request: Octets, a: Attempt)
    requires Answerable(server) && InOrder(server, session, a.arrivals)
    requires session.consumed == Answers(server, session.id, |session.sent|) && session.buffer == []
    requires ExchangeMessage(session, request, a).Some?
    ensures var (response, after) := ExchangeMessage(session, request, a).value;
            && response == server(session.id, |session.sent|)
            && after.id == session.id && after.sent == session.sent + [request]
            && Aligned(server, State(Some(after), 0))
  {
    hide PutU16;
    var data := session.buffer + a.arrivals;
    var answer := server(session.id, |session.sent|);
    var frame := Framed(answer);
    CancelConsumed(session.consumed, data, frame);
    assert data == frame[..|data|];
    assert data[0] == PutU16(|answer|)[0] && data[1] == PutU16(|answer|)[1];
    assert GetU16(data, 0) == |answer|;
    assert data == frame && data[2..] == answer && data[..|frame|] == frame;
  }

  /** The k-th request that a session carried was this one, and the response is its answer. */
  ghost predicate AnsweredBy(server: Server, request: Octets, r: Exchanged)
  {
    r.response.Some? ==>
      && r.state.session.Some?
      && var session := r.state.session.value;
         |session.sent| > 0 && session.sent[|session.sent| - 1] == request
         && r.response.value == server(session.id, |session.sent| - 1)
  }

  lemma {:induction false} ExchangeAligned(server: Server, s: State, request: Octets, attempts: seq<Attempt>)
    requires Answerable(server) && Aligned(server, s) && ServerInOrder(server, s, request, attempts)
    ensures Aligned(server, Exchange(s, request, attempts).state)
    ensures AnsweredBy(server, request, Exchange(s, request, attempts))
    decreases |attempts|
  {
    hide ExchangeMessage, InOrder;
    if attempts != [] {
      var a := attempts[0];
      var used := SessionFor(s, a);
      if used.None? {
        ExchangeAligned(server, s, request, attempts[1..]);
      } else if ExchangeMessage(used.value, request, a).Some? {
        AlignedMessage(server, used.value, request, a);
      } else {
        ExchangeAligned(server, State(None, if s.session.None? then s.openings + 1 else s.openings), request, attempts[1..]);
      }
    }
  }

  /** One use of the resolver under its lock: an exchange, then perhaps the verdict that the response is invalid. */
  datatype Use = Use(request: Octets, attempts: seq<Attempt>, invalid: bool)

  function AfterUse(s: State, u: Use): State
  {
    var after := Exchange(s, u.request, u.attempts).state;
    if u.invalid then State(None, after.openings) else after
  }

  function AfterUses(s: State, uses: seq<Use>): State
  {
    if uses == [] then s else AfterUse(AfterUses(s, uses[..|uses| - 1]), uses[|uses| - 1])
  }

  /**
   * Session alignment over every sequence of uses: whenever the lock is free, a kept session has read exactly
   * as many responses as it wrote requests, and no query ever receives the answer to another.
   */
  lemma {:induction false} AlwaysAligned(server: Server, uses: seq<Use>)
    requires Answerable(server)
    requires forall i :: 0 <= i < |uses| ==>
               ServerInOrder(server, AfterUses(State(None, 0), uses[..i]), uses[i].request, uses[i].attempts)
    ensures Aligned(server, AfterUses(State(None, 0), uses))
    ensures forall i :: 0 <= i < |uses| ==>
              AnsweredBy(server, uses[i].request,
                         Exchange(AfterUses(State(None, 0), uses[..i]), uses[i].request, uses[i].attempts))
    decreases |uses|
  {
    hide Exchange, ServerInOrder;
    if uses != [] {
      var n := |uses| - 1;
      var before := uses[..n];
      forall i | 0 <= i < n
        ensures before[..i] == uses[..i] && before[i] == uses[i]
      {
      }
      AlwaysAligned(server, before);
      ExchangeAligned(server, AfterUses(State(None, 0), before), uses[n].request, uses[n].attempts);
      forall i | 0 <= i < |uses|
        ensures AnsweredBy(server, uses[i].request,
                           Exchange(AfterUses(State(None, 0), uses[..i]), uses[i].request, uses[i].attempts))
      {
        if i < n { assert before[..i] == uses[..i]; } else { assert uses[..i] == before; }
      }
    }
  }

  // ---------------------------------------------------------------- the resolver

  function Request(id: U16, name: Octets, t: AddressRecordType): Octets
    requires AllValidLabels(Split(name))
  {
    QueryHeader(id) + Question(name, t)
  }

  /** The use that one address family makes of the session. */
  function FamilyUse(id: U16, name: Octets, t: AddressRecordType, attempts: seq<Attempt>,
                     r: Result<DnsAnswer, DnsErrorKind>): Use
    requires AllValidLabels(Split(name))
  {
    Use(Request(id, name, t), attempts, r == Err(InvalidResponse))
  }

  /** What one address family answers: what the response to its own request says, or that there was none. */
  ghost predicate FamilyOutcome(s: State, id: U16, name: Octets, t: AddressRecordType, attempts: seq<Attempt>,
                                r: Result<DnsAnswer, DnsErrorKind>)
    requires AllValidLabels(Split(name))
  {
    var response := Exchange(s, Request(id, name, t), attempts).response;
    if response.None? then r == Err(ResolverFailure) else ParseOutcome(id, name, t, response.value, r)
  }

  class DotResolver {
    var session: Option<Session>
    var openings: nat
    var nextId: U16

    ghost function Value(): State
      reads this
    {
      State(session, openings)
    }

    constructor ()
      ensures session == None && openings == 0 && nextId == 1
    {
      session, openings, nextId := None, 0, 1;
    }

    /** The retry loop of `DotState::exchange`, with its two attempts. */
    method ExchangeRequest(request: Octets, attempts: seq<Attempt>) returns (r: Option<Octets>)
      requires |attempts| == 2
      modifies this`session, this`openings
      ensures var x := Exchange(old(Value()), request, attempts);
              r == x.response && Value() == x.state && x.connects <= 2 && x.sends <= 2
      ensures r.None? <==> session.None?
    {
      ExchangeBounds(Value(), request, attempts);
      ghost var x := Exchange(Value(), request, attempts);
      for i := 0 to |attempts|
        invariant x.response == Exchange(Value(), request, attempts[i..]).response
        invariant x.state == Exchange(Value(), request, attempts[i..]).state
      {
        var a := attempts[i];
        assert attempts[i..][1..] == attempts[i + 1..];
        if session.None? {
          if !a.connectOk {
            continue;
          }
          session := Some(Session(openings, [], [], []));
          openings := openings + 1;
        }
        var result := ExchangeMessage(session.value, request, a);
        if result.Some? {
          session := Some(result.value.1);
          return Some(result.value.0);
        }
        session := None;
      }
      return None;
    }

    /** One address family: a fresh identifier, one exchange, and no session left after an invalid response. */
    method ResolveFamily(name: Octets, t: AddressRecordType, attempts: seq<Attempt>)
      returns (r: Result<DnsAnswer, DnsErrorKind>)
      requires |attempts| == 2 && Normal(name)
      modifies this
      ensures nextId == (old(nextId) + 1) % 0x1_0000
      ensures AllValidLabels(Split(name))
      ensures Value() == AfterUse(old(Value()), FamilyUse(old(nextId), name, t, attempts, r))
      ensures FamilyOutcome(old(Value()), old(nextId), name, t, attempts, r)
      ensures r.Ok? ==> r.value.addresses != []
      ensures r == Err(InvalidResponse) ==> session.None?
    {
      hide Exchange, ParseOutcome, QueryHeader, Question, Normalize, Split;
      NormalIff(name);
      var id := nextId;
      nextId := (nextId + 1) % 0x1_0000;
      var request := EncodeAddressQuery(id, name, t);
      var response := ExchangeRequest(request.value, attempts);
      if response.None? {
        return Err(ResolverFailure);
      }
      r := ParseAddressResponse(id, name, t, response.value);
      if r == Err(InvalidResponse) {
        session := None;
      }
    }

    /** `resolve`: both families under consecutive identifiers on whatever session is kept, then merged. */
    method Resolve(name: Octets, attempts4: seq<Attempt>, attempts6: seq<Attempt>)
      returns (r: Result<DnsAnswer, DnsErrorKind>,
               ghost ipv4: Result<DnsAnswer, DnsErrorKind>, ghost ipv6: Result<DnsAnswer, DnsErrorKind>)
      requires |attempts4| == |attempts6| == 2 && Normal(name)
      modifies this
      ensures AllValidLabels(Split(name)) &&
              var id := (old(nextId) + 1) % 0x1_0000;
              var between := AfterUse(old(Value()), FamilyUse(old(nextId), name, A, attempts4, ipv4));
              && FamilyOutcome(old(Value()), old(nextId), name, A, attempts4, ipv4)
              && FamilyOutcome(between, id, name, Aaaa, attempts6, ipv6)
              && Value() == AfterUse(between, FamilyUse(id, name, Aaaa, attempts6, ipv6))
      ensures r.Ok? <==> ipv4.Ok? || ipv6.Ok?
      ensures r.Err? ==> r == ipv6
      ensures r.Ok? ==> r.value.addresses == FirstSixteen(Added([], AddressesOf(ipv4) + AddressesOf(ipv6)))
      ensures r.Ok? ==> r.value.ttl == LesserTtl(TtlOf(ipv4), TtlOf(ipv6))
    {
      hide Exchange, AfterUse, FamilyUse, FamilyOutcome, Normalize, Split, Added, LesserTtl;
      NormalIff(name);
      var a := ResolveFamily(name, A, attempts4);
      var b := ResolveFamily(name, Aaaa, attempts6);
      ipv4, ipv6 := a, b;
      r := MergeFamilies(a, b);
    }
  }

  // ---------------------------------------------------------------- both families

  function AddressesOf(r: Result<DnsAnswer, DnsErrorKind>): seq<Ip> { if r.Ok? then r.value.addresses else [] }

  function TtlOf(r: Result<DnsAnswer, DnsErrorKind>): Option<nat> { if r.Ok? then r.value.ttl else None }

  /** The smaller of two TTLs, where an absent one says nothing. */
  function LesserTtl(a: Option<nat>, b: Option<nat>): Option<nat>
  {
    if b.None? then a else Some(MinTtl(a, b.value))
  }

  /**
   * Merges the A and AAAA answers: either suffices, the IPv4 addresses come first, repeats and all beyond 16
   * are dropped, and the smaller TTL holds; when both fail, the last error stands.
   */
  method MergeFamilies(ipv4: Result<DnsAnswer, DnsErrorKind>, ipv6: Result<DnsAnswer, DnsErrorKind>)
    returns (r: Result<DnsAnswer, DnsErrorKind>)
    requires ipv4.Ok? ==> ipv4.value.addresses != []
    requires ipv6.Ok? ==> ipv6.value.addresses != []
    ensures r.Ok? <==> ipv4.Ok? || ipv6.Ok?
    ensures r.Err? ==> r == ipv6
    ensures r.Ok? ==> r.value.addresses == FirstSixteen(Added([], AddressesOf(ipv4) + AddressesOf(ipv6)))
    ensures r.Ok? ==> r.value.ttl == LesserTtl(TtlOf(ipv4), TtlOf(ipv6))
  {
    hide Added, Dedup, FirstSixteen;
    var addresses: seq<Ip> := [];
    var ttl: Option<nat> := None;
    var lastError := NoRecords;
    var families := [ipv4, ipv6];
    NoneAdded();
    for i := 0 to 2
      invariant addresses == Added([], Collected(families, i))
      invariant ttl == (if i == 0 then None else if i == 1 then TtlOf(ipv4) else LesserTtl(TtlOf(ipv4), TtlOf(ipv6)))
      invariant i > 0 && families[i - 1].Err? ==> lastError == families[i - 1].error
    {
      match families[i] {
        case Ok(answer) =>
          AddedInTurn([], Collected(families, i), answer.addresses);
          addresses := Add(addresses, answer.addresses);
          ttl := LesserTtl(ttl, answer.ttl);
        case Err(error) =>
          assert Collected(families, i) + [] == Collected(families, i);
          lastError := error;
      }
    }
    assert Collected(families, 2) == AddressesOf(ipv4) + AddressesOf(ipv6) by {
      assert Collected(families, 1) == [] + AddressesOf(ipv4);
    }
    AddedLaws([], Collected(families, 2));
    if Collected(families, 2) != [] { assert Collected(families, 2)[0] in Collected(families, 2); }
    if addresses == [] {
      return Err(lastError);
    }
    var kept := DeduplicateBounded(addresses);
    DedupLaws(addresses);
    return Ok(DnsAnswer(kept, ttl));
  }

  /** The addresses of the first families, one after the other. */
  function Collected(families: seq<Result<DnsAnswer, DnsErrorKind>>, n: nat): seq<Ip>
    requires n <= |families|
  {
    if n == 0 then [] else Collected(families, n - 1) + AddressesOf(families[n - 1])
  }

  lemma NoneAdded()
    ensures Added([], []) == []
  {
  }

  /** Adding two lists one after the other is adding their concatenation. */
  lemma {:induction false} AddedInTurn(known: seq<Ip>, a: seq<Ip>, b: seq<Ip>)
    ensures Added(Added(known, a), b) == Added(known, a + b)
    decreases |a|
  {
    if a == [] {
      assert a + b == b;
    } else {
      assert (a + b)[1..] == a[1..] + b;
      AddedInTurn(if a[0] in known then known else known + [a[0]], a[1..], b);
    }
  }

  // ---------------------------------------------------------------- exchanges that work

  /** Two octets of length, high octet first, then the message. */
  lemma FramedOctets(message: Octets)
    requires |message| == 0x0102
    ensures Framed(message) == [1, 2] + message
  {
  }

  /** A whole frame of at least a header is read as its message; a shorter one ends the session. */
  lemma FrameIsRead(s: Session, request: Octets, message: Octets)
    requires |request| <= MAX_MESSAGE && |message| <= MAX_MESSAGE && s.buffer == []
    ensures var r := ExchangeMessage(s, request, Attempt(true, true, Framed(message)));
            if |message| >= 12 then
              r == Some((message, Session(s.id, s.sent + [request], s.consumed + Framed(message), [])))
            else r == None
  {
    hide PutU16;
    var frame := Framed(message);
    assert s.buffer + frame == frame;
    assert frame[0] == PutU16(|message|)[0] && frame[1] == PutU16(|message|)[1];
    assert GetU16(frame, 0) == |message|;
    assert frame[2..] == message && frame[..|frame|] == frame && frame[|frame|..] == [];
  }

  /**
   * An exchange succeeds: with a kept session or a connect that works, a write that works, and the whole answer of an
   * in-order server to this request, the first attempt returns that answer and keeps the session.
   */
  lemma WorkingExchange(server: Server, s: State, request: Octets, attempts: seq<Attempt>)
    requires Answerable(server) && Aligned(server, s) && |request| <= MAX_MESSAGE && attempts != []
    requires SessionFor(s, attempts[0]).Some?
    requires var session := SessionFor(s, attempts[0]).value;
             var answer := server(session.id, |session.sent|);
             |answer| >= 12 && attempts[0] == Attempt(attempts[0].connectOk, true, Framed(answer))
    ensures var session := SessionFor(s, attempts[0]).value;
            var r := Exchange(s, request, attempts);
            && r.response == Some(server(session.id, |session.sent|))
            && r.state.session.Some? && r.state.session.value.sent == session.sent + [request]
            && r.sends == 1 && r.connects == if s.session.None? then 1 else 0
  {
    hide Answers;
    var session := SessionFor(s, attempts[0]).value;
    FrameIsRead(session, request, server(session.id, |session.sent|));
    hide ExchangeMessage;
    SameAttempt(session, request, attempts[0]);
  }

  /** Whether a connect was needed does not matter once there is a session. */
  lemma SameAttempt(session: Session, request: Octets, a: Attempt)
    ensures ExchangeMessage(session, request, a) == ExchangeMessage(session, request, a.(connectOk := true))
  {
  }

  /** The merged TTL is the smaller of the two that are there. */
  lemma LesserTtlLaws(a: Option<nat>, b: Option<nat>)
    ensures LesserTtl(a, b) == None <==> a == None && b == None
    ensures a.Some? ==> LesserTtl(a, b).value <= a.value
    ensures b.Some? ==> LesserTtl(a, b).value <= b.value
    ensures LesserTtl(a, b) in {a, b}
  {
  }

  /**
   * A failed first attempt is made up for by a second one: after a connect or an exchange that fails, a new session
   * that answers whole gives the response.
   */
  lemma SecondAttemptWorks(s: State, request: Octets, first: Attempt, message: Octets)
    requires |request| <= MAX_MESSAGE && 12 <= |message| <= MAX_MESSAGE
    requires var used := SessionFor(s, first); used.None? || ExchangeMessage(used.value, request, first).None?
    ensures var r := Exchange(s, request, [first, Attempt(true, true, Framed(message))]);
            r.response == Some(message) && r.state.session.Some? && r.state.session.value.sent == [request]
  {
    var second := Attempt(true, true, Framed(message));
    assert [first, second][1..] == [second];
    var used := SessionFor(s, first);
    var openings := if s.session.None? then s.openings + 1 else s.openings;
    var id := if used.None? then s.openings else openings;
    FrameIsRead(Session(id, [], [], []), request, message);
    hide ExchangeMessage;
    assert [] + [request] == [request];
  }
}
