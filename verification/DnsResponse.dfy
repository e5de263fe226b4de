/** Address queries and responses of crates/dns/src/wire.rs, over raw messages. */
module DnsResponse {
  import opened Bytes
  import opened Names
  import opened WireName
  import opened AliasClosure
  import opened Net
  import opened Addresses

  const DNS_HEADER_BYTES := 12
  const MAX_DNS_ANSWER_RECORDS := 512

  const FLAG_QR := 0x8000
  const FLAG_TC := 0x0200
  const FLAG_RD: U16 := 0x0100
  const CLASS_IN: U16 := 1
  const TYPE_CNAME: U16 := 5

  datatype DnsErrorKind = InvalidName | NoResolvers | NoRecords | ResolverFailure | InvalidResponse | InvalidConfiguration

  datatype AddressRecordType = A | Aaaa

  function Code(t: AddressRecordType): U16 { if t.A? then 1 else 28 }

  datatype ResourceRecord = ResourceRecord(owner: Octets, rrType: U16, rrClass: U16, ttl: nat, start: nat, end: nat)

  datatype DnsAnswer = DnsAnswer(addresses: seq<Ip>, ttl: Option<nat>)

  /** Bit `mask` (a power of two) of a 16-bit field. */
  predicate Bit(flags: U16, mask: int) requires mask > 0 { flags / mask % 2 == 1 }

  // ---------------------------------------------------------------- the query

  function QueryHeader(id: U16): (h: Octets)
    ensures |h| == DNS_HEADER_BYTES
  {
    PutU16(id) + PutU16(FLAG_RD) + PutU16(1) + PutU16(0) + PutU16(0) + PutU16(0)
  }

  /** The question section for a name and an address family. */
  function Question(name: Octets, t: AddressRecordType): Octets
    requires AllValidLabels(Split(name))
  {
    EncodedName(name) + PutU16(Code(t)) + PutU16(CLASS_IN)
  }

  method EncodeAddressQuery(id: U16, name: Octets, t: AddressRecordType) returns (r: Result<Octets, DnsErrorKind>)
    ensures r == Err(InvalidName) <==> !AllValidLabels(Split(name))
    ensures r == Err(InvalidConfiguration) <==> AllValidLabels(Split(name)) && |name| + 14 > MAX_DNS_MESSAGE_BYTES
    ensures r.Err? ==> r.error in {InvalidName, InvalidConfiguration}
    ensures r.Ok? ==> r.value == QueryHeader(id) + Question(name, t)
    ensures Normal(name) ==> r.Ok?
  {
    if Normal(name) { NormalIff(name); }
    if AllValidLabels(Split(name)) { EncodedNameLength(name); }
    var message := QueryHeader(id);
    var named := EncodeName(name, message);
    if named.Err? {
      return Err(if named.error.BadLabel? then InvalidName else InvalidConfiguration);
    }
    message := named.value + PutU16(Code(t)) + PutU16(CLASS_IN);
    assert message == QueryHeader(id) + Question(name, t);
    return Ok(message);
  }

  // ---------------------------------------------------------------- header and question of a response

  /** The header checks: the answer count, or the error that ends the parse. */
  function HeaderCheck(expectedId: U16, m: Octets): Result<nat, DnsErrorKind>
  {
    if |m| < DNS_HEADER_BYTES || |m| > MAX_DNS_MESSAGE_BYTES then Err(InvalidResponse)
    else if GetU16(m, 0) != expectedId then Err(InvalidResponse)
    else
      var flags := GetU16(m, 2);
      if !Bit(flags, FLAG_QR) then Err(InvalidResponse)
      else if Bit(flags, FLAG_TC) then Err(ResolverFailure)
      else if flags % 16 == 3 then Err(NoRecords)
      else if flags % 16 != 0 then Err(ResolverFailure)
      else if GetU16(m, 4) != 1 then Err(InvalidResponse)
      else if GetU16(m, 6) > MAX_DNS_ANSWER_RECORDS then Err(InvalidResponse)
      else Ok(GetU16(m, 6))
  }

  /** The question must echo the query; the offset after it. */
  function QuestionCheck(name: Octets, t: AddressRecordType, m: Octets): Option<nat>
  {
    match NameAt(m, DNS_HEADER_BYTES)
    case None => None
    case Some((echoed, next)) =>
      if echoed != name || next + 4 > |m| then None
      else if GetU16(m, next) != Code(t) || GetU16(m, next + 2) != CLASS_IN then None
      else Some(next + 4)
  }

  /** A response that repeats the question of its query passes the question checks, whatever follows. */
  lemma EchoPasses(header: Octets, name: Octets, t: AddressRecordType, rest: Octets)
    requires |header| == DNS_HEADER_BYTES && Normal(name)
    ensures AllValidLabels(Split(name))
    ensures QuestionCheck(name, t, header + Question(name, t) + rest) == Some(|header| + |name| + 6)
  {
    hide NameAt, EncodedName, Split, Normalize, PutU16, GetU16, QuestionCheck;
    NormalIff(name);
    EncodedNameLength(name);
    var fields := PutU16(Code(t)) + PutU16(CLASS_IN);
    var m := (header + EncodedName(name)) + (fields + rest);
    Regroup(header, EncodedName(name), PutU16(Code(t)), PutU16(CLASS_IN), rest);
    assert m == header + Question(name, t) + rest;
    TwoFields(header + EncodedName(name), Code(t), CLASS_IN, rest);
    NameRoundTrip(header, name, fields + rest);
    QuestionAccepted(name, t, m, |header| + |name| + 2);
  }

  /** Any question as a message may hold it: a name, a type and a class. */
  function AnyQuestion(q: Octets, rrType: U16, rrClass: U16): Octets
    requires AllValidLabels(Split(q))
  {
    EncodedName(q) + PutU16(rrType) + PutU16(rrClass)
  }

  /**
   * The question checks accept exactly the question that was asked: the same name, type 1 for A or 28 for AAAA, and
   * class 1. A response to any other question is refused.
   */
  lemma QuestionIff(header: Octets, q: Octets, rrType: U16, rrClass: U16, rest: Octets, name: Octets, t: AddressRecordType)
    requires |header| == 12 && Normal(q) && AllValidLabels(Split(q))
    ensures QuestionCheck(name, t, header + AnyQuestion(q, rrType, rrClass) + rest).Some?
            <==> q == name && rrType == (if t.A? then 1 else 28) && rrClass == 1
  {
    hide NameAt, EncodedName, Split, Normalize, PutU16, GetU16;
    EncodedNameLength(q);
    var fields := PutU16(rrType) + PutU16(rrClass);
    var m := (header + EncodedName(q)) + (fields + rest);
    Regroup(header, EncodedName(q), PutU16(rrType), PutU16(rrClass), rest);
    assert m == header + AnyQuestion(q, rrType, rrClass) + rest;
    TwoFields(header + EncodedName(q), rrType, rrClass, rest);
    NameRoundTrip(header, q, fields + rest);
  }

  lemma TwoFields(before: Octets, a: U16, b: U16, rest: Octets)
    ensures var m := before + ((PutU16(a) + PutU16(b)) + rest);
            GetU16(m, |before|) == a && GetU16(m, |before| + 2) == b
  {
    var m := before + ((PutU16(a) + PutU16(b)) + rest);
    assert m[|before|] == PutU16(a)[0] && m[|before| + 1] == PutU16(a)[1];
    assert m[|before| + 2] == PutU16(b)[0] && m[|before| + 3] == PutU16(b)[1];
  }

  /** Big-endian fields, labels after their lengths: the query for `a`, octet by octet. */
  lemma QueryOctets()
    ensures AllValidLabels(Split([97]))
    ensures QueryHeader(0x1234) + Question([97], A)
            == [0x12, 0x34, 1, 0, 0, 1, 0, 0, 0, 0, 0, 0, 1, 97, 0, 0, 1, 0, 1]
    ensures QueryHeader(0x1234) + Question([97], Aaaa)
            == [0x12, 0x34, 1, 0, 0, 1, 0, 0, 0, 0, 0, 0, 1, 97, 0, 0, 28, 0, 1]
  {
    hide Split, LabelOctets, QueryHeader;
    NameOctets();
    HeaderOctets();
  }

  lemma NameOctets()
    ensures AllValidLabels(Split([97])) && EncodedName([97]) == [1, 97, 0]
  {
    SplitNoDot([97]);
    assert [[97]][1..] == [];
    assert LabelOctets([[97]]) == [1, 97];
  }

  lemma HeaderOctets()
    ensures QueryHeader(0x1234) == [0x12, 0x34, 1, 0, 0, 1, 0, 0, 0, 0, 0, 0]
  {
  }

  lemma QuestionAccepted(name: Octets, t: AddressRecordType, m: Octets, next: nat)
    requires NameAt(m, DNS_HEADER_BYTES) == Some((name, next)) && next + 4 <= |m|
    requires GetU16(m, next) == Code(t) && GetU16(m, next + 2) == CLASS_IN
    ensures QuestionCheck(name, t, m) == Some(next + 4)
  {
    hide NameAt;
  }

  lemma Regroup(header: Octets, encoded: Octets, code: Octets, class_: Octets, rest: Octets)
    ensures header + (encoded + code + class_) + rest == (header + encoded) + ((code + class_) + rest)
  {
  }

  // ---------------------------------------------------------------- resource records

  /** One resource record and the offset after it. */
  function RecordAt(m: Octets, at: nat): Option<(ResourceRecord, nat)>
  {
    match NameAt(m, at)
    case None => None
    case Some((owner, next)) =>
      if next + 10 > |m| then None
      else
        var ttl := GetU16(m, next + 4) * 0x1_0000 + GetU16(m, next + 6);
        var start := next + 10;
        var end := start + GetU16(m, next + 8);
        if end > |m| then None
        else Some((ResourceRecord(owner, GetU16(m, next), GetU16(m, next + 2), ttl, start, end), end))
  }

  function RecordsAt(m: Octets, at: nat, count: nat): Option<seq<ResourceRecord>>
    decreases count
  {
    if count == 0 then Some([])
    else
      match RecordAt(m, at)
      case None => None
      case Some((record, next)) =>
        match RecordsAt(m, next, count - 1)
        case None => None
        case Some(rest) => Some([record] + rest)
  }

  function Prefixed(read: seq<ResourceRecord>, tail: Option<seq<ResourceRecord>>): Option<seq<ResourceRecord>>
  {
    if tail.None? then None else Some(read + tail.value)
  }

  method ReadRecord(m: Octets, at: nat) returns (r: Option<(ResourceRecord, nat)>)
    ensures r == RecordAt(m, at)
  {
    hide NameAt;
    var named := DecodeName(m, at);
    if named.None? || named.value.1 + 10 > |m| {
      return None;
    }
    var (owner, next) := named.value;
    var rrType, rrClass := GetU16(m, next), GetU16(m, next + 2);
    var ttl := GetU16(m, next + 4) * 0x1_0000 + GetU16(m, next + 6);
    var start := next + 10;
    var end := start + GetU16(m, next + 8);
    if end > |m| {
      return None;
    }
    return Some((ResourceRecord(owner, rrType, rrClass, ttl, start, end), end));
  }

  lemma RecordsStep(m: Octets, at: nat, count: nat, read: seq<ResourceRecord>, record: ResourceRecord, next: nat)
    requires count > 0 && RecordAt(m, at) == Some((record, next))
    ensures Prefixed(read, RecordsAt(m, at, count)) == Prefixed(read + [record], RecordsAt(m, next, count - 1))
  {
    hide NameAt, RecordAt;
    var tail := RecordsAt(m, next, count - 1);
    if tail.Some? { assert read + ([record] + tail.value) == (read + [record]) + tail.value; }
  }

  method ReadRecords(m: Octets, at: nat, count: nat) returns (r: Option<seq<ResourceRecord>>)
    ensures r == RecordsAt(m, at, count)
  {
    hide NameAt;
    var offset := at;
    var records := [];
    ghost var whole := RecordsAt(m, at, count);
    assert whole.Some? ==> [] + whole.value == whole.value;
    for i := 0 to count
      invariant whole == Prefixed(records, RecordsAt(m, offset, count - i))
    {
      var one := ReadRecord(m, offset);
      if one.None? {
        return None;
      }
      RecordsStep(m, offset, count - i, records, one.value.0, one.value.1);
      records := records + [one.value.0];
      offset := one.value.1;
    }
    assert records + [] == records;
    return Some(records);
  }

  // ---------------------------------------------------------------- aliases

  predicate IsAlias(r: ResourceRecord) { r.rrClass == CLASS_IN && r.rrType == TYPE_CNAME }

  /** The alias edge of an IN CNAME record: its data must be one name and nothing else. */
  function EdgeOf(m: Octets, r: ResourceRecord): Edge<Octets>
  {
    match NameAt(m, r.start)
    case None => Edge(r.owner, None, r.ttl)
    case Some((target, next)) => Edge(r.owner, if next == r.end then Some(target) else None, r.ttl)
  }

  function Aliases(m: Octets, records: seq<ResourceRecord>): seq<Edge<Octets>>
  {
    if records == [] then []
    else if IsAlias(records[0]) then [EdgeOf(m, records[0])] + Aliases(m, records[1..])
    else Aliases(m, records[1..])
  }

  method ReadAlias(m: Octets, r: ResourceRecord) returns (e: Edge<Octets>)
    ensures e == EdgeOf(m, r)
  {
    hide NameAt;
    var named := DecodeName(m, r.start);
    e := Edge(r.owner, if named.Some? && named.value.1 == r.end then Some(named.value.0) else None, r.ttl);
  }

  /** One pass of the alias loop over all records, growing the set as it goes. */
  method AliasPass(m: Octets, records: seq<ResourceRecord>, names: set<Octets>, ttl: Option<nat>)
    returns (r: Closure<Octets>)
    ensures r == Pass(Aliases(m, records), names, ttl)
  {
    hide NameAt;
    var accepted, chainTtl := names, ttl;
    for i := 0 to |records|
      invariant Pass(Aliases(m, records), names, ttl) == Pass(Aliases(m, records[i..]), accepted, chainTtl)
    {
      var record := records[i];
      assert records[i..][1..] == records[i + 1..];
      if !IsAlias(record) {
        continue;
      }
      ghost var rest := Aliases(m, records[i + 1..]);
      assert Aliases(m, records[i..]) == [EdgeOf(m, record)] + rest;
      assert ([EdgeOf(m, record)] + rest)[1..] == rest;
      if record.owner !in accepted {
        continue;
      }
      var edge := ReadAlias(m, record);
      if edge.target.None? {
        return Rejected;
      }
      chainTtl := Some(MinTtl(chainTtl, record.ttl));
      accepted := accepted + {edge.target.value};
    }
    return Accepted(accepted, chainTtl);
  }

  method AcceptNames(query: Octets, m: Octets, records: seq<ResourceRecord>) returns (r: Closure<Octets>)
    ensures r == AcceptedNames(Aliases(m, records), query)
  {
    var accepted, chainTtl := {query}, None;
    ghost var edges := Aliases(m, records);
    var hops: nat := MAX_DNS_ALIAS_HOPS;
    while hops > 0
      invariant AcceptedNames(edges, query) == Iterate(edges, accepted, chainTtl, hops)
    {
      var p := AliasPass(m, records, accepted, chainTtl);
      if p.Rejected? {
        return Rejected;
      }
      chainTtl := p.ttl;
      if p.names == accepted {
        return Accepted(accepted, chainTtl);
      }
      accepted := p.names;
      if |accepted| > MAX_DNS_ALIAS_HOPS + 1 {
        return Rejected;
      }
      hops := hops - 1;
    }
    return Accepted(accepted, chainTtl);
  }

  // ---------------------------------------------------------------- addresses

  /** A record that answers the query: right class and family, owned by an accepted name. */
  predicate Answers(r: ResourceRecord, t: AddressRecordType, names: set<Octets>)
  {
    r.rrClass == CLASS_IN && r.rrType == Code(t) && r.owner in names
  }

  predicate RightLength(r: ResourceRecord, t: AddressRecordType) { r.end - r.start == if t.A? then 4 else 16 }

  predicate RecordInside(m: Octets, r: ResourceRecord) { r.start <= r.end <= |m| }

  function AddressOf(m: Octets, r: ResourceRecord, t: AddressRecordType): Ip
    requires RecordInside(m, r) && RightLength(r, t)
  {
    if t.A? then V4(m[r.start..r.end]) else V6(m[r.start..r.end])
  }

  predicate AllInside(m: Octets, records: seq<ResourceRecord>)
  {
    forall i :: 0 <= i < |records| ==> RecordInside(m, records[i])
  }

  /** The addresses of the answering records, in record order; ill-formed records contribute none. */
  function AnswerAddresses(m: Octets, records: seq<ResourceRecord>, t: AddressRecordType, names: set<Octets>): seq<Ip>
    requires AllInside(m, records)
  {
    if records == [] then []
    else
      var last := records[|records| - 1];
      AnswerAddresses(m, records[..|records| - 1], t, names)
      + if Answers(last, t, names) && RightLength(last, t) then [AddressOf(m, last, t)] else []
  }

  lemma {:induction false} AnswerAddressesBacked(m: Octets, records: seq<ResourceRecord>, t: AddressRecordType, names: set<Octets>)
    requires AllInside(m, records)
    ensures forall x :: x in AnswerAddresses(m, records, t, names) <==> Backed(m, records, t, names, x)
  {
    if records != [] {
      var n := |records| - 1;
      var front := records[..n];
      AnswerAddressesBacked(m, front, t, names);
      forall x ensures x in AnswerAddresses(m, records, t, names) <==> Backed(m, records, t, names, x) {
        if Backed(m, front, t, names, x) {
          var i :| 0 <= i < |front| && Answers(front[i], t, names) && RightLength(front[i], t) && AddressOf(m, front[i], t) == x;
          assert records[i] == front[i];
        }
        if Backed(m, records, t, names, x) {
          var i :| 0 <= i < |records| && Answers(records[i], t, names) && RightLength(records[i], t) && AddressOf(m, records[i], t) == x;
          if i < n { assert front[i] == records[i]; }
        }
      }
    }
  }

  /**
   * What the answering records of some accepted names say: refused when one of them has the wrong length, no
   * records when there are none, else their addresses once each, in order, the first 16, with the least TTL.
   */
  ghost predicate AnswerFrom(m: Octets, records: seq<ResourceRecord>, t: AddressRecordType, names: set<Octets>,
                             chainTtl: Option<nat>, r: Result<DnsAnswer, DnsErrorKind>)
    requires AllInside(m, records)
  {
    && (r == Err(InvalidResponse)
        <==> exists i :: 0 <= i < |records| && Answers(records[i], t, names) && !RightLength(records[i], t))
    && (r == Err(NoRecords) <==> forall i :: 0 <= i < |records| ==> !Answers(records[i], t, names))
    && (r.Err? ==> r.error in {InvalidResponse, NoRecords})
    && (r.Ok? ==> r.value.addresses == FirstSixteen(Added([], AnswerAddresses(m, records, t, names))))
    && (r.Ok? ==> AnswerTtl(records, t, names, chainTtl, r.value.ttl))
  }

  /**
   * The address half of `resolve_addresses_through_aliases`: every answering record contributes its address
   * once, in order, and its TTL, and the first 16 addresses are kept; one answering record of the wrong length
   * refuses the response.
   */
  method CollectAddresses(m: Octets, records: seq<ResourceRecord>, t: AddressRecordType,
                          names: set<Octets>, chainTtl: Option<nat>)
    returns (r: Result<DnsAnswer, DnsErrorKind>)
    requires AllInside(m, records)
    ensures AnswerFrom(m, records, t, names, chainTtl, r)
    ensures r.Ok? ==> 0 < |r.value.addresses| <= MAX_RESOLVED_ADDRESSES && Distinct(r.value.addresses)
  {
    hide Added, AnswerTtl, AnswerAddresses, FirstSixteen, Dedup;
    var addresses: seq<Ip> := [];
    var ttl := chainTtl;
    NothingRead(m, records, t, names, chainTtl);
    for i := 0 to |records|
      invariant forall j :: 0 <= j < i && Answers(records[j], t, names) ==> RightLength(records[j], t)
      invariant addresses == [] <==> forall j :: 0 <= j < i ==> !Answers(records[j], t, names)
      invariant addresses == Added([], AnswerAddresses(m, records[..i], t, names))
      invariant AnswerTtl(records[..i], t, names, chainTtl, ttl)
    {
      var record := records[i];
      AnswerTtlStep(records, i, t, names, chainTtl, ttl);
      AnswerAddressesStep(m, records, i, t, names);
      if Answers(record, t, names) {
        if !RightLength(record, t) {
          return Err(InvalidResponse);
        }
        var address := AddressOf(m, record, t);
        if address !in addresses {
          addresses := addresses + [address];
        }
        ttl := Some(MinTtl(ttl, record.ttl));
      }
    }
    assert records[..|records|] == records;
    var kept := DeduplicateBounded(addresses);
    AddedLaws([], AnswerAddresses(m, records, t, names));
    DedupLaws(addresses);
    if kept == [] {
      return Err(NoRecords);
    }
    return Ok(DnsAnswer(kept, ttl));
  }

  lemma AnswerAddressesStep(m: Octets, records: seq<ResourceRecord>, i: nat, t: AddressRecordType, names: set<Octets>)
    requires AllInside(m, records) && i < |records|
    ensures var before := Added([], AnswerAddresses(m, records[..i], t, names));
            Added([], AnswerAddresses(m, records[..i + 1], t, names))
            == if Answers(records[i], t, names) && RightLength(records[i], t) && AddressOf(m, records[i], t) !in before
               then before + [AddressOf(m, records[i], t)] else before
  {
    assert records[..i + 1][..i] == records[..i];
    var known := AnswerAddresses(m, records[..i], t, names);
    if Answers(records[i], t, names) && RightLength(records[i], t) {
      AddedOneMore([], known, AddressOf(m, records[i], t));
    } else {
      assert known + [] == known;
    }
  }

  /** The least of the chain TTL and the TTLs of all answering records. */
  ghost predicate AnswerTtl(records: seq<ResourceRecord>, t: AddressRecordType, names: set<Octets>,
                            chainTtl: Option<nat>, ttl: Option<nat>)
  {
    && (chainTtl.Some? ==> ttl.Some? && ttl.value <= chainTtl.value)
    && (forall i :: 0 <= i < |records| && Answers(records[i], t, names) ==> ttl.Some? && ttl.value <= records[i].ttl)
    && (ttl == chainTtl
        || exists i :: 0 <= i < |records| && Answers(records[i], t, names) && ttl == Some(records[i].ttl))
  }

  lemma NothingRead(m: Octets, records: seq<ResourceRecord>, t: AddressRecordType, names: set<Octets>, chainTtl: Option<nat>)
    requires AllInside(m, records)
    ensures AnswerTtl(records[..0], t, names, chainTtl, chainTtl)
    ensures Added([], AnswerAddresses(m, records[..0], t, names)) == []
  {
  }

  lemma AnswerTtlStep(records: seq<ResourceRecord>, i: nat, t: AddressRecordType, names: set<Octets>,
                      chainTtl: Option<nat>, ttl: Option<nat>)
    requires i < |records| && AnswerTtl(records[..i], t, names, chainTtl, ttl)
    ensures AnswerTtl(records[..i + 1], t, names, chainTtl,
                      if Answers(records[i], t, names) then Some(MinTtl(ttl, records[i].ttl)) else ttl)
  {
    var shorter, longer := records[..i], records[..i + 1];
    assert longer == shorter + [records[i]];
    assert longer[i] == records[i];
    if ttl != chainTtl {
      var j :| 0 <= j < |shorter| && Answers(shorter[j], t, names) && ttl == Some(shorter[j].ttl);
      assert longer[j] == shorter[j];
    }
  }

  // ---------------------------------------------------------------- the whole response

  lemma {:induction false} RecordsInside(m: Octets, at: nat, count: nat)
    ensures RecordsAt(m, at, count).Some? ==> AllInside(m, RecordsAt(m, at, count).value)
    decreases count
  {
    hide NameAt;
    if count > 0 && RecordAt(m, at).Some? {
      RecordsInside(m, RecordAt(m, at).value.1, count - 1);
    }
  }

  /** The records of a response whose header and question are those of an answer to this query. */
  function RecordsFor(expectedId: U16, name: Octets, t: AddressRecordType, m: Octets): (r: Option<seq<ResourceRecord>>)
    ensures r.Some? ==> AllInside(m, r.value)
  {
    var header := HeaderCheck(expectedId, m);
    if header.Err? then None
    else
      match QuestionCheck(name, t, m)
      case None => None
      case Some(offset) => RecordsInside(m, offset, header.value); RecordsAt(m, offset, header.value)
  }

  ghost function Trusted(m: Octets, name: Octets, records: seq<ResourceRecord>): set<Octets>
  {
    ReachSet(Aliases(m, records), name)
  }

  /** Some record of the right class and family, owned by a trusted name, carries this address. */
  ghost predicate Backed(m: Octets, records: seq<ResourceRecord>, t: AddressRecordType, names: set<Octets>, x: Ip)
    requires AllInside(m, records)
  {
    exists i :: 0 <= i < |records| && Answers(records[i], t, names) && RightLength(records[i], t)
                && AddressOf(m, records[i], t) == x
  }

  method CheckQuestion(name: Octets, t: AddressRecordType, m: Octets) returns (r: Option<nat>)
    ensures r == QuestionCheck(name, t, m)
  {
    hide NameAt;
    var echoed := DecodeName(m, DNS_HEADER_BYTES);
    if echoed.None? || echoed.value.0 != name || echoed.value.1 + 4 > |m| {
      return None;
    }
    var next := echoed.value.1;
    if GetU16(m, next) != Code(t) || GetU16(m, next + 2) != CLASS_IN {
      return None;
    }
    return Some(next + 4);
  }

  /** What `parse_address_response` makes of a message, down to the error of every refusal. */
  ghost predicate ParseOutcome(expectedId: U16, name: Octets, t: AddressRecordType, m: Octets,
                               r: Result<DnsAnswer, DnsErrorKind>)
  {
    if HeaderCheck(expectedId, m).Err? then r == Err(HeaderCheck(expectedId, m).error)
    else
      match RecordsFor(expectedId, name, t, m)
      case None => r == Err(InvalidResponse)
      case Some(records) =>
        match AcceptedNames(Aliases(m, records), name)
        case Rejected => r == Err(InvalidResponse)
        case Accepted(names, chainTtl) => AnswerFrom(m, records, t, names, chainTtl, r)
  }

  /** `parse_address_response`, on every message. */
  method ParseAddressResponse(expectedId: U16, name: Octets, t: AddressRecordType, m: Octets)
    returns (r: Result<DnsAnswer, DnsErrorKind>)
    ensures ParseOutcome(expectedId, name, t, m, r)
    ensures r.Ok? ==> 0 < |r.value.addresses| <= MAX_RESOLVED_ADDRESSES && Distinct(r.value.addresses)
  {
    hide NameAt, RecordsAt, AcceptedNames, Aliases, AnswerFrom;
    var header := HeaderCheck(expectedId, m);
    if header.Err? {
      return Err(header.error);
    }
    var question := CheckQuestion(name, t, m);
    if question.None? {
      return Err(InvalidResponse);
    }
    var read := ReadRecords(m, question.value, header.value);
    if read.None? {
      return Err(InvalidResponse);
    }
    RecordsInside(m, question.value, header.value);
    var accepted := AcceptNames(name, m, read.value);
    if accepted.Rejected? {
      return Err(InvalidResponse);
    }
    r := CollectAddresses(m, read.value, t, accepted.names, accepted.ttl);
  }

  /** The outcome of a response is determined: no two results satisfy its description. */
  lemma OutcomeIsUnique(expectedId: U16, name: Octets, t: AddressRecordType, m: Octets,
                        a: Result<DnsAnswer, DnsErrorKind>, b: Result<DnsAnswer, DnsErrorKind>)
    requires ParseOutcome(expectedId, name, t, m, a) && ParseOutcome(expectedId, name, t, m, b)
    ensures a == b
  {
    hide NameAt, RecordsFor, AcceptedNames, Aliases;
  }

  /**
   * An accepted answer is backed, address by address, by records of the response that an alias path connects
   * to the query, however many names are connected and in whatever order they are listed.
   */
  lemma AnswersAreBacked(expectedId: U16, name: Octets, t: AddressRecordType, m: Octets,
                         r: Result<DnsAnswer, DnsErrorKind>, x: Ip)
    requires ParseOutcome(expectedId, name, t, m, r) && r.Ok? && x in r.value.addresses
    ensures RecordsFor(expectedId, name, t, m).Some?
    ensures var records := RecordsFor(expectedId, name, t, m).value;
            Backed(m, records, t, Trusted(m, name, records), x)
  {
    hide NameAt, RecordsFor, AcceptedNames, ReachSet, Aliases, AnswerTtl, Added, AnswerAddresses;
    var records := RecordsFor(expectedId, name, t, m).value;
    var edges := Aliases(m, records);
    var names := AcceptedNames(edges, name).names;
    AcceptedNamesExact(edges, name);
    AddedLaws([], AnswerAddresses(m, records, t, names));
    AnswerAddressesBacked(m, records, t, names);
    BackedByMore(m, records, t, names, ReachSet(edges, name), x);
  }

  /**
   * No answer to another question: a message whose question is not the one asked gives neither an answer nor, past its
   * header, the verdict that there are no records. It is refused.
   */
  lemma OtherQuestionsAreRefused(expectedId: U16, name: Octets, t: AddressRecordType, r: Result<DnsAnswer, DnsErrorKind>,
                                 header: Octets, q: Octets, rrType: U16, rrClass: U16, rest: Octets)
    requires |header| == 12 && Normal(q) && AllValidLabels(Split(q))
    requires ParseOutcome(expectedId, name, t, header + AnyQuestion(q, rrType, rrClass) + rest, r)
    requires HeaderCheck(expectedId, header + AnyQuestion(q, rrType, rrClass) + rest).Ok?
    requires !(q == name && rrType == (if t.A? then 1 else 28) && rrClass == 1)
    ensures r == Err(InvalidResponse)
  {
    hide NameAt, RecordsAt, QuestionCheck, HeaderCheck, AnyQuestion, AcceptedNames, Aliases, AnswerFrom, Normalize, Split;
    QuestionIff(header, q, rrType, rrClass, rest, name, t);
  }

  /**
   * With at most 16 connected names, the outcome is the one of the connected names: refused when an alias of theirs is
   * malformed, else every address they own counts, and the TTL is the least of every alias and address record.
   */
  lemma OutcomeOfReachableNames(expectedId: U16, name: Octets, t: AddressRecordType, m: Octets,
                                r: Result<DnsAnswer, DnsErrorKind>)
    requires ParseOutcome(expectedId, name, t, m, r) && RecordsFor(expectedId, name, t, m).Some?
    requires |Trusted(m, name, RecordsFor(expectedId, name, t, m).value)| <= MAX_DNS_ALIAS_HOPS
    ensures var records := RecordsFor(expectedId, name, t, m).value;
            var names := Trusted(m, name, records);
            if WellFormed(Aliases(m, records), names)
            then exists chainTtl :: LeastTtl(Aliases(m, records), names, chainTtl)
                                    && AnswerFrom(m, records, t, names, chainTtl, r)
            else r == Err(InvalidResponse)
  {
    hide NameAt, RecordsAt, AcceptedNames, ReachSet, Aliases, LeastTtl, AnswerFrom, WellFormed;
    var edges := Aliases(m, RecordsFor(expectedId, name, t, m).value);
    AcceptedNamesExact(edges, name);
    if WellFormed(edges, ReachSet(edges, name)) { AcceptedTtlExact(edges, name); }
  }

  lemma BackedByMore(m: Octets, records: seq<ResourceRecord>, t: AddressRecordType,
                     names: set<Octets>, more: set<Octets>, x: Ip)
    requires AllInside(m, records) && names <= more && Backed(m, records, t, names, x)
    ensures Backed(m, records, t, more, x)
  {
    var i :| 0 <= i < |records| && Answers(records[i], t, names) && RightLength(records[i], t)
             && AddressOf(m, records[i], t) == x;
    assert Answers(records[i], t, more);
  }
}
