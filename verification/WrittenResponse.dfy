/**
 * A server that writes responses as the tests of crates/dns/src/wire.rs do, owner names spelled out or as a
 * pointer to the question, and the proof that the parser reads back every record of whatever it writes.
 */
module WrittenResponse {
  import opened Bytes
  import opened Names
  import opened WireName
  import opened AliasClosure
  import opened Net
  import opened Addresses
  import opened DnsResponse

  /** Record data: any octets, a name, or a name with octets after it, which no alias may have. */
  datatype Data = Raw(octets: Octets) | Name(name: Octets) | Overfull(name: Octets, extra: Octets)

  /** A record to be written; its owner is spelled out, or is the queried name and points to the question. */
  datatype Written = Written(owner: Octets, pointer: bool, rrType: U16, rrClass: U16, ttl: nat, data: Data)

  predicate Encodes(name: Octets) { AllValidLabels(Split(name)) }

  function DataOctets(d: Data): Octets
    requires !d.Raw? ==> Encodes(d.name)
  {
    match d
    case Raw(octets) => octets
    case Name(name) => EncodedName(name)
    case Overfull(name, extra) => EncodedName(name) + extra
  }

  /** Class IN, type CNAME. */
  predicate WrittenAlias(w: Written) { w.rrClass == 1 && w.rrType == 5 }

  /** Owners and aliased names are normal, the fields fit, and an alias carries a name, perhaps with more after it. */
  predicate Writable(w: Written)
  {
    && Normal(w.owner) && Encodes(w.owner) && w.ttl < 0x1_0000_0000
    && (!w.data.Raw? ==> Normal(w.data.name) && Encodes(w.data.name))
    && (w.data.Overfull? ==> w.data.extra != [])
    && |DataOctets(w.data)| <= MAX_DNS_MESSAGE_BYTES && (WrittenAlias(w) ==> !w.data.Raw?)
  }

  predicate AllWritable(ws: seq<Written>) { forall i :: 0 <= i < |ws| ==> Writable(ws[i]) }

  function Fields(w: Written): (r: Octets)
    requires Writable(w)
    ensures |r| == 10
  {
    PutU16(w.rrType) + PutU16(w.rrClass) + PutU16(w.ttl / 0x1_0000) + PutU16(w.ttl % 0x1_0000)
    + PutU16(|DataOctets(w.data)|)
  }

  const QUESTION_POINTER: Octets := [192, DNS_HEADER_BYTES]

  function OwnerOctets(w: Written): Octets
    requires Writable(w)
  {
    if w.pointer then QUESTION_POINTER else EncodedName(w.owner)
  }

  function RecordOctets(w: Written): Octets
    requires Writable(w)
  {
    OwnerOctets(w) + (Fields(w) + DataOctets(w.data))
  }

  function Section(ws: seq<Written>): Octets
    requires AllWritable(ws)
  {
    if ws == [] then [] else RecordOctets(ws[0]) + Section(ws[1..])
  }

  function ResponseHeader(id: U16, flags: U16, questions: U16, answers: U16, others: (U16, U16)): (h: Octets)
    ensures |h| == DNS_HEADER_BYTES
  {
    PutU16(id) + PutU16(flags) + PutU16(questions) + PutU16(answers) + PutU16(others.0) + PutU16(others.1)
  }

  /** Flags of an answer: the response bit, no truncation, no error code. */
  predicate Answering(flags: U16) { flags >= 0x8000 && flags / 0x200 % 2 == 0 && flags % 16 == 0 }

  /** A whole response; `rest` is whatever follows the answer section. */
  function Response(id: U16, flags: U16, others: (U16, U16), name: Octets, t: AddressRecordType,
                    ws: seq<Written>, rest: Octets): Octets
    requires Encodes(name) && AllWritable(ws) && |ws| <= MAX_DNS_ANSWER_RECORDS
  {
    ResponseHeader(id, flags, 1, |ws|, others) + Question(name, t) + (Section(ws) + rest)
  }

  // ---------------------------------------------------------------- one record

  /** The record that a reader finds at an offset. */
  function Placed(w: Written, at: nat): ResourceRecord
    requires Writable(w)
  {
    var start := at + |OwnerOctets(w)| + 10;
    ResourceRecord(w.owner, w.rrType, w.rrClass, w.ttl, start, start + |DataOctets(w.data)|)
  }

  lemma FieldsReadBack(before: Octets, w: Written, rest: Octets)
    requires Writable(w)
    ensures var m, at := before + (Fields(w) + rest), |before|;
            && GetU16(m, at) == w.rrType && GetU16(m, at + 2) == w.rrClass
            && GetU16(m, at + 4) * 0x1_0000 + GetU16(m, at + 6) == w.ttl
            && GetU16(m, at + 8) == |DataOctets(w.data)|
  {
    hide DataOctets, Writable;
    var m, at := before + (Fields(w) + rest), |before|;
    forall i | 0 <= i < 10 ensures m[at + i] == Fields(w)[i] { }
  }

  /** What stands before a record: a header and the queried name come first. */
  ghost predicate AfterQuestion(pre: Octets, query: Octets)
  {
    Normal(query) && Encodes(query) && |pre| >= DNS_HEADER_BYTES && EncodedName(query) <= pre[DNS_HEADER_BYTES..]
  }

  /** A pointer to the question reads as the queried name. */
  lemma PointerReadsQuery(pre: Octets, query: Octets, tail: Octets)
    requires AfterQuestion(pre, query)
    ensures NameAt(pre + QUESTION_POINTER + tail, |pre|) == Some((query, |pre| + 2))
  {
    hide Normalize, Expand, EncodedName, AfterQuestion, Split, Join, PieceAt;
    var m, at := pre + QUESTION_POINTER + tail, DNS_HEADER_BYTES;
    QuestionStands(pre, query, QUESTION_POINTER + tail);
    assert m == pre + (QUESTION_POINTER + tail);
    var rest := m[at + |EncodedName(query)|..];
    NormalIff(query);
    JoinSplit(query);
    ExpandEncodedName(m[..at], query, rest, MAX_DNS_NAME_POINTER_HOPS - 1);
    PointerPieces(pre, at, tail);
    JumpExpands(m, |pre|, at, MAX_DNS_NAME_POINTER_HOPS);
    assert [] + Split(query) == Split(query);
  }

  lemma QuestionStands(pre: Octets, query: Octets, tail: Octets)
    requires AfterQuestion(pre, query)
    ensures Normal(query) && Encodes(query) && |pre| > DNS_HEADER_BYTES
    ensures var m, end := pre + tail, DNS_HEADER_BYTES + |EncodedName(query)|;
            end <= |m| && m == m[..DNS_HEADER_BYTES] + EncodedName(query) + m[end..]
  {
    hide EncodedName, Normalize;
    var m, at := pre + tail, DNS_HEADER_BYTES;
    var name := EncodedName(query);
    EncodedNameLength(query);
    assert m[at..at + |name|] == pre[at..][..|name|] == name;
  }

  lemma JumpExpands(m: Octets, at: nat, pointer: nat, hops: nat)
    requires PieceAt(m, at) == Jump(pointer) && hops > 0
    ensures Expand(m, at, hops) == Resume([], Some(at + 2), Expand(m, pointer, hops - 1))
  {
  }

  lemma OwnerReadsBack(pre: Octets, query: Octets, w: Written, tail: Octets)
    requires Writable(w) && AfterQuestion(pre, query) && (w.pointer ==> w.owner == query)
    ensures NameAt(pre + OwnerOctets(w) + tail, |pre|) == Some((w.owner, |pre| + |OwnerOctets(w)|))
  {
    hide NameAt, EncodedName;
    if w.pointer {
      PointerReadsQuery(pre, query, tail);
    } else {
      NameRoundTrip(pre, w.owner, tail);
      EncodedNameLength(w.owner);
    }
  }

  /** A record read from `m` is the one that was written. */
  ghost predicate ReadsAs(m: Octets, r: ResourceRecord, w: Written)
    requires Writable(w)
  {
    && r.owner == w.owner && r.rrType == w.rrType && r.rrClass == w.rrClass && r.ttl == w.ttl
    && RecordInside(m, r) && m[r.start..r.end] == DataOctets(w.data)
  }

  /** One record is read back, whatever follows it. */
  lemma RecordRoundTrip(pre: Octets, query: Octets, w: Written, post: Octets)
    requires Writable(w) && AfterQuestion(pre, query) && (w.pointer ==> w.owner == query)
    ensures var m := pre + (RecordOctets(w) + post);
            && RecordAt(m, |pre|) == Some((Placed(w, |pre|), |pre| + |RecordOctets(w)|))
            && ReadsAs(m, Placed(w, |pre|), w)
  {
    hide NameAt, OwnerOctets, DataOctets, Fields, Normalize, AfterQuestion;
    var m := pre + (RecordOctets(w) + post);
    var owner, tail := OwnerOctets(w), Fields(w) + (DataOctets(w.data) + post);
    assert m == pre + owner + tail;
    OwnerReadsBack(pre, query, w, tail);
    assert m == (pre + owner) + (Fields(w) + (DataOctets(w.data) + post));
    FieldsReadBack(pre + owner, w, DataOctets(w.data) + post);
    var start := |pre| + |owner| + 10;
    assert m[start..start + |DataOctets(w.data)|] == DataOctets(w.data);
  }

  // ---------------------------------------------------------------- the answer section

  function AllPlaced(ws: seq<Written>, at: nat): (r: seq<ResourceRecord>)
    requires AllWritable(ws)
    ensures |r| == |ws|
  {
    if ws == [] then [] else [Placed(ws[0], at)] + AllPlaced(ws[1..], at + |RecordOctets(ws[0])|)
  }

  ghost predicate AllReadAs(m: Octets, rs: seq<ResourceRecord>, ws: seq<Written>)
    requires AllWritable(ws)
  {
    |rs| == |ws| && forall i :: 0 <= i < |ws| ==> ReadsAs(m, rs[i], ws[i])
  }

  predicate PointersMean(ws: seq<Written>, query: Octets)
  {
    forall i :: 0 <= i < |ws| && ws[i].pointer ==> ws[i].owner == query
  }

  lemma LongerAfterQuestion(pre: Octets, query: Octets, more: Octets)
    requires AfterQuestion(pre, query)
    ensures AfterQuestion(pre + more, query)
  {
    assert (pre + more)[DNS_HEADER_BYTES..] == pre[DNS_HEADER_BYTES..] + more;
  }

  lemma Nest(pre: Octets, head: Octets, tail: Octets, post: Octets)
    ensures pre + ((head + tail) + post) == pre + (head + (tail + post))
    ensures pre + ((head + tail) + post) == (pre + head) + (tail + post)
  {
  }

  /** Every record of the section is read back, whatever follows it. */
  lemma {:induction false} SectionRoundTrip(pre: Octets, query: Octets, ws: seq<Written>, post: Octets)
    requires AllWritable(ws) && AfterQuestion(pre, query) && PointersMean(ws, query)
    ensures var m := pre + (Section(ws) + post);
            && RecordsAt(m, |pre|, |ws|) == Some(AllPlaced(ws, |pre|))
            && AllReadAs(m, AllPlaced(ws, |pre|), ws)
    decreases |ws|
  {
    hide RecordAt, RecordOctets, Writable, Placed, ReadsAs, AfterQuestion;
    if ws != [] {
      var head := RecordOctets(ws[0]);
      Nest(pre, head, Section(ws[1..]), post);
      RecordRoundTrip(pre, query, ws[0], Section(ws[1..]) + post);
      LongerAfterQuestion(pre, query, head);
      SectionRoundTrip(pre + head, query, ws[1..], post);
    }
  }

  // ---------------------------------------------------------------- header and question

  lemma HeaderFields(id: U16, flags: U16, questions: U16, n: U16, others: (U16, U16), rest: Octets)
    ensures var m := ResponseHeader(id, flags, questions, n, others) + rest;
            GetU16(m, 0) == id && GetU16(m, 2) == flags && GetU16(m, 4) == questions && GetU16(m, 6) == n
  {
    var h := ResponseHeader(id, flags, questions, n, others);
    forall i | 0 <= i < 12 ensures (h + rest)[i] == h[i] { }
  }

  /**
   * A header passes exactly when it repeats the identifier, says that it answers, and counts one question and at most
   * 512 records, in a message of at most 65,535 octets. An answer cut short or with an error code is a resolver
   * failure, but for code 3, which means no records; everything else is an invalid response.
   */
  lemma HeaderPasses(expectedId: U16, id: U16, flags: U16, questions: U16, n: U16, others: (U16, U16), rest: Octets)
    ensures var r := HeaderCheck(expectedId, ResponseHeader(id, flags, questions, n, others) + rest);
            var ours := id == expectedId && flags >= 0x8000 && 12 + |rest| <= 65_535;
            && (r.Ok? <==> ours && Answering(flags) && questions == 1 && n <= 512)
            && (r.Ok? ==> r.value == n)
            && (r == Err(NoRecords) <==> ours && flags / 0x200 % 2 == 0 && flags % 16 == 3)
            && (r == Err(ResolverFailure) <==> ours && (flags / 0x200 % 2 == 1 || flags % 16 !in {0, 3}))
            && (r.Err? ==> r.error in {NoRecords, ResolverFailure, InvalidResponse})
  {
    hide GetU16, ResponseHeader;
    HeaderFields(id, flags, questions, n, others, rest);
  }

  lemma ShortMessagesAreInvalid(expectedId: U16, m: Octets)
    requires |m| < 12
    ensures HeaderCheck(expectedId, m) == Err(InvalidResponse)
  {
  }

  /** Everything of a written response is read back: its header, its question, and its records in order. */
  lemma ResponseReadsBack(id: U16, flags: U16, others: (U16, U16), name: Octets, t: AddressRecordType,
                          ws: seq<Written>, rest: Octets)
    requires Normal(name) && Encodes(name) && Answering(flags)
    requires AllWritable(ws) && PointersMean(ws, name) && |ws| <= MAX_DNS_ANSWER_RECORDS
    requires |Response(id, flags, others, name, t, ws, rest)| <= MAX_DNS_MESSAGE_BYTES
    ensures var m := Response(id, flags, others, name, t, ws, rest);
            var records := RecordsFor(id, name, t, m);
            HeaderCheck(id, m).Ok? && records.Some? && AllReadAs(m, records.value, ws)
  {
    hide HeaderCheck, QuestionCheck, RecordsAt, ResponseHeader, Section, Normalize, AllReadAs, EncodedName;
    var m := Response(id, flags, others, name, t, ws, rest);
    var header, question := ResponseHeader(id, flags, 1, |ws|, others), Question(name, t);
    assert m == header + (question + (Section(ws) + rest));
    HeaderPasses(id, id, flags, 1, |ws|, others, question + (Section(ws) + rest));
    EchoPasses(header, name, t, Section(ws) + rest);
    EncodedNameLength(name);
    assert (header + question)[DNS_HEADER_BYTES..] == question;
    SectionRoundTrip(header + question, name, ws, rest);
  }

  // ---------------------------------------------------------------- what a response says

  /** The aliases that were written. */
  function WrittenAliases(ws: seq<Written>): seq<Edge<Octets>>
  {
    if ws == [] then []
    else if WrittenAlias(ws[0]) then [WrittenEdge(ws[0])] + WrittenAliases(ws[1..])
    else WrittenAliases(ws[1..])
  }

  function WrittenEdge(w: Written): Edge<Octets>
  {
    Edge(w.owner, if w.data.Name? then Some(w.data.name) else None, w.ttl)
  }

  lemma AliasReadsBack(m: Octets, r: ResourceRecord, w: Written)
    requires Writable(w) && WrittenAlias(w) && ReadsAs(m, r, w)
    ensures EdgeOf(m, r) == WrittenEdge(w)
  {
    hide NameAt, EncodedName, Normalize;
    var name, pre := EncodedName(w.data.name), m[..r.start];
    var post := m[r.start + |name|..];
    EncodedNameLength(w.data.name);
    assert m == pre + m[r.start..r.end] + m[r.end..];
    assert m == pre + name + post;
    NameRoundTrip(pre, w.data.name, post);
  }

  lemma {:induction false} AliasesReadBack(m: Octets, rs: seq<ResourceRecord>, ws: seq<Written>)
    requires AllWritable(ws) && AllReadAs(m, rs, ws)
    ensures Aliases(m, rs) == WrittenAliases(ws)
    decreases |ws|
  {
    hide EdgeOf, DataOctets;
    if ws != [] {
      assert ReadsAs(m, rs[0], ws[0]) && Writable(ws[0]);
      if WrittenAlias(ws[0]) { AliasReadsBack(m, rs[0], ws[0]); }
      forall i | 0 <= i < |ws[1..]| ensures ReadsAs(m, rs[1..][i], ws[1..][i]) {
        assert ReadsAs(m, rs[i + 1], ws[i + 1]);
      }
      AliasesReadBack(m, rs[1..], ws[1..]);
    }
  }

  predicate WrittenAnswer(w: Written, t: AddressRecordType, names: set<Octets>)
  {
    w.rrClass == 1 && w.rrType == (if t.A? then 1 else 28) && w.owner in names
  }

  /** The address a record carries, unless its data has the wrong length. */
  function WrittenAddress(w: Written, t: AddressRecordType): Option<Ip>
    requires Writable(w)
  {
    var data := DataOctets(w.data);
    if t.A? then if |data| == 4 then Some(V4(data)) else None
    else if |data| == 16 then Some(V6(data)) else None
  }

  function WrittenAddresses(ws: seq<Written>, t: AddressRecordType, names: set<Octets>): seq<Ip>
    requires AllWritable(ws)
  {
    if ws == [] then []
    else
      var last := ws[|ws| - 1];
      WrittenAddresses(ws[..|ws| - 1], t, names)
      + if WrittenAnswer(last, t, names) && WrittenAddress(last, t).Some? then [WrittenAddress(last, t).value] else []
  }

  lemma AddressReadsBack(m: Octets, r: ResourceRecord, w: Written, t: AddressRecordType, names: set<Octets>)
    requires Writable(w) && ReadsAs(m, r, w)
    ensures Answers(r, t, names) == WrittenAnswer(w, t, names)
    ensures RightLength(r, t) <==> WrittenAddress(w, t).Some?
    ensures RightLength(r, t) ==> AddressOf(m, r, t) == WrittenAddress(w, t).value
  {
  }

  lemma AllReadInside(m: Octets, rs: seq<ResourceRecord>, ws: seq<Written>)
    requires AllWritable(ws) && AllReadAs(m, rs, ws)
    ensures |rs| == |ws| && AllInside(m, rs)
  {
    forall i | 0 <= i < |rs| ensures RecordInside(m, rs[i]) { assert ReadsAs(m, rs[i], ws[i]); }
  }

  lemma LastReads(m: Octets, rs: seq<ResourceRecord>, ws: seq<Written>)
    requires AllWritable(ws) && AllReadAs(m, rs, ws) && ws != []
    ensures |rs| == |ws| && Writable(ws[|ws| - 1]) && ReadsAs(m, rs[|rs| - 1], ws[|ws| - 1])
    ensures AllWritable(ws[..|ws| - 1]) && AllReadAs(m, rs[..|rs| - 1], ws[..|ws| - 1])
  {
    hide Writable, ReadsAs;
  }

  lemma {:induction false} AddressesReadBack(m: Octets, rs: seq<ResourceRecord>, ws: seq<Written>,
                                             t: AddressRecordType, names: set<Octets>)
    requires AllWritable(ws) && AllReadAs(m, rs, ws)
    ensures AllInside(m, rs) && AnswerAddresses(m, rs, t, names) == WrittenAddresses(ws, t, names)
    decreases |ws|
  {
    hide WrittenAddress, WrittenAnswer, Answers, RightLength, AddressOf, ReadsAs, Writable;
    hide AllReadAs, AllWritable, AllInside;
    AllReadInside(m, rs, ws);
    if ws != [] {
      LastReads(m, rs, ws);
      AddressReadsBack(m, rs[|rs| - 1], ws[|ws| - 1], t, names);
      AddressesReadBack(m, rs[..|rs| - 1], ws[..|ws| - 1], t, names);
    }
  }

  /** What the records say about some names, without looking at octets. */
  ghost predicate Says(ws: seq<Written>, t: AddressRecordType, names: set<Octets>, chainTtl: Option<nat>,
                       r: Result<DnsAnswer, DnsErrorKind>)
    requires AllWritable(ws)
  {
    && (r == Err(InvalidResponse)
        <==> exists i :: 0 <= i < |ws| && WrittenAnswer(ws[i], t, names) && WrittenAddress(ws[i], t).None?)
    && (r == Err(NoRecords) <==> forall i :: 0 <= i < |ws| ==> !WrittenAnswer(ws[i], t, names))
    && (r.Err? ==> r.error in {InvalidResponse, NoRecords})
    && (r.Ok? ==> r.value.addresses == FirstSixteen(Added([], WrittenAddresses(ws, t, names))))
    && (r.Ok? ==> SaysTtl(ws, t, names, chainTtl, r.value.ttl))
  }

  /** The least of the aliases' TTL and the TTLs of the answering records. */
  ghost predicate SaysTtl(ws: seq<Written>, t: AddressRecordType, names: set<Octets>,
                          chainTtl: Option<nat>, ttl: Option<nat>)
  {
    && (chainTtl.Some? ==> ttl.Some? && ttl.value <= chainTtl.value)
    && (forall i :: 0 <= i < |ws| && WrittenAnswer(ws[i], t, names) ==> ttl.Some? && ttl.value <= ws[i].ttl)
    && (ttl == chainTtl || exists i :: 0 <= i < |ws| && WrittenAnswer(ws[i], t, names) && ttl == Some(ws[i].ttl))
  }

  /** Record by record, the read and the written one answer alike. */
  ghost predicate Alike(rs: seq<ResourceRecord>, ws: seq<Written>, t: AddressRecordType, names: set<Octets>)
    requires AllWritable(ws)
  {
    && |rs| == |ws|
    && (forall i :: 0 <= i < |ws| ==> Answers(rs[i], t, names) == WrittenAnswer(ws[i], t, names))
    && (forall i :: 0 <= i < |ws| ==> RightLength(rs[i], t) == WrittenAddress(ws[i], t).Some?)
    && (forall i :: 0 <= i < |ws| ==> rs[i].ttl == ws[i].ttl)
  }

  lemma ReadAlike(m: Octets, rs: seq<ResourceRecord>, ws: seq<Written>, t: AddressRecordType, names: set<Octets>)
    requires AllWritable(ws) && AllReadAs(m, rs, ws)
    ensures Alike(rs, ws, t, names)
  {
    hide Writable, WrittenAddress, WrittenAnswer, Answers, RightLength, AddressOf;
    forall i | 0 <= i < |ws|
      ensures Answers(rs[i], t, names) == WrittenAnswer(ws[i], t, names)
      ensures RightLength(rs[i], t) == WrittenAddress(ws[i], t).Some?
      ensures rs[i].ttl == ws[i].ttl
    {
      assert ReadsAs(m, rs[i], ws[i]) && Writable(ws[i]);
      AddressReadsBack(m, rs[i], ws[i], t, names);
    }
  }

  lemma SameTtl(rs: seq<ResourceRecord>, ws: seq<Written>, t: AddressRecordType, names: set<Octets>,
                chainTtl: Option<nat>, ttl: Option<nat>)
    requires AllWritable(ws) && Alike(rs, ws, t, names) && AnswerTtl(rs, t, names, chainTtl, ttl)
    ensures SaysTtl(ws, t, names, chainTtl, ttl)
  {
    hide Writable, WrittenAddress, WrittenAnswer, Answers, RightLength;
  }

  lemma SameRefusals(rs: seq<ResourceRecord>, ws: seq<Written>, t: AddressRecordType, names: set<Octets>)
    requires AllWritable(ws) && Alike(rs, ws, t, names)
    ensures (exists i :: 0 <= i < |rs| && Answers(rs[i], t, names) && !RightLength(rs[i], t))
            <==> exists i :: 0 <= i < |ws| && WrittenAnswer(ws[i], t, names) && WrittenAddress(ws[i], t).None?
    ensures (forall i :: 0 <= i < |rs| ==> !Answers(rs[i], t, names))
            <==> forall i :: 0 <= i < |ws| ==> !WrittenAnswer(ws[i], t, names)
  {
    hide Writable, WrittenAddress, WrittenAnswer, Answers, RightLength;
  }

  lemma SaysReadBack(m: Octets, rs: seq<ResourceRecord>, ws: seq<Written>, t: AddressRecordType,
                     names: set<Octets>, chainTtl: Option<nat>, r: Result<DnsAnswer, DnsErrorKind>)
    requires AllWritable(ws) && AllReadAs(m, rs, ws) && AllInside(m, rs)
    requires AnswerFrom(m, rs, t, names, chainTtl, r)
    ensures Says(ws, t, names, chainTtl, r)
  {
    hide Added, FirstSixteen, AnswerTtl, SaysTtl, Alike, WrittenAddresses, AnswerAddresses, AllReadAs, AllInside;
    hide Writable, WrittenAddress, WrittenAnswer, Answers, RightLength;
    AddressesReadBack(m, rs, ws, t, names);
    ReadAlike(m, rs, ws, t, names);
    SameRefusals(rs, ws, t, names);
    if r.Ok? { SameTtl(rs, ws, t, names, chainTtl, r.value.ttl); }
  }

  /**
   * Completeness. Whatever a server writes, with up to 512 records of any kinds and owners spelled out or pointing
   * to the question, the parser answers what the records say about the names that the written aliases connect to
   * the query, as long as these are at most 16; and it refuses the response when an alias of these is malformed.
   */
  lemma ServerIsUnderstood(id: U16, flags: U16, others: (U16, U16), name: Octets, t: AddressRecordType,
                           ws: seq<Written>, rest: Octets, r: Result<DnsAnswer, DnsErrorKind>)
    requires Normal(name) && Encodes(name) && Answering(flags)
    requires AllWritable(ws) && PointersMean(ws, name) && |ws| <= MAX_DNS_ANSWER_RECORDS
    requires |Response(id, flags, others, name, t, ws, rest)| <= MAX_DNS_MESSAGE_BYTES
    requires |ReachSet(WrittenAliases(ws), name)| <= MAX_DNS_ALIAS_HOPS
    requires ParseOutcome(id, name, t, Response(id, flags, others, name, t, ws, rest), r)
    ensures var names := ReachSet(WrittenAliases(ws), name);
            if WellFormed(WrittenAliases(ws), names)
            then exists chainTtl :: LeastTtl(WrittenAliases(ws), names, chainTtl) && Says(ws, t, names, chainTtl, r)
            else r == Err(InvalidResponse)
  {
    hide Response, Normalize, AllWritable, PointersMean, AllReadAs, ReachSet, LeastTtl, Says, AnswerFrom;
    hide ParseOutcome, RecordsFor, Answering, Aliases, WrittenAliases, WellFormed;
    var m := Response(id, flags, others, name, t, ws, rest);
    ResponseReadsBack(id, flags, others, name, t, ws, rest);
    var records := RecordsFor(id, name, t, m).value;
    AliasesReadBack(m, records, ws);
    OutcomeOfReachableNames(id, name, t, m, r);
    var names := ReachSet(WrittenAliases(ws), name);
    if WellFormed(WrittenAliases(ws), names) {
      var chainTtl :| LeastTtl(WrittenAliases(ws), names, chainTtl) && AnswerFrom(m, records, t, names, chainTtl, r);
      SaysReadBack(m, records, ws, t, names, chainTtl, r);
    }
  }
}
