# Commeatus in Dafny

Commeatus is a proxy daemon: it accepts client traffic, decides by policy where each flow goes, resolves names
itself, and carries TCP and UDP to a direct or proxied endpoint. Sockets, threads and TLS surround several
self-contained cores, and this project models those cores and proves what they promise over every input, every
run and every reachable state. `dafny verify dfyconfig.toml` checks it.

| module | part of the daemon |
|---|---|
| `Bytes`, `Sets`, `Net`, `Io`, `Names` | octets and UTF-8, set sizes, destinations, partial and blocked I/O, dotted names and their normal form |
| `WireName`, `AliasClosure`, `Addresses`, `DnsResponse`, `WrittenResponse` | DNS names with compression (section 4.1.4 of RFC 1035), the CNAME closure, bounded address lists, whole responses, and an independent writer of responses |
| `Cache`, `Engine`, `Dot` | the TTL cache, the lookup order with its resolver chain, the DNS-over-TLS session (section 3.3 of RFC 7858) |
| `Trojan`, `TrojanFlow`, `TrojanDatagram`, `Socks5Udp` | the Trojan UDP frame codec, the framed association over a byte stream on values and in place, the SOCKS5 UDP codec (section 7 of RFC 1928) |
| `TransparentUdp` | the transparent-UDP client table, its lazily opened routes and its token allocator |
| `TlsRelay` | the full-duplex loop between a client and a TLS session |
| `DomainSet`, `Blocklist`, `Policy`, `Config` | compiled domain sets, the blocklist compiler, tiered rules, the configuration compiler and store |
| `Limiter` | the compare-and-swap connection limiter |

Code that changes state in place is a class or a method with a loop, proved against a specification function;
theorems about whole runs are lemmas about those functions. What the environment decides (how much a write takes,
what a read delivers, whether a connect works, what the clock says) is an argument, and every theorem holds for
all its values. A class method takes the answers of one call as a script; when the script is used up the carrier
answers that it would block.

## The main theorems

- **Names.** `decode_name` computes the recursive meaning of a compressed name for every message and offset. Its
  backward-pointer check does not make it terminate: a pointer may lead back to labels that run forward to that
  same pointer, and only the hop bound ends this. The loop's measure is (hops left, octets to the end).
- **Aliases.** What the bounded in-place loop accepts is compared with the least fixed point of the alias relation;
  which responses it accepts and which records its TTL accounts for are stated exactly.
- **Responses.** Each result is determined by the message, and each accepted address is backed by a record that an
  alias path connects to the query. Conversely, whatever a server writes is understood: the answer is what its
  records say about the names that its aliases connect to the query.
- **Trojan, end to end.** Datagrams queued at one end, written in any pieces, read in any bursts at the other: no
  call fails if and only if every burst finds room behind the backlog of one incomplete frame, and then exactly the
  datagrams that were sent come out, in order, with nothing left behind.
- **Cache and engine.** The bounded cache refines an unbounded log of inserts, and over every interleaving of calls
  a cached answer goes back to the first resolver that succeeded for the same name, recently enough.
- **DNS over TLS.** On a kept session no query receives another's answer, over every sequence of uses.
- **Transparent UDP.** In every reachable state no token has two owners, not even one after the other, and the
  token map is sound; which turns can make it incomplete is stated exactly, and so is how long a client lives.
- **TLS relay.** Nothing is lost, repeated or reordered in either direction over every sequence of events, the
  client's end is shut only after all decrypted plaintext was passed on, the relay always waits for exactly what can
  move data, and once both sides have ended it returns.
- **Policy.** Sorted arrays, binary search over label tails, the stable sort by tier and the blocklist compiler all
  preserve the plain meaning of what was written, down to the words of a blocklist or configuration line, and every
  accepted configuration is closed.

## Where the code does less than expected

Each of these has a concrete input and the exact condition under which the expectation holds.

- A CNAME chain over the bound is not always refused. Listed last alias first, each of the 16 passes adds one name,
  the passes run out, and the response is accepted with its chain cut (`LongChainMayBeCut`), although the error text
  at crates/dns/src/wire.rs:204-208 speaks of refusing such chains. A well-formed response with more than 17 reachable
  names is refused if and only if one of the 16 passes over its records adds two names or more
  (`LongChainRefusedIff`); any response is accepted if and only if 16 passes find at most 17 names and the last one
  reads no malformed alias (`AcceptedIff`). An accepted response is cut if and only if more than 17 names are reachable
  (`AcceptedNamesExact`).
- The TTL of the last alias may be overlooked with 17 accepted names (`LastAliasTtlMayBeMissed`); with at most 16
  reachable names it never is (`AcceptedTtlExact`). For any number of names the chain TTL is the least of all accepted
  aliases if and only if no record that the 16th pass comes to before it knows the owner has a smaller TTL than every
  record that pass reads (`TtlIsLeastUnless`).
- A compiled domain set covers less than the suffix rule with the same suffix: it compares the queried domain as it is
  and refuses non-ASCII and over-long domains, while the rule ignores case and takes any domain
  (`UpperCaseDisagrees`, `NonAsciiDisagrees`, `LongDomainsDisagree`). The set covers a domain if and only if the rule
  matches it, it is ASCII with at most 253 octets, and its covered part has no upper-case letter
  (`SetAgreesWithRule`).
- When the remote side ends first, close_notify is queued while client octets wait (`OvertakingRun`); the condition
  is exact in `CloseNotifyMayOvertake`. Over whole runs this happens only together with shutting the client's end, and
  nothing is read from the client afterwards (`NothingReadAfterCloseNotify`).
- A token of a route that opened and then failed to send is missing from the token map until the client's next
  successful send (`OpenedRouteMayStayUnmapped`); this is the only failure that does so (`MapCompleteUnless`).
- One burst that fills the 128 KiB receive buffer fails the call although complete frames are in the buffer: two
  largest frames are delivered one after the other and lost together (`OneBurstLosesFrames`). The condition is exact in
  `DrainsExactly`, and bursts of up to 65,274 octets always meet it (`SmallBurstsFit`).
- The Trojan parser looks at a domain and at a line end only when they are complete, so it may ask for more when no
  continuation can be a frame (`VainWaits`); exactly when is stated in `WaitingIsWorthIt`.
- SOCKS5 parsing undoes SOCKS5 encoding only for targets with a port and a stable name: port zero is refused, and an
  upper-case name comes back in lower case (`UnstableTargets`); the condition is exact in `ResponseRoundTrip`.

Code and comment disagree in one place: the comment at crates/daemon/src/outbound.rs:178-180 calls every proxy endpoint
unsupported for datagrams, while the code opens the provider of an endpoint that has one. The model follows the code.

## Model

| member | source | states |
|---|---|---|
| `Names.NormalIff` | crates/dns/src/lib.rs:216-228 | the fixed points of normalisation are exactly the ASCII names of 1 to 253 octets, labels of 1 to 63, without upper-case letters |
| `Names.NormalizeIsNormal` | crates/core/src/domain_set.rs:130-144 | normalisation is idempotent: whatever it returns it leaves alone |
| `Names.NormalizeLower` | crates/dns/src/wire.rs:343-351 | lowering labels before joining them does not change the normal form of the name |
| `Names.JoinSplit` | crates/dns/src/lib.rs:221-223 | splitting a name at its dots and joining the labels gives the name back |
| `Names.NormalizeDropsDots` | crates/dns/src/lib.rs:217-227 | a name in any case with any dots around it is normalised to its lower-case form |
| `Bytes.LowerLetters` | crates/dns/src/lib.rs:217 | lowering changes the 26 capital letters to their small ones and nothing else |
| `Bytes.ScalarWidthIff` | crates/daemon/src/trojan.rs:173-236 | the UTF-8 that hosts must be: each step is the shortest spelling of a Unicode scalar value, and every such spelling is one |
| `WireName.EncodeName` | crates/dns/src/wire.rs:255-276 | refuses exactly bad labels and over-long messages, each with its own error, and otherwise appends precisely the label encoding |
| `WireName.CollectLabels` | crates/dns/src/wire.rs:278-345 | the one-cursor loop terminates on every message and gathers the labels of the recursive definition, bounded by 253 octets |
| `WireName.DecodeName` | crates/dns/src/wire.rs:278-352 | for every message and offset the result is the recursive meaning of a compressed name with at most 32 pointers |
| `WireName.NextOffset` | crates/dns/src/wire.rs:302-323 | the next offset is just after the terminating zero or the first pointer that whole labels lead to |
| `WireName.DecodedNames` | crates/dns/src/wire.rs:347-352 | a decoded name is a fixed point of normalisation, can be encoded again, and the offset lies past the start and within the message |
| `WireName.NameRoundTrip` | crates/dns/src/wire.rs:255-352 | a normal name encoded anywhere in any message decodes to itself and ends where it ends |
| `WireName.BackwardPointerMayLoop` | crates/dns/src/wire.rs:297-311 | a message that passes every backward check and still loops is refused for every hop bound |
| `WireName.PointerPieces` | crates/dns/src/wire.rs:285-305 | a pointer of any 14-bit offset is followed exactly when it points backward |
| `WireName.PointerChains` | crates/dns/src/wire.rs:302-312 | a name behind a chain of pointers is read if and only if the chain has at most 32 of them |
| `AliasClosure.PassSound` | crates/dns/src/wire.rs:181-200 | a pass only grows the set, stays in every closed set, and refuses only malformed aliases |
| `AliasClosure.QuietPass` | crates/dns/src/wire.rs:196-203 | a pass that adds nothing proves the set closed under aliases |
| `AliasClosure.IterateSound` | crates/dns/src/wire.rs:180-209 | from any set and any number of passes the loop ends closed with the least TTL, or after every pass added a name; always within 17 names |
| `AliasClosure.AcceptedNamesExact` | crates/dns/src/wire.rs:176-209 | accepted names are reachable ones, at most 17; an accepted response has all of them if and only if at most 17 are reachable, else exactly 17; with at most 16 reachable names a response is accepted if and only if their aliases are well formed, for every order and with cycles |
| `AliasClosure.PassAcceptedIff` | crates/dns/src/wire.rs:181-200 | a pass is refused if and only if it reads a malformed alias |
| `AliasClosure.AcceptedIff` | crates/dns/src/wire.rs:176-209 | for every list of records: accepted if and only if 16 passes find at most 17 names and the 16th reads no malformed alias |
| `AliasClosure.LongChainRefusedIff` | crates/dns/src/wire.rs:180-209 | a well-formed response with more than 17 reachable names is refused if and only if some pass adds two names or more |
| `AliasClosure.AcceptedTtlExact` | crates/dns/src/wire.rs:178-209 | with at most 16 reachable names the chain TTL is the least TTL of all aliases they own |
| `AliasClosure.IterateReads` | crates/dns/src/wire.rs:180-209 | the chain TTL of an accepted loop is the least TTL of the records its last pass reads |
| `AliasClosure.TtlIsLeastUnless` | crates/dns/src/wire.rs:178-209 | for any number of names the chain TTL is the least of all accepted aliases if and only if no alias skipped by the 16th pass undercuts every alias it reads |
| `AliasClosure.OrderDoesNotMatter` | crates/dns/src/wire.rs:176-209 | two listings of the same records give the same names and the same TTL |
| `AliasClosure.LongChainMayBeCut` | crates/dns/src/wire.rs:180-209 | every chain of more than 16 aliases, listed backwards, is accepted and cut after 16 |
| `AliasClosure.LastAliasTtlMayBeMissed` | crates/dns/src/wire.rs:180-209 | with 17 reachable names the chain TTL need not be the least |
| `Addresses.Add` | crates/dns/src/lib.rs:131-141 | appends each address that is not there yet, in order |
| `Addresses.AddedLaws` | crates/dns/src/lib.rs:131-141 | merging keeps the known list as a prefix, holds exactly the addresses of both, and keeps them distinct |
| `Addresses.DeduplicateBounded` | crates/dns/src/lib.rs:480-488 | the loop computes the de-duplicated first 16 |
| `Addresses.DedupLaws` | crates/dns/src/lib.rs:480-488 | distinct, at most 16, exactly the addresses among the first 16, idempotent, empty only for an empty list |
| `DnsResponse.EncodeAddressQuery` | crates/dns/src/wire.rs:50-66 | never fails on a normal name, fails otherwise exactly as the name encoder does, and writes header and question |
| `DnsResponse.QueryOctets` | crates/dns/src/wire.rs:50-66 | the queries for `a`, octet by octet |
| `DnsResponse.QuestionIff` | crates/dns/src/wire.rs:131-144 | the question checks accept a question if and only if it has the queried name, type 1 for A or 28 for AAAA, and class 1 |
| `DnsResponse.OtherQuestionsAreRefused` | crates/dns/src/wire.rs:68-168 | past its header, a response to any other question is refused, whatever its records |
| `DnsResponse.EchoPasses` | crates/dns/src/wire.rs:131-144 | the question of a query, echoed after any header and before any records, passes the response's question checks |
| `DnsResponse.CheckQuestion` | crates/dns/src/wire.rs:131-144 | computes those checks on the message |
| `DnsResponse.ReadRecords` | crates/dns/src/wire.rs:146-165 | the offset loop reads exactly the records of the recursive definition or refuses |
| `DnsResponse.AliasPass` | crates/dns/src/wire.rs:181-200 | the in-place pass over all records is one pass over their alias edges |
| `DnsResponse.AcceptNames` | crates/dns/src/wire.rs:176-209 | the loop over raw records computes the alias closure |
| `DnsResponse.CollectAddresses` | crates/dns/src/wire.rs:211-249 | refused exactly for an answering record of the wrong length, no records exactly when none answers, else every address once in order, the first 16, with the least TTL |
| `DnsResponse.AnswerAddressesBacked` | crates/dns/src/wire.rs:213-246 | the collected addresses are exactly those of records of the right class, family and owner |
| `DnsResponse.ParseAddressResponse` | crates/dns/src/wire.rs:68-168 | on every message the outcome is the described one, down to the error of every refusal; answers are non-empty, distinct and at most 16 |
| `DnsResponse.OutcomeIsUnique` | crates/dns/src/wire.rs:68-249 | that description leaves no choice: the message determines the result |
| `DnsResponse.AnswersAreBacked` | crates/dns/src/wire.rs:170-249 | every returned address stands in a record whose owner an alias path connects to the query |
| `DnsResponse.OutcomeOfReachableNames` | crates/dns/src/wire.rs:170-249 | with at most 16 connected names: refused when an alias of theirs is malformed, else every address they own counts and the TTL is the least over all aliases and addresses relied on |
| `WrittenResponse.PointerReadsQuery` | crates/dns/src/wire.rs:285-313 | a pointer to the question, anywhere later in the message, decodes to the queried name and takes two octets |
| `WrittenResponse.RecordRoundTrip` | crates/dns/src/wire.rs:147-165 | one written record is read back field by field and octet by octet, whatever surrounds it, its owner spelled out or pointing to the question |
| `WrittenResponse.SectionRoundTrip` | crates/dns/src/wire.rs:146-165 | a written answer section is read back record by record in order |
| `WrittenResponse.HeaderPasses` | crates/dns/src/wire.rs:74-129 | for every header: passed exactly with the right identifier, as an answer, with one question, at most 512 records and at most 65,535 octets; code 3 is no records, other codes and truncation are resolver failures, all else is invalid |
| `WrittenResponse.ShortMessagesAreInvalid` | crates/dns/src/wire.rs:74-78 | a message shorter than a header is invalid |
| `WrittenResponse.ResponseReadsBack` | crates/dns/src/wire.rs:68-165 | header, question and all records of a written response are accepted and read back |
| `WrittenResponse.ServerIsUnderstood` | crates/dns/src/wire.rs:68-249 | the outcome for a written response is what its records say about the names its aliases reach, up to 16: addresses, least TTL, no records, or refusal, also of malformed aliases |
| `Trojan.EncodeUdpAssociateRequest` | crates/daemon/src/trojan.rs:69-77 | the preface has 68 octets: the verifier, the associate command and the codec's own encoding of the wildcard target, between line ends |
| `Trojan.FrameRoundTrip` | crates/daemon/src/trojan.rs:79-137 | parsing inverts encoding with anything after the frame |
| `Trojan.ParsedFrameIsEncoding` | crates/daemon/src/trojan.rs:105-137 | every accepted frame is the encoding of the datagram it denotes |
| `Trojan.VerdictIsStable` | crates/daemon/src/trojan.rs:105-236 | acceptance and refusal do not change under any extension of the input |
| `Trojan.StrictPrefixNeedsMore` | crates/daemon/src/trojan.rs:105-236 | every strict prefix of a frame asks for more |
| `Trojan.FullBufferDecides` | crates/daemon/src/trojan.rs:105-236 | 65,798 octets always hold a frame or an error |
| `Trojan.FullBufferBoundIsTight` | crates/daemon/src/trojan.rs:79-137 | one octet less does not |
| `Trojan.FrameOctets` | crates/daemon/src/trojan.rs:79-171 | one frame of each address type, octet by octet |
| `Trojan.WaitingIsWorthIt` | crates/daemon/src/trojan.rs:105-236 | while the parser asks for more, some continuation is a frame if and only if the domain so far can still be UTF-8 and the line end so far is CR |
| `Trojan.VainWaits` | crates/daemon/src/trojan.rs:105-236 | two inputs on which it waits in vain |
| `Trojan.UniqueDecoding` | crates/daemon/src/trojan.rs:79-137 | what was taken off a prefix of a stream of frames is a prefix of the datagrams; all of them when the stream is complete and no frame is left |
| `TrojanFlow.DrainConserves` | crates/daemon/src/trojan_datagram.rs:107-136 | what the carrier took followed by what stays queued is the queue, through partial, blocked, interrupted and failed writes |
| `TrojanFlow.DrainStops` | crates/daemon/src/trojan_datagram.rs:107-136 | only the last answer asked for ends a drain: empty queue, no more answers, blocked, zero or failure, each with its verdict |
| `TrojanFlow.EagerCarrierTakesAll` | crates/daemon/src/trojan_datagram.rs:107-136 | a carrier that takes something as often as there are octets empties the queue |
| `TrojanFlow.OneWriteTakes` | crates/daemon/src/trojan_datagram.rs:117-131 | a write takes the smaller of its count and the rest of the first frame |
| `TrojanFlow.InterruptionsDoNotMatter` | crates/daemon/src/trojan_datagram.rs:131-133 | an interrupted write is tried again and changes nothing |
| `TrojanFlow.TakeExact` | crates/daemon/src/trojan_datagram.rs:177-200 | a frame in front is taken exactly when its payload fits, is an error when it does not, and leaves what follows it |
| `TrojanFlow.ArrivalSteps` | crates/daemon/src/trojan_datagram.rs:156-175 | chunks arrive in turn and interruptions change nothing, until the carrier blocks, fails or ends |
| `TrojanFlow.ServiceSucceedsIff` | crates/daemon/src/trojan_datagram.rs:148-154 | a service succeeds exactly when every step of it does and the arrivals fit |
| `TrojanFlow.EndIsReported` | crates/daemon/src/trojan_datagram.rs:210-227 | a carrier that ended without a complete frame is an error, one that has not is none |
| `TrojanFlow.NextFrame` | crates/daemon/src/trojan_datagram.rs:177-200 | a buffer that is a beginning of a stream of valid frames is incomplete or starts with the stream's first datagram, and is never malformed |
| `TrojanFlow.DrainsExactly` | crates/daemon/src/trojan_datagram.rs:148-227 | for every stream of valid frames and every cut into bursts: no call fails if and only if each burst fits behind the backlog, then exactly the stream's datagrams come out and the buffer ends empty, else invalid data after a beginning of them |
| `TrojanFlow.SmallBurstsFit` | crates/daemon/src/trojan_datagram.rs:156-175 | bursts of up to 65,274 octets always fit |
| `TrojanFlow.OneBurstLosesFrames` | crates/daemon/src/trojan_datagram.rs:156-175 | two largest frames are delivered in two bursts and refused in one |
| `TrojanDatagram.TrojanDatagramExecution.constructor` | crates/daemon/src/trojan_datagram.rs:54-62 | a new association has queued its preface and nothing else |
| `TrojanDatagram.Open` | crates/daemon/src/trojan_datagram.rs:52-65 | an association opens exactly when the connect works and the drain of its preface does not fail; queue and written octets are exact, and a failure is reported as it is |
| `TrojanDatagram.TrojanDatagramExecution.Enqueue` | crates/daemon/src/trojan_datagram.rs:83-105 | refuses without change exactly at 64 frames or over 512 KiB, else queues last; the byte count stays exact |
| `TrojanDatagram.TrojanDatagramExecution.DrainPending` | crates/daemon/src/trojan_datagram.rs:107-136 | accepted octets grow by exactly what each write took, the smaller of its count and what it was offered; queue, verdict and unused answers are exact, and accepted plus queued octets stay the same |
| `TrojanDatagram.TrojanDatagramExecution.ReadPlaintextIntoRx` | crates/daemon/src/trojan_datagram.rs:156-175 | appends exactly what arrives, up to 128 KiB; fails with invalid data exactly when that would fill the buffer, else exactly when the carrier fails |
| `TrojanDatagram.TrojanDatagramExecution.TakeFrame` | crates/daemon/src/trojan_datagram.rs:177-200 | a datagram exactly when a complete frame is in front and its payload fits, invalid input exactly when it does not fit, invalid data exactly when it is malformed; copies the payload and nothing else, and keeps received equal to delivered frames plus buffer |
| `TrojanDatagram.TrojanDatagramExecution.Send` | crates/daemon/src/trojan_datagram.rs:204-208 | invalid input exactly when it cannot be encoded, quota exactly at the queue bounds, both without a trace; every other outcome, error or not, leaves the datagram queued in order and exactly the taken octets written |
| `TrojanDatagram.TrojanDatagramExecution.ServiceReady` | crates/daemon/src/trojan_datagram.rs:148-154 | verdict, queue and buffer are exactly those of flush, read and refresh; both conservation laws are kept, and success means that everything at hand was read |
| `TrojanDatagram.TrojanDatagramExecution.Receive` | crates/daemon/src/trojan_datagram.rs:210-227 | every outcome has its exact condition: a buffered or newly read datagram, the error of the service, the end of the carrier, or none, which means everything at hand was read and no frame is complete |
| `TrojanDatagram.TrojanDatagramExecution.ReceiveAll` | crates/daemon/src/transparent_udp.rs:217-240 | call after call until the carrier has nothing more and no frame is buffered delivers exactly what the sequence of calls on values delivers |
| `TrojanDatagram.EndToEnd` | crates/daemon/src/trojan_datagram.rs:83-200 | in every state that any calls reach, the delivered datagrams are a prefix of those sent, and all of them once the queue is empty and everything was read |
| `TrojanDatagram.EverythingArrives` | crates/daemon/src/trojan_datagram.rs:83-227 | what a sender with an empty queue wrote, arriving in any bursts that fit, is handed out by a receiver with an empty buffer as exactly the datagrams sent |
| `Socks5Udp.ResponseRoundTrip` | crates/daemon/src/socks5.rs:454-550 | encoding refuses exactly empty and over-long domains; parsing undoes it if and only if the port is not zero and a domain has at most 253 octets, no upper-case letter and no final dot |
| `Socks5Udp.UnstableTargets` | crates/daemon/src/socks5.rs:454-550 | the smallest targets for which it does not |
| `Socks5Udp.AcceptedTargetIsSendable` | crates/daemon/src/socks5.rs:454-522 | whatever the packet, an accepted target has a port and a stable, UTF-8, Trojan-encodable host, and the payload is the packet's end |
| `Socks5Udp.HeadsAreChecked` | crates/daemon/src/socks5.rs:454-463 | reserved octets that are not zero are bad data, a fragment number is unsupported, and neither is ever accepted |
| `Socks5Udp.AcceptedPacketIsEncoding` | crates/daemon/src/socks5.rs:454-522 | an accepted packet is three zero octets and the encoding of its target, for domains up to case and final dots |
| `Socks5Udp.ReplyOctets` | crates/daemon/src/socks5.rs:524-550 | two replies, octet by octet |
| `Socks5Udp.ThroughTrojan` | crates/daemon/src/socks5.rs:368-403 | an accepted client packet sent as a Trojan frame keeps its target and payload |
| `Socks5Udp.BackToClient` | crates/daemon/src/socks5.rs:524-550 | a datagram from a Trojan frame reaches the client unchanged if and only if its host is stable |
| `Cache.DnsCache.Get` | crates/dns/src/lib.rs:324-334 | answers the live entry, drops an expired one, and is one step of the cache's transition relation |
| `Cache.DnsCache.Insert` | crates/dns/src/lib.rs:336-366 | drops the expired, evicts an oldest entry only for a new name in a full cache, and stores for the smaller TTL |
| `Cache.FindOldest` | crates/dns/src/lib.rs:349-354 | finds an entry with the least insert time |
| `Cache.ExpiredEntriesGo` | crates/dns/src/lib.rs:324-347 | a lookup leaves no expired entry of its name behind, an insert none at all |
| `Cache.SizeBound` | crates/dns/src/lib.rs:301-367 | in every run the cache holds at most its capacity |
| `Cache.EntriesAreLastStores` | crates/dns/src/lib.rs:324-366 | in every run and for any clock an entry is the last non-zero-TTL insert of its name, and an evicted name has none |
| `Cache.MissingEntries` | crates/dns/src/lib.rs:324-366 | with a clock that never goes back a missing entry was evicted or has expired |
| `Cache.RefinesLog` | crates/dns/src/lib.rs:301-367 | a hit is the log's answer; with a clock that never goes back the cache answers as the unbounded log, except for evicted names |
| `Cache.HitIsInTime` | crates/dns/src/lib.rs:324-366 | a hit is the last insert with a non-zero TTL, not evicted since, made less than the cache's maximum and less than its own TTL ago |
| `Cache.InTimeIsHit` | crates/dns/src/lib.rs:324-366 | with a clock that never goes back every such insert is a hit |
| `Cache.EvictionIsForced` | crates/dns/src/lib.rs:347-357 | eviction needs a new name and a cache full of live entries, removes a least recently inserted one, and leaves all others |
| `Engine.WithResolvers` | crates/dns/src/lib.rs:401-419 | refuses exactly the empty chain and, after it, an empty cache or a TTL outside 300 seconds |
| `Engine.DnsEngine.Resolve` | crates/dns/src/lib.rs:421-472 | hosts first, then the cache, then the first resolver that succeeds; all four counters in every case, cache accesses and the last error are exact; every address comes from hosts, from this call, or from an earlier call for the same name that is still young enough |
| `Engine.DnsEngine.Ask` | crates/dns/src/lib.rs:440-472 | the fallback loop stops at the first success, counts the failures before it, and stores that answer only |
| `Engine.CacheAnswersHaveASource` | crates/dns/src/lib.rs:421-472 | over every interleaving of calls a cached answer comes from an earlier call for the same name, from its first resolver to succeed, which started less than the cache maximum and less than the answer's TTL before |
| `Engine.LaterResolversDoNotMatter` | crates/dns/src/lib.rs:440-472 | resolvers after the first success change neither the result, nor the failure count, nor what is stored |
| `Engine.FailuresCount` | crates/dns/src/lib.rs:459-462 | the failure count is the number of resolvers that answered with an error |
| `Engine.SearchFailsWith` | crates/dns/src/lib.rs:440-472 | a search that no resolver ends fails with the error of the last one asked, or for lack of records |
| `Dot.ExchangeBounds` | crates/dns/src/dot.rs:135-178 | at most one connect and one send per attempt; a session is kept exactly when a response was returned |
| `Dot.AlignedMessage` | crates/dns/src/dot.rs:181-209 | on an aligned session an in-order server's frame is read whole, is the answer to this request, and leaves the session aligned |
| `Dot.ExchangeAligned` | crates/dns/src/dot.rs:135-178 | an exchange with reconnects keeps alignment and returns the answer to its own request |
| `Dot.AlwaysAligned` | crates/dns/src/dot.rs:65-178 | over every sequence of uses, invalid responses included, a kept session has read as many answers as it wrote requests and no query gets another's answer |
| `Dot.FrameIsRead` | crates/dns/src/dot.rs:181-209 | a whole frame of at least 12 octets is read as its message, a shorter one ends the session |
| `Dot.FramedOctets` | crates/dns/src/dot.rs:184-193 | a frame is the length, high octet first, and the message |
| `Dot.WorkingExchange` | crates/dns/src/dot.rs:135-178 | with a session or a working connect, a working write and the whole answer of an in-order server, the first attempt returns that answer |
| `Dot.SecondAttemptWorks` | crates/dns/src/dot.rs:142-168 | after a connect or an exchange that fails, a second attempt on a new session that answers whole gives the response |
| `Dot.DotResolver.ExchangeRequest` | crates/dns/src/dot.rs:136-177 | the retry loop over two attempts, with at most two connects and two sends, and no session after a failure |
| `Dot.DotResolver.ResolveFamily` | crates/dns/src/dot.rs:65-90 | a fresh identifier, the outcome of the response to its own request, and no session after an invalid one |
| `Dot.DotResolver.Resolve` | crates/dns/src/dot.rs:93-127 | both families one after the other under consecutive identifiers, then their merge |
| `Dot.MergeFamilies` | crates/dns/src/dot.rs:95-126 | either family suffices; IPv4 first, no repeats, at most 16, the smaller TTL, the last error |
| `Dot.LesserTtlLaws` | crates/dns/src/dot.rs:107-111 | the merged TTL is the smaller of those that are there |
| `Dot.AddedInTurn` | crates/dns/src/dot.rs:99-113 | merging family by family is merging their concatenation |
| `TransparentUdp.Allocate` | crates/daemon/src/datagram.rs:89-102 | hands out consecutive tokens, none when asked for none or when the token space ends |
| `TransparentUdp.SendEffect` | crates/daemon/src/datagram.rs:125-157 | a send keeps every route, adds at most one, of fresh tokens only, and stays within 32 routes |
| `TransparentUdp.TokensAreSpent` | crates/daemon/src/datagram.rs:138-152 | tokens handed out are spent, also when the registration or the send then fails |
| `TransparentUdp.Listener.constructor` | crates/daemon/src/transparent_udp.rs:159-161 | the tables start empty with the first outbound token |
| `TransparentUdp.Listener.CleanupIdleClients` | crates/daemon/src/transparent_udp.rs:420-439 | the removal loop takes out exactly the expired clients and exactly their tokens |
| `TransparentUdp.Listener.RenewClient` | crates/daemon/src/transparent_udp.rs:237-239 | a reply or a send renews the activity of its client and nothing else |
| `TransparentUdp.Listener.HandleInboundDatagram` | crates/daemon/src/transparent_udp.rs:247-310 | the new tables after admission, send, rollback or mapping; an unrouted datagram changes nothing |
| `TransparentUdp.HandleInboundKeeps` | crates/daemon/src/transparent_udp.rs:247-310 | on success, failure and rollback bounds, token uniqueness and the sound map are kept, only one route can gain tokens, and success maps all tokens of the client |
| `TransparentUdp.CleanupKeeps` | crates/daemon/src/transparent_udp.rs:420-439 | expiry keeps all invariants and gives no token to anyone |
| `TransparentUdp.CleanupExact` | crates/daemon/src/transparent_udp.rs:420-439 | exactly the clients active less than 120 seconds ago stay, unchanged, and exactly the tokens that led to them stay mapped |
| `TransparentUdp.InboundVerdict` | crates/daemon/src/transparent_udp.rs:247-310 | a datagram is sent exactly when its client is known or fewer than 512 live clients remain, and its route exists or can be opened, and the send works |
| `TransparentUdp.ClientAfterTurn` | crates/daemon/src/transparent_udp.rs:148-244 | what each turn does to a live client: only a clean-up 120 seconds after its last activity removes it, only a renewal changes that activity, and routes stay |
| `TransparentUdp.ActiveClientsLive` | crates/daemon/src/transparent_udp.rs:148-244 | over whole runs a client stays with its routes while every clean-up is less than 120 seconds after its admission or renewal |
| `TransparentUdp.IdleClientsGo` | crates/daemon/src/transparent_udp.rs:420-439 | without a renewal the first clean-up 120 seconds or more later removes it |
| `TransparentUdp.NextKeeps` | crates/daemon/src/transparent_udp.rs:148-244 | every turn of the serving loop keeps the invariants, and a token once handed out never gains an owner |
| `TransparentUdp.NoStaleTokens` | crates/daemon/src/transparent_udp.rs:217-223 | the loop's removal of tokens without a client never has anything to do |
| `TransparentUdp.RunInv` | crates/daemon/src/transparent_udp.rs:148-244 | every reachable state has at most 512 clients with 32 routes each, unique tokens, and a map that leads only to live owners |
| `TransparentUdp.TokensAreNeverReused` | crates/daemon/src/datagram.rs:89-102 | a token owned at two moments of a run has had the same route of the same client as owner all the time between |
| `TransparentUdp.MapCompleteUnless` | crates/daemon/src/transparent_udp.rs:287-309 | a client with all tokens mapped keeps them mapped after its next datagram if and only if that datagram did not open a route and then fail to send |
| `TransparentUdp.StaysMapped` | crates/daemon/src/transparent_udp.rs:148-244 | for every turn of the loop, of this client or another: a live client with all tokens mapped keeps them mapped if and only if the turn is not its own datagram opening a route and failing |
| `TransparentUdp.MappedThroughout` | crates/daemon/src/transparent_udp.rs:148-244 | over whole runs a fully mapped client stays fully mapped until such a datagram or its expiry |
| `TransparentUdp.OpenedRouteMayStayUnmapped` | crates/daemon/src/transparent_udp.rs:297-302 | a two-step run that reaches a state with an unmapped token |
| `TlsRelay.WriteLoop` | crates/transport/src/tls.rs:437-451 | the write loop computes the recursive write-out, whatever the writer answers |
| `TlsRelay.WriteOutConserves` | crates/transport/src/tls.rs:437-526 | what a writer took and what is left are the pending octets in order, and some are left exactly when an answer stopped it |
| `TlsRelay.ReadChunkConserves` | crates/transport/src/tls.rs:417-435 | a read adds at most 16 KiB, to an empty buffer only, at the end |
| `TlsRelay.UpdateRegistration` | crates/transport/src/tls.rs:379-415 | a socket is registered exactly while there is interest, and for exactly that interest |
| `TlsRelay.RelayToClient` | crates/transport/src/tls.rs:262-347 | the loop over turns and events computes the relay's transition function |
| `TlsRelay.RelayConserves` | crates/transport/src/tls.rs:262-347 | from every conserving state, over every sequence of turns: both conservation laws, both bounds, one close at most per end, the client's end shut only when no plaintext is left; a clean return is a clean end, and giving up means nothing was left to do |
| `TlsRelay.RelayIsConservative` | crates/transport/src/tls.rs:253-347 | for the relay as it starts: client octets read and plaintext decrypted are octets passed on plus at most one chunk each way and what TLS still holds; the client's end is shut only after all plaintext, and success means all was passed on and each end closed once |
| `TlsRelay.WillingWriterTakesAll` | crates/transport/src/tls.rs:437-451 | a writer that goes on and offers enough, in whatever pieces, takes everything |
| `TlsRelay.WillingEndsGetEverything` | crates/transport/src/tls.rs:437-526 | with a willing TLS writer or client, all that was read so far in that direction has been passed on |
| `TlsRelay.WaitsForProgress` | crates/transport/src/tls.rs:281-317 | a relay that goes on to poll is registered for exactly what can move data, for something, and for the client whenever plaintext waits |
| `TlsRelay.ClientEventIsSeen` | crates/transport/src/tls.rs:322-331 | an end of stream or a closed socket sets the client's flag, offered octets are read, a failed read fails the relay |
| `TlsRelay.RemoteEventIsSeen` | crates/transport/src/tls.rs:333-342 | the same for the remote side, and decrypted plaintext is kept |
| `TlsRelay.PullBrings` | crates/transport/src/tls.rs:491-505 | a read of plaintext brings as much as TLS answers, up to 16 KiB, and a failed one fails the relay |
| `TlsRelay.EndsStaySeen` | crates/transport/src/tls.rs:262-347 | an end once seen stays seen over every run |
| `TlsRelay.EndsAreAnswered` | crates/transport/src/tls.rs:266-279 | a turn that does not fail answers the client's end with close_notify and the remote's with shutting the client's end, once their buffers are empty |
| `TlsRelay.StoppedWriters` | crates/transport/src/tls.rs:437-526 | TLS that takes nothing pauses the relay, a client that takes nothing fails it |
| `TlsRelay.DoneMeansWritten` | crates/transport/src/tls.rs:281-288 | the relay returns only when TLS has nothing left to write |
| `TlsRelay.RelayEnds` | crates/transport/src/tls.rs:262-347 | once both sides have ended, turns without failure in which both ends take what they are given pass on all that is left, and then the relay returns cleanly |
| `TlsRelay.CloseNotifyMayOvertake` | crates/transport/src/tls.rs:266-279 | close_notify is queued over waiting client octets if and only if the remote side ended with nothing left to write to the client |
| `TlsRelay.NothingReadAfterCloseNotify` | crates/transport/src/tls.rs:262-347 | over every run: close_notify comes after the client's end of stream, client octets wait behind it only if the client's end was shut too, and nothing more is read from the client |
| `TlsRelay.OvertakingRun` | crates/transport/src/tls.rs:271-279 | a run from the start in which that happens |
| `DomainSet.SortedUniqueLaws` | crates/core/src/domain_set.rs:28-31 | the compiled array is strictly sorted and holds exactly the given entries |
| `DomainSet.BinarySearch` | crates/core/src/domain_set.rs:62-68 | finds a key exactly when the sorted array holds it |
| `DomainSet.TailStep` | crates/core/src/domain_set.rs:79-82 | a suffix covers a domain exactly when it is the domain or covers what follows its first dot |
| `DomainSet.Matches` | crates/core/src/domain_set.rs:56-84 | binary search over label tails decides exactly: equal to an exact entry, or equal to or ending in dot plus a suffix entry |
| `DomainSet.CompileMeaning` | crates/core/src/domain_set.rs:16-33 | sorting and de-duplication keep the meaning of the normalised entries |
| `DomainSet.NormalNamesStay` | crates/core/src/domain_set.rs:20-27 | names in normal form compile without failure and as they are |
| `DomainSet.SuffixRule` | crates/core/src/policy.rs:107-131 | a suffix rule is the suffix match of the lower-cased domain |
| `DomainSet.SetAgreesWithRule` | crates/core/src/policy.rs:107-131 | for every domain, a set entry covers it if and only if the suffix rule matches it, it is ASCII with at most 253 octets, and its covered part has no upper-case letter |
| `DomainSet.LowercaseAgrees` | crates/core/src/policy.rs:107-131 | on lower-case domains of at most 253 octets they agree |
| `DomainSet.UpperCaseDisagrees` | crates/core/src/domain_set.rs:56-84 | the smallest domain on which they do not |
| `DomainSet.NonAsciiDisagrees` | crates/core/src/domain_set.rs:56-60 | a UTF-8 domain without upper-case letters on which they do not |
| `DomainSet.LongDomainsDisagree` | crates/core/src/domain_set.rs:56-60 | every over-long domain under the suffix is one, too |
| `Blocklist.ParseHosts` | crates/compat/src/lib.rs:175-189 | the host loop skips localhost aliases and accepts one host at most |
| `Blocklist.HostsMeaning` | crates/compat/src/lib.rs:174-190 | a hosts line is ignored when all its hosts are localhost aliases, is the one other host when there is exactly one and it is valid, and is refused otherwise |
| `Blocklist.AliasWords` | crates/compat/src/lib.rs:200-206 | the five names for the machine itself, in any case |
| `Blocklist.ReadLine` | crates/compat/src/lib.rs:150-198 | a line is read as its parsed entry, its hosts by the host loop |
| `Blocklist.CommentLines` | crates/compat/src/lib.rs:151-154 | a line whose first visible octet is `#` or `!` is ignored |
| `Blocklist.BlockLines` | crates/compat/src/lib.rs:162-167 | a domain between two pipes and a caret, with any white space around, blocks it and what is under it |
| `Blocklist.AllowLines` | crates/compat/src/lib.rs:156-161 | the same after two at signs allows it |
| `Blocklist.DomainLines` | crates/compat/src/lib.rs:169-198 | a domain alone, with white space and perhaps a comment, blocks just itself |
| `Blocklist.TwoFieldLines` | crates/compat/src/lib.rs:169-198 | an address and a host block that host unless it is a localhost alias; two fields without an address are refused |
| `Blocklist.EntriesAreNormal` | crates/compat/src/lib.rs:150-220 | every accepted domain is in normal form |
| `Blocklist.CompileBlocklist` | crates/compat/src/lib.rs:85-137 | succeeds exactly when the text fits, every line parses and the entries fit; counts every line once; compiles exactly the entries of the lines |
| `Blocklist.LinesCompile` | crates/compat/src/lib.rs:129-137 | once the lines parse, compiling the sets cannot fail |
| `Blocklist.FilterMeansItsLines` | crates/core/src/domain_set.rs:102-104 | the filter blocks a domain if and only if some block line covers it and no allow line does |
| `Blocklist.OneLineBlocks` | crates/compat/src/lib.rs:85-137 | the list of one block line blocks exactly the searchable domains that are its domain or under it |
| `Blocklist.ListBlocks` | crates/compat/src/lib.rs:85-137 | with an allow line after it, exactly those not under the allowed domain |
| `Blocklist.CarriageReturns` | crates/compat/src/lib.rs:97 | a carriage return before a newline belongs to the line end |
| `Blocklist.LineOrderDoesNotMatter` | crates/compat/src/lib.rs:85-137 | two lists with the same lines, in any order and number, compile to filters that block the same domains |
| `Policy.StableSortLaws` | crates/core/src/policy.rs:163-169 | sorting orders the tiers, keeps every rule and the order within each tier |
| `Policy.DecideIsStrongestMatch` | crates/core/src/policy.rs:163-187 | first match on the sorted rules is, tier by tier on the rules as written, the first match of the strongest tier that has one, else the default |
| `Policy.DecideIsLeast` | crates/core/src/policy.rs:163-187 | the deciding rule is the matching one least in (tier rank, source index) |
| `Policy.WeakerTiersDoNotMatter` | crates/core/src/policy.rs:163-187 | adding, removing or reordering weaker-tier rules, or another default, never changes a decision made at a stronger tier |
| `Policy.TierOrder` | crates/core/src/policy.rs:24-43 | user rules come before safety, compatibility and adaptive rules, and defaults last |
| `Policy.UserRulesWin` | crates/core/src/policy.rs:163-187 | a matching user rule decides, whatever other tiers say |
| `Policy.DefaultDecides` | crates/core/src/policy.rs:181-185 | without a matching rule the default decides, in the default tier and without a rule id |
| `Policy.DomainMatchersMean` | crates/core/src/policy.rs:68-131 | an exact matcher accepts its name in any case, a suffix matcher its name and what is under it |
| `Policy.KindsDoNotMix` | crates/core/src/policy.rs:68-105 | address matchers accept no domain, domain matchers no address |
| `Policy.FieldMatchersMean` | crates/core/src/policy.rs:68-105 | matchers on user, package, port, transport and network accept exactly their value |
| `Policy.MatcherLogic` | crates/core/src/policy.rs:68-105 | what not all matchers accept, some do not accept |
| `Config.NewRegistry` | crates/daemon/src/outbound.rs:82-108 | fails exactly for a repeated id or a missing required TLS, else holds exactly the given endpoints |
| `Config.DispatchKeepsEndpoint` | crates/daemon/src/outbound.rs:121-207 | a proxy endpoint never becomes the direct path, and a capability is declared exactly when its dispatch leads somewhere |
| `Config.DirectiveKeeps` | crates/daemon/src/config.rs:227-556 | every accepted line keeps ids unique, limits respected, rules numbered and references recorded |
| `Config.ParseConfig` | crates/daemon/src/config.rs:201-611 | accepts exactly complete and closed configurations, says exactly what their lines declared, and building the registry never fails |
| `Config.PlansAreClosed` | crates/core/src/runtime.rs:24-37 | for every flow the plan rejects, goes direct, or names a registered TCP-capable endpoint that connecting then reaches |
| `Config.ActionWords` | crates/daemon/src/config.rs:618-637 | the action words `direct`, `reject` and `proxy:` with an id mean what they say, and there are no others |
| `Config.MatcherMeans` | crates/daemon/src/config.rs:639-701 | a parsed matcher accepts exactly the flows that its words ask for |
| `Config.PlanFollowsLines` | crates/daemon/src/config.rs:201-611 | for every flow the plan is the action of the first rule line whose words match or blocklist line that blocks, else that of the default line |
| `Config.ListenersAreDeclared` | crates/daemon/src/config.rs:558-572 | an accepted configuration names version 1, has its declared listeners in order, and listens in public only if a line allows it |
| `Config.ListenersAreDistinct` | crates/daemon/src/config.rs:269-308 | every listener has a port, and no two share a socket |
| `Config.EndpointIds` | crates/core/src/plan.rs:17-29 | endpoint ids have 1 to 64 letters, digits, hyphens, underscores or dots |
| `Config.EndpointMeans` | crates/daemon/src/config.rs:385-455 | the words of an endpoint line give its protocol, carrier, address and server name |
| `Config.EndpointsAreDeclared` | crates/daemon/src/config.rs:366-462 | the registry holds exactly the endpoints that the lines declare |
| `Config.HostsAreMerged` | crates/dns/src/lib.rs:131-141 | a name has exactly the addresses that some declared hosts file gives it |
| `Config.RefusedLines` | crates/daemon/src/config.rs:234-555 | lines beyond a limit, repeated single lines and unknown words are refused |
| `Config.RefusedWords` | crates/daemon/src/config.rs:330-701 | zero ports, over-long or empty domains and passwords, carriers that TLS refuses and repeated paths are refused |
| `Config.ListenerAndResolverWords` | crates/daemon/src/config.rs:283-364 | the words for listeners and resolvers mean what they say |
| `Config.ResolverChain` | crates/daemon/src/config.rs:586-600 | the chain is the declared resolvers in order, or one system resolver |
| `Config.ConfigStore.constructor` | crates/daemon/src/config.rs:172-177 | a store holds the compiled configuration it is given as its first one |
| `Config.NewStore` | crates/daemon/src/config.rs:172-177 | a store exists exactly when its first configuration compiles |
| `Config.ConfigStore.Reload` | crates/daemon/src/config.rs:179-187 | swaps exactly when the candidate compiles, else nothing changes |
| `Config.LastKnownGood` | crates/daemon/src/config.rs:179-187 | after any sequence of reloads the active configuration is the last candidate that compiled |
| `Limiter.AlwaysExact` | crates/daemon/src/server.rs:54-93 | in every interleaving, spurious failures included, the counter is the number of live permits, within the limit, and never wraps |
| `Limiter.SeenValueWasRead` | crates/daemon/src/server.rs:62-82 | the value a thread compares with was the counter at its own last load or failed swap |
| `Limiter.GivesUpOnlyWhenFull` | crates/daemon/src/server.rs:62-82 | a refused connection really saw the limit reached while it was trying |

## Left out

- Sockets, polling, timers, recvmsg ancillary data, thread start-up and lock poisoning: their answers are arguments; scripts of answers to one call are finite, and errors of poll and registration calls are not distinguished from other carrier failures.
- rustls, certificate checks and SHA-224: TLS hands out its decrypted plaintext in order, at least one octet at a time while it holds any, and takes plaintext in whatever amounts it answers; a Trojan verifier is 56 octets, and write_tls and read_tls are the readiness events of `TlsRelay`.
- WrittenResponse.ServerIsUnderstood: the writer compresses only by pointing to the question, and its malformed aliases are those with octets after the name; all other compression and malformation is covered on the reading side by `DecodeName` and `ParseAddressResponse`.
- TrojanDatagram.TrojanDatagramExecution.TakeFrame: in-place compaction of the receive vector is the removal of its prefix; the allocation and its reuse are not modelled.
- Text of IP addresses, socket addresses, ports and CIDR blocks: parsing them is a parameter of `Blocklist` and `Config`, and a CIDR block is known by the addresses it contains.
- Blocklist.CompileBlocklist: the texts and line numbers of errors are not kept; texts are UTF-8 octets.
- Config.ParseConfig: works on lines already split into fields; the size limit of the file, comments, the summaries of loaded files and error texts are not modelled.
- Library sorting is modelled by what it computes (a stable insertion, insertion without repeats), not by its algorithm; binary search is a loop.
- TrojanFlow.DrainsExactly: is about a carrier that has not ended; a call after the end fails by design, as `Receive` says.
- TransparentUdp.Listener.HandleInboundDatagram: one clock reading per datagram; the routes of a client are a value inside the client table, so aliasing of route objects is not modelled.
- Dot.DotResolver.Resolve: describes a resolver used by one thread; other threads may take the lock between the two families, which `AlwaysAligned` covers as further uses.
- Memory order of the limiter's atomics: the counter is a single atomic location, which is all that its relaxed loads need.
- `HostsTable::parse`, the reply-socket cache, the next client timeout, the peer set of direct associations, and the SOCKS5 client lock and reply queue: they would add easier members of kinds already here; the queue of client replies promises no order.
- crates/core/src/cidr.rs, flow.rs and plan.rs, crates/platform, http_connect.rs, the handshakes of protocol.rs, transparent_tcp.rs, main.rs, scripts and the eBPF stub: thin or plumbing.
