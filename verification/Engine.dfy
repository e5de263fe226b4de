/** The lookup order of crates/dns/src/lib.rs: hosts, cache, then the resolvers one after the other. */
module Engine {
  import opened Bytes
  import opened Net
  import opened Names
  import opened Addresses
  import opened Cache
  import opened DnsResponse

  /** What a resolver answers when asked. */
  type Outcome = Result<DnsAnswer, DnsErrorKind>

  /** A resolver that ends the search: it answered, and with at least one address. */
  predicate Succeeds(o: Outcome) { o.Ok? && Dedup(o.value.addresses) != [] }

  /** The position of the first resolver that ends the search, or the number of resolvers. */
  function FirstSuccess(outcomes: seq<Outcome>): (k: nat)
    ensures k <= |outcomes|
    ensures k < |outcomes| ==> Succeeds(outcomes[k])
    ensures forall j :: 0 <= j < k ==> !Succeeds(outcomes[j])
  {
    if outcomes == [] || Succeeds(outcomes[0]) then 0 else 1 + FirstSuccess(outcomes[1..])
  }

  /** How many of the first `n` resolvers failed, which the statistics count. */
  function Failures(outcomes: seq<Outcome>, n: nat): nat
    requires n <= |outcomes|
  {
    if n == 0 then 0 else Failures(outcomes, n - 1) + if outcomes[n - 1].Err? then 1 else 0
  }

  /** The error of a search that no resolver ended: that of the last one asked. */
  function LastError(outcomes: seq<Outcome>): DnsErrorKind
  {
    if outcomes == [] || outcomes[|outcomes| - 1].Ok? then NoRecords else outcomes[|outcomes| - 1].error
  }

  /**
   * The shared cache as the calls of many threads see it, one atomic access after the other: the lookup of a
   * call, or its insert after the resolvers were asked. `start` is the one clock reading of the call.
   */
  datatype Event =
    | Begin(name: Name, start: nat, hit: Option<seq<Ip>>)
    | Finish(name: Name, start: nat, outcomes: seq<Outcome>, evicted: Option<Name>)

  predicate Finishes(e: Event) { e.Begin? || FirstSuccess(e.outcomes) < |e.outcomes| }

  /** The cache access of an event. */
  function Access(e: Event): Op
    requires Finishes(e)
  {
    match e
    case Begin(name, start, hit) => Lookup(name, start, hit)
    case Finish(name, start, outcomes, evicted) =>
      var answer := outcomes[FirstSuccess(outcomes)].value;
      Store(name, Dedup(answer.addresses), answer.ttl, start, evicted)
  }

  predicate AllFinish(events: seq<Event>) { forall i :: 0 <= i < |events| ==> Finishes(events[i]) }

  function Accesses(events: seq<Event>): seq<Op>
    requires AllFinish(events)
  {
    seq(|events|, i requires 0 <= i < |events| => Access(events[i]))
  }

  /** The answer of call `source` is young enough at time `now`. */
  ghost predicate Fresh(source: Event, now: nat, maxTtl: nat)
    requires source.Finish? && Finishes(source)
  {
    var ttl := source.outcomes[FirstSuccess(source.outcomes)].value.ttl;
    now < source.start + maxTtl && (ttl.Some? ==> now < source.start + ttl.value)
  }

  /**
   * These addresses are what the first resolver that succeeded answered for this name, in the call that made event
   * `j`: the last event of all, or one still young enough at time `now`.
   */
  ghost predicate FromCall(events: seq<Event>, j: nat, name: Name, now: nat, maxTtl: nat, addresses: seq<Ip>)
  {
    && j < |events| && events[j].Finish? && Finishes(events[j]) && events[j].name == name
    && addresses == Dedup(events[j].outcomes[FirstSuccess(events[j].outcomes)].value.addresses)
    && addresses != [] && (j == |events| - 1 || Fresh(events[j], now, maxTtl))
  }

  /** The statistics of an engine. */
  datatype DnsStats = DnsStats(hostsHits: nat, cacheHits: nat, cacheMisses: nat, resolverFailures: nat) {
    function Plus(hosts: nat, hits: nat, misses: nat, failures: nat): DnsStats
    {
      DnsStats(hostsHits + hosts, cacheHits + hits, cacheMisses + misses, resolverFailures + failures)
    }
  }

  class DnsEngine {
    const hosts: map<Name, seq<Ip>>
    const resolvers: nat
    const cache: DnsCache
    var hostsHits: nat
    var cacheHits: nat
    var cacheMisses: nat
    var resolverFailures: nat

    ghost var events: seq<Event>

    ghost predicate Valid()
      reads this, cache
    {
      cache.Valid() && AllFinish(events) && cache.history == Accesses(events)
    }

    ghost function Counters(): DnsStats
      reads this
    {
      DnsStats(hostsHits, cacheHits, cacheMisses, resolverFailures)
    }

    constructor (hosts: map<Name, seq<Ip>>, resolvers: nat, capacity: nat, maxTtl: nat)
      requires capacity > 0
      ensures Valid() && fresh(cache) && events == []
      ensures hostsHits == cacheHits == cacheMisses == resolverFailures == 0
      ensures this.hosts == hosts && this.resolvers == resolvers
      ensures cache.capacity == capacity && cache.maxTtl == maxTtl
    {
      this.hosts, this.resolvers := hosts, resolvers;
      cache := new DnsCache(capacity, maxTtl);
      hostsHits, cacheHits, cacheMisses, resolverFailures := 0, 0, 0, 0;
      events := [];
    }

    /**
     * `resolve`, with the answers the resolvers would give if asked. Names a hosts entry, a cache hit, or the
     * first resolver that succeeds as the only source of an answer, and asks no resolver after it.
     */
    method Resolve(rawName: Octets, now: nat, outcomes: seq<Outcome>)
      returns (r: Result<seq<Ip>, DnsErrorKind>, ghost hit: Option<seq<Ip>>)
      requires Valid() && |outcomes| == resolvers
      modifies this, cache
      ensures Valid()
      ensures Normalize(rawName).None? ==>
        r == Err(InvalidName) && events == old(events) && Counters() == old(Counters())
      ensures Normalize(rawName).Some? ==>
        var name, k := Normalize(rawName).value, FirstSuccess(outcomes);
        if name in hosts then
          r == Ok(hosts[name]) && events == old(events) && Counters() == old(Counters()).Plus(1, 0, 0, 0)
        else if hit.Some? then
          && r == Ok(hit.value) && events == old(events) + [Begin(name, now, hit)]
          && Counters() == old(Counters()).Plus(0, 1, 0, 0)
        else
          && Counters() == old(Counters()).Plus(0, 0, 1, Failures(outcomes, k))
          && if k < |outcomes| then
               && r == Ok(Dedup(outcomes[k].value.addresses))
               && exists evicted ::
                    events == old(events) + [Begin(name, now, None)] + [Finish(name, now, outcomes, evicted)]
             else r == Err(LastError(outcomes)) && events == old(events) + [Begin(name, now, None)]
      ensures r.Ok? ==>
        && Normalize(rawName).Some?
        && var name := Normalize(rawName).value;
           (name in hosts && r.value == hosts[name])
           || exists j :: FromCall(events, j, name, now, cache.maxTtl, r.value)
    {
      hide Normalize, Dedup, Failures, LastError, Run;
      var normal := Normalize(rawName);
      hit := None;
      if normal.None? {
        return Err(InvalidName), None;
      }
      var name := normal.value;
      if name in hosts {
        hostsHits := hostsHits + 1;
        return Ok(hosts[name]), None;
      }
      var cached := cache.Get(name, now);
      hit := cached;
      AppendAccess(events, Begin(name, now, cached));
      events := events + [Begin(name, now, cached)];
      if cached.Some? {
        ghost var i := |events| - 1;
        ghost var j := CacheAnswersHaveASource(cache.init, events, cache.Value(), i);
        assert FromCall(events, j, name, now, cache.maxTtl, cached.value);
        cacheHits := cacheHits + 1;
        return Ok(cached.value), cached;
      }
      cacheMisses := cacheMisses + 1;
      r := Ask(name, now, outcomes);
      assert r.Ok? ==> FromCall(events, |events| - 1, name, now, cache.maxTtl, r.value);
    }

    /** The fallback loop over the resolvers. */
    method Ask(name: Name, now: nat, outcomes: seq<Outcome>) returns (r: Result<seq<Ip>, DnsErrorKind>)
      requires Valid() && |outcomes| == resolvers
      modifies this`events, this`resolverFailures, cache
      ensures Valid()
      ensures var k := FirstSuccess(outcomes);
              && resolverFailures == old(resolverFailures) + Failures(outcomes, k)
              && if k < |outcomes| then
                   && r == Ok(Dedup(outcomes[k].value.addresses))
                   && exists evicted :: events == old(events) + [Finish(name, now, outcomes, evicted)]
                 else r == Err(LastError(outcomes)) && events == old(events)
    {
      hide Dedup, Run;
      var lastError := NoRecords;
      for i := 0 to |outcomes|
        invariant Valid() && events == old(events)
        invariant i <= FirstSuccess(outcomes)
        invariant lastError == LastError(outcomes[..i])
        invariant resolverFailures == old(resolverFailures) + Failures(outcomes, i)
      {
        match outcomes[i] {
          case Ok(answer) =>
            var addresses := DeduplicateBounded(answer.addresses);
            if addresses == [] {
              lastError := NoRecords;
              continue;
            }
            assert i == FirstSuccess(outcomes);
            ghost var evicted := cache.Insert(name, addresses, answer.ttl, now);
            AppendAccess(events, Finish(name, now, outcomes, evicted));
            events := events + [Finish(name, now, outcomes, evicted)];
            return Ok(addresses);
          case Err(error) =>
            resolverFailures := resolverFailures + 1;
            lastError := error;
        }
      }
      assert outcomes[..|outcomes|] == outcomes;
      return Err(lastError);
    }
  }

  const MAX_CACHE_TTL_SECONDS := 300

  /** `with_resolvers`: an engine needs a resolver, room in its cache, and a cache TTL of at most 300 seconds. */
  method WithResolvers(hosts: map<Name, seq<Ip>>, resolvers: nat, capacity: nat, cacheTtl: nat, ticksPerSecond: nat)
    returns (r: Result<DnsEngine, DnsErrorKind>)
    ensures r == Err(NoResolvers) <==> resolvers == 0
    ensures r == Err(InvalidConfiguration) <==>
              resolvers > 0 && (capacity == 0 || cacheTtl == 0 || cacheTtl > MAX_CACHE_TTL_SECONDS * ticksPerSecond)
    ensures r.Err? ==> r.error in {NoResolvers, InvalidConfiguration}
    ensures r.Ok? ==>
              var e := r.value;
              && fresh(e) && e.Valid() && e.events == [] && e.hosts == hosts && e.resolvers == resolvers
              && e.cache.capacity == capacity && e.cache.maxTtl == cacheTtl
  {
    if resolvers == 0 {
      return Err(NoResolvers);
    }
    if capacity == 0 || cacheTtl == 0 || cacheTtl > MAX_CACHE_TTL_SECONDS * ticksPerSecond {
      return Err(InvalidConfiguration);
    }
    var engine := new DnsEngine(hosts, resolvers, capacity, cacheTtl);
    return Ok(engine);
  }

  lemma AppendAccess(events: seq<Event>, e: Event)
    requires AllFinish(events) && Finishes(e)
    ensures AllFinish(events + [e]) && Accesses(events + [e]) == Accesses(events) + [Access(e)]
  {
  }

  // ---------------------------------------------------------------- provenance

  /**
   * Provenance, over every interleaving of the lookups and inserts of any number of calls. An answer from the
   * cache is what an earlier call for the same name got from the first resolver in order that succeeded for it,
   * and that call started less than the smaller of the answer's TTL and the cache's maximum before this one.
   */
  lemma CacheAnswersHaveASource(init: State, events: seq<Event>, s: State, i: nat) returns (j: nat)
    requires Empty(init) && AllFinish(events) && Run(init, Accesses(events), s)
    requires i < |events| && events[i].Begin? && events[i].hit.Some?
    ensures j < i && events[j].Finish? && events[j].name == events[i].name
    ensures var k := FirstSuccess(events[j].outcomes);
            && k < |events[j].outcomes|
            && (forall n :: 0 <= n < k ==> !Succeeds(events[j].outcomes[n]))
            && events[i].hit.value == Dedup(events[j].outcomes[k].value.addresses)
            && Fresh(events[j], events[i].start, init.maxTtl)
  {
    hide Step;
    var ops := Accesses(events);
    var mid := RunPrefix(init, ops, s, i + 1);
    assert ops[..i + 1] == ops[..i] + [ops[i]];
    var e := events[i];
    j := HitIsInTime(init, ops[..i], e.name, e.start, e.hit, mid);
    assert ops[..i][j] == Access(events[j]);
  }

  lemma {:induction false} RunPrefix(init: State, ops: seq<Op>, s: State, n: nat) returns (mid: State)
    requires Run(init, ops, s) && n <= |ops|
    ensures Run(init, ops[..n], mid)
    decreases |ops|
  {
    hide Step;
    if n == |ops| {
      assert ops[..n] == ops;
      mid := s;
    } else {
      var before :| Run(init, Front(ops), before) && Step(before, Last(ops), s);
      mid := RunPrefix(init, Front(ops), before, n);
      assert Front(ops)[..n] == ops[..n];
    }
  }

  /** What a search returns, counts as failures, and stores. */
  function Answer(outcomes: seq<Outcome>): Result<seq<Ip>, DnsErrorKind>
  {
    var k := FirstSuccess(outcomes);
    if k < |outcomes| then Ok(Dedup(outcomes[k].value.addresses)) else Err(LastError(outcomes))
  }

  ghost function Failing(outcomes: seq<Outcome>, n: nat): set<int>
    requires n <= |outcomes|
  {
    set j | 0 <= j < n && outcomes[j].Err?
  }

  /** Failures are the resolvers that answered with an error; an empty answer is none. */
  lemma {:induction false} FailuresCount(outcomes: seq<Outcome>, n: nat)
    requires n <= |outcomes|
    ensures Failures(outcomes, n) == |Failing(outcomes, n)|
  {
    if n > 0 {
      FailuresCount(outcomes, n - 1);
      assert Failing(outcomes, n) == Failing(outcomes, n - 1) + if outcomes[n - 1].Err? then {n - 1} else {};
    }
  }

  /** A resolver succeeds when it answers with an address. */
  lemma SucceedsIff(o: Outcome)
    ensures Succeeds(o) <==> o.Ok? && o.value.addresses != []
  {
    if o.Ok? { DedupLaws(o.value.addresses); }
  }

  lemma {:induction false} SameFailures(a: seq<Outcome>, b: seq<Outcome>, n: nat)
    requires n <= |a| && n <= |b| && forall j :: 0 <= j < n ==> a[j] == b[j]
    ensures Failures(a, n) == Failures(b, n)
  {
    if n > 0 { SameFailures(a, b, n - 1); }
  }

  /** A search that no resolver ends fails with the error of the last one asked, or for lack of records. */
  lemma SearchFailsWith(before: seq<Outcome>, last: Outcome)
    requires FirstSuccess(before + [last]) == |before| + 1
    ensures Answer(before + [last]) == Err(if last.Err? then last.error else NoRecords) && Answer([]) == Err(NoRecords)
  {
  }

  /** Resolvers after the first success have no say: not in the result, the failure count or the stored answer. */
  lemma LaterResolversDoNotMatter(a: seq<Outcome>, b: seq<Outcome>, name: Name, start: nat, evicted: Option<Name>)
    requires FirstSuccess(a) < |a| && |a| == |b|
    requires a[..FirstSuccess(a) + 1] == b[..FirstSuccess(a) + 1]
    ensures Answer(a) == Answer(b) && FirstSuccess(a) == FirstSuccess(b)
    ensures Failures(a, FirstSuccess(a)) == Failures(b, FirstSuccess(b))
    ensures Finishes(Finish(name, start, b, evicted))
            && Access(Finish(name, start, a, evicted)) == Access(Finish(name, start, b, evicted))
  {
    hide Dedup, Failures;
    var k := FirstSuccess(a);
    forall j | 0 <= j <= k ensures a[j] == b[j] {
      assert a[..k + 1][j] == b[..k + 1][j];
    }
    SameFailures(a, b, k);
  }
}
