/** The bounded TTL cache of crates/dns/src/lib.rs. Time is counted in ticks of any length. */
module Cache {
  import opened Bytes
  import opened Net
  import opened Sets

  type Name = Octets

  datatype CacheEntry = CacheEntry(addresses: seq<Ip>, inserted: nat, expires: nat)

  datatype State = State(entries: map<Name, CacheEntry>, capacity: nat, maxTtl: nat)

  function EffectiveTtl(maxTtl: nat, ttl: Option<nat>): nat
  {
    match ttl
    case None => maxTtl
    case Some(t) => if t <= maxTtl then t else maxTtl
  }

  /** What a lookup answers: the entry, unless it has expired. */
  function LookUp(entries: map<Name, CacheEntry>, name: Name, now: nat): Option<seq<Ip>>
  {
    if name in entries && entries[name].expires > now then Some(entries[name].addresses) else None
  }

  function Live(entries: map<Name, CacheEntry>, now: nat): map<Name, CacheEntry>
  {
    map k | k in entries && entries[k].expires > now :: entries[k]
  }

  ghost predicate Oldest(entries: map<Name, CacheEntry>, name: Name)
  {
    name in entries && forall k :: k in entries ==> entries[name].inserted <= entries[k].inserted
  }

  /** One call of the cache with its visible effect: what a lookup answered, whom an insert pushed out. */
  datatype Op =
    | Lookup(name: Name, now: nat, hit: Option<seq<Ip>>)
    | Store(name: Name, addresses: seq<Ip>, ttl: Option<nat>, now: nat, evicted: Option<Name>)

  /** The effect of an insert with a positive TTL. Ties for the oldest entry are open, as in a hash map. */
  ghost predicate Stored(s: State, op: Op, s': State)
    requires op.Store?
  {
    var live := Live(s.entries, op.now);
    var entry := CacheEntry(op.addresses, op.now, op.now + EffectiveTtl(s.maxTtl, op.ttl));
    if op.name !in live && |live| >= s.capacity && live != map[] then
      op.evicted.Some? && Oldest(live, op.evicted.value)
      && s' == s.(entries := (live - {op.evicted.value})[op.name := entry])
    else
      op.evicted.None? && s' == s.(entries := live[op.name := entry])
  }

  ghost predicate Step(s: State, op: Op, s': State)
  {
    match op
    case Lookup(name, now, hit) =>
      && hit == LookUp(s.entries, name, now)
      && s' == if name in s.entries && s.entries[name].expires <= now then s.(entries := s.entries - {name}) else s
    case Store(_, _, ttl, _, evicted) =>
      if EffectiveTtl(s.maxTtl, ttl) == 0 then s' == s && evicted.None? else Stored(s, op, s')
  }

  function Front(ops: seq<Op>): seq<Op> requires ops != [] { ops[..|ops| - 1] }

  function Last(ops: seq<Op>): Op requires ops != [] { ops[|ops| - 1] }

  /** `s` is what a run of calls leads to from `init`. */
  ghost predicate Run(init: State, ops: seq<Op>, s: State)
    decreases |ops|
  {
    if ops == [] then s == init else exists mid :: Run(init, Front(ops), mid) && Step(mid, Last(ops), s)
  }

  ghost predicate Empty(s: State) { s.entries == map[] && s.capacity > 0 }

  class DnsCache {
    var entries: map<Name, CacheEntry>
    const capacity: nat
    const maxTtl: nat

    ghost const init: State
    ghost var history: seq<Op>

    ghost function Value(): State
      reads this
    {
      State(entries, capacity, maxTtl)
    }

    ghost predicate Valid()
      reads this
    {
      Empty(init) && init.capacity == capacity && init.maxTtl == maxTtl && Run(init, history, Value())
    }

    constructor (capacity: nat, maxTtl: nat)
      requires capacity > 0
      ensures Valid() && history == [] && entries == map[]
      ensures this.capacity == capacity && this.maxTtl == maxTtl
    {
      entries, history := map[], [];
      this.capacity, this.maxTtl := capacity, maxTtl;
      init := State(map[], capacity, maxTtl);
    }

    method Get(name: Name, now: nat) returns (hit: Option<seq<Ip>>)
      requires Valid()
      modifies this
      ensures Valid() && history == old(history) + [Lookup(name, now, hit)]
      ensures Step(old(Value()), Lookup(name, now, hit), Value())
    {
      hide Run;
      ghost var before := Value();
      if name in entries && entries[name].expires <= now {
        entries := entries - {name};
        hit := None;
      } else {
        hit := if name in entries then Some(entries[name].addresses) else None;
      }
      Extend(init, history, before, Lookup(name, now, hit), Value());
      history := history + [Lookup(name, now, hit)];
    }

    method Insert(name: Name, addresses: seq<Ip>, ttl: Option<nat>, now: nat) returns (ghost evicted: Option<Name>)
      requires Valid()
      modifies this
      ensures Valid() && history == old(history) + [Store(name, addresses, ttl, now, evicted)]
      ensures Step(old(Value()), Store(name, addresses, ttl, now, evicted), Value())
    {
      hide Run;
      ghost var before := Value();
      var effective := EffectiveTtl(maxTtl, ttl);
      evicted := None;
      if effective != 0 {
        entries := Live(entries, now);
        if name !in entries && |entries| >= capacity {
          if entries != map[] {
            var oldest := FindOldest(entries);
            evicted := Some(oldest);
            entries := entries - {oldest};
          }
        }
        entries := entries[name := CacheEntry(addresses, now, now + effective)];
      }
      Extend(init, history, before, Store(name, addresses, ttl, now, evicted), Value());
      history := history + [Store(name, addresses, ttl, now, evicted)];
    }
  }

  method FindOldest(entries: map<Name, CacheEntry>) returns (oldest: Name)
    requires entries != map[]
    ensures Oldest(entries, oldest)
  {
    var rest := entries.Keys;
    oldest :| oldest in rest;
    rest := rest - {oldest};
    while rest != {}
      invariant rest <= entries.Keys && oldest in entries
      invariant forall k :: k in entries && k !in rest ==> entries[oldest].inserted <= entries[k].inserted
      decreases rest
    {
      var k :| k in rest;
      if entries[k].inserted < entries[oldest].inserted {
        oldest := k;
      }
      rest := rest - {k};
    }
  }

  lemma Extend(init: State, ops: seq<Op>, s: State, op: Op, s': State)
    requires Run(init, ops, s) && Step(s, op, s')
    ensures Run(init, ops + [op], s')
  {
    var all := ops + [op];
    assert Front(all) == ops && Last(all) == op;
  }

  // ---------------------------------------------------------------- the log that the cache refines

  /** The entry made by the last insert for a name whose effective TTL was not zero. */
  function LastStore(ops: seq<Op>, maxTtl: nat, name: Name): Option<CacheEntry>
  {
    if ops == [] then None
    else
      var op := Last(ops);
      if op.Store? && op.name == name && EffectiveTtl(maxTtl, op.ttl) > 0
      then Some(CacheEntry(op.addresses, op.now, op.now + EffectiveTtl(maxTtl, op.ttl)))
      else LastStore(Front(ops), maxTtl, name)
  }

  /** Whether a name was pushed out after its last insert. */
  function PushedOut(ops: seq<Op>, maxTtl: nat, name: Name): bool
  {
    if ops == [] then false
    else
      var op := Last(ops);
      if op.Store? && op.name == name && EffectiveTtl(maxTtl, op.ttl) > 0 then false
      else (op.Store? && op.evicted == Some(name)) || PushedOut(Front(ops), maxTtl, name)
  }

  /** What an unbounded log of timed inserts answers. */
  function LogAnswer(ops: seq<Op>, maxTtl: nat, name: Name, now: nat): Option<seq<Ip>>
  {
    var last := LastStore(ops, maxTtl, name);
    if last.Some? && last.value.expires > now then Some(last.value.addresses) else None
  }

  ghost predicate TimesNotAfter(ops: seq<Op>, now: nat) { forall i :: 0 <= i < |ops| ==> ops[i].now <= now }

  lemma LiveSize(entries: map<Name, CacheEntry>, now: nat)
    ensures |Live(entries, now)| <= |entries|
  {
    var live := Live(entries, now);
    assert live.Keys <= entries.Keys;
    SubsetSize(live.Keys, entries.Keys);
  }

  /** Whether a step inserts a name with a positive TTL. */
  predicate Stores(op: Op, maxTtl: nat, name: Name) { op.Store? && op.name == name && EffectiveTtl(maxTtl, op.ttl) > 0 }

  /** What one step does to one name: only an insert of it gives it a new entry, else it keeps its own or none. */
  lemma StepAt(s: State, op: Op, s': State, name: Name)
    requires Step(s, op, s')
    ensures Stores(op, s.maxTtl, name) ==>
              name in s'.entries
              && s'.entries[name] == CacheEntry(op.addresses, op.now, op.now + EffectiveTtl(s.maxTtl, op.ttl))
    ensures !Stores(op, s.maxTtl, name) && name in s'.entries ==>
              name in s.entries && s'.entries[name] == s.entries[name] && !(op.Store? && op.evicted == Some(name))
    ensures !Stores(op, s.maxTtl, name) && name in s.entries && name !in s'.entries ==>
              s.entries[name].expires <= op.now || (op.Store? && op.evicted == Some(name))
  {
  }

  /** A lookup drops an expired entry, and neither a lookup nor an insert leaves one of that name behind. */
  lemma ExpiredEntriesGo(s: State, op: Op, s': State)
    requires Step(s, op, s') && (op.Store? ==> EffectiveTtl(s.maxTtl, op.ttl) > 0)
    ensures op.name in s'.entries ==> s'.entries[op.name].expires > op.now
    ensures op.Store? ==> forall k :: k in s'.entries ==> s'.entries[k].expires > op.now
  {
  }

  /** One step keeps the size bound and the parameters. */
  lemma StepBounded(s: State, op: Op, s': State)
    requires Step(s, op, s') && s.capacity > 0 && |s.entries| <= s.capacity
    ensures |s'.entries| <= s'.capacity && s'.capacity == s.capacity && s'.maxTtl == s.maxTtl
  {
    if op.Lookup? {
      assert s'.entries.Keys <= s.entries.Keys;
      SubsetSize(s'.entries.Keys, s.entries.Keys);
    } else if EffectiveTtl(s.maxTtl, op.ttl) > 0 {
      LiveSize(s.entries, op.now);
      StoredBounded(s, op, s', Live(s.entries, op.now));
    }
  }

  lemma StoredBounded(s: State, op: Op, s': State, live: map<Name, CacheEntry>)
    requires op.Store? && Stored(s, op, s') && live == Live(s.entries, op.now)
    requires |live| <= s.capacity && s.capacity > 0
    ensures |s'.entries| <= s'.capacity
  {
    StoredKeys(s, op, s', live);
    var keys := live.Keys;
    assert |live| == |keys| && |s'.entries| == |s'.entries.Keys|;
    hide Stored, Live;
    if op.evicted.Some? {
      Swap(keys, op.evicted.value, op.name);
    } else if op.name in keys {
      assert keys + {op.name} == keys;
    }
  }

  /** The names held after an insert. */
  lemma StoredKeys(s: State, op: Op, s': State, live: map<Name, CacheEntry>)
    requires op.Store? && Stored(s, op, s') && live == Live(s.entries, op.now)
    ensures s'.capacity == s.capacity
    ensures op.evicted.Some? ==>
              op.evicted.value in live && s'.entries.Keys == (live.Keys - {op.evicted.value}) + {op.name}
    ensures op.evicted.None? ==>
              s'.entries.Keys == live.Keys + {op.name} && (op.name in live || |live| < s.capacity || live == map[])
  {
    hide Live, EffectiveTtl;
  }

  lemma Swap(keys: set<Name>, out: Name, in_: Name)
    requires out in keys
    ensures |(keys - {out}) + {in_}| <= |keys|
  {
    assert |keys - {out}| == |keys| - 1;
  }

  /** The state before the last call of a run. */
  lemma BeforeLast(init: State, ops: seq<Op>, s: State) returns (mid: State)
    requires ops != [] && Run(init, ops, s)
    ensures Run(init, Front(ops), mid) && Step(mid, Last(ops), s)
  {
    hide Step;
    mid :| Run(init, Front(ops), mid) && Step(mid, Last(ops), s);
  }

  /** The cache never holds more than its capacity, in any run. */
  lemma {:induction false} SizeBound(init: State, ops: seq<Op>, s: State)
    requires Empty(init) && Run(init, ops, s)
    ensures |s.entries| <= s.capacity == init.capacity && s.maxTtl == init.maxTtl
    decreases |ops|
  {
    hide Step, Run;
    if ops == [] {
      NothingRun(init, s);
    } else {
      var mid := BeforeLast(init, ops, s);
      SizeBound(init, Front(ops), mid);
      StepBounded(mid, Last(ops), s);
    }
  }

  /** Every entry is the last insert of its name, and a name that was pushed out has none; for any clock. */
  lemma {:induction false} EntriesAreLastStores(init: State, ops: seq<Op>, s: State, name: Name)
    requires Empty(init) && Run(init, ops, s)
    ensures name in s.entries ==> LastStore(ops, init.maxTtl, name) == Some(s.entries[name])
    ensures PushedOut(ops, init.maxTtl, name) ==> name !in s.entries
    decreases |ops|
  {
    hide Step, Run, Stored, EffectiveTtl, LastStore, PushedOut;
    if ops == [] {
      NothingRun(init, s);
      NothingStored(init.maxTtl, name);
    } else {
      var mid := BeforeLast(init, ops, s);
      EntriesAreLastStores(init, Front(ops), mid, name);
      SizeBound(init, Front(ops), mid);
      StepAt(mid, Last(ops), s, name);
      LastStoreStep(ops, init.maxTtl, name);
    }
  }

  lemma NothingRun(init: State, s: State)
    requires Run(init, [], s)
    ensures s == init
  {
  }

  lemma NothingStored(maxTtl: nat, name: Name)
    ensures LastStore([], maxTtl, name) == None && !PushedOut([], maxTtl, name)
  {
  }

  /** The log by its last call. */
  lemma LastStoreStep(ops: seq<Op>, maxTtl: nat, name: Name)
    requires ops != []
    ensures var op := Last(ops);
            if Stores(op, maxTtl, name) then
              && LastStore(ops, maxTtl, name)
                 == Some(CacheEntry(op.addresses, op.now, op.now + EffectiveTtl(maxTtl, op.ttl)))
              && !PushedOut(ops, maxTtl, name)
            else
              && LastStore(ops, maxTtl, name) == LastStore(Front(ops), maxTtl, name)
              && (PushedOut(ops, maxTtl, name)
                  <==> (op.Store? && op.evicted == Some(name)) || PushedOut(Front(ops), maxTtl, name))
  {
  }

  /** With a clock that never goes back, a missing entry was pushed out or has expired. */
  lemma {:induction false} MissingEntries(init: State, ops: seq<Op>, s: State, name: Name, now: nat)
    requires Empty(init) && Run(init, ops, s) && TimesNotAfter(ops, now)
    requires name !in s.entries && LastStore(ops, init.maxTtl, name).Some?
    ensures PushedOut(ops, init.maxTtl, name) || LastStore(ops, init.maxTtl, name).value.expires <= now
    decreases |ops|
  {
    var before, op := Front(ops), Last(ops);
    hide Step, Stored, EffectiveTtl, Run, LastStore, PushedOut;
    LastStoreStep(ops, init.maxTtl, name);
    var mid := BeforeLast(init, ops, s);
    SizeBound(init, before, mid);
    StepAt(mid, op, s, name);
    assert op.now <= now;
    if name in mid.entries {
      EntriesAreLastStores(init, before, mid, name);
    } else {
      MissingEntries(init, before, mid, name, now);
    }
  }

  /**
   * Refinement. In every run from an empty cache, a hit is the last insert of that name with a non-zero TTL,
   * still within the smaller of its TTL and the cache's maximum. With a clock that never goes back, the
   * answer is the log's answer for every name, except that a name pushed out since its last insert has none.
   */
  lemma RefinesLog(init: State, ops: seq<Op>, name: Name, now: nat, hit: Option<seq<Ip>>, s: State)
    requires Empty(init) && Run(init, ops + [Lookup(name, now, hit)], s)
    ensures hit.Some? ==> hit == LogAnswer(ops, init.maxTtl, name, now) && !PushedOut(ops, init.maxTtl, name)
    ensures TimesNotAfter(ops, now) ==>
              hit == if PushedOut(ops, init.maxTtl, name) then None else LogAnswer(ops, init.maxTtl, name, now)
  {
    var all := ops + [Lookup(name, now, hit)];
    assert Front(all) == ops && Last(all) == Lookup(name, now, hit);
    var mid := BeforeLast(init, all, s);
    hide Run;
    EntriesAreLastStores(init, ops, mid, name);
    if TimesNotAfter(ops, now) && name !in mid.entries && LastStore(ops, init.maxTtl, name).Some? {
      MissingEntries(init, ops, mid, name, now);
    }
  }

  // ---------------------------------------------------------------- how long an answer lives

  /** Call `j` is the last insert of a name with a TTL that lets it stay at all. */
  ghost predicate IsLastStore(ops: seq<Op>, maxTtl: nat, name: Name, j: nat)
  {
    && j < |ops| && ops[j].Store? && ops[j].name == name && maxTtl > 0 && ops[j].ttl != Some(0)
    && forall k :: j < k < |ops| && ops[k].Store? && ops[k].name == name ==> ops[k].ttl == Some(0)
  }

  ghost predicate EvictedAfter(ops: seq<Op>, name: Name, j: nat)
  {
    exists k :: j < k < |ops| && ops[k].Store? && ops[k].evicted == Some(name)
  }

  /** Young enough for the cache, and for the resolver that set a TTL. */
  predicate InTime(op: Op, maxTtl: nat, now: nat)
    requires op.Store?
  {
    now < op.now + maxTtl && (op.ttl.Some? ==> now < op.now + op.ttl.value)
  }

  /** The log in terms of positions. */
  lemma {:induction false} LastStoreIs(ops: seq<Op>, maxTtl: nat, name: Name) returns (j: nat)
    requires LastStore(ops, maxTtl, name).Some?
    ensures IsLastStore(ops, maxTtl, name, j)
    ensures var last := LastStore(ops, maxTtl, name).value;
            && last.addresses == ops[j].addresses && last.inserted == ops[j].now
            && forall now :: last.expires > now <==> InTime(ops[j], maxTtl, now)
    ensures PushedOut(ops, maxTtl, name) <==> EvictedAfter(ops, name, j)
    decreases |ops|
  {
    var n := |ops| - 1;
    if Stores(ops[n], maxTtl, name) {
      j := n;
    } else {
      var front := Front(ops);
      j := LastStoreIs(front, maxTtl, name);
      assert front[j] == ops[j];
      forall k | j < k < |ops| && ops[k].Store? && ops[k].name == name ensures ops[k].ttl == Some(0) {
        if k < n { assert front[k] == ops[k]; }
      }
      EvictedLater(ops, name, j);
    }
  }

  lemma EvictedLater(ops: seq<Op>, name: Name, j: nat)
    requires j < |ops| - 1
    ensures EvictedAfter(ops, name, j) <==>
              EvictedAfter(Front(ops), name, j) || (Last(ops).Store? && Last(ops).evicted == Some(name))
  {
    var front := Front(ops);
    if EvictedAfter(front, name, j) {
      var k :| j < k < |front| && front[k].Store? && front[k].evicted == Some(name);
      assert ops[k] == front[k];
    }
    if EvictedAfter(ops, name, j) {
      var k :| j < k < |ops| && ops[k].Store? && ops[k].evicted == Some(name);
      if k < |front| { assert ops[k] == front[k]; }
    }
  }

  lemma {:induction false} SomeLastStore(ops: seq<Op>, maxTtl: nat, name: Name, j: nat)
    requires IsLastStore(ops, maxTtl, name, j)
    ensures LastStore(ops, maxTtl, name).Some?
    decreases |ops|
  {
    if j < |ops| - 1 && !Stores(Last(ops), maxTtl, name) {
      var front := Front(ops);
      assert front[j] == ops[j];
      forall k | j < k < |front| && front[k].Store? && front[k].name == name ensures front[k].ttl == Some(0) {
        assert front[k] == ops[k];
      }
      SomeLastStore(front, maxTtl, name, j);
    }
  }

  lemma OneLastStore(ops: seq<Op>, maxTtl: nat, name: Name, i: nat, j: nat)
    requires IsLastStore(ops, maxTtl, name, i) && IsLastStore(ops, maxTtl, name, j)
    ensures i == j
  {
  }

  /**
   * A hit, in plain times: it gives the addresses of the last insert of that name whose TTL was not zero, not evicted
   * since, made less than the cache's maximum ago and less than its own TTL ago.
   */
  lemma HitIsInTime(init: State, ops: seq<Op>, name: Name, now: nat, hit: Option<seq<Ip>>, s: State) returns (j: nat)
    requires Empty(init) && Run(init, ops + [Lookup(name, now, hit)], s) && hit.Some?
    ensures IsLastStore(ops, init.maxTtl, name, j) && !EvictedAfter(ops, name, j) && hit.value == ops[j].addresses
    ensures now < ops[j].now + init.maxTtl && (ops[j].ttl.Some? ==> now < ops[j].now + ops[j].ttl.value)
  {
    hide Run, Step, LastStore, PushedOut, IsLastStore, EvictedAfter;
    RefinesLog(init, ops, name, now, hit, s);
    j := LastStoreIs(ops, init.maxTtl, name);
    LastStoreStores(ops, init.maxTtl, name, j);
    assert InTime(ops[j], init.maxTtl, now);
  }

  /** And with a clock that never goes back, every such insert is a hit. */
  lemma InTimeIsHit(init: State, ops: seq<Op>, name: Name, now: nat, hit: Option<seq<Ip>>, s: State, j: nat)
    requires Empty(init) && Run(init, ops + [Lookup(name, now, hit)], s) && TimesNotAfter(ops, now)
    requires IsLastStore(ops, init.maxTtl, name, j) && !EvictedAfter(ops, name, j)
    requires now < ops[j].now + init.maxTtl && (ops[j].ttl.Some? ==> now < ops[j].now + ops[j].ttl.value)
    ensures hit == Some(ops[j].addresses)
  {
    hide Run, Step, LastStore, PushedOut, EvictedAfter;
    RefinesLog(init, ops, name, now, hit, s);
    SomeLastStore(ops, init.maxTtl, name, j);
    var i := LastStoreIs(ops, init.maxTtl, name);
    OneLastStore(ops, init.maxTtl, name, i, j);
    assert InTime(ops[j], init.maxTtl, now);
  }

  lemma LastStoreStores(ops: seq<Op>, maxTtl: nat, name: Name, j: nat)
    requires IsLastStore(ops, maxTtl, name, j)
    ensures j < |ops| && ops[j].Store?
  {
  }

  /**
   * Eviction is the exception it should be: it takes an insert of a new name into a cache full of live
   * entries, removes one with the least insert time, and leaves every other live entry as it was.
   */
  lemma EvictionIsForced(s: State, op: Op, s': State)
    requires s.capacity > 0 && |s.entries| <= s.capacity && Step(s, op, s') && op.Store? && op.evicted.Some?
    ensures var live := Live(s.entries, op.now);
            && live == s.entries && |s.entries| == s.capacity && op.name !in s.entries
            && op.evicted.value in s.entries
            && (forall k :: k in s.entries ==> s.entries[op.evicted.value].inserted <= s.entries[k].inserted)
            && forall k :: k in s.entries && k != op.evicted.value ==> k in s'.entries && s'.entries[k] == s.entries[k]
  {
    var live := Live(s.entries, op.now);
    LiveSize(s.entries, op.now);
    assert live.Keys <= s.entries.Keys;
    SubsetSize(live.Keys, s.entries.Keys);
    assert live.Keys == s.entries.Keys;
    assert live == s.entries;
  }
}
