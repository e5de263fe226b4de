/**
 * The alias loop of `resolve_addresses_through_aliases` (crates/dns/src/wire.rs) over the CNAME records of a
 * response, each an edge from its owner to its target. Names are any type with equality.
 */
module AliasClosure {
  import opened Bytes
  import opened Sets

  const MAX_DNS_ALIAS_HOPS := 16

  /** An IN CNAME record; `target` is None when its data does not hold exactly one name. */
  datatype Edge<T> = Edge(owner: T, target: Option<T>, ttl: nat)

  datatype Closure<T> = Rejected | Accepted(names: set<T>, ttl: Option<nat>)

  function MinTtl(current: Option<nat>, candidate: nat): nat
  {
    match current
    case None => candidate
    case Some(t) => if t <= candidate then t else candidate
  }

  /** One pass over the records: every record of an accepted owner adds its target at once. */
  function Pass<T(==)>(edges: seq<Edge<T>>, names: set<T>, ttl: Option<nat>): Closure<T>
    decreases |edges|
  {
    if edges == [] then Accepted(names, ttl)
    else
      var e := edges[0];
      if e.owner !in names then Pass(edges[1..], names, ttl)
      else if e.target.None? then Rejected
      else Pass(edges[1..], names + {e.target.value}, Some(MinTtl(ttl, e.ttl)))
  }

  /** At most `passes` passes, stopping early when one adds nothing. */
  function Iterate<T(==)>(edges: seq<Edge<T>>, names: set<T>, ttl: Option<nat>, passes: nat): Closure<T>
    decreases passes
  {
    if passes == 0 then Accepted(names, ttl)
    else
      match Pass(edges, names, ttl)
      case Rejected => Rejected
      case Accepted(grown, ttl') =>
        if grown == names then Accepted(names, ttl')
        else if |grown| > MAX_DNS_ALIAS_HOPS + 1 then Rejected
        else Iterate(edges, grown, ttl', passes - 1)
  }

  function AcceptedNames<T(==)>(edges: seq<Edge<T>>, query: T): Closure<T>
  {
    Iterate(edges, {query}, None, MAX_DNS_ALIAS_HOPS)
  }

  // ---------------------------------------------------------------- what reachable means

  /** The names at most `k` aliases away from the query. */
  ghost function Reach<T>(edges: seq<Edge<T>>, query: T, k: nat): set<T>
  {
    if k == 0 then {query}
    else
      var near := Reach(edges, query, k - 1);
      near + set e | e in edges && e.owner in near && e.target.Some? :: e.target.value
  }

  ghost predicate Reachable<T>(edges: seq<Edge<T>>, query: T, name: T)
  {
    exists k: nat :: name in Reach(edges, query, k)
  }

  /** Every name that is the query or the target of some record. */
  ghost function Universe<T>(edges: seq<Edge<T>>, query: T): set<T>
  {
    {query} + set e | e in edges && e.target.Some? :: e.target.value
  }

  /** The reachable names, a finite set. */
  ghost function ReachSet<T>(edges: seq<Edge<T>>, query: T): (r: set<T>)
  {
    set name | name in Universe(edges, query) && Reachable(edges, query, name)
  }

  ghost predicate Closed<T>(edges: seq<Edge<T>>, names: set<T>)
  {
    forall e :: e in edges && e.owner in names && e.target.Some? ==> e.target.value in names
  }

  /** The records whose owner is reached hold exactly one name each. */
  ghost predicate WellFormed<T>(edges: seq<Edge<T>>, names: set<T>)
  {
    forall e :: e in edges && e.owner in names ==> e.target.Some?
  }

  /** `ttl` is the least TTL of the records owned by `names`, and absent only when there is no such record. */
  ghost predicate LeastTtl<T>(edges: seq<Edge<T>>, names: set<T>, ttl: Option<nat>)
  {
    && (forall e :: e in edges && e.owner in names ==> ttl.Some? && ttl.value <= e.ttl)
    && (ttl.Some? ==> exists e :: e in edges && e.owner in names && e.ttl == ttl.value)
  }

  lemma {:induction false} ReachInUniverse<T>(edges: seq<Edge<T>>, query: T, k: nat)
    ensures Reach(edges, query, k) <= Universe(edges, query)
  {
    if k > 0 { ReachInUniverse(edges, query, k - 1); }
  }

  lemma ReachSetExact<T>(edges: seq<Edge<T>>, query: T, name: T)
    ensures name in ReachSet(edges, query) <==> Reachable(edges, query, name)
  {
    if Reachable(edges, query, name) {
      var k: nat :| name in Reach(edges, query, k);
      ReachInUniverse(edges, query, k);
    }
  }

  lemma ReachSetClosed<T>(edges: seq<Edge<T>>, query: T)
    ensures query in ReachSet(edges, query)
    ensures Closed(edges, ReachSet(edges, query))
  {
    assert query in Reach(edges, query, 0);
    forall e | e in edges && e.owner in ReachSet(edges, query) && e.target.Some?
      ensures e.target.value in ReachSet(edges, query)
    {
      var k: nat :| e.owner in Reach(edges, query, k);
      assert e.target.value in Reach(edges, query, k + 1);
      ReachSetExact(edges, query, e.target.value);
    }
  }

  /** A closed set that holds the query holds everything reachable. */
  lemma {:induction false} ClosedHoldsReach<T>(edges: seq<Edge<T>>, query: T, names: set<T>, k: nat)
    requires query in names && Closed(edges, names)
    ensures Reach(edges, query, k) <= names
  {
    if k > 0 { ClosedHoldsReach(edges, query, names, k - 1); }
  }

  lemma ClosedHoldsReachSet<T>(edges: seq<Edge<T>>, query: T, names: set<T>)
    requires query in names && Closed(edges, names)
    ensures ReachSet(edges, query) <= names
  {
    forall name | name in ReachSet(edges, query) ensures name in names {
      var k: nat :| name in Reach(edges, query, k);
      ClosedHoldsReach(edges, query, names, k);
    }
  }

  // ---------------------------------------------------------------- one pass

  /** A pass over some of the records grows the set, and stays within every closed set. */
  lemma {:induction false} PassSound<T>(all: seq<Edge<T>>, edges: seq<Edge<T>>, names: set<T>, ttl: Option<nat>, within: set<T>)
    requires forall e :: e in edges ==> e in all
    requires names <= within && Closed(all, within)
    ensures WellFormed(all, within) ==> Pass(edges, names, ttl).Accepted?
    ensures Pass(edges, names, ttl).Accepted? ==> names <= Pass(edges, names, ttl).names <= within
    decreases |edges|
  {
    if edges != [] {
      var e := edges[0];
      assert e in all;
      forall x | x in edges[1..] ensures x in all { assert x in edges; }
      if e.owner !in names {
        PassSound(all, edges[1..], names, ttl, within);
      } else if e.target.Some? {
        PassSound(all, edges[1..], names + {e.target.value}, Some(MinTtl(ttl, e.ttl)), within);
      }
    }
  }

  /** A pass that adds nothing has seen every record of an accepted owner. */
  lemma {:induction false} QuietPass<T>(edges: seq<Edge<T>>, names: set<T>, ttl: Option<nat>)
    requires Pass(edges, names, ttl).Accepted? && Pass(edges, names, ttl).names == names
    ensures Closed(edges, names) && WellFormed(edges, names)
    decreases |edges|
  {
    if edges != [] {
      var e := edges[0];
      if e.owner in names {
        var grown := names + {e.target.value};
        PassGrows(edges[1..], grown, Some(MinTtl(ttl, e.ttl)));
        assert grown == names;
        QuietPass(edges[1..], names, Some(MinTtl(ttl, e.ttl)));
      } else {
        QuietPass(edges[1..], names, ttl);
      }
      forall x | x in edges ensures x == e || x in edges[1..] { }
    }
  }

  lemma {:induction false} PassGrows<T>(edges: seq<Edge<T>>, names: set<T>, ttl: Option<nat>)
    ensures Pass(edges, names, ttl).Accepted? ==> names <= Pass(edges, names, ttl).names
    decreases |edges|
  {
    if edges != [] {
      var e := edges[0];
      if e.owner !in names {
        PassGrows(edges[1..], names, ttl);
      } else if e.target.Some? {
        PassGrows(edges[1..], names + {e.target.value}, Some(MinTtl(ttl, e.ttl)));
      }
    }
  }

  /** The TTL so far comes from a record of an accepted owner. */
  ghost predicate Witnessed<T>(all: seq<Edge<T>>, names: set<T>, ttl: Option<nat>)
  {
    ttl.Some? ==> exists e :: e in all && e.owner in names && e.ttl == ttl.value
  }

  lemma {:induction false} PassTtl<T>(all: seq<Edge<T>>, edges: seq<Edge<T>>, names: set<T>, ttl: Option<nat>)
    requires forall e :: e in edges ==> e in all
    requires Witnessed(all, names, ttl) && Pass(edges, names, ttl).Accepted?
    ensures var r := Pass(edges, names, ttl);
            && Witnessed(all, r.names, r.ttl)
            && (ttl.Some? ==> r.ttl.Some? && r.ttl.value <= ttl.value)
            && (forall e :: e in edges && e.owner in names ==> r.ttl.Some? && r.ttl.value <= e.ttl)
    decreases |edges|
  {
    if edges != [] {
      var e := edges[0];
      assert e in all;
      forall x | x in edges[1..] ensures x in all { assert x in edges; }
      if e.owner !in names {
        PassTtl(all, edges[1..], names, ttl);
      } else {
        PassTtl(all, edges[1..], names + {e.target.value}, Some(MinTtl(ttl, e.ttl)));
      }
      forall x | x in edges && x.owner in names
        ensures var r := Pass(edges, names, ttl); r.ttl.Some? && r.ttl.value <= x.ttl
      {
        assert x == e || x in edges[1..];
      }
    }
  }

  // ---------------------------------------------------------------- the whole loop

  /** What the loop may end with after `passes` passes from `names`, when `all` is closed. */
  ghost predicate Outcome<T>(edges: seq<Edge<T>>, all: set<T>, names: set<T>, passes: nat, r: Closure<T>)
  {
    r.Accepted? ==>
      && names <= r.names <= all && |r.names| <= MAX_DNS_ALIAS_HOPS + 1
      && Witnessed(edges, r.names, r.ttl)
      && (|r.names| >= |names| + passes
          || (Closed(edges, r.names) && WellFormed(edges, r.names) && LeastTtl(edges, r.names, r.ttl)))
  }

  /**
   * What every run of the loop keeps, for any number of passes from any accepted set: it stays within every
   * closed set and within the bound; it ends either closed, or after every pass has added a name.
   */
  lemma {:induction false} IterateSound<T>(edges: seq<Edge<T>>, all: set<T>, names: set<T>, ttl: Option<nat>, passes: nat)
    requires Closed(edges, all) && names <= all && |names| <= MAX_DNS_ALIAS_HOPS + 1
    requires Witnessed(edges, names, ttl)
    ensures Outcome(edges, all, names, passes, Iterate(edges, names, ttl, passes))
    decreases passes
  {
    if passes > 0 {
      PassSound(edges, edges, names, ttl, all);
      var p := Pass(edges, names, ttl);
      if p.Accepted? {
        PassTtl(edges, edges, names, ttl);
        if p.names == names {
          QuietPass(edges, names, ttl);
          assert LeastTtl(edges, names, p.ttl);
        } else if |p.names| <= MAX_DNS_ALIAS_HOPS + 1 {
          GrowsByOne(names, p.names);
          IterateSound(edges, all, p.names, p.ttl, passes - 1);
        }
      }
    }
  }

  /** Nothing is refused when the records of a closed set within the bound are well formed. */
  lemma {:induction false} IterateAccepts<T>(edges: seq<Edge<T>>, all: set<T>, names: set<T>, ttl: Option<nat>, passes: nat)
    requires Closed(edges, all) && WellFormed(edges, all)
    requires names <= all && |all| <= MAX_DNS_ALIAS_HOPS + 1
    ensures Iterate(edges, names, ttl, passes).Accepted?
    decreases passes
  {
    if passes > 0 {
      PassSound(edges, edges, names, ttl, all);
      var p := Pass(edges, names, ttl);
      SubsetSize(p.names, all);
      IterateAccepts(edges, all, p.names, p.ttl, passes - 1);
    }
  }

  lemma GrowsByOne<T>(a: set<T>, b: set<T>)
    requires a < b
    ensures |b| >= |a| + 1
  {
    SubsetSize(a, b);
  }

  /**
   * Closure, for every order of the records, cycles included. An accepted response never trusts a name that
   * is not reachable, and never more than 17; it trusts all of them if and only if at most 17 are reachable.
   * With more, exactly 17 are trusted. A well-formed response with at most 17 reachable names is accepted, and with
   * at most 16 no other is.
   */
  lemma AcceptedNamesExact<T>(edges: seq<Edge<T>>, query: T)
    ensures var r := AcceptedNames(edges, query);
            var all := ReachSet(edges, query);
            && (r.Accepted? ==> query in r.names && r.names <= all && |r.names| <= 17)
            && (r.Accepted? ==> (r.names == all <==> |all| <= 17))
            && (r.Accepted? && |all| > 17 ==> |r.names| == 17)
            && (WellFormed(edges, all) && |all| <= 17 ==> r.Accepted?)
            && (|all| <= 16 ==> (r.Accepted? <==> WellFormed(edges, all)))
  {
    ReachSetClosed(edges, query);
    IterateSound(edges, ReachSet(edges, query), {query}, None, MAX_DNS_ALIAS_HOPS);
    var r, all := AcceptedNames(edges, query), ReachSet(edges, query);
    if WellFormed(edges, all) && |all| <= MAX_DNS_ALIAS_HOPS + 1 {
      IterateAccepts(edges, all, {query}, None, MAX_DNS_ALIAS_HOPS);
    }
    if r.Accepted? {
      SubsetSize(r.names, all);
      if Closed(edges, r.names) { ClosedHoldsReachSet(edges, query, r.names); }
    }
  }

  /** With at most 16 reachable names the chain TTL is the least TTL of all records those names own. */
  lemma AcceptedTtlExact<T>(edges: seq<Edge<T>>, query: T)
    requires AcceptedNames(edges, query).Accepted? && |ReachSet(edges, query)| <= 16
    ensures AcceptedNames(edges, query).names == ReachSet(edges, query)
    ensures LeastTtl(edges, ReachSet(edges, query), AcceptedNames(edges, query).ttl)
  {
    AcceptedNamesExact(edges, query);
    ReachSetClosed(edges, query);
    IterateSound(edges, ReachSet(edges, query), {query}, None, MAX_DNS_ALIAS_HOPS);
  }

  // ---------------------------------------------------------------- which records the TTL accounts for

  /** The names after one pass over the records, malformed ones skipped. */
  function Grown<T(==)>(edges: seq<Edge<T>>, names: set<T>): set<T>
    decreases |edges|
  {
    if edges == [] then names
    else
      var e := edges[0];
      Grown(edges[1..], if e.owner in names && e.target.Some? then names + {e.target.value} else names)
  }

  /** The names after some passes. */
  function Found<T(==)>(edges: seq<Edge<T>>, names: set<T>, passes: nat): set<T>
    decreases passes
  {
    if passes == 0 then names else Found(edges, Grown(edges, names), passes - 1)
  }

  /** A pass that starts with `names` reads record `k`: its owner is known when the pass comes to it. */
  predicate ReadAt<T(==)>(edges: seq<Edge<T>>, names: set<T>, k: nat)
    requires k < |edges|
  {
    edges[k].owner in Grown(edges[..k], names)
  }

  lemma {:induction false} GrownGrows<T>(edges: seq<Edge<T>>, names: set<T>)
    ensures names <= Grown(edges, names)
    decreases |edges|
  {
    if edges != [] {
      var e := edges[0];
      GrownGrows(edges[1..], if e.owner in names && e.target.Some? then names + {e.target.value} else names);
    }
  }

  lemma {:induction false} PassIsGrown<T>(edges: seq<Edge<T>>, names: set<T>, ttl: Option<nat>)
    requires Pass(edges, names, ttl).Accepted?
    ensures Pass(edges, names, ttl).names == Grown(edges, names)
    decreases |edges|
  {
    if edges != [] {
      var e := edges[0];
      if e.owner in names {
        PassIsGrown(edges[1..], names + {e.target.value}, Some(MinTtl(ttl, e.ttl)));
      } else {
        PassIsGrown(edges[1..], names, ttl);
      }
    }
  }

  /** `ttl` is the least of a TTL so far and the TTLs of the records that a pass reads. */
  ghost predicate LeastRead<T>(edges: seq<Edge<T>>, names: set<T>, before: Option<nat>, ttl: Option<nat>)
  {
    && (before.Some? ==> ttl.Some? && ttl.value <= before.value)
    && (forall k :: 0 <= k < |edges| && ReadAt(edges, names, k) ==> ttl.Some? && ttl.value <= edges[k].ttl)
    && (ttl == before || exists k :: 0 <= k < |edges| && ReadAt(edges, names, k) && ttl == Some(edges[k].ttl))
  }

  lemma ReadLater<T>(edges: seq<Edge<T>>, names: set<T>, k: nat)
    requires 0 < k < |edges|
    ensures var e := edges[0];
            var next := if e.owner in names && e.target.Some? then names + {e.target.value} else names;
            ReadAt(edges, names, k) <==> ReadAt(edges[1..], next, k - 1)
  {
    assert edges[..k][1..] == edges[1..][..k - 1];
  }

  lemma {:induction false} PassReads<T>(edges: seq<Edge<T>>, names: set<T>, ttl: Option<nat>)
    requires Pass(edges, names, ttl).Accepted?
    ensures LeastRead(edges, names, ttl, Pass(edges, names, ttl).ttl)
    decreases |edges|
  {
    if edges != [] {
      hide ReadAt;
      var e, rest := edges[0], edges[1..];
      var next := if e.owner in names && e.target.Some? then names + {e.target.value} else names;
      var ttl' := if e.owner in names then Some(MinTtl(ttl, e.ttl)) else ttl;
      PassReads(rest, next, ttl');
      var r := Pass(edges, names, ttl).ttl;
      assert ReadAt(edges, names, 0) <==> e.owner in names by { ReadFirst(edges, names); }
      forall k | 0 <= k < |edges| && ReadAt(edges, names, k) ensures r.Some? && r.value <= edges[k].ttl {
        if k > 0 { ReadLater(edges, names, k); assert rest[k - 1] == edges[k]; }
      }
      if r != ttl' {
        var k :| 0 <= k < |rest| && ReadAt(rest, next, k) && r == Some(rest[k].ttl);
        ReadLater(edges, names, k + 1);
        assert edges[k + 1] == rest[k];
      }
    }
  }

  lemma ReadFirst<T>(edges: seq<Edge<T>>, names: set<T>)
    requires edges != []
    ensures ReadAt(edges, names, 0) <==> edges[0].owner in names
  {
    assert edges[..0] == [];
  }

  /** The TTL of an accepted loop is the least of the records that its last pass reads. */
  lemma {:induction false} IterateReads<T>(edges: seq<Edge<T>>, names: set<T>, ttl: Option<nat>, passes: nat)
    requires passes > 0 && Iterate(edges, names, ttl, passes).Accepted? && Witnessed(edges, names, ttl)
    ensures var r := Iterate(edges, names, ttl, passes);
            LeastRead(edges, Found(edges, names, passes - 1), None, r.ttl) && r.names == Found(edges, names, passes)
    decreases passes
  {
    hide LeastRead, Grown;
    var p := Pass(edges, names, ttl);
    PassIsGrown(edges, names, ttl);
    PassReads(edges, names, ttl);
    PassTtl(edges, edges, names, ttl);
    WitnessIsRead(edges, names, ttl, p.ttl);
    if p.names == names {
      FoundStays(edges, names, passes);
      FoundStays(edges, names, passes - 1);
    } else if passes > 1 {
      IterateReads(edges, p.names, p.ttl, passes - 1);
    }
  }

  lemma {:induction false} FoundStays<T>(edges: seq<Edge<T>>, names: set<T>, passes: nat)
    requires Grown(edges, names) == names
    ensures Found(edges, names, passes) == names
    decreases passes
  {
    if passes > 0 { FoundStays(edges, names, passes - 1); }
  }

  /** A TTL from a record of a known owner is read again by every later pass. */
  lemma WitnessIsRead<T>(edges: seq<Edge<T>>, names: set<T>, before: Option<nat>, ttl: Option<nat>)
    requires Witnessed(edges, names, before) && LeastRead(edges, names, before, ttl)
    ensures LeastRead(edges, names, None, ttl)
  {
    if ttl == before && ttl.Some? {
      var e :| e in edges && e.owner in names && e.ttl == before.value;
      var k :| 0 <= k < |edges| && edges[k] == e;
      GrownGrows(edges[..k], names);
      assert ReadAt(edges, names, k);
    }
  }

  /** A record of an accepted name that the last pass came to before it knew the name. */
  ghost predicate Skipped<T>(edges: seq<Edge<T>>, query: T, k: nat)
    requires k < |edges|
  {
    && edges[k].owner in Found(edges, {query}, MAX_DNS_ALIAS_HOPS)
    && !ReadAt(edges, Found(edges, {query}, MAX_DNS_ALIAS_HOPS - 1), k)
  }

  /**
   * The chain TTL exactly, for any number of reachable names. It is the least TTL of all records owned by accepted
   * names if and only if no record that the 16th pass skips has a smaller TTL than every record it reads.
   */
  lemma TtlIsLeastUnless<T>(edges: seq<Edge<T>>, query: T)
    requires AcceptedNames(edges, query).Accepted?
    ensures var r := AcceptedNames(edges, query);
            var last := Found(edges, {query}, 15);
            && r.names == Found(edges, {query}, 16)
            && (LeastTtl(edges, r.names, r.ttl) <==>
                !exists k :: 0 <= k < |edges| && Skipped(edges, query, k)
                  && forall n :: 0 <= n < |edges| && ReadAt(edges, last, n) ==> edges[k].ttl < edges[n].ttl)
  {
    hide Found, Iterate, ReadAt;
    IterateReads(edges, {query}, None, MAX_DNS_ALIAS_HOPS);
    LeastUnless(edges, Found(edges, {query}, MAX_DNS_ALIAS_HOPS), Found(edges, {query}, MAX_DNS_ALIAS_HOPS - 1),
                AcceptedNames(edges, query).ttl, query);
  }

  lemma LeastUnless<T>(edges: seq<Edge<T>>, names: set<T>, last: set<T>, ttl: Option<nat>, query: T)
    requires names == Found(edges, {query}, MAX_DNS_ALIAS_HOPS) && last == Found(edges, {query}, MAX_DNS_ALIAS_HOPS - 1)
    requires LeastRead(edges, last, None, ttl)
    ensures LeastTtl(edges, names, ttl) <==>
              !exists k :: 0 <= k < |edges| && Skipped(edges, query, k)
                && forall n :: 0 <= n < |edges| && ReadAt(edges, last, n) ==> edges[k].ttl < edges[n].ttl
  {
    hide Found, Grown;
    forall n | 0 <= n < |edges| && ReadAt(edges, last, n) ensures edges[n].owner in names {
      ReadIsAccepted(edges, query, n);
    }
    if LeastTtl(edges, names, ttl) {
      forall k | 0 <= k < |edges| && Skipped(edges, query, k)
        ensures exists n :: 0 <= n < |edges| && ReadAt(edges, last, n) && edges[k].ttl >= edges[n].ttl
      {
        assert edges[k] in edges;
      }
    } else {
      LeastFails(edges, names, last, ttl, query);
    }
  }

  lemma ReadIsAccepted<T>(edges: seq<Edge<T>>, query: T, n: nat)
    requires n < |edges| && ReadAt(edges, Found(edges, {query}, MAX_DNS_ALIAS_HOPS - 1), n)
    ensures edges[n].owner in Found(edges, {query}, MAX_DNS_ALIAS_HOPS)
  {
    hide Grown, Found;
    var last := Found(edges, {query}, MAX_DNS_ALIAS_HOPS - 1);
    GrownPrefix(edges, last, n);
    FoundOneMore(edges, {query}, MAX_DNS_ALIAS_HOPS - 1);
  }

  lemma {:induction false} FoundOneMore<T>(edges: seq<Edge<T>>, names: set<T>, passes: nat)
    ensures Found(edges, names, passes + 1) == Grown(edges, Found(edges, names, passes))
    decreases passes
  {
    hide Grown;
    if passes > 0 {
      FoundOneMore(edges, Grown(edges, names), passes - 1);
    } else {
      assert Found(edges, Grown(edges, names), 0) == Grown(edges, names);
    }
  }

  lemma {:induction false} GrownPrefix<T>(edges: seq<Edge<T>>, names: set<T>, n: nat)
    requires n <= |edges|
    ensures Grown(edges[..n], names) <= Grown(edges, names)
    decreases n
  {
    if n == 0 {
      assert edges[..0] == [];
      GrownGrows(edges, names);
    } else {
      assert edges[..n][1..] == edges[1..][..n - 1];
      var e := edges[0];
      GrownPrefix(edges[1..], if e.owner in names && e.target.Some? then names + {e.target.value} else names, n - 1);
    }
  }

  lemma LeastFails<T>(edges: seq<Edge<T>>, names: set<T>, last: set<T>, ttl: Option<nat>, query: T)
    requires names == Found(edges, {query}, MAX_DNS_ALIAS_HOPS) && last == Found(edges, {query}, MAX_DNS_ALIAS_HOPS - 1)
    requires LeastRead(edges, last, None, ttl) && !LeastTtl(edges, names, ttl)
    requires forall n :: 0 <= n < |edges| && ReadAt(edges, last, n) ==> edges[n].owner in names
    ensures exists k :: 0 <= k < |edges| && Skipped(edges, query, k)
              && forall n :: 0 <= n < |edges| && ReadAt(edges, last, n) ==> edges[k].ttl < edges[n].ttl
  {
    hide Found, Grown, ReadAt;
    var e :| e in edges && e.owner in names && !(ttl.Some? && ttl.value <= e.ttl);
    var k :| 0 <= k < |edges| && edges[k] == e;
    assert Skipped(edges, query, k);
    forall n | 0 <= n < |edges| && ReadAt(edges, last, n) ensures edges[k].ttl < edges[n].ttl { }
  }

  // ---------------------------------------------------------------- which responses are accepted

  lemma {:induction false} GrownMonotone<T>(edges: seq<Edge<T>>, a: set<T>, b: set<T>)
    requires a <= b
    ensures Grown(edges, a) <= Grown(edges, b)
    decreases |edges|
  {
    if edges != [] {
      var e := edges[0];
      GrownMonotone(edges[1..], if e.owner in a && e.target.Some? then a + {e.target.value} else a,
                    if e.owner in b && e.target.Some? then b + {e.target.value} else b);
    }
  }

  lemma {:induction false} FoundGrows<T>(edges: seq<Edge<T>>, names: set<T>, passes: nat)
    ensures names <= Found(edges, names, passes)
    decreases passes
  {
    if passes > 0 {
      GrownGrows(edges, names);
      FoundGrows(edges, Grown(edges, names), passes - 1);
    }
  }

  /** Every record that a pass from `names` reads is well formed. */
  ghost predicate ReadsWell<T>(edges: seq<Edge<T>>, names: set<T>)
  {
    forall k :: 0 <= k < |edges| && ReadAt(edges, names, k) ==> edges[k].target.Some?
  }

  /** A pass from fewer names reads fewer records. */
  lemma ReadsWellBelow<T>(edges: seq<Edge<T>>, a: set<T>, b: set<T>)
    requires a <= b && ReadsWell(edges, b)
    ensures ReadsWell(edges, a)
  {
    forall k | 0 <= k < |edges| && ReadAt(edges, a, k) ensures edges[k].target.Some? {
      GrownMonotone(edges[..k], a, b);
      assert ReadAt(edges, b, k);
    }
  }

  /** A pass is refused exactly when it reads a malformed record. */
  lemma {:induction false} PassAcceptedIff<T>(edges: seq<Edge<T>>, names: set<T>, ttl: Option<nat>)
    ensures Pass(edges, names, ttl).Accepted? <==> ReadsWell(edges, names)
    decreases |edges|
  {
    hide ReadAt;
    if edges != [] {
      var e, rest := edges[0], edges[1..];
      var next := if e.owner in names && e.target.Some? then names + {e.target.value} else names;
      ReadFirst(edges, names);
      forall k | 0 < k < |edges| ensures ReadAt(edges, names, k) <==> ReadAt(rest, next, k - 1) {
        ReadLater(edges, names, k);
      }
      assert ReadsWell(edges, names) <==> (e.owner in names ==> e.target.Some?) && ReadsWell(rest, next) by {
        SplitReads(edges, names, next);
      }
      if !(e.owner in names && e.target.None?) {
        PassAcceptedIff(rest, next, if e.owner in names then Some(MinTtl(ttl, e.ttl)) else ttl);
      }
    }
  }

  lemma SplitReads<T>(edges: seq<Edge<T>>, names: set<T>, next: set<T>)
    requires edges != [] && (ReadAt(edges, names, 0) <==> edges[0].owner in names)
    requires forall k :: 0 < k < |edges| ==> (ReadAt(edges, names, k) <==> ReadAt(edges[1..], next, k - 1))
    ensures ReadsWell(edges, names) <==>
              (edges[0].owner in names ==> edges[0].target.Some?) && ReadsWell(edges[1..], next)
  {
    hide ReadAt;
    var rest := edges[1..];
    if ReadsWell(edges, names) {
      forall k | 0 <= k < |rest| && ReadAt(rest, next, k) ensures rest[k].target.Some? {
        assert ReadAt(edges, names, k + 1) && edges[k + 1] == rest[k];
      }
    }
    if (edges[0].owner in names ==> edges[0].target.Some?) && ReadsWell(rest, next) {
      forall k | 0 <= k < |edges| && ReadAt(edges, names, k) ensures edges[k].target.Some? {
        if k > 0 { assert rest[k - 1] == edges[k]; }
      }
    }
  }

  lemma {:induction false} IterateAcceptedIff<T>(edges: seq<Edge<T>>, names: set<T>, ttl: Option<nat>, passes: nat)
    requires passes > 0 && |names| <= MAX_DNS_ALIAS_HOPS + 1
    ensures Iterate(edges, names, ttl, passes).Accepted? <==>
              |Found(edges, names, passes)| <= MAX_DNS_ALIAS_HOPS + 1
              && ReadsWell(edges, Found(edges, names, passes - 1))
    decreases passes
  {
    hide Grown, ReadsWell, Pass;
    var p := Pass(edges, names, ttl);
    PassAcceptedIff(edges, names, ttl);
    FoundGrows(edges, names, passes - 1);
    if p.Rejected? {
      if ReadsWell(edges, Found(edges, names, passes - 1)) {
        ReadsWellBelow(edges, names, Found(edges, names, passes - 1));
      }
    } else {
      PassIsGrown(edges, names, ttl);
      FoundGrows(edges, p.names, passes - 1);
      SubsetSize(p.names, Found(edges, names, passes));
      if p.names == names {
        FoundStays(edges, names, passes);
        FoundStays(edges, names, passes - 1);
      } else if |p.names| <= MAX_DNS_ALIAS_HOPS + 1 && passes > 1 {
        IterateAcceptedIff(edges, p.names, p.ttl, passes - 1);
      }
    }
  }

  /**
   * Acceptance exactly, for every list of records: 16 passes find at most 17 names, and the 16th reads no malformed
   * record.
   */
  lemma AcceptedIff<T>(edges: seq<Edge<T>>, query: T)
    ensures AcceptedNames(edges, query).Accepted? <==>
              |Found(edges, {query}, 16)| <= 17
              && forall k :: 0 <= k < |edges| && ReadAt(edges, Found(edges, {query}, 15), k) ==>
                   edges[k].target.Some?
  {
    hide Found, Iterate, ReadAt;
    IterateAcceptedIff(edges, {query}, None, MAX_DNS_ALIAS_HOPS);
  }

  // ---------------------------------------------------------------- chains over the bound

  lemma {:induction false} GrownWithin<T>(all: seq<Edge<T>>, edges: seq<Edge<T>>, names: set<T>, within: set<T>)
    requires (forall e :: e in edges ==> e in all) && names <= within && Closed(all, within)
    ensures Grown(edges, names) <= within
    decreases |edges|
  {
    if edges != [] {
      var e := edges[0];
      assert e in all;
      forall x | x in edges[1..] ensures x in all { assert x in edges; }
      GrownWithin(all, edges[1..], if e.owner in names && e.target.Some? then names + {e.target.value} else names, within);
    }
  }

  lemma {:induction false} FoundWithin<T>(edges: seq<Edge<T>>, names: set<T>, passes: nat, within: set<T>)
    requires names <= within && Closed(edges, within)
    ensures Found(edges, names, passes) <= within
    decreases passes
  {
    if passes > 0 {
      GrownWithin(edges, edges, names, within);
      FoundWithin(edges, Grown(edges, names), passes - 1, within);
    }
  }

  lemma {:induction false} QuietGrown<T>(edges: seq<Edge<T>>, names: set<T>)
    requires Grown(edges, names) == names
    ensures Closed(edges, names)
    decreases |edges|
  {
    if edges != [] {
      var e := edges[0];
      var next := if e.owner in names && e.target.Some? then names + {e.target.value} else names;
      GrownGrows(edges[1..], next);
      assert next == names;
      QuietGrown(edges[1..], names);
      forall x | x in edges ensures x == e || x in edges[1..] { }
    }
  }

  /** Pass `i` (from 0) adds two names or more. */
  ghost predicate Leaps<T>(edges: seq<Edge<T>>, query: T, i: nat)
  {
    |Found(edges, {query}, i + 1)| >= |Found(edges, {query}, i)| + 2
  }

  lemma FoundStep<T>(edges: seq<Edge<T>>, query: T, i: nat)
    ensures Found(edges, {query}, i) <= Found(edges, {query}, i + 1)
    ensures |Found(edges, {query}, i)| <= |Found(edges, {query}, i + 1)|
    ensures |ReachSet(edges, query)| > |Found(edges, {query}, i)| ==>
              |Found(edges, {query}, i + 1)| > |Found(edges, {query}, i)|
  {
    hide Found, Grown, ReachSet;
    var now := Found(edges, {query}, i);
    FoundOneMore(edges, {query}, i);
    GrownGrows(edges, now);
    SubsetSize(now, Found(edges, {query}, i + 1));
    if Found(edges, {query}, i + 1) == now {
      QuietGrown(edges, now);
      FoundGrows(edges, {query}, i);
      ClosedHoldsReachSet(edges, query, now);
      SubsetSize(ReachSet(edges, query), now);
    }
  }

  lemma {:induction false} SlowPasses<T>(edges: seq<Edge<T>>, query: T, n: nat)
    requires forall i: nat :: i < n ==> !Leaps(edges, query, i)
    ensures |Found(edges, {query}, n)| <= n + 1
  {
    if n > 0 {
      SlowPasses(edges, query, n - 1);
      assert !Leaps(edges, query, n - 1);
    }
  }

  /** While names are missing each pass adds one, and a leap puts the count ahead for good. */
  lemma {:induction false} FastPasses<T>(edges: seq<Edge<T>>, query: T, n: nat, leap: nat)
    requires |ReachSet(edges, query)| > n + 1
    requires leap < n ==> Leaps(edges, query, leap)
    ensures |Found(edges, {query}, n)| >= n + 1 + if leap < n then 1 else 0
    decreases n
  {
    hide ReachSet;
    if n > 0 {
      FoundStep(edges, query, n - 1);
      FastPasses(edges, query, n - 1, leap);
    }
  }

  /**
   * A chain over the bound, exactly: a well-formed response with more than 17 reachable names is refused if and only
   * if one of the 16 passes adds two names or more. When each pass adds just one, it is accepted and cut.
   */
  lemma LongChainRefusedIff<T>(edges: seq<Edge<T>>, query: T)
    requires WellFormed(edges, ReachSet(edges, query)) && |ReachSet(edges, query)| > 17
    ensures AcceptedNames(edges, query).Rejected? <==>
              exists i: nat :: i < 16 && Leaps(edges, query, i)
  {
    hide Found, ReachSet, Leaps, AcceptedNames;
    var last := Found(edges, {query}, MAX_DNS_ALIAS_HOPS - 1);
    AcceptedIff(edges, query);
    ReachSetClosed(edges, query);
    WellFormedReads(edges, last, ReachSet(edges, query), query);
    if i: nat :| i < MAX_DNS_ALIAS_HOPS && Leaps(edges, query, i) {
      FastPasses(edges, query, MAX_DNS_ALIAS_HOPS, i);
    } else {
      SlowPasses(edges, query, MAX_DNS_ALIAS_HOPS);
    }
  }

  lemma WellFormedReads<T>(edges: seq<Edge<T>>, last: set<T>, within: set<T>, query: T)
    requires last == Found(edges, {query}, MAX_DNS_ALIAS_HOPS - 1)
    requires query in within && Closed(edges, within) && WellFormed(edges, within)
    ensures ReadsWell(edges, last)
  {
    hide Found, Grown;
    FoundWithin(edges, {query}, MAX_DNS_ALIAS_HOPS - 1, within);
    forall k | 0 <= k < |edges| && ReadAt(edges, last, k) ensures edges[k].target.Some? {
      GrownWithin(edges, edges[..k], last, within);
      assert edges[k] in edges;
    }
  }

  /** So the order in which the server lists its records cannot change the accepted names or their TTL. */
  lemma OrderDoesNotMatter<T>(a: seq<Edge<T>>, b: seq<Edge<T>>, query: T)
    requires forall e :: e in a <==> e in b
    requires WellFormed(a, ReachSet(a, query)) && |ReachSet(a, query)| <= 16
    ensures AcceptedNames(a, query).Accepted? && AcceptedNames(a, query) == AcceptedNames(b, query)
  {
    SameReach(a, b, query);
    AcceptedNamesExact(a, query);
    AcceptedNamesExact(b, query);
    AcceptedTtlExact(a, query);
    AcceptedTtlExact(b, query);
    LeastTtlUnique(a, b, ReachSet(a, query), AcceptedNames(a, query).ttl, AcceptedNames(b, query).ttl);
  }

  lemma LeastTtlUnique<T>(a: seq<Edge<T>>, b: seq<Edge<T>>, names: set<T>, s: Option<nat>, t: Option<nat>)
    requires forall e :: e in a <==> e in b
    requires LeastTtl(a, names, s) && LeastTtl(b, names, t)
    ensures s == t
  {
  }

  lemma SameReach<T>(a: seq<Edge<T>>, b: seq<Edge<T>>, query: T)
    requires forall e :: e in a <==> e in b
    ensures ReachSet(a, query) == ReachSet(b, query)
  {
    ReachSetClosed(a, query);
    ReachSetClosed(b, query);
    ClosedHoldsReachSet(a, query, ReachSet(b, query));
    ClosedHoldsReachSet(b, query, ReachSet(a, query));
  }

  // ---------------------------------------------------------------- a chain longer than the bound

  /** The names 0 to k. */
  ghost function Upto(k: nat): (r: set<int>)
    ensures forall i {:trigger i in r} :: i in r <==> 0 <= i <= k
  {
    if k == 0 then {0} else Upto(k - 1) + {k}
  }

  /** The chain 0 -> 1 -> .. -> n with its records listed from the last alias to the first. */
  function Backwards(n: nat): seq<Edge<int>>
  {
    if n == 0 then [] else [Edge(n - 1, Some(n), 60)] + Backwards(n - 1)
  }

  ghost predicate NotBelow60(ttl: Option<nat>) { ttl.Some? ==> ttl.value >= 60 }

  lemma {:induction false} PassBackwards(n: nat, k: nat, ttl: Option<nat>)
    ensures Pass(Backwards(n), Upto(k), ttl).Accepted?
    ensures Pass(Backwards(n), Upto(k), ttl).names == if n > k then Upto(k + 1) else Upto(k)
    ensures NotBelow60(ttl) ==> NotBelow60(Pass(Backwards(n), Upto(k), ttl).ttl)
    decreases n
  {
    if n > 0 {
      var next := Some(MinTtl(ttl, 60));
      if n - 1 > k {
        PassBackwards(n - 1, k, ttl);
      } else if n - 1 == k {
        assert Upto(k) + {n} == Upto(k + 1);
        PassBackwards(n - 1, k + 1, next);
      } else {
        assert Upto(k) + {n} == Upto(k);
        PassBackwards(n - 1, k, next);
      }
    }
  }

  lemma {:induction false} UptoSize(k: nat)
    ensures |Upto(k)| == k + 1
  {
    if k > 0 { UptoSize(k - 1); }
  }

  /** Passes that take one set of a growing family to the next. */
  ghost predicate StepsThrough(edges: seq<Edge<int>>, family: nat -> set<int>, k: nat)
  {
    && family(k) != family(k + 1) && |family(k + 1)| <= MAX_DNS_ALIAS_HOPS + 1
    && forall ttl ::
         && Pass(edges, family(k), ttl).Accepted? && Pass(edges, family(k), ttl).names == family(k + 1)
         && (NotBelow60(ttl) ==> NotBelow60(Pass(edges, family(k), ttl).ttl))
  }

  lemma {:induction false} IterateThrough(edges: seq<Edge<int>>, family: nat -> set<int>, k: nat, ttl: Option<nat>, passes: nat)
    requires forall i: nat :: k <= i < k + passes ==> StepsThrough(edges, family, i)
    ensures Iterate(edges, family(k), ttl, passes).Accepted?
    ensures Iterate(edges, family(k), ttl, passes).names == family(k + passes)
    ensures NotBelow60(ttl) ==> NotBelow60(Iterate(edges, family(k), ttl, passes).ttl)
    decreases passes
  {
    if passes > 0 {
      assert StepsThrough(edges, family, k);
      IterateThrough(edges, family, k + 1, Pass(edges, family(k), ttl).ttl, passes - 1);
    }
  }

  /** Each pass over a backwards chain, perhaps after one record of a name not reached yet, adds one name. */
  lemma BackwardsStep(edges: seq<Edge<int>>, n: nat, family: nat -> set<int>, i: nat)
    requires edges == Backwards(n) || (edges != [] && edges[1..] == Backwards(n) && edges[0].owner > i)
    requires i < MAX_DNS_ALIAS_HOPS && i < n && forall k: nat :: family(k) == Upto(k)
    ensures StepsThrough(edges, family, i)
  {
    UptoSize(i + 1);
    assert i + 1 in family(i + 1) && i + 1 !in family(i);
    forall ttl { PassBackwards(n, i, ttl); }
  }

  /**
   * A chain longer than the bound is not always refused: listed last alias first, each pass adds one name, the
   * loop runs out of passes, and the response is accepted with its chain cut after 16 aliases.
   */
  lemma LongChainMayBeCut(n: nat)
    requires n > 16
    ensures AcceptedNames(Backwards(n), 0).Accepted?
    ensures AcceptedNames(Backwards(n), 0).names == Upto(16)
    ensures n in ReachSet(Backwards(n), 0)
  {
    var family := (k: nat) => Upto(k);
    forall i: nat | i < MAX_DNS_ALIAS_HOPS ensures StepsThrough(Backwards(n), family, i) {
      BackwardsStep(Backwards(n), n, family, i);
    }
    IterateThrough(Backwards(n), family, 0, None, MAX_DNS_ALIAS_HOPS);
    BackwardsReach(n, n);
    ReachSetExact(Backwards(n), 0, n);
  }

  /**
   * The bound of AcceptedTtlExact is tight: with 17 reachable names, the last one found in the last pass, an
   * alias that this name owns is never read, and its shorter TTL does not shorten the answer.
   */
  lemma LastAliasTtlMayBeMissed()
    ensures var edges := [Edge(MAX_DNS_ALIAS_HOPS, Some(0), 5)] + Backwards(MAX_DNS_ALIAS_HOPS);
            var r := AcceptedNames(edges, 0);
            r.Accepted? && r.names == Upto(MAX_DNS_ALIAS_HOPS) && !LeastTtl(edges, r.names, r.ttl)
  {
    hide Upto, Backwards, Iterate, Pass;
    var last := MAX_DNS_ALIAS_HOPS;
    var edges := [Edge(last, Some(0), 5)] + Backwards(last);
    var family := (k: nat) => Upto(k);
    assert edges[1..] == Backwards(last);
    forall i: nat | i < last ensures StepsThrough(edges, family, i) {
      BackwardsStep(edges, last, family, i);
    }
    IterateThrough(edges, family, 0, None, last);
    assert Upto(0) == {0};
    assert edges[0] in edges && last in Upto(last);
  }

  lemma {:induction false} BackwardsHolds(n: nat, i: nat)
    requires i < n
    ensures Edge(i, Some(i + 1), 60) in Backwards(n)
  {
    if i < n - 1 { BackwardsHolds(n - 1, i); }
  }

  lemma {:induction false} BackwardsReach(n: nat, k: nat)
    requires k <= n
    ensures k in Reach(Backwards(n), 0, k)
    decreases k
  {
    if k > 0 {
      BackwardsReach(n, k - 1);
      BackwardsHolds(n, k - 1);
    }
  }
}
