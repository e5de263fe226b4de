/** Policy compilation and decision of crates/core/src/policy.rs and crates/core/src/runtime.rs. */
module Policy {
  import opened Bytes
  import opened Net
  import opened Names
  import opened DomainSet

  datatype Tier = UserHard | Safety | Compatibility | Adaptive | Default

  function Rank(t: Tier): nat
  {
    match t
    case UserHard => 0
    case Safety => 1
    case Compatibility => 2
    case Adaptive => 3
    case Default => 4
  }

  datatype Transport = Tcp | Udp

  datatype NetworkKind = Unknown | Ethernet | Wifi | Cellular

  datatype Flow = Flow(uid: Option<nat>, package: Option<Octets>, target: Target, transport: Transport, network: NetworkKind)

  /** Match expressions; an address block is known by the addresses it contains. */
  datatype Matcher =
    | Any
    | Uid(uid: nat)
    | Package(package: Octets)
    | DomainExact(expected: Octets)
    | DomainSuffix(suffix: Octets)
    | Filter(filter: DomainFilter)
    | IpIs(ip: Ip)
    | Cidr(contains: Ip -> bool)
    | Port(port: U16)
    | TransportIs(transport: Transport)
    | Network(kind: NetworkKind)
    | All(matchers: seq<Matcher>)
    | AnyOf(matchers: seq<Matcher>)
    | Not(matcher: Matcher)

  predicate Matches(m: Matcher, flow: Flow)
  {
    match m
    case Any => true
    case Uid(uid) => flow.uid == Some(uid)
    case Package(package) => flow.package == Some(package)
    case DomainExact(expected) => flow.target.host.Domain? && Lower(flow.target.host.name) == Lower(expected)
    case DomainSuffix(suffix) => flow.target.host.Domain? && DomainMatchesSuffix(flow.target.host.name, suffix)
    case Filter(filter) => flow.target.host.Domain? && IsBlocked(filter, flow.target.host.name)
    case IpIs(ip) => flow.target.host == Address(ip)
    case Cidr(contains) => flow.target.host.Address? && contains(flow.target.host.ip)
    case Port(port) => flow.target.port == port
    case TransportIs(transport) => flow.transport == transport
    case Network(kind) => flow.network == kind
    case All(matchers) => forall i :: 0 <= i < |matchers| ==> Matches(matchers[i], flow)
    case AnyOf(matchers) => exists i :: 0 <= i < |matchers| && Matches(matchers[i], flow)
    case Not(matcher) => !Matches(matcher, flow)
  }

  datatype EndpointId = EndpointId(text: string)

  datatype Endpoint = Direct | Proxy(id: EndpointId)

  datatype RejectReason = PolicyReason | SecurityReason | UnsupportedReason

  datatype Action = Route(endpoint: Endpoint) | Reject(reason: RejectReason)

  datatype Rule = Rule(id: nat, tier: Tier, matcher: Matcher, action: Action)

  datatype Decision = Decision(ruleId: Option<nat>, tier: Tier, action: Action)

  datatype PolicyEngine = PolicyEngine(rules: seq<Rule>, defaultAction: Action)

  // ---------------------------------------------------------------- compilation: a stable sort

  /** The rules of one rank, in their order. */
  function OfRank(rules: seq<Rule>, rank: nat): seq<Rule>
  {
    if rules == [] then []
    else (if Rank(rules[0].tier) == rank then [rules[0]] else []) + OfRank(rules[1..], rank)
  }

  /** Before every rule of a weaker tier, after every rule of its own or a stronger one. */
  function Place(rule: Rule, sorted: seq<Rule>): seq<Rule>
  {
    if sorted == [] then [rule]
    else if Rank(rule.tier) <= Rank(sorted[0].tier) then [rule] + sorted
    else [sorted[0]] + Place(rule, sorted[1..])
  }

  /** The stable `sort_by_key` on the tier's rank. */
  function StableSort(rules: seq<Rule>): seq<Rule>
  {
    if rules == [] then [] else Place(rules[0], StableSort(rules[1..]))
  }

  function NewEngine(rules: seq<Rule>, defaultAction: Action): PolicyEngine
  {
    PolicyEngine(StableSort(rules), defaultAction)
  }

  predicate SortedByRank(rules: seq<Rule>)
  {
    forall i, j :: 0 <= i < j < |rules| ==> Rank(rules[i].tier) <= Rank(rules[j].tier)
  }

  lemma {:induction false} PlaceSorts(rule: Rule, sorted: seq<Rule>)
    requires SortedByRank(sorted)
    ensures SortedByRank(Place(rule, sorted))
    ensures forall r :: r in Place(rule, sorted) <==> r == rule || r in sorted
    decreases |sorted|
  {
    if sorted != [] && Rank(rule.tier) > Rank(sorted[0].tier) {
      var head, tail := sorted[0], sorted[1..];
      PlaceSorts(rule, tail);
      var placed := Place(rule, tail);
      forall j | 0 <= j < |placed| ensures Rank(head.tier) <= Rank(placed[j].tier) {
        assert placed[j] in placed;
        if placed[j] != rule { var i :| 0 <= i < |tail| && tail[i] == placed[j]; assert sorted[i + 1] == placed[j]; }
      }
    }
  }

  lemma {:induction false} PlaceIsStable(rule: Rule, sorted: seq<Rule>, rank: nat)
    ensures OfRank(Place(rule, sorted), rank) == OfRank([rule] + sorted, rank)
    decreases |sorted|
  {
    hide OfRank;
    if sorted == [] {
      assert [rule] + sorted == [rule];
    } else if Rank(rule.tier) > Rank(sorted[0].tier) {
      var head, tail := sorted[0], sorted[1..];
      PlaceIsStable(rule, tail, rank);
      OfRankCons(head, Place(rule, tail), rank);
      OfRankCons(rule, tail, rank);
      OfRankCons(rule, sorted, rank);
      OfRankCons(head, tail, rank);
      assert [head] + tail == sorted;
      var rest := OfRank(tail, rank);
      assert [] + rest == rest && [] + ([rule] + rest) == [rule] + rest && [] + ([head] + rest) == [head] + rest;
    }
  }

  lemma OfRankCons(rule: Rule, rules: seq<Rule>, rank: nat)
    ensures OfRank([rule] + rules, rank) == (if Rank(rule.tier) == rank then [rule] else []) + OfRank(rules, rank)
  {
    assert ([rule] + rules)[1..] == rules;
  }

  /** Sorting orders the tiers, keeps every rule, and keeps the order within a tier. */
  lemma {:induction false} StableSortLaws(rules: seq<Rule>)
    ensures SortedByRank(StableSort(rules))
    ensures forall r :: r in StableSort(rules) <==> r in rules
    ensures forall rank :: OfRank(StableSort(rules), rank) == OfRank(rules, rank)
  {
    if rules != [] {
      var rest := rules[1..];
      StableSortLaws(rest);
      PlaceSorts(rules[0], StableSort(rest));
      forall rank ensures OfRank(StableSort(rules), rank) == OfRank(rules, rank) {
        PlaceIsStable(rules[0], StableSort(rest), rank);
        OfRankCons(rules[0], StableSort(rest), rank);
        OfRankCons(rules[0], rest, rank);
        assert [rules[0]] + rest == rules;
      }
    }
  }

  // ---------------------------------------------------------------- decisions

  /** The first rule that matches, in the order of the list. */
  function FirstMatch(rules: seq<Rule>, flow: Flow): Option<Rule>
  {
    if rules == [] then None
    else if Matches(rules[0].matcher, flow) then Some(rules[0])
    else FirstMatch(rules[1..], flow)
  }

  function DecisionOf(found: Option<Rule>, defaultAction: Action): Decision
  {
    match found
    case Some(rule) => Decision(Some(rule.id), rule.tier, rule.action)
    case None => Decision(None, Default, defaultAction)
  }

  function Decide(engine: PolicyEngine, flow: Flow): Decision
  {
    DecisionOf(FirstMatch(engine.rules, flow), engine.defaultAction)
  }

  /** The first matching rule of the strongest tier that has one, looking at one tier after the other. */
  function StrongestMatch(rules: seq<Rule>, flow: Flow, rank: nat): Option<Rule>
    requires rank <= 5
    decreases 5 - rank
  {
    if rank == 5 then None
    else
      var here := FirstMatch(OfRank(rules, rank), flow);
      if here.Some? then here else StrongestMatch(rules, flow, rank + 1)
  }

  lemma {:induction false} FirstMatchIsAMatch(rules: seq<Rule>, flow: Flow)
    ensures FirstMatch(rules, flow).Some? ==>
              FirstMatch(rules, flow).value in rules && Matches(FirstMatch(rules, flow).value.matcher, flow)
    ensures FirstMatch(rules, flow).None? <==> forall r :: r in rules ==> !Matches(r.matcher, flow)
  {
    if rules != [] { FirstMatchIsAMatch(rules[1..], flow); }
  }

  lemma {:induction false} OfRankMembers(rules: seq<Rule>, rank: nat)
    ensures forall r :: r in OfRank(rules, rank) <==> r in rules && Rank(r.tier) == rank
  {
    if rules != [] { OfRankMembers(rules[1..], rank); }
  }

  /** The first match of a list, if it is of this rank, is the first match among the rules of this rank. */
  lemma {:induction false} FirstMatchOfItsRank(rules: seq<Rule>, flow: Flow)
    requires FirstMatch(rules, flow).Some?
    ensures var r := FirstMatch(rules, flow).value; FirstMatch(OfRank(rules, Rank(r.tier)), flow) == Some(r)
  {
    hide Matches;
    if !Matches(rules[0].matcher, flow) {
      FirstMatchOfItsRank(rules[1..], flow);
      var rank := Rank(FirstMatch(rules, flow).value.tier);
      var rest := OfRank(rules[1..], rank);
      if Rank(rules[0].tier) == rank { assert ([rules[0]] + rest)[1..] == rest; } else { assert [] + rest == rest; }
    } else {
      assert ([rules[0]] + OfRank(rules[1..], Rank(rules[0].tier)))[0] == rules[0];
    }
  }

  lemma {:induction false} FirstMatchIsStrongest(rules: seq<Rule>, flow: Flow)
    requires SortedByRank(rules) && FirstMatch(rules, flow).Some?
    ensures forall r :: r in rules && Matches(r.matcher, flow) ==>
              Rank(FirstMatch(rules, flow).value.tier) <= Rank(r.tier)
  {
    hide Matches;
    if !Matches(rules[0].matcher, flow) {
      FirstMatchIsStrongest(rules[1..], flow);
    } else {
      forall r | r in rules ensures Rank(rules[0].tier) <= Rank(r.tier) { }
    }
  }

  lemma {:induction false} StrongestFrom(rules: seq<Rule>, flow: Flow, rank: nat, found: Rule)
    requires rank <= Rank(found.tier) && FirstMatch(OfRank(rules, Rank(found.tier)), flow) == Some(found)
    requires forall r :: r in rules && Matches(r.matcher, flow) ==> Rank(found.tier) <= Rank(r.tier)
    ensures StrongestMatch(rules, flow, rank) == Some(found)
    decreases 5 - rank
  {
    hide Matches, OfRank, FirstMatch;
    if rank < Rank(found.tier) {
      OfRankMembers(rules, rank);
      FirstMatchIsAMatch(OfRank(rules, rank), flow);
      StrongestFrom(rules, flow, rank + 1, found);
    }
  }

  lemma {:induction false} NoStrongest(rules: seq<Rule>, flow: Flow, rank: nat)
    requires rank <= 5 && forall r :: r in rules ==> !Matches(r.matcher, flow)
    ensures StrongestMatch(rules, flow, rank) == None
    decreases 5 - rank
  {
    hide Matches;
    if rank < 5 {
      OfRankMembers(rules, rank);
      FirstMatchIsAMatch(OfRank(rules, rank), flow);
      NoStrongest(rules, flow, rank + 1);
    }
  }

  /**
   * First match on the sorted rules is the strongest match on the rules as written: the first matching rule, in
   * source order, of the strongest tier that has a matching rule; the default when no rule matches.
   */
  lemma DecideIsStrongestMatch(rules: seq<Rule>, defaultAction: Action, flow: Flow)
    ensures Decide(NewEngine(rules, defaultAction), flow)
            == DecisionOf(StrongestMatch(rules, flow, 0), defaultAction)
  {
    hide Matches;
    var sorted := StableSort(rules);
    StableSortLaws(rules);
    FirstMatchIsAMatch(sorted, flow);
    if FirstMatch(sorted, flow).Some? {
      var found := FirstMatch(sorted, flow).value;
      FirstMatchOfItsRank(sorted, flow);
      FirstMatchIsStrongest(sorted, flow);
      assert OfRank(sorted, Rank(found.tier)) == OfRank(rules, Rank(found.tier));
      StrongestFrom(rules, flow, 0, found);
    } else {
      NoStrongest(rules, flow, 0);
    }
  }

  /** The position in the source that `FirstMatch` chooses within a tier. */
  lemma {:induction false} FirstMatchPosition(rules: seq<Rule>, flow: Flow, rank: nat) returns (i: nat)
    requires FirstMatch(OfRank(rules, rank), flow).Some?
    ensures i < |rules| && FirstMatch(OfRank(rules, rank), flow) == Some(rules[i])
    ensures Matches(rules[i].matcher, flow) && Rank(rules[i].tier) == rank
    ensures forall j :: 0 <= j < i ==> !(Matches(rules[j].matcher, flow) && Rank(rules[j].tier) == rank)
  {
    hide Matches;
    var rest := OfRank(rules[1..], rank);
    if Rank(rules[0].tier) == rank {
      assert OfRank(rules, rank)[0] == rules[0] && OfRank(rules, rank)[1..] == rest;
    } else {
      assert OfRank(rules, rank) == rest;
    }
    if Rank(rules[0].tier) == rank && Matches(rules[0].matcher, flow) {
      i := 0;
    } else {
      var k := FirstMatchPosition(rules[1..], flow, rank);
      i := k + 1;
      forall j | 0 <= j < i ensures !(Matches(rules[j].matcher, flow) && Rank(rules[j].tier) == rank) {
        if j > 0 { assert rules[1..][j - 1] == rules[j]; }
      }
    }
  }

  /** The decision by position: the matching rule least in (tier rank, source index). */
  lemma DecideIsLeast(rules: seq<Rule>, defaultAction: Action, flow: Flow) returns (i: nat)
    requires exists r :: r in rules && Matches(r.matcher, flow)
    ensures i < |rules| && Matches(rules[i].matcher, flow)
    ensures Decide(NewEngine(rules, defaultAction), flow) == Decision(Some(rules[i].id), rules[i].tier, rules[i].action)
    ensures forall j :: 0 <= j < |rules| && Matches(rules[j].matcher, flow) ==>
              Rank(rules[i].tier) < Rank(rules[j].tier) || (Rank(rules[i].tier) == Rank(rules[j].tier) && i <= j)
  {
    hide Matches;
    var sorted := StableSort(rules);
    StableSortLaws(rules);
    FirstMatchIsAMatch(sorted, flow);
    var found := FirstMatch(sorted, flow).value;
    FirstMatchOfItsRank(sorted, flow);
    FirstMatchIsStrongest(sorted, flow);
    assert OfRank(sorted, Rank(found.tier)) == OfRank(rules, Rank(found.tier));
    i := FirstMatchPosition(rules, flow, Rank(found.tier));
    forall j | 0 <= j < |rules| && Matches(rules[j].matcher, flow)
      ensures Rank(rules[i].tier) <= Rank(rules[j].tier)
    {
      assert rules[j] in sorted;
    }
  }

  lemma {:induction false} SameStrongTiers(a: seq<Rule>, b: seq<Rule>, flow: Flow, rank: nat, limit: nat)
    requires rank <= limit < 5 && forall k: nat :: k <= limit ==> OfRank(a, k) == OfRank(b, k)
    requires StrongestMatch(a, flow, rank).Some? && Rank(StrongestMatch(a, flow, rank).value.tier) <= limit
    ensures StrongestMatch(b, flow, rank) == StrongestMatch(a, flow, rank)
    decreases 5 - rank
  {
    hide Matches;
    if FirstMatch(OfRank(a, rank), flow).None? {
      StrongestIsAfter(a, flow, rank + 1);
      SameStrongTiers(a, b, flow, rank + 1, limit);
    }
  }

  lemma {:induction false} StrongestIsAfter(rules: seq<Rule>, flow: Flow, rank: nat)
    requires rank <= 5 && StrongestMatch(rules, flow, rank).Some?
    ensures rank <= Rank(StrongestMatch(rules, flow, rank).value.tier)
    decreases 5 - rank
  {
    hide Matches;
    OfRankMembers(rules, rank);
    FirstMatchIsAMatch(OfRank(rules, rank), flow);
    if FirstMatch(OfRank(rules, rank), flow).None? { StrongestIsAfter(rules, flow, rank + 1); }
  }

  /**
   * Weaker tiers have no say. If two rule lists hold the same rules in the same order in every tier up to some
   * strength, and a rule of such a tier decides for the one, it decides for the other, whatever was added,
   * removed or reordered in weaker tiers, and whatever their defaults are.
   */
  lemma WeakerTiersDoNotMatter(a: seq<Rule>, b: seq<Rule>, defaultA: Action, defaultB: Action, flow: Flow, limit: nat)
    requires limit < 5 && forall k: nat :: k <= limit ==> OfRank(a, k) == OfRank(b, k)
    requires var d := Decide(NewEngine(a, defaultA), flow); d.ruleId.Some? && Rank(d.tier) <= limit
    ensures Decide(NewEngine(b, defaultB), flow) == Decide(NewEngine(a, defaultA), flow)
  {
    hide Matches, Decide, StrongestMatch;
    DecideIsStrongestMatch(a, defaultA, flow);
    DecideIsStrongestMatch(b, defaultB, flow);
    SameStrongTiers(a, b, flow, 0, limit);
  }

  // ---------------------------------------------------------------- tiers and matchers

  /** User rules come before safety, compatibility and adaptive rules, and defaults come last. */
  lemma TierOrder()
    ensures Rank(UserHard) < Rank(Safety) < Rank(Compatibility) < Rank(Adaptive) < Rank(Default)
  {
  }

  /** A matching user rule decides, whatever other tiers say. */
  lemma UserRulesWin(rules: seq<Rule>, defaultAction: Action, flow: Flow)
    requires exists r :: r in rules && r.tier == UserHard && Matches(r.matcher, flow)
    ensures Decide(NewEngine(rules, defaultAction), flow).tier == UserHard
  {
    hide Matches;
    var r :| r in rules && r.tier == UserHard && Matches(r.matcher, flow);
    var j :| 0 <= j < |rules| && rules[j] == r;
    var i := DecideIsLeast(rules, defaultAction, flow);
    assert Rank(rules[i].tier) <= Rank(rules[j].tier);
  }

  /** Domain matchers with a normal name: the same name in any case, and the same name or one under it. */
  lemma DomainMatchersMean(name: Octets, flow: Flow)
    requires Normal(name)
    ensures Matches(DomainExact(name), flow) <==>
              flow.target.host.Domain? && Lower(flow.target.host.name) == name
    ensures Matches(DomainSuffix(name), flow) <==>
              flow.target.host.Domain? && SuffixMatch(Lower(TrimEnd(flow.target.host.name)), name)
    ensures Matches(DomainExact(name), flow) ==> Matches(DomainSuffix(name), flow)
  {
    hide Normalize, SuffixMatch, DomainMatchesSuffix;
    NormalIff(name);
    LowerFixedPoint(name);
    if flow.target.host.Domain? {
      var d := flow.target.host.name;
      SuffixRule(d, name);
      if Lower(d) == name {
        ValidNameHasNoEdgeDots(name);
        LowerTrimEnd(d);
        assert TrimEnd(name) == name;
        SelfMatch(name);
      }
    }
  }

  /** Names and addresses do not mix: a domain is matched by no address matcher, an address by no domain matcher. */
  lemma KindsDoNotMix(flow: Flow, ip: Ip, contains: Ip -> bool, name: Octets, filter: DomainFilter)
    ensures flow.target.host.Domain? ==> !Matches(IpIs(ip), flow) && !Matches(Cidr(contains), flow)
    ensures flow.target.host.Address? ==>
              !Matches(DomainExact(name), flow) && !Matches(DomainSuffix(name), flow) && !Matches(Filter(filter), flow)
              && (Matches(IpIs(ip), flow) <==> flow.target.host.ip == ip)
  {
  }

  function Negated(matchers: seq<Matcher>): (r: seq<Matcher>)
    ensures |r| == |matchers|
  {
    seq(|matchers|, i requires 0 <= i < |matchers| => Not(matchers[i]))
  }

  lemma NegatedAt(matchers: seq<Matcher>, i: nat, flow: Flow)
    requires i < |matchers|
    ensures Matches(Negated(matchers)[i], flow) <==> !Matches(matchers[i], flow)
  {
    assert Negated(matchers)[i] == Not(matchers[i]);
  }

  /** All and any look at every part. */
  lemma PartsMatch(matchers: seq<Matcher>, flow: Flow)
    ensures Matches(All(matchers), flow) <==> forall i :: 0 <= i < |matchers| ==> Matches(matchers[i], flow)
    ensures Matches(AnyOf(matchers), flow) <==> exists i :: 0 <= i < |matchers| && Matches(matchers[i], flow)
    ensures Matches(Not(All(matchers)), flow) <==> !Matches(All(matchers), flow)
  {
  }

  /** All, any and not are the logical ones: what not all match, some do not match. */
  lemma MatcherLogic(matchers: seq<Matcher>, flow: Flow)
    ensures Matches(Not(All(matchers)), flow) <==> Matches(AnyOf(Negated(matchers)), flow)
  {
    hide Matches, Negated;
    PartsMatch(matchers, flow);
    PartsMatch(Negated(matchers), flow);
    forall i | 0 <= i < |matchers| ensures Matches(Negated(matchers)[i], flow) <==> !Matches(matchers[i], flow) {
      NegatedAt(matchers, i, flow);
    }
  }

  /** Rules of one tier are sorted as they are. */
  lemma {:induction false} OneTierStays(rules: seq<Rule>, tier: Tier)
    requires forall i :: 0 <= i < |rules| ==> rules[i].tier == tier
    ensures StableSort(rules) == rules
  {
    if rules != [] {
      forall i | 0 <= i < |rules[1..]| ensures rules[1..][i].tier == tier { assert rules[1..][i] == rules[i + 1]; }
      OneTierStays(rules[1..], tier);
      assert rules == [rules[0]] + rules[1..];
    }
  }

  lemma {:induction false} FirstMatchAppend(rules: seq<Rule>, r: Rule, flow: Flow)
    ensures FirstMatch(rules + [r], flow)
            == if FirstMatch(rules, flow).Some? then FirstMatch(rules, flow)
               else if Matches(r.matcher, flow) then Some(r) else None
  {
    hide Matches;
    if rules == [] {
      assert rules + [r] == [r] && [r][1..] == [];
    } else {
      assert (rules + [r])[1..] == rules[1..] + [r];
      FirstMatchAppend(rules[1..], r, flow);
    }
  }

  /** The matchers on single fields accept exactly the flows with that value. */
  lemma FieldMatchersMean(flow: Flow, uid: nat, package: Octets, port: U16, transport: Transport, kind: NetworkKind)
    ensures Matches(Uid(uid), flow) <==> flow.uid == Some(uid)
    ensures Matches(Package(package), flow) <==> flow.package == Some(package)
    ensures Matches(Port(port), flow) <==> flow.target.port == port
    ensures Matches(TransportIs(transport), flow) <==> flow.transport == transport
    ensures Matches(Network(kind), flow) <==> flow.network == kind
    ensures Matches(Any, flow)
  {
  }

  /** Without a matching rule the default decides, in the default tier and without a rule id. */
  lemma DefaultDecides(rules: seq<Rule>, defaultAction: Action, flow: Flow)
    requires forall r :: r in rules ==> !Matches(r.matcher, flow)
    ensures Decide(NewEngine(rules, defaultAction), flow) == Decision(None, Default, defaultAction)
  {
    hide Matches;
    StableSortLaws(rules);
    FirstMatchIsAMatch(StableSort(rules), flow);
  }
}
