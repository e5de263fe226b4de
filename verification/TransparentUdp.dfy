/**
 * The client table of the transparent UDP listener (crates/daemon/src/transparent_udp.rs) with its routes and
 * token allocator (crates/daemon/src/datagram.rs). Clients and endpoints are any types with equality.
 */
module TransparentUdp {
  import opened Bytes
  import opened Sets

  const OUTBOUND_FIRST_TOKEN := 1
  const MAX_CLIENTS := 512
  const MAX_DATAGRAM_ROUTES := 32
  const CLIENT_IDLE_TIMEOUT := 120
  const USIZE_MAX := 0xFFFF_FFFF_FFFF_FFFF

  type Token = nat

  /** The routes of one client: the readiness tokens of each endpoint it has sent through. */
  datatype ClientState<E> = ClientState(routes: map<E, seq<Token>>, lastActivity: nat)

  /** The three tables that the listener changes together. */
  datatype Table<C, E> = Table(
    clients: map<C, ClientState<E>>, tokenClients: map<Token, C>, nextToken: nat)

  /** What opening a route and sending through it meets; `sources` is how many tokens the route asks for. */
  datatype Outbound = Outbound(openOk: bool, sources: nat, registerOk: bool, sendOk: bool)

  // ---------------------------------------------------------------- tokens and routes

  /** `DatagramTokenAllocator::allocate`: the next `count` tokens, or None when asked for none or exhausted. */
  function Allocate(next: nat, count: nat): (r: Option<seq<Token>>)
    ensures r.None? <==> count == 0 || next + count > USIZE_MAX
    ensures r.Some? ==> |r.value| == count && forall i :: 0 <= i < count ==> r.value[i] == next + i
  {
    if count == 0 || next + count > USIZE_MAX then None else Some(seq(count, i requires 0 <= i < count => next + i))
  }

  /** The routes, the next token and the verdict after `send_with`. */
  datatype Sent<E> = Sent(routes: map<E, seq<Token>>, nextToken: nat, ok: bool)

  /** `send_with`: opens and registers the route on first use. Tokens handed out are never taken back. */
  function SendWith<E>(routes: map<E, seq<Token>>, next: nat, endpoint: E, o: Outbound): Sent<E>
  {
    if endpoint in routes then Sent(routes, next, o.sendOk)
    else if |routes| >= MAX_DATAGRAM_ROUTES || !o.openOk then Sent(routes, next, false)
    else
      match Allocate(next, o.sources)
      case None => Sent(routes, next, false)
      case Some(tokens) =>
        if !o.registerOk then Sent(routes, next + o.sources, false)
        else Sent(routes[endpoint := tokens], next + o.sources, o.sendOk)
  }

  predicate Owns<E>(routes: map<E, seq<Token>>, token: Token)
  {
    exists e :: e in routes && token in routes[e]
  }

  // ---------------------------------------------------------------- the table's operations, as values

  predicate Expired<E>(state: ClientState<E>, now: nat)
  {
    SaturatingSub(now, state.lastActivity) >= CLIENT_IDLE_TIMEOUT
  }

  function ExpiredClients<C, E>(clients: map<C, ClientState<E>>, now: nat): set<C>
  {
    set c | c in clients && Expired(clients[c], now)
  }

  /** The token map without the tokens of the clients in `gone`. */
  ghost function Without<C, E>(tokens: map<Token, C>, clients: map<C, ClientState<E>>, gone: set<C>): map<Token, C>
    requires gone <= clients.Keys
  {
    map k | k in tokens && !(exists c :: c in gone && Owns(clients[c].routes, k)) :: tokens[k]
  }

  /** `cleanup_idle_clients`: expired clients go, and with them the tokens they own. */
  ghost function Cleanup<C, E>(t: Table<C, E>, now: nat): Table<C, E>
  {
    var gone := ExpiredClients(t.clients, now);
    t.(clients := t.clients - gone, tokenClients := Without(t.tokenClients, t.clients, gone))
  }

  /** The table with one more client, unless it is there or the table is full after a cleanup. */
  ghost function Admit<C, E>(t: Table<C, E>, client: C, now: nat): Table<C, E>
  {
    if client in t.clients then t
    else
      var cleaned := Cleanup(t, now);
      if |cleaned.clients| >= MAX_CLIENTS then cleaned
      else cleaned.(clients := cleaned.clients[client := ClientState(map[], now)])
  }

  /** `handle_inbound` for a datagram that the policy routes to a UDP-capable endpoint. */
  ghost function HandleInbound<C, E>(t: Table<C, E>, client: C, endpoint: E, now: nat, o: Outbound): (Table<C, E>, bool)
  {
    var admitted := Admit(t, client, now);
    if client !in admitted.clients then (admitted, false)
    else
      var state := admitted.clients[client];
      var sent := SendWith(state.routes, admitted.nextToken, endpoint, o);
      var after := admitted.(nextToken := sent.nextToken,
                             clients := admitted.clients[client := state.(routes := sent.routes)]);
      if !sent.ok then
        (if client in t.clients then after else after.(clients := after.clients - {client}), false)
      else
        (after.(tokenClients := after.tokenClients + Pointing(OwnedTokens(sent.routes), client)), true)
  }

  function OwnedTokens<E>(routes: map<E, seq<Token>>): (r: set<Token>)
    ensures forall k :: k in r <==> Owns(routes, k)
  {
    set e, i | e in routes && 0 <= i < |routes[e]| :: routes[e][i]
  }

  function Pointing<C>(tokens: set<Token>, client: C): map<Token, C> { map k | k in tokens :: client }

  /** A reply or a successful send renews the client. */
  function Touch<C, E>(t: Table<C, E>, client: C, now: nat): Table<C, E>
  {
    if client in t.clients then t.(clients := t.clients[client := t.clients[client].(lastActivity := now)]) else t
  }

  // ---------------------------------------------------------------- the listener's tables, in place

  class Listener<C(==), E(==)> {
    var clients: map<C, ClientState<E>>
    var tokenClients: map<Token, C>
    var nextToken: nat

    ghost function Value(): Table<C, E>
      reads this
    {
      Table(clients, tokenClients, nextToken)
    }

    constructor ()
      ensures Value() == Initial()
    {
      clients, tokenClients, nextToken := map[], map[], OUTBOUND_FIRST_TOKEN;
    }

    method CleanupIdleClients(now: nat)
      modifies this
      ensures Value() == Cleanup(old(Value()), now)
    {
      hide Without, Owns;
      var expired := ExpiredClients(clients, now);
      ghost var all := expired;
      assert clients - {} == clients;
      WithoutNobody(tokenClients, clients);
      assert all - expired == {};
      while expired != {}
        invariant expired <= all && nextToken == old(nextToken)
        invariant clients == old(clients) - (all - expired)
        invariant tokenClients == Without(old(tokenClients), old(clients), all - expired)
        decreases expired
      {
        var client :| client in expired;
        var state := clients[client];
        WithoutOneMore(old(tokenClients), old(clients), all - expired, client);
        assert all - (expired - {client}) == (all - expired) + {client};
        clients := clients - {client};
        tokenClients := tokenClients - OwnedTokens(state.routes);
        expired := expired - {client};
      }
      assert all - {} == all;
    }

    /** What a reply passed on, or a datagram sent, does to its client. */
    method RenewClient(client: C, now: nat)
      modifies this
      ensures Value() == Touch(old(Value()), client, now)
    {
      if client in clients {
        clients := clients[client := clients[client].(lastActivity := now)];
      }
    }

    /** `handle_inbound`; `routed` is the endpoint the policy chose, if it routes and supports UDP. */
    method HandleInboundDatagram(client: C, routed: Option<E>, now: nat, o: Outbound) returns (ok: bool)
      modifies this
      ensures routed.None? ==> !ok && Value() == old(Value())
      ensures routed.Some? ==> (Value(), ok) == HandleInbound(old(Value()), client, routed.value, now, o)
    {
      hide Without, SendWith, Pointing;
      if routed.None? {
        return false;
      }
      var inserted := client !in clients;
      if inserted {
        CleanupIdleClients(now);
        if |clients| >= MAX_CLIENTS {
          return false;
        }
        clients := clients[client := ClientState(map[], now)];
      }
      var state := clients[client];
      var sent := SendWith(state.routes, nextToken, routed.value, o);
      nextToken := sent.nextToken;
      clients := clients[client := state.(routes := sent.routes)];
      if !sent.ok {
        if inserted {
          clients := clients - {client};
        }
        return false;
      }
      var owned := OwnedTokens(sent.routes);
      tokenClients := tokenClients + Pointing(owned, client);
      return true;
    }
  }

  lemma WithoutNobody<C, E>(tokens: map<Token, C>, clients: map<C, ClientState<E>>)
    ensures Without(tokens, clients, {}) == tokens
  {
  }

  lemma WithoutOneMore<C, E>(tokens: map<Token, C>, clients: map<C, ClientState<E>>, gone: set<C>, c: C)
    requires gone <= clients.Keys && c in clients
    ensures Without(tokens, clients, gone) - OwnedTokens(clients[c].routes) == Without(tokens, clients, gone + {c})
  {
    hide OwnedTokens, Owns;
    var left, right := Without(tokens, clients, gone) - OwnedTokens(clients[c].routes), Without(tokens, clients, gone + {c});
    forall k | k in tokens ensures k in left <==> k in right {
      if k in left {
        forall x | x in gone + {c} ensures !Owns(clients[x].routes, k) { }
      }
    }
  }

  // ---------------------------------------------------------------- invariants

  function Initial<C, E>(): Table<C, E> { Table(map[], map[], OUTBOUND_FIRST_TOKEN) }

  /** Token `k` belongs to the route of client `c` through endpoint `e`. */
  ghost predicate OwnedBy<C, E>(t: Table<C, E>, c: C, e: E, k: Token)
  {
    c in t.clients && e in t.clients[c].routes && k in t.clients[c].routes[e]
  }

  ghost predicate Bounded<C, E>(t: Table<C, E>)
  {
    |t.clients| <= MAX_CLIENTS && forall c :: c in t.clients ==> |t.clients[c].routes| <= MAX_DATAGRAM_ROUTES
  }

  /** Owned tokens were handed out, none of them to two routes. */
  ghost predicate TokensUnique<C(!new), E(!new)>(t: Table<C, E>)
  {
    && (forall c, e, k: Token :: OwnedBy(t, c, e, k) ==> OUTBOUND_FIRST_TOKEN <= k < t.nextToken)
    && (forall c, e, c', e', k: Token :: OwnedBy(t, c, e, k) && OwnedBy(t, c', e', k) ==> c == c' && e == e')
  }

  /** Every mapped token leads to a live client that owns it. */
  ghost predicate MapSound<C, E>(t: Table<C, E>)
  {
    forall k :: k in t.tokenClients ==>
      t.tokenClients[k] in t.clients && Owns(t.clients[t.tokenClients[k]].routes, k)
  }

  ghost predicate Inv<C(!new), E(!new)>(t: Table<C, E>) { Bounded(t) && TokensUnique(t) && MapSound(t) }

  /** All tokens of a client lead back to it. */
  ghost predicate FullyMapped<C, E>(t: Table<C, E>, c: C)
  {
    c in t.clients && forall k :: Owns(t.clients[c].routes, k) ==> k in t.tokenClients && t.tokenClients[k] == c
  }

  /** From `t` to `t'` ownership only ends, except for one route that may start with tokens never handed out before. */
  ghost predicate OnlyNew<C(!new), E(!new)>(t: Table<C, E>, t': Table<C, E>, client: C, endpoint: E)
  {
    && t.nextToken <= t'.nextToken
    && forall c, e, k: Token :: OwnedBy(t', c, e, k) ==>
         || (OwnedBy(t, c, e, k) && t'.clients[c].routes[e] == t.clients[c].routes[e])
         || (c == client && e == endpoint && t.nextToken <= k < t'.nextToken)
  }

  /** Every owner in `t'` owns the same tokens in `t`. */
  ghost predicate OwnsNoMore<C(!new), E(!new)>(t: Table<C, E>, t': Table<C, E>)
  {
    forall c, e, k: Token :: OwnedBy(t', c, e, k) ==>
      OwnedBy(t, c, e, k) && t'.clients[c].routes[e] == t.clients[c].routes[e]
  }

  lemma OnlyNewKeepsUnique<C(!new), E(!new)>(t: Table<C, E>, t': Table<C, E>, client: C, endpoint: E)
    requires TokensUnique(t) && OnlyNew(t, t', client, endpoint) && t.nextToken >= OUTBOUND_FIRST_TOKEN
    ensures TokensUnique(t')
  {
  }

  /** A send touches one client, and gives it at most one route, of fresh tokens. */
  lemma SendEffect<E(!new)>(routes: map<E, seq<Token>>, next: nat, endpoint: E, o: Outbound)
    requires |routes| <= MAX_DATAGRAM_ROUTES
    ensures var sent := SendWith(routes, next, endpoint, o);
            && next <= sent.nextToken && |sent.routes| <= MAX_DATAGRAM_ROUTES
            && (forall e :: e in routes ==> e in sent.routes && sent.routes[e] == routes[e])
            && (forall e, k: Token :: e in sent.routes && k in sent.routes[e] ==>
                  (e in routes && sent.routes[e] == routes[e]) || (e == endpoint && next <= k < sent.nextToken))
  {
    var sent := SendWith(routes, next, endpoint, o);
    if sent.routes != routes {
      assert sent.routes.Keys == routes.Keys + {endpoint};
    }
  }

  /** Tokens handed out are spent, also when the registration or the send then fails; otherwise none are. */
  lemma TokensAreSpent<E(!new)>(routes: map<E, seq<Token>>, next: nat, endpoint: E, o: Outbound)
    ensures var opens := endpoint !in routes && |routes| < 32 && o.openOk && 0 < o.sources && next + o.sources <= USIZE_MAX;
            SendWith(routes, next, endpoint, o).nextToken == if opens then next + o.sources else next
  {
  }

  lemma CleanupOnlyEnds<C(!new), E(!new)>(t: Table<C, E>, now: nat, client: C, endpoint: E)
    ensures OnlyNew(t, Cleanup(t, now), client, endpoint)
    ensures forall c :: c in Cleanup(t, now).clients ==> c in t.clients && Cleanup(t, now).clients[c] == t.clients[c]
  {
    hide Without;
  }

  lemma CleanupMapSound<C(!new), E(!new)>(t: Table<C, E>, now: nat)
    requires MapSound(t)
    ensures MapSound(Cleanup(t, now))
  {
    hide Owns;
    var t' := Cleanup(t, now);
    forall k | k in t'.tokenClients
      ensures t'.tokenClients[k] in t'.clients && Owns(t'.clients[t'.tokenClients[k]].routes, k)
    {
      var c := t.tokenClients[k];
      assert c in t.clients && Owns(t.clients[c].routes, k);
      assert c !in ExpiredClients(t.clients, now);
    }
  }

  lemma CleanupKeeps<C(!new), E(!new)>(t: Table<C, E>, now: nat, client: C, endpoint: E)
    requires Inv(t) && t.nextToken >= OUTBOUND_FIRST_TOKEN
    ensures Inv(Cleanup(t, now)) && OnlyNew(t, Cleanup(t, now), client, endpoint)
    ensures Cleanup(t, now).clients.Keys <= t.clients.Keys
  {
    hide Without, TokensUnique, OnlyNew, MapSound;
    CleanupOnlyEnds(t, now, client, endpoint);
    CleanupMapSound(t, now);
    OnlyNewKeepsUnique(t, Cleanup(t, now), client, endpoint);
    assert Cleanup(t, now).clients.Keys <= t.clients.Keys;
    SubsetSize(Cleanup(t, now).clients.Keys, t.clients.Keys);
  }

  lemma AdmitKeeps<C(!new), E(!new)>(t: Table<C, E>, client: C, now: nat, endpoint: E)
    requires Inv(t) && t.nextToken >= OUTBOUND_FIRST_TOKEN
    ensures Inv(Admit(t, client, now)) && OnlyNew(t, Admit(t, client, now), client, endpoint)
    ensures Admit(t, client, now).nextToken == t.nextToken
  {
    hide Inv, OnlyNew;
    if client in t.clients {
      SameTable(t, client, endpoint);
    } else {
      CleanupKeeps(t, now, client, endpoint);
      var cleaned := Cleanup(t, now);
      assert client !in cleaned.clients;
      if |cleaned.clients| < MAX_CLIENTS {
        InsertClient(t, cleaned, client, now, endpoint);
      }
    }
  }

  lemma SameTable<C(!new), E(!new)>(t: Table<C, E>, client: C, endpoint: E)
    ensures OnlyNew(t, t, client, endpoint)
  {
  }

  lemma InsertClient<C(!new), E(!new)>(t: Table<C, E>, cleaned: Table<C, E>, client: C, now: nat, endpoint: E)
    requires Inv(cleaned) && OnlyNew(t, cleaned, client, endpoint)
    requires client !in cleaned.clients && |cleaned.clients| < MAX_CLIENTS
    ensures var t' := cleaned.(clients := cleaned.clients[client := ClientState(map[], now)]);
            Inv(t') && OnlyNew(t, t', client, endpoint)
  {
    hide TokensUnique, OwnsNoMore, OnlyNew, MapSound, Bounded;
    var t' := cleaned.(clients := cleaned.clients[client := ClientState(map[], now)]);
    EmptyClient(cleaned, t', client, now);
    FewerOwners(cleaned, t');
    SameOwnersNew(t, cleaned, t', client, endpoint);
    EmptyClientFits(cleaned, t', client, now);
  }

  lemma EmptyClientFits<C(!new), E(!new)>(t: Table<C, E>, t': Table<C, E>, client: C, now: nat)
    requires Bounded(t) && MapSound(t) && client !in t.clients && |t.clients| < MAX_CLIENTS
    requires t' == t.(clients := t.clients[client := ClientState(map[], now)])
    ensures Bounded(t') && MapSound(t')
  {
    assert MapSound(t') by { hide Owns, Bounded; }
    hide MapSound;
    OneClientMore(t.clients, client, ClientState(map[], now));
  }

  lemma OneClientMore<C, E>(clients: map<C, ClientState<E>>, client: C, state: ClientState<E>)
    requires client !in clients
    ensures |clients[client := state]| == |clients| + 1
  {
    assert clients[client := state].Keys == clients.Keys + {client};
    assert |clients| == |clients.Keys| && |clients[client := state]| == |clients.Keys + {client}|;
  }

  /** A client without routes owns nothing. */
  lemma EmptyClient<C(!new), E(!new)>(t: Table<C, E>, t': Table<C, E>, client: C, now: nat)
    requires client !in t.clients && t' == t.(clients := t.clients[client := ClientState(map[], now)])
    ensures OwnsNoMore(t, t')
  {
  }

  lemma SameOwnersNew<C(!new), E(!new)>(t: Table<C, E>, a: Table<C, E>, b: Table<C, E>, client: C, endpoint: E)
    requires OnlyNew(t, a, client, endpoint) && b.nextToken == a.nextToken
    requires OwnsNoMore(a, b)
    ensures OnlyNew(t, b, client, endpoint)
  {
  }

  /** The table after a send through one of the client's routes, before the token map is brought up to date. */
  function Routed<C, E>(t: Table<C, E>, client: C, endpoint: E, o: Outbound): Table<C, E>
    requires client in t.clients
  {
    var state := t.clients[client];
    var sent := SendWith(state.routes, t.nextToken, endpoint, o);
    t.(nextToken := sent.nextToken, clients := t.clients[client := state.(routes := sent.routes)])
  }

  lemma RoutedKeeps<C(!new), E(!new)>(t: Table<C, E>, client: C, endpoint: E, o: Outbound)
    requires Inv(t) && client in t.clients && t.nextToken >= OUTBOUND_FIRST_TOKEN
    ensures Inv(Routed(t, client, endpoint, o)) && OnlyNew(t, Routed(t, client, endpoint, o), client, endpoint)
  {
    hide SendWith, TokensUnique;
    var t' := Routed(t, client, endpoint, o);
    SendEffect(t.clients[client].routes, t.nextToken, endpoint, o);
    assert t'.clients.Keys == t.clients.Keys;
    assert OnlyNew(t, t', client, endpoint);
    OnlyNewKeepsUnique(t, t', client, endpoint);
  }

  lemma OnlyNewCompose<C(!new), E(!new)>(a: Table<C, E>, b: Table<C, E>, c: Table<C, E>, client: C, endpoint: E)
    requires OnlyNew(a, b, client, endpoint) && OnlyNew(b, c, client, endpoint)
    ensures OnlyNew(a, c, client, endpoint)
  {
  }

  /** Mapping all tokens of a live client to it keeps the map sound and makes it complete for that client. */
  lemma PointingKeeps<C(!new), E(!new)>(t: Table<C, E>, client: C)
    requires Inv(t) && client in t.clients
    ensures var t' := t.(tokenClients := t.tokenClients + Pointing(OwnedTokens(t.clients[client].routes), client));
            Inv(t') && FullyMapped(t', client)
  {
    hide Owns, OwnedTokens, TokensUnique;
    var owned := OwnedTokens(t.clients[client].routes);
    var t' := t.(tokenClients := t.tokenClients + Pointing(owned, client));
    FewerOwners(t, t');
    forall k | k in t'.tokenClients
      ensures t'.tokenClients[k] in t'.clients && Owns(t'.clients[t'.tokenClients[k]].routes, k)
    {
      if k !in owned { assert k in t.tokenClients; }
    }
  }

  /** Taking back a client that was just admitted leaves the table as it was, but for the tokens handed out. */
  lemma RollbackKeeps<C(!new), E(!new)>(t: Table<C, E>, t': Table<C, E>, client: C)
    requires Inv(t) && client in t.clients && t.nextToken <= t'.nextToken
    requires forall k :: k in t.tokenClients ==> t.tokenClients[k] != client
    requires t'.tokenClients == t.tokenClients && t'.clients == t.clients - {client}
    ensures Inv(t')
  {
    assert t'.clients.Keys <= t.clients.Keys;
    SubsetSize(t'.clients.Keys, t.clients.Keys);
    FewerOwners(t, t');
  }

  /** `handle_inbound` keeps every invariant, on success, on failure and on rollback. */
  lemma HandleInboundKeeps<C(!new), E(!new)>(t: Table<C, E>, client: C, endpoint: E, now: nat, o: Outbound)
    requires Inv(t) && t.nextToken >= OUTBOUND_FIRST_TOKEN
    ensures var (t', ok) := HandleInbound(t, client, endpoint, now, o);
            Inv(t') && OnlyNew(t, t', client, endpoint) && (ok ==> FullyMapped(t', client))
  {
    hide Inv, OnlyNew, SendWith, Admit, FullyMapped, Pointing, OwnedTokens;
    AdmitKeeps(t, client, now, endpoint);
    var admitted := Admit(t, client, now);
    if client in admitted.clients {
      RoutedKeeps(admitted, client, endpoint, o);
      var after := Routed(admitted, client, endpoint, o);
      OnlyNewCompose(t, admitted, after, client, endpoint);
      if SendWith(admitted.clients[client].routes, admitted.nextToken, endpoint, o).ok {
        PointingKeeps(after, client);
        SameOwners(t, after, HandleInbound(t, client, endpoint, now, o).0, client, endpoint);
      } else if client !in t.clients {
        NobodyPointsToNew(t, client, now);
        var t' := HandleInbound(t, client, endpoint, now, o).0;
        RollbackKeeps(after, t', client);
        SameOwners(t, after, t', client, endpoint);
      }
    }
  }

  lemma NobodyPointsToNew<C(!new), E(!new)>(t: Table<C, E>, client: C, now: nat)
    requires Inv(t) && client !in t.clients
    ensures var admitted := Admit(t, client, now);
            forall k :: k in admitted.tokenClients ==> admitted.tokenClients[k] != client
  {
    hide Owns, TokensUnique;
  }

  /** Ownership looks at the clients only, and fewer clients own less. */
  lemma SameOwners<C(!new), E(!new)>(t: Table<C, E>, after: Table<C, E>, t': Table<C, E>, client: C, endpoint: E)
    requires OnlyNew(t, after, client, endpoint) && t'.nextToken == after.nextToken
    requires t'.clients == after.clients || t'.clients == after.clients - {client}
    ensures OnlyNew(t, t', client, endpoint)
  {
    hide OnlyNew;
    SameOwnersNew(t, after, t', client, endpoint);
  }

  // ---------------------------------------------------------------- whole runs of the listener

  /** One turn of the serving loop as it touches the tables. */
  datatype Action<C, E> =
    | Inbound(client: C, endpoint: E, now: nat, outbound: Outbound)
    | Idle(now: nat)
    | Renew(client: C, now: nat)
    | Stale(token: Token)

  /** `Stale` is the loop's own clean-up of a token whose client is gone. */
  ghost function Next<C, E>(t: Table<C, E>, a: Action<C, E>): Table<C, E>
  {
    match a
    case Inbound(client, endpoint, now, o) => HandleInbound(t, client, endpoint, now, o).0
    case Idle(now) => Cleanup(t, now)
    case Renew(client, now) => Touch(t, client, now)
    case Stale(token) =>
      if token in t.tokenClients && t.tokenClients[token] !in t.clients
      then t.(tokenClients := t.tokenClients - {token}) else t
  }

  ghost predicate IsRun<C, E>(run: seq<Table<C, E>>, actions: seq<Action<C, E>>)
  {
    && |run| == |actions| + 1 && run[0] == Initial()
    && forall i :: 0 <= i < |actions| ==> run[i + 1] == Next(run[i], actions[i])
  }

  /** A token that was handed out keeps its owner or loses it; it never gains one. */
  ghost predicate OnlyEnds<C(!new), E(!new)>(t: Table<C, E>, t': Table<C, E>)
  {
    && t.nextToken <= t'.nextToken
    && forall c, e, k: Token :: OwnedBy(t', c, e, k) && k < t.nextToken ==>
         OwnedBy(t, c, e, k) && t'.clients[c].routes[e] == t.clients[c].routes[e]
  }

  lemma TouchKeeps<C(!new), E(!new)>(t: Table<C, E>, client: C, now: nat)
    requires Inv(t)
    ensures Inv(Touch(t, client, now)) && OnlyEnds(t, Touch(t, client, now))
  {
    hide Inv, OnlyEnds;
    var t' := Touch(t, client, now);
    assert t'.clients.Keys == t.clients.Keys;
    SameRoutesKeep(t, t');
  }

  lemma SameRoutesKeep<C(!new), E(!new)>(t: Table<C, E>, t': Table<C, E>)
    requires Inv(t) && t'.nextToken == t.nextToken && t'.tokenClients == t.tokenClients
    requires t'.clients.Keys == t.clients.Keys
    requires forall c :: c in t.clients ==> t'.clients[c].routes == t.clients[c].routes
    ensures Inv(t') && OnlyEnds(t, t')
  {
    hide TokensUnique, Owns;
    FewerOwners(t, t');
    assert |t'.clients| == |t'.clients.Keys| == |t.clients.Keys| == |t.clients|;
  }

  lemma NewEnds<C(!new), E(!new)>(t: Table<C, E>, t': Table<C, E>, client: C, endpoint: E)
    requires OnlyNew(t, t', client, endpoint)
    ensures OnlyEnds(t, t')
  {
  }

  lemma NextKeeps<C(!new), E(!new)>(t: Table<C, E>, a: Action<C, E>)
    requires Inv(t) && t.nextToken >= OUTBOUND_FIRST_TOKEN
    ensures Inv(Next(t, a)) && OnlyEnds(t, Next(t, a))
  {
    hide Inv, OnlyEnds, OnlyNew, HandleInbound, Cleanup, Touch;
    match a
    case Inbound(client, endpoint, now, o) =>
      HandleInboundKeeps(t, client, endpoint, now, o);
      NewEnds(t, Next(t, a), client, endpoint);
    case Idle(now) =>
      CleanupOnlyOwner(t, now);
    case Renew(client, now) =>
      TouchKeeps(t, client, now);
    case Stale(token) =>
      NoStaleTokens(t, token);
      SameEnds(t);
  }

  lemma CleanupOnlyOwner<C(!new), E(!new)>(t: Table<C, E>, now: nat)
    requires Inv(t) && t.nextToken >= OUTBOUND_FIRST_TOKEN
    ensures Inv(Cleanup(t, now)) && OnlyEnds(t, Cleanup(t, now))
  {
    hide Cleanup, MapSound, TokensUnique, OwnsNoMore, OnlyEnds, Bounded;
    var t' := Cleanup(t, now);
    CleanupMapSound(t, now);
    CleanupOwns(t, now);
    FewerOwners(t, t');
    EndsOnly(t, t');
  }

  lemma CleanupOwns<C(!new), E(!new)>(t: Table<C, E>, now: nat)
    requires Bounded(t)
    ensures Bounded(Cleanup(t, now)) && OwnsNoMore(t, Cleanup(t, now)) && Cleanup(t, now).nextToken == t.nextToken
  {
    hide Without, Bounded, OwnsNoMore, ExpiredClients;
    FewerClients(t, Cleanup(t, now), ExpiredClients(t.clients, now));
  }

  /** Taking clients out keeps the bounds and gives no token to anyone. */
  lemma FewerClients<C(!new), E(!new)>(t: Table<C, E>, t': Table<C, E>, gone: set<C>)
    requires Bounded(t) && t'.clients == t.clients - gone
    ensures Bounded(t') && OwnsNoMore(t, t')
  {
    assert t'.clients.Keys <= t.clients.Keys;
    SubsetSize(t'.clients.Keys, t.clients.Keys);
    assert |t'.clients| == |t'.clients.Keys| && |t.clients| == |t.clients.Keys|;
  }

  lemma EndsOnly<C(!new), E(!new)>(t: Table<C, E>, t': Table<C, E>)
    requires OwnsNoMore(t, t') && t.nextToken <= t'.nextToken
    ensures OnlyEnds(t, t')
  {
    hide OwnedBy;
  }

  lemma FewerOwners<C(!new), E(!new)>(t: Table<C, E>, t': Table<C, E>)
    requires TokensUnique(t) && t.nextToken <= t'.nextToken
    requires OwnsNoMore(t, t')
    ensures TokensUnique(t')
  {
  }

  /** The loop's clean-up of stale tokens never has anything to do. */
  lemma NoStaleTokens<C(!new), E(!new)>(t: Table<C, E>, token: Token)
    requires Inv(t)
    ensures Next<C, E>(t, Stale(token)) == t
  {
  }

  lemma SameEnds<C(!new), E(!new)>(t: Table<C, E>)
    ensures OnlyEnds(t, t)
  {
  }

  lemma InitialInv<C(!new), E(!new)>()
    ensures Inv(Initial<C, E>())
  {
  }

  /** Every reachable state: bounds, unique tokens and a sound token map, after any sequence of turns. */
  lemma {:induction false} RunInv<C(!new), E(!new)>(run: seq<Table<C, E>>, actions: seq<Action<C, E>>, i: nat)
    requires IsRun(run, actions) && i <= |actions|
    ensures Inv(run[i]) && run[i].nextToken >= OUTBOUND_FIRST_TOKEN
    ensures |run[i].clients| <= 512 && forall c :: c in run[i].clients ==> |run[i].clients[c].routes| <= 32
    decreases i
  {
    hide Inv, Next;
    if i == 0 {
      InitialInv<C, E>();
    } else {
      RunInv(run, actions, i - 1);
      NextKeeps(run[i - 1], actions[i - 1]);
      assert OnlyEnds(run[i - 1], run[i]);
    }
    InvBounds(run[i]);
  }

  lemma InvBounds<C(!new), E(!new)>(t: Table<C, E>)
    requires Inv(t)
    ensures |t.clients| <= 512 && forall c :: c in t.clients ==> |t.clients[c].routes| <= 32
  {
  }

  lemma {:induction false} OwnedBefore<C(!new), E(!new)>(
    run: seq<Table<C, E>>, actions: seq<Action<C, E>>, i: nat, j: nat, c: C, e: E, k: Token)
    requires IsRun(run, actions) && i <= j <= |actions|
    requires OwnedBy(run[j], c, e, k) && k < run[i].nextToken
    ensures forall n :: i <= n <= j ==> OwnedBy(run[n], c, e, k) && run[n].clients[c].routes[e] == run[j].clients[c].routes[e]
    decreases j
  {
    hide Inv, Next, OwnedBy;
    if i < j {
      RunInv(run, actions, j - 1);
      NextKeeps(run[j - 1], actions[j - 1]);
      TokensGrow(run, actions, i, j - 1);
      OwnedBefore(run, actions, i, j - 1, c, e, k);
    }
  }

  lemma {:induction false} TokensGrow<C(!new), E(!new)>(run: seq<Table<C, E>>, actions: seq<Action<C, E>>, i: nat, j: nat)
    requires IsRun(run, actions) && i <= j <= |actions|
    ensures run[i].nextToken <= run[j].nextToken
    decreases j
  {
    hide Inv, Next, OwnedBy;
    if i < j {
      TokensGrow(run, actions, i, j - 1);
      RunInv(run, actions, j - 1);
      NextKeeps(run[j - 1], actions[j - 1]);
    }
  }

  /**
   * No token is ever owned by two routes or two clients, not even one after the other. If a token has an owner
   * at two moments of a run, it is the same route of the same client, and it has owned the token all the time.
   */
  lemma TokensAreNeverReused<C(!new), E(!new)>(
    run: seq<Table<C, E>>, actions: seq<Action<C, E>>, i: nat, j: nat, c: C, e: E, c': C, e': E, k: Token)
    requires IsRun(run, actions) && i <= j <= |actions|
    requires OwnedBy(run[i], c, e, k) && OwnedBy(run[j], c', e', k)
    ensures c == c' && e == e'
    ensures forall n :: i <= n <= j ==> OwnedBy(run[n], c, e, k) && run[n].clients[c].routes[e] == run[i].clients[c].routes[e]
  {
    hide Next, Bounded, MapSound;
    RunInv(run, actions, i);
    OwnedBefore(run, actions, i, j, c', e', k);
    assert OwnedBy(run[i], c', e', k);
  }

  // ---------------------------------------------------------------- when the token map is complete

  /** The one failure that leaves tokens without a map entry: a new route that registers but cannot send. */
  predicate OpensThenFails<E>(routes: map<E, seq<Token>>, next: nat, endpoint: E, o: Outbound)
  {
    && endpoint !in routes && |routes| < MAX_DATAGRAM_ROUTES && o.openOk
    && 0 < o.sources && next + o.sources <= USIZE_MAX && o.registerOk && !o.sendOk
  }

  /**
   * For a client already in the table whose tokens are all mapped, they are all mapped after its next datagram
   * exactly unless that datagram opened a route and then failed to send.
   */
  lemma MapCompleteUnless<C(!new), E(!new)>(t: Table<C, E>, client: C, endpoint: E, now: nat, o: Outbound)
    requires Inv(t) && t.nextToken >= OUTBOUND_FIRST_TOKEN && FullyMapped(t, client)
    ensures FullyMapped(HandleInbound(t, client, endpoint, now, o).0, client)
            <==> !OpensThenFails(t.clients[client].routes, t.nextToken, endpoint, o)
  {
    var routes := t.clients[client].routes;
    var sent := SendWith(routes, t.nextToken, endpoint, o);
    if sent.ok {
      HandleInboundKeeps(t, client, endpoint, now, o);
    } else if OpensThenFails(routes, t.nextToken, endpoint, o) {
      var t' := HandleInbound(t, client, endpoint, now, o).0;
      var k := t.nextToken;
      assert k in sent.routes[endpoint] by { assert sent.routes[endpoint][0] == k; }
      assert Owns(t'.clients[client].routes, k);
      assert k !in t'.tokenClients by {
        if k in t.tokenClients { OwnedIsBelow(t, t.tokenClients[k], k); }
      }
    } else {
      assert sent.routes == routes;
    }
  }

  /** A reachable state with an unmapped token: a second route that opens and cannot send. */
  lemma OpenedRouteMayStayUnmapped()
    ensures var first := Inbound(0, 0, 0, Outbound(true, 1, true, true));
            var second := Inbound(0, 1, 0, Outbound(true, 1, true, false));
            var t1 := Next<int, int>(Initial(), first);
            var t2 := Next(t1, second);
            IsRun([Initial(), t1, t2], [first, second]) && FullyMapped(t1, 0) && !FullyMapped(t2, 0)
  {
    hide Inv, FullyMapped, Pointing, OwnedTokens, SendWith, Admit;
    var sends, fails := Outbound(true, 1, true, true), Outbound(true, 1, true, false);
    InitialInv<int, int>();
    HandleInboundKeeps<int, int>(Initial(), 0, 0, 0, sends);
    FirstAdmission(0, 0);
    FirstRoute(0, sends);
    var t1 := Next<int, int>(Initial(), Inbound(0, 0, 0, sends));
    assert t1.clients[0].routes == SendWith<int>(map[], 1, 0, sends).routes && t1.nextToken == 2;
    MapCompleteUnless(t1, 0, 1, 0, fails);
  }

  lemma FirstAdmission(client: int, now: nat)
    ensures var t := Admit<int, int>(Initial(), client, now);
            client in t.clients && t.clients[client] == ClientState(map[], now) && t.nextToken == 1
  {
  }

  lemma FirstRoute(endpoint: int, o: Outbound)
    requires o == Outbound(true, 1, true, true)
    ensures var sent := SendWith<int>(map[], 1, endpoint, o);
            sent.ok && sent.nextToken == 2 && sent.routes.Keys == {endpoint} && |sent.routes| == 1
  {
    var sent := SendWith<int>(map[], 1, endpoint, o);
    assert sent.routes.Keys == {endpoint};
  }

  lemma OwnedIsBelow<C(!new), E(!new)>(t: Table<C, E>, c: C, k: Token)
    requires TokensUnique(t) && c in t.clients && Owns(t.clients[c].routes, k)
    ensures k < t.nextToken
  {
    var e :| e in t.clients[c].routes && k in t.clients[c].routes[e];
    assert OwnedBy(t, c, e, k);
  }

  // ---------------------------------------------------------------- what clean-up and other clients leave alone

  lemma OwnerIsUnique<C(!new), E(!new)>(t: Table<C, E>, c: C, c': C, k: Token)
    requires TokensUnique(t) && c in t.clients && c' in t.clients
    requires Owns(t.clients[c].routes, k) && Owns(t.clients[c'].routes, k)
    ensures c == c'
  {
    var e :| e in t.clients[c].routes && k in t.clients[c].routes[e];
    var e' :| e' in t.clients[c'].routes && k in t.clients[c'].routes[e'];
    assert OwnedBy(t, c, e, k) && OwnedBy(t, c', e', k);
  }

  /**
   * Clean-up by its effect: exactly the clients that were active less than 120 seconds ago stay, unchanged, and
   * exactly the tokens that led to them stay mapped, to the same client.
   */
  lemma CleanupExact<C(!new), E(!new)>(t: Table<C, E>, now: nat, c: C, k: Token)
    requires Inv(t)
    ensures var t' := Cleanup(t, now);
            && (c in t'.clients <==> c in t.clients && now < t.clients[c].lastActivity + 120)
            && (c in t'.clients ==> t'.clients[c] == t.clients[c])
            && (k in t'.tokenClients <==> k in t.tokenClients && t.tokenClients[k] in t'.clients)
            && (k in t'.tokenClients ==> t'.tokenClients[k] == t.tokenClients[k])
  {
    hide Owns, TokensUnique;
    var gone := ExpiredClients(t.clients, now);
    if k in t.tokenClients {
      var owner := t.tokenClients[k];
      assert owner in t.clients && Owns(t.clients[owner].routes, k);
      forall x | x in gone && Owns(t.clients[x].routes, k) ensures x == owner {
        OwnerIsUnique(t, x, owner, k);
      }
    }
  }

  lemma CleanupLeavesMapped<C(!new), E(!new)>(t: Table<C, E>, now: nat, c: C)
    requires Inv(t) && FullyMapped(t, c) && c in Cleanup(t, now).clients
    ensures FullyMapped(Cleanup(t, now), c)
  {
    hide Inv, Cleanup, Owns;
    var t' := Cleanup(t, now);
    forall k: Token { CleanupExact(t, now, c, k); }
    CleanupExact(t, now, c, 0);
  }

  lemma AdmitLeavesMapped<C(!new), E(!new)>(t: Table<C, E>, client: C, now: nat, c: C)
    requires Inv(t) && FullyMapped(t, c) && c != client && c in Admit(t, client, now).clients
    ensures FullyMapped(Admit(t, client, now), c)
  {
    hide Inv, Cleanup, Owns;
    if client !in t.clients { CleanupLeavesMapped(t, now, c); }
  }

  /** Mapping the tokens of one client does not touch the tokens of another. */
  lemma PointingLeavesMapped<C(!new), E(!new)>(t: Table<C, E>, client: C, c: C)
    requires Inv(t) && FullyMapped(t, c) && c != client && client in t.clients
    ensures FullyMapped(t.(tokenClients := t.tokenClients + Pointing(OwnedTokens(t.clients[client].routes), client)), c)
  {
    hide Owns, OwnedTokens, TokensUnique, MapSound, Bounded;
    var owned := OwnedTokens(t.clients[client].routes);
    forall k: Token | Owns(t.clients[c].routes, k) ensures k !in owned {
      if k in owned { OwnerIsUnique(t, client, c, k); }
    }
  }

  lemma InboundLeavesMapped<C(!new), E(!new)>(t: Table<C, E>, client: C, endpoint: E, now: nat, o: Outbound, c: C)
    requires Inv(t) && t.nextToken >= OUTBOUND_FIRST_TOKEN && FullyMapped(t, c) && c != client
    requires c in HandleInbound(t, client, endpoint, now, o).0.clients
    ensures FullyMapped(HandleInbound(t, client, endpoint, now, o).0, c)
  {
    hide Inv, SendWith, Admit, Pointing, OwnedTokens, Owns;
    var admitted := Admit(t, client, now);
    AdmitLeavesMapped(t, client, now, c);
    AdmitKeeps(t, client, now, endpoint);
    if client in admitted.clients {
      RoutedKeeps(admitted, client, endpoint, o);
      var after := Routed(admitted, client, endpoint, o);
      assert FullyMapped(after, c);
      PointingLeavesMapped(after, client, c);
    }
  }

  /** The turns that may leave tokens of `c` without a map entry: its own datagram opens a route and fails to send. */
  ghost predicate Unmaps<C, E>(t: Table<C, E>, a: Action<C, E>, c: C)
  {
    a.Inbound? && a.client == c && c in t.clients
    && OpensThenFails(t.clients[c].routes, t.nextToken, a.endpoint, a.outbound)
  }

  /** Exactly those turns do: every other turn, of this or another client, leaves a live client fully mapped. */
  lemma StaysMapped<C(!new), E(!new)>(t: Table<C, E>, a: Action<C, E>, c: C)
    requires Inv(t) && t.nextToken >= OUTBOUND_FIRST_TOKEN && FullyMapped(t, c) && c in Next(t, a).clients
    ensures FullyMapped(Next(t, a), c) <==> !Unmaps(t, a, c)
  {
    hide Inv, HandleInbound, Cleanup, OpensThenFails, Owns;
    match a
    case Inbound(client, endpoint, now, o) =>
      if client == c {
        MapCompleteUnless(t, c, endpoint, now, o);
      } else {
        InboundLeavesMapped(t, client, endpoint, now, o, c);
      }
    case Idle(now) => CleanupLeavesMapped(t, now, c);
    case Renew(_, _) =>
    case Stale(token) => NoStaleTokens(t, token);
  }

  /**
   * Over whole runs: from a moment at which all tokens of a client are mapped (every successful send is one), they
   * stay mapped as long as the client stays and none of its own datagrams opens a route and then fails.
   */
  lemma {:induction false} MappedThroughout<C(!new), E(!new)>(
    run: seq<Table<C, E>>, actions: seq<Action<C, E>>, i: nat, j: nat, c: C)
    requires IsRun(run, actions) && i <= j <= |actions| && FullyMapped(run[i], c)
    requires forall n :: i <= n < j ==> !Unmaps(run[n], actions[n], c)
    requires forall n :: i <= n <= j ==> c in run[n].clients
    ensures FullyMapped(run[j], c)
    decreases j
  {
    hide Inv, Next, FullyMapped, Unmaps;
    if i < j {
      MappedThroughout(run, actions, i, j - 1, c);
      RunInv(run, actions, j - 1);
      assert run[j] == Next(run[j - 1], actions[j - 1]);
      StaysMapped(run[j - 1], actions[j - 1], c);
    }
  }

  /** A datagram is sent exactly when its client is known or there is room among the live clients, and the send works. */
  lemma InboundVerdict<C(!new), E(!new)>(t: Table<C, E>, client: C, endpoint: E, now: nat, o: Outbound)
    ensures var room := client in t.clients || |Cleanup(t, now).clients| < 512;
            var routes := if client in t.clients then t.clients[client].routes else map[];
            HandleInbound(t, client, endpoint, now, o).1
            <==> room && o.sendOk
                 && (endpoint in routes
                     || (|routes| < 32 && o.openOk && 0 < o.sources
                         && t.nextToken + o.sources <= USIZE_MAX && o.registerOk))
  {
    hide Cleanup, Pointing, OwnedTokens;
    assert Cleanup(t, now).nextToken == t.nextToken by { SameNext(t, now); }
    if client !in t.clients { CleanupDropsNobodyNew(t, now, client); }
  }

  lemma SameNext<C, E>(t: Table<C, E>, now: nat)
    ensures Cleanup(t, now).nextToken == t.nextToken
  {
  }

  lemma CleanupDropsNobodyNew<C, E>(t: Table<C, E>, now: nat, client: C)
    requires client !in t.clients
    ensures client !in Cleanup(t, now).clients
  {
  }

  // ---------------------------------------------------------------- how long a client lives

  /** Turns that a client's activity makes: a reply or a send renews it, a successful first datagram admits it. */
  ghost predicate Activity<C, E>(t: Table<C, E>, a: Action<C, E>, c: C, now: nat)
  {
    || (a == Renew(c, now) && c in t.clients)
    || (a.Inbound? && a.client == c && a.now == now && c !in t.clients
        && HandleInbound(t, c, a.endpoint, now, a.outbound).1)
  }

  /** Every route of `before` is still there, with the same tokens. */
  ghost predicate KeepsRoutes<E>(before: map<E, seq<Token>>, after: map<E, seq<Token>>)
  {
    forall e :: e in before ==> e in after && after[e] == before[e]
  }

  /** Activity is remembered with its time. */
  lemma ActivityIsRemembered<C(!new), E(!new)>(t: Table<C, E>, a: Action<C, E>, c: C, now: nat)
    requires Activity(t, a, c, now)
    ensures c in Next(t, a).clients && Next(t, a).clients[c].lastActivity == now
  {
    hide Cleanup, SendWith, Pointing, OwnedTokens;
    if a.Inbound? { CleanupDropsNobodyNew(t, now, c); }
  }

  /** The turns in which idle clients are cleaned up. */
  ghost predicate CleansUp<C, E>(t: Table<C, E>, a: Action<C, E>)
  {
    a.Idle? || (a.Inbound? && a.client !in t.clients)
  }

  /** What one turn does to a live client: unless it is cleaned up or renewed it stays as it was, but for new routes. */
  lemma ClientAfterTurn<C(!new), E(!new)>(t: Table<C, E>, a: Action<C, E>, c: C)
    requires Inv(t) && c in t.clients
    ensures var t' := Next(t, a);
            && (c in t'.clients <==>
                !(CleansUp(t, a) && a.now >= t.clients[c].lastActivity + CLIENT_IDLE_TIMEOUT))
            && (c in t'.clients ==>
                  && KeepsRoutes(t.clients[c].routes, t'.clients[c].routes)
                  && t'.clients[c].lastActivity
                     == if a.Renew? && a.client == c then a.now else t.clients[c].lastActivity)
  {
    hide SendWith, Pointing, OwnedTokens, Cleanup, Inv;
    match a
    case Idle(now) => CleanupExact(t, now, c, 0);
    case Inbound(client, endpoint, now, o) =>
      InboundLeavesClient(t, client, endpoint, now, o, c);
    case Renew(_, _) =>
    case Stale(_) =>
  }

  lemma InboundLeavesClient<C(!new), E(!new)>(t: Table<C, E>, client: C, endpoint: E, now: nat, o: Outbound, c: C)
    requires Inv(t) && c in t.clients
    ensures var t' := HandleInbound(t, client, endpoint, now, o).0;
            && (c in t'.clients <==>
                !(client !in t.clients && now >= t.clients[c].lastActivity + CLIENT_IDLE_TIMEOUT))
            && (c in t'.clients ==>
                  KeepsRoutes(t.clients[c].routes, t'.clients[c].routes)
                  && t'.clients[c].lastActivity == t.clients[c].lastActivity)
  {
    hide Pointing, OwnedTokens, Cleanup, Inv;
    if client in t.clients {
      SendKeepsRoutes(t.clients[client].routes, t.nextToken, endpoint, o);
    } else {
      CleanupExact(t, now, c, 0);
      CleanupDropsNobodyNew(t, now, client);
    }
    hide SendWith;
  }

  lemma SendKeepsRoutes<E(!new)>(routes: map<E, seq<Token>>, next: nat, endpoint: E, o: Outbound)
    ensures KeepsRoutes(routes, SendWith(routes, next, endpoint, o).routes)
  {
  }

  /**
   * Active clients live. After activity of a client at some time, it stays in the table with its routes as long as
   * every later clean-up happens less than 120 seconds after that time and its later renewals are not earlier.
   */
  lemma {:induction false} ActiveClientsLive<C(!new), E(!new)>(
    run: seq<Table<C, E>>, actions: seq<Action<C, E>>, i: nat, j: nat, c: C, now: nat)
    requires IsRun(run, actions) && i < j <= |actions| && Activity(run[i], actions[i], c, now)
    requires forall n :: i < n < j && CleansUp(run[n], actions[n]) ==> actions[n].now < now + 120
    requires forall n :: i < n < j && actions[n].Renew? && actions[n].client == c ==> actions[n].now >= now
    ensures c in run[i + 1].clients && c in run[j].clients && run[j].clients[c].lastActivity >= now
    ensures KeepsRoutes(run[i + 1].clients[c].routes, run[j].clients[c].routes)
    decreases j
  {
    hide Inv, Next, Activity, CleansUp;
    assert run[i + 1] == Next(run[i], actions[i]);
    ActivityIsRemembered(run[i], actions[i], c, now);
    if i + 1 < j {
      ActiveClientsLive(run, actions, i, j - 1, c, now);
      RunInv(run, actions, j - 1);
      assert run[j] == Next(run[j - 1], actions[j - 1]);
      ClientAfterTurn(run[j - 1], actions[j - 1], c);
    }
  }

  /**
   * Idle clients go. After activity of a client at some time, and no renewal since, the first clean-up 120 seconds or
   * more after that time removes it.
   */
  lemma IdleClientsGo<C(!new), E(!new)>(
    run: seq<Table<C, E>>, actions: seq<Action<C, E>>, i: nat, j: nat, c: C, now: nat)
    requires IsRun(run, actions) && i < j < |actions| && Activity(run[i], actions[i], c, now)
    requires forall n :: i < n < j && CleansUp(run[n], actions[n]) ==> actions[n].now < now + 120
    requires forall n :: i < n < j ==> !(actions[n].Renew? && actions[n].client == c)
    requires CleansUp(run[j], actions[j]) && actions[j].now >= now + 120
    ensures c in run[j].clients && c !in run[j + 1].clients
  {
    hide Inv, Next, Activity, CleansUp;
    ActiveClientsLive(run, actions, i, j, c, now);
    StillSince(run, actions, i, j, c, now);
    RunInv(run, actions, j);
    assert run[j + 1] == Next(run[j], actions[j]);
    ClientAfterTurn(run[j], actions[j], c);
  }

  lemma {:induction false} StillSince<C(!new), E(!new)>(
    run: seq<Table<C, E>>, actions: seq<Action<C, E>>, i: nat, j: nat, c: C, now: nat)
    requires IsRun(run, actions) && i < j <= |actions| && Activity(run[i], actions[i], c, now)
    requires forall n :: i < n < j && CleansUp(run[n], actions[n]) ==> actions[n].now < now + 120
    requires forall n :: i < n < j ==> !(actions[n].Renew? && actions[n].client == c)
    ensures c in run[j].clients && run[j].clients[c].lastActivity == now
    decreases j
  {
    hide Inv, Next, Activity, CleansUp;
    assert run[i + 1] == Next(run[i], actions[i]);
    ActivityIsRemembered(run[i], actions[i], c, now);
    if i + 1 < j {
      StillSince(run, actions, i, j - 1, c, now);
      RunInv(run, actions, j - 1);
      assert run[j] == Next(run[j - 1], actions[j - 1]);
      ClientAfterTurn(run[j - 1], actions[j - 1], c);
    }
  }
}
