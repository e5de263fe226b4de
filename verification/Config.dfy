/**
 * Configuration compilation of crates/daemon/src/config.rs over tokenised lines, and the outbound registry of
 * crates/daemon/src/outbound.rs. Text parsing, TLS set-up and files are the functions of a `World`.
 */
module Config {
  import opened Bytes
  import opened Net
  import opened Names
  import opened DomainSet
  import opened Addresses
  import opened Policy

  const MAX_RULES := 4096
  const MAX_LISTENERS := 16
  const MAX_BLOCKLISTS := 8
  const MAX_HOSTS_FILES := 4
  const MAX_PROXY_ENDPOINTS := 64
  const MAX_DNS_RESOLVERS := 8
  const MAX_ENDPOINT_ID_LENGTH := 64
  const MAX_TROJAN_PASSWORD_BYTES := 1024

  datatype SocketAddr = SocketAddr(ip: Ip, port: U16)

  /** Everything the parser asks of the text library, the TLS library and the file system. */
  datatype World = World(
    octets: string -> Octets,
    socketAddr: string -> Option<SocketAddr>,
    ipAddr: string -> Option<Ip>,
    cidr: string -> Option<Ip -> bool>,
    portNumber: string -> Option<U16>,
    isLoopback: Ip -> bool,
    tlsAccepts: (SocketAddr, Octets) -> bool,
    path: string -> string,
    blocklist: string -> Option<DomainFilter>,
    hosts: string -> Option<map<Octets, seq<Ip>>>)

  datatype ListenerProtocol = Socks5 | HttpConnect | TproxyTcp | TproxyUdp

  datatype Listener = Listener(protocol: ListenerProtocol, address: SocketAddr)

  datatype ResolverSummary = System | Dot(address: SocketAddr, serverName: Octets)

  datatype Protocol = Socks5Out | HttpOut | TrojanOut

  datatype TransportConfig = TcpOut(address: SocketAddr) | TlsOut(tlsAddress: SocketAddr, serverName: Octets)

  datatype ProxyEndpoint = ProxyEndpoint(id: EndpointId, protocol: Protocol, hasDatagram: bool, transport: TransportConfig)

  // ---------------------------------------------------------------- the outbound registry

  datatype Capabilities = Capabilities(tcp: bool, udp: bool, encrypted: bool)

  predicate RequiresTls(p: Protocol) { p.TrojanOut? }

  predicate StreamConnect(p: Protocol) { true }

  predicate ReliableStream(t: TransportConfig) { true }

  type Registry = map<EndpointId, ProxyEndpoint>

  /** `OutboundRegistry::new`: refuses an endpoint without the TLS it requires, and a repeated id. */
  method NewRegistry(endpoints: seq<ProxyEndpoint>) returns (r: Option<Registry>)
    ensures r.Some? <==> Registrable(endpoints)
    ensures r.Some? ==> forall id :: id in r.value <==> exists i :: 0 <= i < |endpoints| && endpoints[i].id == id
    ensures r.Some? ==> forall i :: 0 <= i < |endpoints| ==> endpoints[i].id in r.value && r.value[endpoints[i].id] == endpoints[i]
  {
    var registry: Registry := map[];
    for i := 0 to |endpoints|
      invariant Registrable(endpoints[..i])
      invariant forall id :: id in registry <==> exists j :: 0 <= j < i && endpoints[j].id == id
      invariant forall j :: 0 <= j < i ==> endpoints[j].id in registry && registry[endpoints[j].id] == endpoints[j]
    {
      var endpoint := endpoints[i];
      if RequiresTls(endpoint.protocol) && !endpoint.transport.TlsOut? {
        return None;
      }
      if endpoint.id in registry {
        return None;
      }
      registry := registry[endpoint.id := endpoint];
    }
    assert endpoints[..|endpoints|] == endpoints;
    return Some(registry);
  }

  ghost predicate Registrable(endpoints: seq<ProxyEndpoint>)
  {
    && (forall i :: 0 <= i < |endpoints| ==> RequiresTls(endpoints[i].protocol) ==> endpoints[i].transport.TlsOut?)
    && (forall i, j :: 0 <= i < j < |endpoints| ==> endpoints[i].id != endpoints[j].id)
  }

  function CapabilitiesOf(registry: Registry, endpoint: Endpoint): Option<Capabilities>
  {
    match endpoint
    case Direct => Some(Capabilities(true, true, false))
    case Proxy(id) =>
      if id !in registry then None
      else
        var e := registry[id];
        Some(Capabilities(StreamConnect(e.protocol) && ReliableStream(e.transport), e.hasDatagram, e.transport.TlsOut?))
  }

  /** Where a dispatch leads. */
  datatype Dispatch = DirectPath | ThroughProxy(endpoint: ProxyEndpoint) | NotFound | Unsupported

  function ConnectTcp(registry: Registry, endpoint: Endpoint): Dispatch
  {
    var c := CapabilitiesOf(registry, endpoint);
    if c.None? || !c.value.tcp then Unsupported
    else
      match endpoint
      case Direct => DirectPath
      case Proxy(id) => if id in registry then ThroughProxy(registry[id]) else NotFound
  }

  function OpenDatagram(registry: Registry, endpoint: Endpoint): Dispatch
  {
    match endpoint
    case Direct => DirectPath
    case Proxy(id) =>
      if id !in registry then NotFound
      else if !registry[id].hasDatagram then Unsupported
      else ThroughProxy(registry[id])
  }

  /** A proxy endpoint is never quietly replaced by the direct path, and a declared capability always opens. */
  lemma DispatchKeepsEndpoint(registry: Registry, endpoint: Endpoint)
    ensures ConnectTcp(registry, endpoint).DirectPath? || OpenDatagram(registry, endpoint).DirectPath? ==> endpoint == Direct
    ensures (CapabilitiesOf(registry, endpoint).Some? && CapabilitiesOf(registry, endpoint).value.udp)
            <==> OpenDatagram(registry, endpoint).DirectPath? || OpenDatagram(registry, endpoint).ThroughProxy?
    ensures CapabilitiesOf(registry, endpoint).Some? ==>
              (CapabilitiesOf(registry, endpoint).value.encrypted <==>
               endpoint.Proxy? && registry[endpoint.id].transport.TlsOut?)
    ensures (CapabilitiesOf(registry, endpoint).Some? && CapabilitiesOf(registry, endpoint).value.tcp)
            <==> ConnectTcp(registry, endpoint).DirectPath? || ConnectTcp(registry, endpoint).ThroughProxy?
  {
  }

  // ---------------------------------------------------------------- directives

  /** What the lines so far have declared. */
  datatype Draft = Draft(
    versionSeen: bool,
    defaultAction: Option<Action>,
    allowPublic: Option<bool>,
    listeners: seq<Listener>,
    listenerAddresses: set<(bool, SocketAddr)>,
    blocklistPaths: set<string>,
    hostsPaths: set<string>,
    hostsTable: map<Octets, seq<Ip>>,
    resolvers: seq<ResolverSummary>,
    endpoints: seq<ProxyEndpoint>,
    endpointIds: set<EndpointId>,
    referenced: set<EndpointId>,
    rules: seq<Rule>,
    nextRuleId: nat)

  const EMPTY := Draft(false, None, None, [], {}, {}, {}, map[], [], [], {}, {}, [], 1)

  predicate IdChar(c: char)
  {
    'a' <= c <= 'z' || 'A' <= c <= 'Z' || '0' <= c <= '9' || c == '-' || c == '_' || c == '.'
  }

  function NewEndpointId(value: string): Option<EndpointId>
  {
    if 1 <= |value| <= MAX_ENDPOINT_ID_LENGTH && forall i :: 0 <= i < |value| ==> IdChar(value[i])
    then Some(EndpointId(value)) else None
  }

  function ParseAction(value: string): Option<Action>
  {
    if value == "direct" then Some(Route(Direct))
    else if value == "reject" then Some(Reject(PolicyReason))
    else if "proxy:" <= value then
      match NewEndpointId(value[6..])
      case None => None
      case Some(id) => Some(Route(Proxy(id)))
    else None
  }

  /** The proxy endpoint that an action names. */
  function ProxyRef(action: Action): set<EndpointId>
  {
    if action.Route? && action.endpoint.Proxy? then {action.endpoint.id} else {}
  }

  function MatcherDomain(w: World, text: string): Option<Octets>
  {
    var n := Lower(TrimDots(w.octets(text)));
    if n == [] || |n| > 253 then None else Some(n)
  }

  function ParseMatcher(w: World, fields: seq<string>): Option<Matcher>
    requires |fields| >= 3
  {
    if fields[2] == "any" && |fields| == 3 then Some(Any)
    else if |fields| != 4 then None
    else if fields[2] == "domain-exact" then
      var d := MatcherDomain(w, fields[3]); if d.None? then None else Some(DomainExact(d.value))
    else if fields[2] == "domain-suffix" then
      var d := MatcherDomain(w, fields[3]); if d.None? then None else Some(DomainSuffix(d.value))
    else if fields[2] == "ip" then
      var ip := w.ipAddr(fields[3]); if ip.None? then None else Some(IpIs(ip.value))
    else if fields[2] == "cidr" then
      var block := w.cidr(fields[3]); if block.None? then None else Some(Cidr(block.value))
    else if fields[2] == "port" then
      var port := w.portNumber(fields[3]); if port.None? || port.value == 0 then None else Some(Port(port.value))
    else if fields[2] == "transport" then
      if fields[3] == "tcp" then Some(TransportIs(Tcp)) else if fields[3] == "udp" then Some(TransportIs(Udp)) else None
    else None
  }

  function OnVersion(d: Draft, fields: seq<string>): Option<Draft>
  {
    if |fields| != 2 || fields[1] != "1" || d.versionSeen then None else Some(d.(versionSeen := true))
  }

  function OnAllowPublic(d: Draft, fields: seq<string>): Option<Draft>
  {
    if |fields| != 2 || d.allowPublic.Some? then None
    else if fields[1] == "true" then Some(d.(allowPublic := Some(true)))
    else if fields[1] == "false" then Some(d.(allowPublic := Some(false)))
    else None
  }

  function ParseListenerProtocol(text: string): Option<ListenerProtocol>
  {
    if text == "socks5" then Some(Socks5)
    else if text == "http" then Some(HttpConnect)
    else if text == "tproxy-tcp" then Some(TproxyTcp)
    else if text == "tproxy-udp" then Some(TproxyUdp)
    else None
  }

  function OnListen(w: World, d: Draft, fields: seq<string>): Option<Draft>
  {
    if |fields| != 3 || |d.listeners| >= MAX_LISTENERS then None
    else
      var protocol, address := ParseListenerProtocol(fields[1]), w.socketAddr(fields[2]);
      if protocol.None? || address.None? || address.value.port == 0 then None
      else
        var key := (protocol.value.TproxyUdp?, address.value);
        if key in d.listenerAddresses then None
        else Some(d.(listeners := d.listeners + [Listener(protocol.value, address.value)],
                     listenerAddresses := d.listenerAddresses + {key}))
  }

  function ParseResolver(w: World, fields: seq<string>): Option<ResolverSummary>
  {
    if |fields| == 2 && fields[1] == "system" then Some(System)
    else if |fields| == 4 && fields[1] == "dot" then
      var address := w.socketAddr(fields[2]);
      if address.None? || address.value.port == 0 then None
      else Some(Dot(address.value, Lower(w.octets(fields[3]))))
    else None
  }

  function OnResolver(w: World, d: Draft, fields: seq<string>): Option<Draft>
  {
    if |d.resolvers| >= MAX_DNS_RESOLVERS then None
    else
      match ParseResolver(w, fields)
      case None => None
      case Some(resolver) =>
        if resolver in d.resolvers then None
        else if resolver.Dot? && !w.tlsAccepts(resolver.address, resolver.serverName) then None
        else Some(d.(resolvers := d.resolvers + [resolver]))
  }

  function ProxyAddress(w: World, text: string): Option<SocketAddr>
  {
    var address := w.socketAddr(text);
    if address.None? || address.value.port == 0 then None else address
  }

  function TcpTransport(w: World, text: string): Option<TransportConfig>
  {
    var address := ProxyAddress(w, text);
    if address.None? then None else Some(TcpOut(address.value))
  }

  function TlsTransport(w: World, text: string, serverName: string): Option<TransportConfig>
  {
    var address := ProxyAddress(w, text);
    if address.None? || !w.tlsAccepts(address.value, w.octets(serverName)) then None
    else Some(TlsOut(address.value, w.octets(serverName)))
  }

  function PlainProtocol(text: string): Option<Protocol>
  {
    if text == "socks5" then Some(Socks5Out) else if text == "http" then Some(HttpOut) else None
  }

  /** The carrier of an endpoint line: SOCKS5 and HTTP over TCP or TLS, Trojan over TLS only and with datagrams. */
  function ParseEndpoint(w: World, id: EndpointId, fields: seq<string>): Option<ProxyEndpoint>
    requires |fields| >= 2
  {
    if |fields| == 7 && fields[2] == "trojan" && fields[3] == "tls" then
      var transport := TlsTransport(w, fields[4], fields[5]);
      if !(1 <= |w.octets(fields[6])| <= MAX_TROJAN_PASSWORD_BYTES) || transport.None? then None
      else Some(ProxyEndpoint(id, TrojanOut, true, transport.value))
    else if !(4 <= |fields| <= 6) then None
    else
      var protocol := PlainProtocol(fields[2]);
      var transport := if |fields| == 4 then TcpTransport(w, fields[3])
                       else if |fields| == 5 && fields[3] == "tcp" then TcpTransport(w, fields[4])
                       else if |fields| == 6 && fields[3] == "tls" then TlsTransport(w, fields[4], fields[5])
                       else None;
      if protocol.None? || transport.None? then None
      else Some(ProxyEndpoint(id, protocol.value, false, transport.value))
  }

  function OnEndpoint(w: World, d: Draft, fields: seq<string>): Option<Draft>
  {
    if |d.endpoints| >= MAX_PROXY_ENDPOINTS || |fields| < 2 then None
    else
      var id := NewEndpointId(fields[1]);
      if id.None? || id.value in d.endpointIds then None
      else
        match ParseEndpoint(w, id.value, fields)
        case None => None
        case Some(endpoint) =>
          Some(d.(endpoints := d.endpoints + [endpoint], endpointIds := d.endpointIds + {id.value}))
  }

  function OnDefault(d: Draft, fields: seq<string>): Option<Draft>
  {
    if |fields| != 2 || d.defaultAction.Some? then None
    else
      match ParseAction(fields[1])
      case None => None
      case Some(action) => Some(d.(defaultAction := Some(action), referenced := d.referenced + ProxyRef(action)))
  }

  function AddRule(d: Draft, matcher: Matcher, action: Action): Draft
  {
    d.(rules := d.rules + [Rule(d.nextRuleId, UserHard, matcher, action)], nextRuleId := d.nextRuleId + 1,
       referenced := d.referenced + ProxyRef(action))
  }

  function OnBlocklist(w: World, d: Draft, fields: seq<string>): Option<Draft>
  {
    if |fields| != 2 || |d.blocklistPaths| >= MAX_BLOCKLISTS || |d.rules| >= MAX_RULES then None
    else
      var source := w.path(fields[1]);
      if source in d.blocklistPaths then None
      else
        match w.blocklist(source)
        case None => None
        case Some(filter) =>
          Some(AddRule(d.(blocklistPaths := d.blocklistPaths + {source}), Filter(filter), Reject(PolicyReason)))
  }

  function OnHosts(w: World, d: Draft, fields: seq<string>): Option<Draft>
  {
    if |fields| != 2 || |d.hostsPaths| >= MAX_HOSTS_FILES then None
    else
      var source := w.path(fields[1]);
      if source in d.hostsPaths then None
      else
        match w.hosts(source)
        case None => None
        case Some(table) => Some(d.(hostsPaths := d.hostsPaths + {source}, hostsTable := Merged(d.hostsTable, table)))
  }

  /** `HostsTable::merge`: names from both, and for a shared name the new addresses after the known ones. */
  function Merged(a: map<Octets, seq<Ip>>, b: map<Octets, seq<Ip>>): map<Octets, seq<Ip>>
  {
    map n | n in a.Keys + b.Keys :: Added(if n in a then a[n] else [], if n in b then b[n] else [])
  }

  function OnRule(w: World, d: Draft, fields: seq<string>): Option<Draft>
  {
    if |d.rules| >= MAX_RULES || |fields| < 3 then None
    else
      var action, matcher := ParseAction(fields[1]), ParseMatcher(w, fields);
      if action.None? || matcher.None? then None else Some(AddRule(d, matcher.value, action.value))
  }

  /** One line, split into its fields; an empty line changes nothing. */
  function Directive(w: World, d: Draft, fields: seq<string>): Option<Draft>
  {
    if fields == [] then Some(d)
    else if fields[0] == "version" then OnVersion(d, fields)
    else if fields[0] == "allow-public-listen" then OnAllowPublic(d, fields)
    else if fields[0] == "listen" then OnListen(w, d, fields)
    else if fields[0] == "resolver" then OnResolver(w, d, fields)
    else if fields[0] == "endpoint" then OnEndpoint(w, d, fields)
    else if fields[0] == "default" then OnDefault(d, fields)
    else if fields[0] == "blocklist" then OnBlocklist(w, d, fields)
    else if fields[0] == "hosts" then OnHosts(w, d, fields)
    else if fields[0] == "rule" then OnRule(w, d, fields)
    else None
  }

  function Directives(w: World, d: Draft, lines: seq<seq<string>>): Option<Draft>
    decreases |lines|
  {
    if lines == [] then Some(d)
    else
      match Directive(w, d, lines[0])
      case None => None
      case Some(next) => Directives(w, next, lines[1..])
  }

  // ---------------------------------------------------------------- compiled configurations

  datatype CompiledConfig = CompiledConfig(
    listeners: seq<Listener>, resolvers: seq<ResolverSummary>, hosts: map<Octets, seq<Ip>>,
    engine: PolicyEngine, registry: Registry)

  /** The checks after the last line. */
  predicate Complete(w: World, d: Draft)
  {
    && d.versionSeen && d.listeners != [] && d.defaultAction.Some?
    && (d.allowPublic == Some(true) || forall i :: 0 <= i < |d.listeners| ==> w.isLoopback(d.listeners[i].address.ip))
  }

  /** What every line keeps. */
  ghost predicate DraftValid(d: Draft)
  {
    && Registrable(d.endpoints)
    && d.endpointIds == (set i | 0 <= i < |d.endpoints| :: d.endpoints[i].id)
    && (forall i :: 0 <= i < |d.endpoints| ==> d.endpoints[i].hasDatagram == d.endpoints[i].protocol.TrojanOut?)
    && (forall i :: 0 <= i < |d.rules| ==> ProxyRef(d.rules[i].action) <= d.referenced && d.rules[i].id == i + 1)
    && (forall i :: 0 <= i < |d.rules| ==> d.rules[i].tier == UserHard)
    && (d.defaultAction.Some? ==> ProxyRef(d.defaultAction.value) <= d.referenced)
    && d.nextRuleId == |d.rules| + 1
    && |d.rules| <= MAX_RULES && |d.listeners| <= MAX_LISTENERS && |d.endpoints| <= MAX_PROXY_ENDPOINTS
    && |d.resolvers| <= MAX_DNS_RESOLVERS
    && (forall i, j :: 0 <= i < j < |d.resolvers| ==> d.resolvers[i] != d.resolvers[j])
  }

  lemma ParsedEndpointFits(w: World, id: EndpointId, fields: seq<string>)
    requires |fields| >= 2 && ParseEndpoint(w, id, fields).Some?
    ensures var e := ParseEndpoint(w, id, fields).value;
            e.id == id && (RequiresTls(e.protocol) ==> e.transport.TlsOut?) && e.hasDatagram == e.protocol.TrojanOut?
  {
  }

  lemma OnEndpointKeeps(w: World, d: Draft, fields: seq<string>)
    requires DraftValid(d) && OnEndpoint(w, d, fields).Some?
    ensures DraftValid(OnEndpoint(w, d, fields).value)
  {
    hide ParseEndpoint;
    var id := NewEndpointId(fields[1]).value;
    ParsedEndpointFits(w, id, fields);
    var d' := OnEndpoint(w, d, fields).value;
    forall i | 0 <= i < |d.endpoints| ensures d.endpoints[i].id != id { assert d.endpoints[i].id in d.endpointIds; }
    assert d'.endpointIds == (set i | 0 <= i < |d'.endpoints| :: d'.endpoints[i].id) by {
      forall x ensures x in d'.endpointIds <==> exists i :: 0 <= i < |d'.endpoints| && d'.endpoints[i].id == x {
        if x in d.endpointIds {
          var i :| 0 <= i < |d.endpoints| && d.endpoints[i].id == x;
          assert d'.endpoints[i].id == x;
        }
        if x == id { assert d'.endpoints[|d.endpoints|].id == x; }
      }
    }
  }

  lemma AddRuleKeeps(d: Draft, matcher: Matcher, action: Action)
    requires DraftValid(d) && |d.rules| < MAX_RULES
    ensures DraftValid(AddRule(d, matcher, action))
  {
  }

  lemma OnRuleKeeps(w: World, d: Draft, fields: seq<string>)
    requires DraftValid(d) && OnRule(w, d, fields).Some?
    ensures DraftValid(OnRule(w, d, fields).value)
  {
    hide ParseMatcher, ParseAction, AddRule, DraftValid;
    AddRuleKeeps(d, ParseMatcher(w, fields).value, ParseAction(fields[1]).value);
  }

  lemma OnBlocklistKeeps(w: World, d: Draft, fields: seq<string>)
    requires DraftValid(d) && OnBlocklist(w, d, fields).Some?
    ensures DraftValid(OnBlocklist(w, d, fields).value)
  {
    hide AddRule, DraftValid;
    var source := w.path(fields[1]);
    var named := d.(blocklistPaths := d.blocklistPaths + {source});
    SmallFieldsKeep(d, named);
    AddRuleKeeps(named, Filter(w.blocklist(source).value), Reject(PolicyReason));
  }

  lemma OnDefaultKeeps(d: Draft, fields: seq<string>)
    requires DraftValid(d) && OnDefault(d, fields).Some?
    ensures DraftValid(OnDefault(d, fields).value)
  {
    hide ParseAction;
  }

  lemma OnResolverKeeps(w: World, d: Draft, fields: seq<string>)
    requires DraftValid(d) && OnResolver(w, d, fields).Some?
    ensures DraftValid(OnResolver(w, d, fields).value)
  {
    hide ParseResolver, Registrable;
  }

  lemma OnListenKeeps(w: World, d: Draft, fields: seq<string>)
    requires DraftValid(d) && OnListen(w, d, fields).Some?
    ensures DraftValid(OnListen(w, d, fields).value)
  {
    hide DraftValid, ParseListenerProtocol;
    SmallFieldsKeep(d, OnListen(w, d, fields).value);
  }

  lemma OthersKeep(w: World, d: Draft, fields: seq<string>)
    requires DraftValid(d)
    ensures OnVersion(d, fields).Some? ==> DraftValid(OnVersion(d, fields).value)
    ensures OnAllowPublic(d, fields).Some? ==> DraftValid(OnAllowPublic(d, fields).value)
    ensures OnHosts(w, d, fields).Some? ==> DraftValid(OnHosts(w, d, fields).value)
  {
    hide DraftValid, Merged;
    if OnVersion(d, fields).Some? { SmallFieldsKeep(d, OnVersion(d, fields).value); }
    if OnAllowPublic(d, fields).Some? { SmallFieldsKeep(d, OnAllowPublic(d, fields).value); }
    if OnHosts(w, d, fields).Some? { SmallFieldsKeep(d, OnHosts(w, d, fields).value); }
  }

  /** Every accepted line keeps the draft valid. */
  lemma DirectiveKeeps(w: World, d: Draft, fields: seq<string>)
    requires DraftValid(d) && Directive(w, d, fields).Some?
    ensures DraftValid(Directive(w, d, fields).value)
  {
    hide OnVersion, OnAllowPublic, OnListen, OnResolver, OnEndpoint, OnDefault, OnBlocklist, OnHosts, OnRule, DraftValid;
    OthersKeep(w, d, fields);
    if OnListen(w, d, fields).Some? { OnListenKeeps(w, d, fields); }
    if OnResolver(w, d, fields).Some? { OnResolverKeeps(w, d, fields); }
    if OnEndpoint(w, d, fields).Some? { OnEndpointKeeps(w, d, fields); }
    if OnDefault(d, fields).Some? { OnDefaultKeeps(d, fields); }
    if OnBlocklist(w, d, fields).Some? { OnBlocklistKeeps(w, d, fields); }
    if OnRule(w, d, fields).Some? { OnRuleKeeps(w, d, fields); }
  }

  lemma SmallFieldsKeep(d: Draft, d': Draft)
    requires DraftValid(d) && (d'.listeners == d.listeners || |d'.listeners| <= MAX_LISTENERS)
    requires d'.endpoints == d.endpoints && d'.endpointIds == d.endpointIds && d'.rules == d.rules
    requires d'.referenced == d.referenced && d'.defaultAction == d.defaultAction && d'.nextRuleId == d.nextRuleId
    requires d'.resolvers == d.resolvers
    ensures DraftValid(d')
  {
  }

  lemma {:induction false} DirectivesKeep(w: World, d: Draft, lines: seq<seq<string>>)
    requires DraftValid(d) && Directives(w, d, lines).Some?
    ensures DraftValid(Directives(w, d, lines).value)
    decreases |lines|
  {
    hide Directive, DraftValid;
    if lines != [] {
      DirectiveKeeps(w, d, lines[0]);
      DirectivesKeep(w, Directive(w, d, lines[0]).value, lines[1..]);
    }
  }

  /** Every endpoint that the default or a rule names is declared. */
  ghost predicate Closed(d: Draft)
  {
    forall id :: id in d.referenced ==> id in d.endpointIds
  }

  /** A configuration says what its lines declared: the same listeners, hosts, policy, endpoints and resolvers. */
  ghost predicate CompiledFrom(w: World, lines: seq<seq<string>>, c: CompiledConfig)
  {
    var parsed := Directives(w, EMPTY, lines);
    && parsed.Some?
    && var d := parsed.value;
       && DraftValid(d) && Complete(w, d) && Closed(d)
       && c.listeners == d.listeners && c.hosts == d.hostsTable
       && c.resolvers == (if d.resolvers == [] then [System] else d.resolvers)
       && c.engine == NewEngine(d.rules, d.defaultAction.value)
       && (forall id :: id in c.registry <==> id in d.endpointIds)
       && (forall i :: 0 <= i < |d.endpoints| ==>
             d.endpoints[i].id in c.registry && c.registry[d.endpoints[i].id] == d.endpoints[i])
  }

  /**
   * `parse_config_at` on tokenised lines: the directives one by one, then the checks. A configuration is
   * accepted exactly when every line is, nothing is missing and every referenced endpoint is declared. Building
   * the registry never fails on what the lines declared.
   */
  method ParseConfig(w: World, lines: seq<seq<string>>) returns (r: Option<CompiledConfig>)
    ensures r.Some? <==> var d := Directives(w, EMPTY, lines); d.Some? && Complete(w, d.value) && Closed(d.value)
    ensures r.Some? ==> CompiledFrom(w, lines, r.value)
  {
    hide Directive, NewEngine, Registrable;
    var d := EMPTY;
    for i := 0 to |lines|
      invariant Directives(w, EMPTY, lines) == Directives(w, d, lines[i..])
    {
      assert lines[i..][1..] == lines[i + 1..];
      var next := Directive(w, d, lines[i]);
      if next.None? {
        return None;
      }
      d := next.value;
    }
    EmptyIsValid();
    DirectivesKeep(w, EMPTY, lines);
    if !Complete(w, d) {
      return None;
    }
    var registry := NewRegistry(d.endpoints);
    assert registry.Some?;
    assert forall id :: id in registry.value <==> id in d.endpointIds;
    if exists id :: id in d.referenced && id !in registry.value {
      return None;
    }
    var resolvers := if d.resolvers == [] then [System] else d.resolvers;
    return Some(CompiledConfig(d.listeners, resolvers, d.hostsTable,
                               NewEngine(d.rules, d.defaultAction.value), registry.value));
  }

  lemma EmptyIsValid()
    ensures DraftValid(EMPTY)
  {
  }

  /** `Runtime::plan`. */
  function Plan(c: CompiledConfig, flow: Flow): Action { Decide(c.engine, flow).action }

  lemma DecidedActionIsDeclared(rules: seq<Rule>, defaultAction: Action, flow: Flow)
    ensures var action := Decide(NewEngine(rules, defaultAction), flow).action;
            action == defaultAction || exists i :: 0 <= i < |rules| && rules[i].action == action
  {
    hide StableSort, Policy.Matches;
    StableSortLaws(rules);
    FirstMatchIsAMatch(StableSort(rules), flow);
    var found := FirstMatch(StableSort(rules), flow);
    if found.Some? {
      assert found.value in rules;
      var i :| 0 <= i < |rules| && rules[i] == found.value;
    }
  }

  /**
   * Every accepted configuration is closed: whatever the flow, the plan rejects it, sends it direct, or names a
   * registered endpoint that can carry TCP, and connecting reaches exactly that endpoint.
   */
  lemma PlansAreClosed(w: World, lines: seq<seq<string>>, c: CompiledConfig, flow: Flow)
    requires CompiledFrom(w, lines, c)
    ensures Plan(c, flow).Route? ==>
              var endpoint := Plan(c, flow).endpoint;
              && CapabilitiesOf(c.registry, endpoint).Some? && CapabilitiesOf(c.registry, endpoint).value.tcp
              && ConnectTcp(c.registry, endpoint)
                 == (if endpoint == Direct then DirectPath else ThroughProxy(c.registry[endpoint.id]))
  {
    hide Directives, NewEngine, Registrable;
    var d := Directives(w, EMPTY, lines).value;
    DecidedActionIsDeclared(d.rules, d.defaultAction.value, flow);
    var action := Plan(c, flow);
    if action.Route? && action.endpoint.Proxy? {
      assert ProxyRef(action) == {action.endpoint.id};
      assert ProxyRef(action) <= d.referenced;
      assert action.endpoint.id in d.referenced;
    }
  }

  // ---------------------------------------------------------------- the resolver chain

  /** The resolvers declared by the lines, in their order. */
  function Declared(w: World, lines: seq<seq<string>>): seq<ResolverSummary>
  {
    if lines == [] then []
    else
      var rest := Declared(w, lines[1..]);
      if lines[0] != [] && lines[0][0] == "resolver" && ParseResolver(w, lines[0]).Some?
      then [ParseResolver(w, lines[0]).value] + rest else rest
  }

  lemma DirectiveResolvers(w: World, d: Draft, fields: seq<string>)
    requires Directive(w, d, fields).Some?
    ensures Directive(w, d, fields).value.resolvers == d.resolvers + Declared(w, [fields])
  {
    hide ParseResolver, ParseMatcher, ParseAction, ParseEndpoint, ParseListenerProtocol;
    assert [fields][1..] == [];
    assert Declared(w, []) == [];
    assert d.resolvers + [] == d.resolvers;
  }

  /** The chain of an accepted configuration is the declared resolvers in declared order. */
  lemma {:induction false} ChainIsDeclared(w: World, d: Draft, lines: seq<seq<string>>)
    requires Directives(w, d, lines).Some?
    ensures Directives(w, d, lines).value.resolvers == d.resolvers + Declared(w, lines)
    decreases |lines|
  {
    hide Directive, ParseResolver;
    if lines == [] {
      assert d.resolvers + [] == d.resolvers;
    } else {
      var d1 := Directive(w, d, lines[0]).value;
      DirectiveResolvers(w, d, lines[0]);
      ChainIsDeclared(w, d1, lines[1..]);
      assert [lines[0]][1..] == [] && [lines[0]][0] == lines[0];
      assert (d.resolvers + Declared(w, [lines[0]])) + Declared(w, lines[1..])
          == d.resolvers + (Declared(w, [lines[0]]) + Declared(w, lines[1..]));
      assert Declared(w, []) == [];
    }
  }

  /** The resolver chain of a configuration: what its lines declare, in order, or one system resolver. */
  lemma ResolverChain(w: World, lines: seq<seq<string>>, c: CompiledConfig)
    requires CompiledFrom(w, lines, c)
    ensures c.resolvers == (if Declared(w, lines) == [] then [System] else Declared(w, lines))
  {
    hide Directives, NewEngine, DraftValid, Declared, Complete, Closed;
    ChainIsDeclared(w, EMPTY, lines);
    assert [] + Declared(w, lines) == Declared(w, lines);
  }

  // ---------------------------------------------------------------- what the words mean

  /** The three kinds of action words, and no others. */
  lemma ActionWords(value: string)
    ensures ParseAction("direct") == Some(Route(Direct))
    ensures ParseAction("reject") == Some(Reject(PolicyReason))
    ensures NewEndpointId(value).Some? ==> ParseAction("proxy:" + value) == Some(Route(Proxy(EndpointId(value))))
    ensures ParseAction(value).Some? ==>
              value == "direct" || value == "reject" || ("proxy:" <= value && NewEndpointId(value[6..]).Some?)
  {
    var word := "proxy:" + value;
    assert word[6..] == value && "proxy:" <= word;
    assert "direct"[0] != word[0] && "reject"[0] != word[0];
  }

  /** What a rule line asks of a flow, word by word. */
  predicate WordsMatch(w: World, fields: seq<string>, flow: Flow)
  {
    && |fields| >= 3
    && var host := flow.target.host;
       if fields[2] == "any" then |fields| == 3
       else
         && |fields| == 4
         && var text := Lower(TrimDots(w.octets(fields[3])));
            match fields[2]
            case "domain-exact" => host.Domain? && Lower(host.name) == text
            case "domain-suffix" => host.Domain? && SuffixMatch(Lower(TrimEnd(host.name)), text)
            case "ip" => w.ipAddr(fields[3]).Some? && host == Address(w.ipAddr(fields[3]).value)
            case "cidr" => w.cidr(fields[3]).Some? && host.Address? && w.cidr(fields[3]).value(host.ip)
            case "port" => w.portNumber(fields[3]) == Some(flow.target.port)
            case "transport" => fields[3] == (if flow.transport.Tcp? then "tcp" else "udp")
            case _ => false
  }

  lemma LowerTwice(s: Octets)
    ensures Lower(Lower(s)) == Lower(s)
  {
    LowerFixedPoint(s);
    LowerFixedPoint(Lower(s));
  }

  lemma SuffixWord(name: Octets, raw: Octets)
    requires Lower(TrimDots(raw)) != []
    ensures DomainMatchesSuffix(name, Lower(TrimDots(raw))) <==> SuffixMatch(Lower(TrimEnd(name)), Lower(TrimDots(raw)))
  {
    hide SuffixMatch, DomainMatchesSuffix;
    var s := TrimDots(raw);
    TrimDotsTwice(raw);
    LowerTrimEnd(s);
    LowerTrimStart(TrimEnd(s));
    LowerFixedPoint(s);
    SuffixRuleOf(name, Lower(s));
  }

  /** A parsed matcher accepts exactly the flows that its words ask for. */
  lemma MatcherMeans(w: World, fields: seq<string>, flow: Flow)
    requires |fields| >= 3 && ParseMatcher(w, fields).Some?
    ensures Policy.Matches(ParseMatcher(w, fields).value, flow) <==> WordsMatch(w, fields, flow)
  {
    hide SuffixMatch, DomainMatchesSuffix;
    if |fields| == 4 {
      var raw := w.octets(fields[3]);
      LowerTwice(TrimDots(raw));
      if fields[2] == "domain-suffix" && flow.target.host.Domain? { SuffixWord(flow.target.host.name, raw); }
    }
  }

  /** What one line decides for a flow: a rule its action, a blocklist a rejection, if they match. */
  function LineVerdict(w: World, fields: seq<string>, flow: Flow): Option<Action>
  {
    if fields == [] then None
    else if fields[0] == "rule" then
      if WordsMatch(w, fields, flow) then ParseAction(fields[1]) else None
    else if fields[0] == "blocklist" && |fields| == 2 && flow.target.host.Domain? then
      match w.blocklist(w.path(fields[1]))
      case Some(filter) => if IsBlocked(filter, flow.target.host.name) then Some(Reject(PolicyReason)) else None
      case None => None
    else None
  }

  function OrElse<T>(a: Option<T>, b: Option<T>): Option<T> { if a.Some? then a else b }

  /** The verdict of the first line that has one. */
  function FirstVerdict(w: World, lines: seq<seq<string>>, flow: Flow): Option<Action>
  {
    if lines == [] then None else OrElse(LineVerdict(w, lines[0], flow), FirstVerdict(w, lines[1..], flow))
  }

  function DefaultWord(fields: seq<string>): Option<Action>
  {
    if |fields| == 2 && fields[0] == "default" then ParseAction(fields[1]) else None
  }

  function DeclaredDefault(lines: seq<seq<string>>): Option<Action>
  {
    if lines == [] then None else OrElse(DefaultWord(lines[0]), DeclaredDefault(lines[1..]))
  }

  function ActionOf(found: Option<Rule>): Option<Action> { if found.Some? then Some(found.value.action) else None }

  lemma AddedRule(d: Draft, matcher: Matcher, action: Action, flow: Flow)
    ensures ActionOf(FirstMatch(AddRule(d, matcher, action).rules, flow))
            == OrElse(ActionOf(FirstMatch(d.rules, flow)), if Policy.Matches(matcher, flow) then Some(action) else None)
    ensures AddRule(d, matcher, action).defaultAction == d.defaultAction
  {
    hide Policy.Matches, FirstMatch;
    FirstMatchAppend(d.rules, Rule(d.nextRuleId, UserHard, matcher, action), flow);
  }

  /** The rules a line adds decide what the line says, after all earlier rules. */
  lemma LineDecides(w: World, d: Draft, fields: seq<string>, flow: Flow)
    requires Directive(w, d, fields).Some?
    ensures var d' := Directive(w, d, fields).value;
            && ActionOf(FirstMatch(d'.rules, flow))
               == OrElse(ActionOf(FirstMatch(d.rules, flow)), LineVerdict(w, fields, flow))
            && d'.defaultAction == OrElse(d.defaultAction, DefaultWord(fields))
  {
    hide FirstMatch, LineVerdict, DefaultWord, OnVersion, OnAllowPublic, OnListen, OnResolver, OnEndpoint, OnDefault,
      OnBlocklist, OnHosts, OnRule;
    NotDefault(fields);
    if fields != [] && fields[0] == "rule" {
      RuleLineDecides(w, d, fields, flow);
    } else if fields != [] && fields[0] == "blocklist" {
      BlocklistLineDecides(w, d, fields, flow);
    } else {
      OtherLines(w, d, fields, flow);
    }
  }

  lemma NotDefault(fields: seq<string>)
    ensures fields == [] || fields[0] != "default" ==> DefaultWord(fields) == None
  {
  }

  lemma OtherLines(w: World, d: Draft, fields: seq<string>, flow: Flow)
    requires Directive(w, d, fields).Some? && (fields == [] || (fields[0] != "rule" && fields[0] != "blocklist"))
    ensures var d' := Directive(w, d, fields).value;
            d'.rules == d.rules && LineVerdict(w, fields, flow) == None
            && d'.defaultAction == OrElse(d.defaultAction, DefaultWord(fields))
  {
    hide FirstMatch, ParseAction, ParseResolver, ParseEndpoint, ParseListenerProtocol, Merged, ParseMatcher, WordsMatch;
  }

  lemma RuleLineDecides(w: World, d: Draft, fields: seq<string>, flow: Flow)
    requires OnRule(w, d, fields).Some? && fields[0] == "rule"
    ensures var d' := OnRule(w, d, fields).value;
            && ActionOf(FirstMatch(d'.rules, flow))
               == OrElse(ActionOf(FirstMatch(d.rules, flow)), LineVerdict(w, fields, flow))
            && d'.defaultAction == d.defaultAction
  {
    hide Policy.Matches, FirstMatch, ParseMatcher, ParseAction, AddRule, WordsMatch;
    MatcherMeans(w, fields, flow);
    AddedRule(d, ParseMatcher(w, fields).value, ParseAction(fields[1]).value, flow);
  }

  lemma BlocklistLineDecides(w: World, d: Draft, fields: seq<string>, flow: Flow)
    requires OnBlocklist(w, d, fields).Some? && fields[0] == "blocklist"
    ensures var d' := OnBlocklist(w, d, fields).value;
            && ActionOf(FirstMatch(d'.rules, flow))
               == OrElse(ActionOf(FirstMatch(d.rules, flow)), LineVerdict(w, fields, flow))
            && d'.defaultAction == d.defaultAction
  {
    hide FirstMatch, AddRule, IsBlocked;
    var source := w.path(fields[1]);
    var named := d.(blocklistPaths := d.blocklistPaths + {source});
    AddedRule(named, Filter(w.blocklist(source).value), Reject(PolicyReason), flow);
  }

  lemma {:induction false} LinesDecide(w: World, d: Draft, lines: seq<seq<string>>, flow: Flow)
    requires Directives(w, d, lines).Some?
    ensures var d' := Directives(w, d, lines).value;
            && ActionOf(FirstMatch(d'.rules, flow))
               == OrElse(ActionOf(FirstMatch(d.rules, flow)), FirstVerdict(w, lines, flow))
            && d'.defaultAction == OrElse(d.defaultAction, DeclaredDefault(lines))
    decreases |lines|
  {
    hide Directive, FirstMatch, LineVerdict, DefaultWord;
    if lines != [] {
      LineDecides(w, d, lines[0], flow);
      LinesDecide(w, Directive(w, d, lines[0]).value, lines[1..], flow);
    }
  }

  /**
   * A configuration means what its lines say: for every flow the plan is the action of the first rule line whose words
   * match it, or the rejection of the first blocklist that blocks it, whichever line comes first; and the action of
   * the default line when there is none.
   */
  lemma PlanFollowsLines(w: World, lines: seq<seq<string>>, c: CompiledConfig, flow: Flow)
    requires CompiledFrom(w, lines, c)
    ensures DeclaredDefault(lines).Some?
    ensures Plan(c, flow) == (match FirstVerdict(w, lines, flow)
                              case Some(action) => action
                              case None => DeclaredDefault(lines).value)
  {
    hide Directives, StableSort, FirstMatch, FirstVerdict, DeclaredDefault, Registrable;
    var d := Directives(w, EMPTY, lines).value;
    LinesDecide(w, EMPTY, lines, flow);
    NoRules(flow);
    OneTierStays(d.rules, UserHard);
  }

  lemma NoRules(flow: Flow)
    ensures FirstMatch([], flow) == None
  {
  }

  // ---------------------------------------------------------------- listeners

  function DeclaredListeners(w: World, lines: seq<seq<string>>): seq<Listener>
  {
    if lines == [] then []
    else
      var fields, rest := lines[0], DeclaredListeners(w, lines[1..]);
      if |fields| == 3 && fields[0] == "listen" && ParseListenerProtocol(fields[1]).Some? && w.socketAddr(fields[2]).Some?
      then [Listener(ParseListenerProtocol(fields[1]).value, w.socketAddr(fields[2]).value)] + rest else rest
  }

  lemma ListenLine(w: World, d: Draft, fields: seq<string>)
    requires Directive(w, d, fields).Some?
    ensures Directive(w, d, fields).value.listeners == d.listeners + DeclaredListeners(w, [fields])
  {
    hide ParseResolver, ParseMatcher, ParseAction, ParseEndpoint, ParseListenerProtocol, Merged;
    assert [fields][1..] == [] && DeclaredListeners(w, []) == [];
    assert d.listeners + [] == d.listeners;
  }

  /** A line of these two words. */
  predicate IsLine(fields: seq<string>, first: string, second: string)
  {
    |fields| == 2 && fields[0] == first && fields[1] == second
  }

  ghost predicate HasLine(lines: seq<seq<string>>, first: string, second: string)
  {
    exists i :: 0 <= i < |lines| && IsLine(lines[i], first, second)
  }

  lemma HasLineFirst(lines: seq<seq<string>>, first: string, second: string)
    requires lines != []
    ensures HasLine(lines, first, second) <==> IsLine(lines[0], first, second) || HasLine(lines[1..], first, second)
  {
    hide IsLine;
    var rest := lines[1..];
    if HasLine(rest, first, second) {
      var i :| 0 <= i < |rest| && IsLine(rest[i], first, second);
      assert lines[i + 1] == rest[i];
    }
    if HasLine(lines, first, second) {
      var i :| 0 <= i < |lines| && IsLine(lines[i], first, second);
      if i > 0 { assert rest[i - 1] == lines[i]; }
    }
  }

  /** What a line does to the version and to the permission to listen in public. */
  lemma FlagLine(w: World, d: Draft, fields: seq<string>)
    requires Directive(w, d, fields).Some?
    ensures var d' := Directive(w, d, fields).value;
            && (d'.allowPublic == Some(true) <==> d.allowPublic == Some(true) || IsLine(fields, "allow-public-listen", "true"))
            && (d'.versionSeen <==> d.versionSeen || IsLine(fields, "version", "1"))
  {
    hide OnVersion, OnAllowPublic, OnListen, OnResolver, OnEndpoint, OnDefault, OnBlocklist, OnHosts, OnRule;
    OthersLeaveFlags(w, d, fields);
    FlagLines(d, fields);
  }

  lemma FlagLines(d: Draft, fields: seq<string>)
    ensures OnVersion(d, fields).Some? ==>
              var d' := OnVersion(d, fields).value;
              |fields| == 2 && fields[1] == "1" && d'.versionSeen && d'.allowPublic == d.allowPublic
    ensures OnAllowPublic(d, fields).Some? ==>
              var d' := OnAllowPublic(d, fields).value;
              |fields| == 2 && d.allowPublic.None? && d'.allowPublic == Some(fields[1] == "true")
              && d'.versionSeen == d.versionSeen
  {
  }

  lemma OthersLeaveFlags(w: World, d: Draft, fields: seq<string>)
    ensures OnListen(w, d, fields).Some? ==> SameFlags(d, OnListen(w, d, fields).value)
    ensures OnResolver(w, d, fields).Some? ==> SameFlags(d, OnResolver(w, d, fields).value)
    ensures OnEndpoint(w, d, fields).Some? ==> SameFlags(d, OnEndpoint(w, d, fields).value)
    ensures OnDefault(d, fields).Some? ==> SameFlags(d, OnDefault(d, fields).value)
    ensures OnBlocklist(w, d, fields).Some? ==> SameFlags(d, OnBlocklist(w, d, fields).value)
    ensures OnHosts(w, d, fields).Some? ==> SameFlags(d, OnHosts(w, d, fields).value)
    ensures OnRule(w, d, fields).Some? ==> SameFlags(d, OnRule(w, d, fields).value)
  {
    hide ParseResolver, ParseMatcher, ParseAction, ParseEndpoint, ParseListenerProtocol, Merged;
  }

  ghost predicate SameFlags(a: Draft, b: Draft) { a.allowPublic == b.allowPublic && a.versionSeen == b.versionSeen }

  lemma {:induction false} ListenLines(w: World, d: Draft, lines: seq<seq<string>>)
    requires Directives(w, d, lines).Some?
    ensures var d' := Directives(w, d, lines).value;
            && d'.listeners == d.listeners + DeclaredListeners(w, lines)
            && (d'.allowPublic == Some(true) <==>
                d.allowPublic == Some(true) || HasLine(lines, "allow-public-listen", "true"))
            && (d'.versionSeen <==> d.versionSeen || HasLine(lines, "version", "1"))
    decreases |lines|
  {
    hide Directive, ParseListenerProtocol, IsLine;
    if lines == [] {
      assert d.listeners + [] == d.listeners;
    } else {
      ListenLine(w, d, lines[0]);
      FlagLine(w, d, lines[0]);
      HasLineFirst(lines, "allow-public-listen", "true");
      HasLineFirst(lines, "version", "1");
      ListenLines(w, Directive(w, d, lines[0]).value, lines[1..]);
      assert [lines[0]][1..] == [] && [lines[0]][0] == lines[0] && DeclaredListeners(w, []) == [];
      assert (d.listeners + DeclaredListeners(w, [lines[0]])) + DeclaredListeners(w, lines[1..])
          == d.listeners + (DeclaredListeners(w, [lines[0]]) + DeclaredListeners(w, lines[1..]));
    }
  }

  /**
   * An accepted configuration names version 1, has the listeners it declares, in order and at least one, and listens
   * beyond the machine itself only if a line allows that.
   */
  lemma ListenersAreDeclared(w: World, lines: seq<seq<string>>, c: CompiledConfig)
    requires CompiledFrom(w, lines, c)
    ensures c.listeners == DeclaredListeners(w, lines) && c.listeners != [] && HasLine(lines, "version", "1")
    ensures (exists i :: 0 <= i < |c.listeners| && !w.isLoopback(c.listeners[i].address.ip)) ==>
              HasLine(lines, "allow-public-listen", "true")
  {
    hide Directives, NewEngine, DraftValid, DeclaredListeners, HasLine;
    ListenLines(w, EMPTY, lines);
    assert [] + DeclaredListeners(w, lines) == DeclaredListeners(w, lines);
  }

  // ---------------------------------------------------------------- sockets, endpoints, hosts

  /** Listeners have a port, and no two of them share a socket. */
  ghost predicate SocketsDistinct(d: Draft)
  {
    && (forall i :: 0 <= i < |d.listeners| ==>
          d.listeners[i].address.port != 0
          && (d.listeners[i].protocol.TproxyUdp?, d.listeners[i].address) in d.listenerAddresses)
    && (forall i, j :: 0 <= i < j < |d.listeners| ==>
          !(d.listeners[i].address == d.listeners[j].address
            && d.listeners[i].protocol.TproxyUdp? == d.listeners[j].protocol.TproxyUdp?))
  }

  lemma SocketLine(w: World, d: Draft, fields: seq<string>)
    requires SocketsDistinct(d) && Directive(w, d, fields).Some?
    ensures SocketsDistinct(Directive(w, d, fields).value)
  {
    hide ParseResolver, ParseMatcher, ParseAction, ParseEndpoint, ParseListenerProtocol, Merged, SocketsDistinct;
    if fields != [] && fields[0] == "listen" {
      NewSocket(w, d, fields);
    } else {
      SameSockets(d, Directive(w, d, fields).value);
    }
  }

  lemma SameSockets(d: Draft, d': Draft)
    requires SocketsDistinct(d) && d'.listeners == d.listeners && d'.listenerAddresses == d.listenerAddresses
    ensures SocketsDistinct(d')
  {
  }

  lemma NewSocket(w: World, d: Draft, fields: seq<string>)
    requires SocketsDistinct(d) && OnListen(w, d, fields).Some?
    ensures SocketsDistinct(OnListen(w, d, fields).value)
  {
    hide ParseListenerProtocol;
  }

  lemma {:induction false} SocketLines(w: World, d: Draft, lines: seq<seq<string>>)
    requires SocketsDistinct(d) && Directives(w, d, lines).Some?
    ensures SocketsDistinct(Directives(w, d, lines).value)
    decreases |lines|
  {
    hide Directive, SocketsDistinct;
    if lines != [] {
      SocketLine(w, d, lines[0]);
      SocketLines(w, Directive(w, d, lines[0]).value, lines[1..]);
    }
  }

  /** The sockets of an accepted configuration can be bound: each has a port, and no two are the same. */
  lemma ListenersAreDistinct(w: World, lines: seq<seq<string>>, c: CompiledConfig)
    requires CompiledFrom(w, lines, c)
    ensures forall i :: 0 <= i < |c.listeners| ==> c.listeners[i].address.port != 0
    ensures forall i, j :: 0 <= i < j < |c.listeners| ==>
              c.listeners[i].address != c.listeners[j].address
              || c.listeners[i].protocol.TproxyUdp? != c.listeners[j].protocol.TproxyUdp?
  {
    hide Directives, NewEngine, DraftValid;
    SocketLines(w, EMPTY, lines);
  }

  /** Endpoint ids have 1 to 64 letters, digits, hyphens, underscores or dots. */
  lemma EndpointIds(value: string)
    ensures NewEndpointId(value).Some? <==>
              1 <= |value| <= 64
              && forall i :: 0 <= i < |value| ==>
                   'a' <= value[i] <= 'z' || 'A' <= value[i] <= 'Z' || '0' <= value[i] <= '9' || value[i] in "-_."
    ensures NewEndpointId(value).Some? ==> NewEndpointId(value).value.text == value
  {
    forall i | 0 <= i < |value|
      ensures IdChar(value[i]) <==>
                'a' <= value[i] <= 'z' || 'A' <= value[i] <= 'Z' || '0' <= value[i] <= '9' || value[i] in "-_."
    {
    }
  }

  function AddressOf(t: TransportConfig): SocketAddr { if t.TlsOut? then t.tlsAddress else t.address }

  /** What the words of an endpoint line ask for: protocol, carrier and address. */
  lemma EndpointMeans(w: World, id: EndpointId, fields: seq<string>)
    requires |fields| >= 2 && ParseEndpoint(w, id, fields).Some?
    ensures var e := ParseEndpoint(w, id, fields).value;
            && |fields| >= 4 && e.id == id
            && (fields[2] == "socks5" <==> e.protocol == Socks5Out) && (fields[2] == "http" <==> e.protocol == HttpOut)
            && (fields[2] == "trojan" <==> e.protocol == TrojanOut) && (e.hasDatagram <==> fields[2] == "trojan")
            && (e.transport.TlsOut? <==> |fields| >= 6 && fields[3] == "tls")
            && AddressOf(e.transport).port != 0
            && w.socketAddr(fields[if |fields| == 4 then 3 else 4]) == Some(AddressOf(e.transport))
            && (e.transport.TlsOut? ==>
                  e.transport.serverName == w.octets(fields[5])
                  && w.tlsAccepts(e.transport.tlsAddress, w.octets(fields[5])))
  {
  }

  /** The endpoint that a line declares. */
  function EndpointOf(w: World, fields: seq<string>): Option<ProxyEndpoint>
  {
    if |fields| >= 2 && fields[0] == "endpoint" && NewEndpointId(fields[1]).Some?
    then ParseEndpoint(w, NewEndpointId(fields[1]).value, fields) else None
  }

  function DeclaredEndpoints(w: World, lines: seq<seq<string>>): seq<ProxyEndpoint>
  {
    if lines == [] then []
    else
      var rest := DeclaredEndpoints(w, lines[1..]);
      if EndpointOf(w, lines[0]).Some? then [EndpointOf(w, lines[0]).value] + rest else rest
  }

  lemma EndpointLine(w: World, d: Draft, fields: seq<string>)
    requires Directive(w, d, fields).Some?
    ensures Directive(w, d, fields).value.endpoints == d.endpoints + DeclaredEndpoints(w, [fields])
  {
    hide ParseResolver, ParseMatcher, ParseAction, ParseEndpoint, ParseListenerProtocol, Merged, NewEndpointId;
    assert [fields][1..] == [] && DeclaredEndpoints(w, []) == [];
    assert d.endpoints + [] == d.endpoints;
  }

  lemma {:induction false} EndpointLines(w: World, d: Draft, lines: seq<seq<string>>)
    requires Directives(w, d, lines).Some?
    ensures Directives(w, d, lines).value.endpoints == d.endpoints + DeclaredEndpoints(w, lines)
    decreases |lines|
  {
    hide Directive, EndpointOf;
    if lines == [] {
      assert d.endpoints + [] == d.endpoints;
    } else {
      EndpointLine(w, d, lines[0]);
      EndpointLines(w, Directive(w, d, lines[0]).value, lines[1..]);
      assert [lines[0]][1..] == [] && [lines[0]][0] == lines[0] && DeclaredEndpoints(w, []) == [];
      assert (d.endpoints + DeclaredEndpoints(w, [lines[0]])) + DeclaredEndpoints(w, lines[1..])
          == d.endpoints + (DeclaredEndpoints(w, [lines[0]]) + DeclaredEndpoints(w, lines[1..]));
    }
  }

  /** The registry holds exactly the endpoints that the lines declare. */
  lemma EndpointsAreDeclared(w: World, lines: seq<seq<string>>, c: CompiledConfig, e: ProxyEndpoint)
    requires CompiledFrom(w, lines, c)
    ensures e in DeclaredEndpoints(w, lines) <==> e.id in c.registry && c.registry[e.id] == e
  {
    hide Directives, NewEngine, DeclaredEndpoints, Registrable, Complete, Closed;
    EndpointLines(w, EMPTY, lines);
    var d := Directives(w, EMPTY, lines).value;
    assert [] + DeclaredEndpoints(w, lines) == DeclaredEndpoints(w, lines);
    assert e.id in d.endpointIds <==> exists i :: 0 <= i < |d.endpoints| && d.endpoints[i].id == e.id;
    InRegistry(d.endpoints, c.registry, e);
  }

  lemma InRegistry(endpoints: seq<ProxyEndpoint>, registry: Registry, e: ProxyEndpoint)
    requires e.id in registry <==> exists i :: 0 <= i < |endpoints| && endpoints[i].id == e.id
    requires forall i :: 0 <= i < |endpoints| ==> endpoints[i].id in registry && registry[endpoints[i].id] == endpoints[i]
    ensures e in endpoints <==> e.id in registry && registry[e.id] == e
  {
    if e.id in registry && registry[e.id] == e {
      var i :| 0 <= i < |endpoints| && endpoints[i].id == e.id;
      assert registry[endpoints[i].id] == endpoints[i];
    }
  }

  /** Some hosts file of the lines gives this address to this name. */
  ghost predicate HostsSay(w: World, lines: seq<seq<string>>, name: Octets, ip: Ip)
  {
    exists i :: 0 <= i < |lines| && FileSays(w, lines[i], name, ip)
  }

  predicate FileSays(w: World, fields: seq<string>, name: Octets, ip: Ip)
  {
    |fields| == 2 && fields[0] == "hosts"
    && match w.hosts(w.path(fields[1]))
       case Some(table) => name in table && ip in table[name]
       case None => false
  }

  predicate TableSays(table: map<Octets, seq<Ip>>, name: Octets, ip: Ip) { name in table && ip in table[name] }

  lemma MergedSays(a: map<Octets, seq<Ip>>, b: map<Octets, seq<Ip>>, name: Octets, ip: Ip)
    ensures TableSays(Merged(a, b), name, ip) <==> TableSays(a, name, ip) || TableSays(b, name, ip)
  {
    hide Added;
    AddedLaws(if name in a then a[name] else [], if name in b then b[name] else []);
  }

  lemma HostsLine(w: World, d: Draft, fields: seq<string>, name: Octets, ip: Ip)
    requires Directive(w, d, fields).Some?
    ensures TableSays(Directive(w, d, fields).value.hostsTable, name, ip)
            <==> TableSays(d.hostsTable, name, ip) || FileSays(w, fields, name, ip)
  {
    hide ParseResolver, ParseMatcher, ParseAction, ParseEndpoint, ParseListenerProtocol, Merged;
    if fields != [] && fields[0] == "hosts" {
      MergedSays(d.hostsTable, w.hosts(w.path(fields[1])).value, name, ip);
    }
  }

  lemma {:induction false} HostsLines(w: World, d: Draft, lines: seq<seq<string>>, name: Octets, ip: Ip)
    requires Directives(w, d, lines).Some?
    ensures TableSays(Directives(w, d, lines).value.hostsTable, name, ip)
            <==> TableSays(d.hostsTable, name, ip) || HostsSay(w, lines, name, ip)
    decreases |lines|
  {
    hide Directive, FileSays, TableSays;
    if lines != [] {
      HostsLine(w, d, lines[0], name, ip);
      var rest := lines[1..];
      HostsLines(w, Directive(w, d, lines[0]).value, rest, name, ip);
      if HostsSay(w, rest, name, ip) {
        var i :| 0 <= i < |rest| && FileSays(w, rest[i], name, ip);
        assert lines[i + 1] == rest[i];
      }
      if HostsSay(w, lines, name, ip) {
        var i :| 0 <= i < |lines| && FileSays(w, lines[i], name, ip);
        if i > 0 { assert rest[i - 1] == lines[i]; }
      }
    }
  }

  /** The hosts table gives a name exactly the addresses that some declared hosts file gives it. */
  lemma HostsAreMerged(w: World, lines: seq<seq<string>>, c: CompiledConfig, name: Octets, ip: Ip)
    requires CompiledFrom(w, lines, c)
    ensures name in c.hosts && ip in c.hosts[name] <==> HostsSay(w, lines, name, ip)
  {
    hide Directives, NewEngine, DraftValid;
    HostsLines(w, EMPTY, lines, name, ip);
  }

  /** The words for listeners and resolvers. */
  lemma ListenerAndResolverWords(w: World, text: string, address: string, name: string, fields: seq<string>)
    ensures ParseListenerProtocol("socks5") == Some(Socks5) && ParseListenerProtocol("http") == Some(HttpConnect)
    ensures ParseListenerProtocol("tproxy-tcp") == Some(TproxyTcp) && ParseListenerProtocol("tproxy-udp") == Some(TproxyUdp)
    ensures text !in ["socks5", "http", "tproxy-tcp", "tproxy-udp"] ==> ParseListenerProtocol(text) == None
    ensures ParseResolver(w, ["resolver", "system"]) == Some(System)
    ensures ParseResolver(w, fields).Some? ==>
              (|fields| == 2 && fields[1] == "system") || (|fields| == 4 && fields[1] == "dot")
    ensures w.socketAddr(address).Some? && w.socketAddr(address).value.port != 0 ==>
              ParseResolver(w, ["resolver", "dot", address, name])
              == Some(ResolverSummary.Dot(w.socketAddr(address).value, Lower(w.octets(name))))
  {
  }

  /** A resolver address with a port that TLS accepts. */
  predicate Reachable(w: World, fields: seq<string>)
    requires |fields| == 4 && w.socketAddr(fields[2]).Some?
  {
    var address := w.socketAddr(fields[2]).value;
    address.port != 0 && w.tlsAccepts(address, Lower(w.octets(fields[3])))
  }

  /** Words that parse and still are refused: ports and lengths out of range, carriers TLS refuses, repeated paths. */
  lemma RefusedWords(w: World, d: Draft, fields: seq<string>)
    ensures |fields| == 4 && fields[2] == "port" && w.portNumber(fields[3]) == Some(0) ==> ParseMatcher(w, fields).None?
    ensures (|fields| == 4 && fields[2] in ["domain-exact", "domain-suffix"]
             && !(1 <= |TrimDots(w.octets(fields[3]))| <= 253)) ==> ParseMatcher(w, fields).None?
    ensures (|fields| == 4 && fields[2] == "transport" && fields[3] != "tcp" && fields[3] != "udp") ==>
              ParseMatcher(w, fields).None?
    ensures (|fields| == 4 && fields[1] == "dot" && w.socketAddr(fields[2]).Some? && !Reachable(w, fields)) ==>
              OnResolver(w, d, fields).None?
    ensures |fields| == 7 && fields[2] == "trojan" && !(1 <= |w.octets(fields[6])| <= 1024) ==> OnEndpoint(w, d, fields).None?
    ensures |fields| == 2 && w.path(fields[1]) in d.blocklistPaths ==> OnBlocklist(w, d, fields).None?
    ensures |fields| == 2 && w.path(fields[1]) in d.hostsPaths ==> OnHosts(w, d, fields).None?
  {
    hide ParseAction, ParseListenerProtocol, Merged, TrimDots;
    if |fields| == 4 { assert "dot" != "system"; }
  }

  const DIRECTIVES := [
    "version", "allow-public-listen", "listen", "resolver", "endpoint", "default", "blocklist", "hosts", "rule"]

  /** Lines beyond a limit, repeated single lines and unknown words are refused. */
  lemma RefusedLines(w: World, d: Draft, fields: seq<string>)
    ensures |d.listeners| >= 16 ==> OnListen(w, d, fields).None?
    ensures |d.resolvers| >= 8 ==> OnResolver(w, d, fields).None?
    ensures |d.endpoints| >= 64 ==> OnEndpoint(w, d, fields).None?
    ensures |d.rules| >= 4096 ==> OnRule(w, d, fields).None? && OnBlocklist(w, d, fields).None?
    ensures |d.blocklistPaths| >= 8 ==> OnBlocklist(w, d, fields).None?
    ensures |d.hostsPaths| >= 4 ==> OnHosts(w, d, fields).None?
    ensures d.versionSeen ==> OnVersion(d, fields).None?
    ensures d.allowPublic.Some? ==> OnAllowPublic(d, fields).None?
    ensures d.defaultAction.Some? ==> OnDefault(d, fields).None?
    ensures fields != [] && fields[0] !in DIRECTIVES ==> Directive(w, d, fields).None?
  {
    hide ParseResolver, ParseMatcher, ParseAction, ParseEndpoint, ParseListenerProtocol, Merged;
  }

  // ---------------------------------------------------------------- the store

  /** The active configuration with candidate-then-swap semantics. */
  class ConfigStore {
    var active: CompiledConfig

    ghost const first: CompiledConfig
    /** The candidates of all reloads so far, None for those that did not compile. */
    ghost var candidates: seq<Option<CompiledConfig>>
    /** What the active configuration was compiled from. */
    ghost var world: World
    ghost var source: seq<seq<string>>

    ghost predicate Valid()
      reads this
    {
      active == AfterReloads(first, candidates) && CompiledFrom(world, source, active)
    }

    constructor (ghost w: World, ghost lines: seq<seq<string>>, initial: CompiledConfig)
      requires CompiledFrom(w, lines, initial)
      ensures Valid() && active == first == initial && candidates == []
    {
      active, first := initial, initial;
      candidates, world, source := [], w, lines;
    }

    /** A candidate that does not compile leaves the active configuration untouched. */
    method Reload(w: World, lines: seq<seq<string>>) returns (ok: bool)
      requires Valid()
      modifies this
      ensures Valid()
      ensures ok <==> var d := Directives(w, EMPTY, lines); d.Some? && Complete(w, d.value) && Closed(d.value)
      ensures candidates == old(candidates) + [if ok then Some(active) else None]
      ensures ok ==> CompiledFrom(w, lines, active)
      ensures !ok ==> active == old(active)
    {
      hide Directives, CompiledFrom, AfterReloads, Complete, Closed;
      var candidate := ParseConfig(w, lines);
      OneMoreReload(first, candidates, candidate);
      candidates := candidates + [candidate];
      if candidate.None? {
        return false;
      }
      active := candidate.value;
      world, source := w, lines;
      ok := true;
    }
  }

  /** `new_at`: a store exists only if its first configuration compiles. */
  method NewStore(w: World, lines: seq<seq<string>>) returns (r: Option<ConfigStore>)
    ensures r.Some? <==> var d := Directives(w, EMPTY, lines); d.Some? && Complete(w, d.value) && Closed(d.value)
    ensures r.Some? ==>
              fresh(r.value) && r.value.Valid() && r.value.candidates == [] && CompiledFrom(w, lines, r.value.active)
  {
    hide Directives, CompiledFrom, Complete, Closed;
    var initial := ParseConfig(w, lines);
    if initial.None? {
      return None;
    }
    var store := new ConfigStore(w, lines, initial.value);
    return Some(store);
  }

  /** The store after a sequence of reloads, each a candidate that compiled or a failure. */
  function AfterReloads<T>(active: T, candidates: seq<Option<T>>): T
  {
    if candidates == [] then active
    else
      var before := AfterReloads(active, candidates[..|candidates| - 1]);
      var last := candidates[|candidates| - 1];
      if last.Some? then last.value else before
  }

  lemma OneMoreReload<T>(active: T, candidates: seq<Option<T>>, last: Option<T>)
    ensures AfterReloads(active, candidates + [last])
            == if last.Some? then last.value else AfterReloads(active, candidates)
  {
    assert (candidates + [last])[..|candidates|] == candidates;
  }

  /** After any reload sequence the active configuration is the last candidate that compiled, else the first one. */
  lemma {:induction false} LastKnownGood<T>(active: T, candidates: seq<Option<T>>)
    ensures (forall i :: 0 <= i < |candidates| ==> candidates[i].None?) ==> AfterReloads(active, candidates) == active
    ensures forall i :: 0 <= i < |candidates| && candidates[i].Some?
              && (forall j :: i < j < |candidates| ==> candidates[j].None?)
              ==> AfterReloads(active, candidates) == candidates[i].value
  {
    if candidates != [] {
      var front := candidates[..|candidates| - 1];
      LastKnownGood(active, front);
      forall i | 0 <= i < |front| ensures front[i] == candidates[i] { }
      var r := AfterReloads(active, candidates);
      if candidates[|front|].None? {
        assert r == AfterReloads(active, front);
        if forall i :: 0 <= i < |candidates| ==> candidates[i].None? {
          assert forall i :: 0 <= i < |front| ==> front[i].None?;
        }
      }
    }
  }
}
