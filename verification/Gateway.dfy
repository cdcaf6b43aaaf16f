/** Gateway bridges: client/gateway.go.

    Binding and forwarding edit the bridge maps of a gateway (`gatewayBridgeEndpointUpdate`),
    exporting turns the maps into lists (`GatewayExportConfig`), and `getBridgeConfig` rebuilds the
    maps from the lists. */
module Gateway {
  import opened Prelude

  /** A port string: the plain decimal text of a number, which is what `strconv.Itoa` writes, or
      another text, with the number `strconv.Atoi` makes of it (0 where it is malformed). */
  datatype PortText = Decimal(n: int) | OtherText(text: string, value: int)

  function Itoa(n: int): PortText {
    Decimal(n)
  }

  function Atoi(p: PortText): int {
    match p
    case Decimal(n) => n
    case OtherText(_, value) => value
  }

  /** The `protocolVersion` string of an HTTP endpoint: `HTTP1`, `HTTP2`, or another text. */
  datatype HttpVersion = Version1 | Version2 | OtherVersion(text: string)

  /** The part of an endpoint that only HTTP endpoints have. */
  datatype HttpPart = HttpPart(version: HttpVersion, aggregation: string, eventChannel: bool)

  /** A TCP endpoint (no HTTP part) or an HTTP endpoint.  `other` holds the settings that gateways do
      not use (SSL profile, host names), empty where none is set. */
  datatype Endpoint = Endpoint(
    name: string,
    host: string,
    port: PortText,
    address: string,
    siteId: string,
    http: Option<HttpPart>,
    other: string)

  type Bridges = map<string, Endpoint>

  datatype BridgeConfig = BridgeConfig(
    tcpConnectors: Bridges,
    tcpListeners: Bridges,
    httpConnectors: Bridges,
    httpListeners: Bridges)
  {
    /** TCP endpoints are in the TCP maps, HTTP endpoints in the HTTP maps. */
    ghost predicate Typed() {
      && (forall k <- tcpConnectors :: tcpConnectors[k].http.None?)
      && (forall k <- tcpListeners :: tcpListeners[k].http.None?)
      && (forall k <- httpConnectors :: httpConnectors[k].http.Some?)
      && (forall k <- httpListeners :: httpListeners[k].http.Some?)
    }
  }

  const EMPTY := BridgeConfig(map[], map[], map[], map[])

  // ---- Export: endpoints to list entries -----------------------------------------------------

  datatype Protocol = Tcp | Http | Http2 | Unsupported

  datatype GatewayEndpoint = GatewayEndpoint(
    host: string,
    address: string,
    protocol: Protocol,
    ports: seq<int>,
    targetPorts: seq<int>,
    aggregate: string,
    eventChannel: bool)

  datatype GatewayConfig = GatewayConfig(bindings: seq<GatewayEndpoint>, forwards: seq<GatewayEndpoint>)

  function ExportOne(e: Endpoint): GatewayEndpoint {
    var port := Atoi(e.port);
    match e.http
    case None => GatewayEndpoint(e.host, e.address, Tcp, [port], [port], "", false)
    case Some(h) =>
      GatewayEndpoint(e.host, e.address, if h.version == Version2 then Http2 else Http, [port], [port], h.aggregation,
                      h.eventChannel)
  }

  function ExportAll(m: Bridges, order: seq<string>): seq<GatewayEndpoint>
    requires forall k <- order :: k in m
  {
    if order == [] then [] else ExportAll(m, order[..|order| - 1]) + [ExportOne(m[order[|order| - 1]])]
  }

  /** The orders in which the four maps are visited. */
  datatype Orders = Orders(
    tcpConnectors: seq<string>,
    tcpListeners: seq<string>,
    httpConnectors: seq<string>,
    httpListeners: seq<string>)
  {
    ghost predicate Of(bc: BridgeConfig) {
      && Enumerates(tcpConnectors, bc.tcpConnectors.Keys) && Enumerates(tcpListeners, bc.tcpListeners.Keys)
      && Enumerates(httpConnectors, bc.httpConnectors.Keys) && Enumerates(httpListeners, bc.httpListeners.Keys)
    }
  }

  lemma EnumeratedKeys(m: Bridges, order: seq<string>)
    requires Enumerates(order, m.Keys)
    ensures forall k <- order :: k in m
  {
    assert forall k <- order :: k in SetOf(order);
  }

  ghost function Export(bc: BridgeConfig, o: Orders): GatewayConfig
    requires o.Of(bc)
  {
    EnumeratedKeys(bc.tcpConnectors, o.tcpConnectors);
    EnumeratedKeys(bc.tcpListeners, o.tcpListeners);
    EnumeratedKeys(bc.httpConnectors, o.httpConnectors);
    EnumeratedKeys(bc.httpListeners, o.httpListeners);
    GatewayConfig(ExportAll(bc.tcpConnectors, o.tcpConnectors) + ExportAll(bc.httpConnectors, o.httpConnectors),
                  ExportAll(bc.tcpListeners, o.tcpListeners) + ExportAll(bc.httpListeners, o.httpListeners))
  }

  method ExportMap(m: Bridges, order: seq<string>, start: seq<GatewayEndpoint>) returns (list: seq<GatewayEndpoint>)
    requires forall k <- order :: k in m
    ensures list == start + ExportAll(m, order)
  {
    list := start;
    for i := 0 to |order|
      invariant forall k <- order[..i] :: k in m
      invariant list == start + ExportAll(m, order[..i])
    {
      assert order[..i + 1][..i] == order[..i];
      list := list + [ExportOne(m[order[i]])];
    }
    assert order[..|order|] == order;
  }

  /** The lists `GatewayExportConfig` writes. */
  method GatewayExportConfig(bc: BridgeConfig, o: Orders) returns (config: GatewayConfig)
    requires o.Of(bc)
    ensures config == Export(bc, o)
  {
    EnumeratedKeys(bc.tcpConnectors, o.tcpConnectors);
    EnumeratedKeys(bc.tcpListeners, o.tcpListeners);
    EnumeratedKeys(bc.httpConnectors, o.httpConnectors);
    EnumeratedKeys(bc.httpListeners, o.httpListeners);
    var bindings := ExportMap(bc.tcpConnectors, o.tcpConnectors, []);
    var forwards := ExportMap(bc.tcpListeners, o.tcpListeners, []);
    bindings := ExportMap(bc.httpConnectors, o.httpConnectors, bindings);
    forwards := ExportMap(bc.httpListeners, o.httpListeners, forwards);
    config := GatewayConfig(bindings, forwards);
  }

  // ---- Import: list entries to endpoints -----------------------------------------------------

  /** Which of an entry's two port lists an endpoint takes its port from. */
  datatype Side = Connectors | Listeners

  /** The endpoint made of the i-th target port of an entry. */
  function ImportOne(g: GatewayEndpoint, i: nat, side: Side, siteId: string): Endpoint
    requires i < |g.targetPorts| && (side == Listeners ==> i < |g.ports|)
  {
    var port := Itoa(if side == Connectors then g.targetPorts[i] else g.ports[i]);
    Endpoint(g.address, g.host, port, g.address, siteId,
             if g.protocol == Tcp then None
             else Some(HttpPart(if g.protocol == Http2 then Version2 else Version1, g.aggregate, g.eventChannel)), "")
  }

  predicate Goes(g: GatewayEndpoint, http: bool) {
    if http then g.protocol == Http || g.protocol == Http2 else g.protocol == Tcp
  }

  /** The source indexes the service ports by the position of the target port. */
  ghost predicate Indexable(gs: seq<GatewayEndpoint>, side: Side) {
    side == Listeners ==> forall j | 0 <= j < |gs| :: |gs[j].targetPorts| <= |gs[j].ports|
  }

  function AddPorts(m: Bridges, g: GatewayEndpoint, n: nat, side: Side, http: bool, siteId: string): Bridges
    requires n <= |g.targetPorts| && (side == Listeners ==> |g.targetPorts| <= |g.ports|)
  {
    if n == 0 || !Goes(g, http) then m
    else
      var e := ImportOne(g, n - 1, side, siteId);
      AddPorts(m, g, n - 1, side, http, siteId)[e.name := e]
  }

  function ImportMap(gs: seq<GatewayEndpoint>, side: Side, http: bool, siteId: string): Bridges
    requires Indexable(gs, side)
  {
    if gs == [] then map[]
    else
      var n := |gs| - 1;
      AddPorts(ImportMap(gs[..n], side, http, siteId), gs[n], |gs[n].targetPorts|, side, http, siteId)
  }

  function Import(config: GatewayConfig, siteId: string): BridgeConfig
    requires Indexable(config.forwards, Listeners)
  {
    BridgeConfig(ImportMap(config.bindings, Connectors, false, siteId),
                 ImportMap(config.forwards, Listeners, false, siteId),
                 ImportMap(config.bindings, Connectors, true, siteId),
                 ImportMap(config.forwards, Listeners, true, siteId))
  }

  /** One entry into the map it goes to, port by port. */
  method ImportEntry(m0: Bridges, g: GatewayEndpoint, side: Side, http: bool, siteId: string) returns (m: Bridges)
    requires side == Listeners ==> |g.targetPorts| <= |g.ports|
    ensures m == AddPorts(m0, g, |g.targetPorts|, side, http, siteId)
  {
    m := m0;
    if Goes(g, http) {
      for i := 0 to |g.targetPorts|
        invariant m == AddPorts(m0, g, i, side, http, siteId)
      {
        var e := ImportOne(g, i, side, siteId);
        m := m[e.name := e];
      }
    }
  }

  method ImportSide(gs: seq<GatewayEndpoint>, side: Side, siteId: string) returns (tcp: Bridges, http: Bridges)
    requires Indexable(gs, side)
    ensures tcp == ImportMap(gs, side, false, siteId) && http == ImportMap(gs, side, true, siteId)
  {
    tcp, http := map[], map[];
    for j := 0 to |gs|
      invariant Indexable(gs[..j], side)
      invariant tcp == ImportMap(gs[..j], side, false, siteId) && http == ImportMap(gs[..j], side, true, siteId)
    {
      assert gs[..j + 1][..j] == gs[..j] && gs[..j + 1][j] == gs[j];
      tcp := ImportEntry(tcp, gs[j], side, false, siteId);
      http := ImportEntry(http, gs[j], side, true, siteId);
    }
    assert gs[..|gs|] == gs;
  }

  /** `getBridgeConfig`. */
  method GetBridgeConfig(config: GatewayConfig, routerId: string) returns (bc: BridgeConfig)
    requires Indexable(config.forwards, Listeners)
    ensures bc == Import(config, routerId)
  {
    var tcpConnectors, httpConnectors := ImportSide(config.bindings, Connectors, routerId);
    var tcpListeners, httpListeners := ImportSide(config.forwards, Listeners, routerId);
    bc := BridgeConfig(tcpConnectors, tcpListeners, httpConnectors, httpListeners);
  }

  // ---- The round trip ------------------------------------------------------------------------

  /** An endpoint that an entry can express: keyed and named by its address, its port in plain
      decimal, a known HTTP version, and nothing else set. */
  ghost predicate Plain(k: string, e: Endpoint) {
    && e.name == k && e.address == k && e.port.Decimal? && e.other == ""
    && (e.http.Some? ==> e.http.value.version == Version1 || e.http.value.version == Version2)
  }

  ghost predicate AllPlain(m: Bridges) {
    forall k <- m :: Plain(k, m[k])
  }

  ghost predicate PlainConfig(bc: BridgeConfig) {
    AllPlain(bc.tcpConnectors) && AllPlain(bc.tcpListeners) && AllPlain(bc.httpConnectors) && AllPlain(bc.httpListeners)
  }

  function Moved(m: Bridges, siteId: string): Bridges {
    map k | k in m :: m[k].(siteId := siteId)
  }

  /** The same bridges under another site ID. */
  function MovedConfig(bc: BridgeConfig, siteId: string): BridgeConfig {
    BridgeConfig(Moved(bc.tcpConnectors, siteId), Moved(bc.tcpListeners, siteId), Moved(bc.httpConnectors, siteId),
                 Moved(bc.httpListeners, siteId))
  }

  /** An endpoint exported and imported again. */
  function Again(e: Endpoint, side: Side, siteId: string): Endpoint {
    ImportOne(ExportOne(e), 0, side, siteId)
  }

  lemma AgainIsPlain(e: Endpoint, side: Side, siteId: string)
    ensures var back := Again(e, side, siteId);
            && back.name == e.address && Plain(e.address, back) && back.http.Some? == e.http.Some?
            && (Plain(e.address, e) ==> back == e.(siteId := siteId))
  {
  }

  lemma ImportSnoc(list: seq<GatewayEndpoint>, e: Endpoint, side: Side, http: bool, siteId: string)
    requires Indexable(list, side)
    ensures Indexable(list + [ExportOne(e)], side)
    ensures ImportMap(list + [ExportOne(e)], side, http, siteId) ==
              if e.http.Some? == http then ImportMap(list, side, http, siteId)[e.address := Again(e, side, siteId)]
              else ImportMap(list, side, http, siteId)
  {
    var g := ExportOne(e);
    assert (list + [g])[..|list|] == list;
    var m := ImportMap(list, side, http, siteId);
    assert AddPorts(m, g, 0, side, http, siteId) == m;
    assert Goes(g, http) <==> e.http.Some? == http;
    assert Goes(g, http) ==> AddPorts(m, g, 1, side, http, siteId) == m[g.address := ImportOne(g, 0, side, siteId)];
  }

  /** Adding endpoint after endpoint, each exported and imported again. */
  ghost function AgainAll(start: Bridges, m: Bridges, order: seq<string>, side: Side, siteId: string): Bridges
    requires forall k <- order :: k in m
  {
    if order == [] then start
    else
      var n := |order| - 1;
      assert forall k <- order[..n] :: k in order;
      AgainAll(start, m, order[..n], side, siteId)[m[order[n]].address := Again(m[order[n]], side, siteId)]
  }

  ghost predicate AllOf(m: Bridges, http: bool) {
    forall k <- m :: m[k].http.Some? == http
  }

  /** Importing what was exported of one map, after whatever else was imported. */
  lemma {:induction false} ImportExported(before: seq<GatewayEndpoint>, m: Bridges, order: seq<string>, side: Side,
                                          http: bool, siteId: string)
    requires Indexable(before, side) && (AllOf(m, http) || AllOf(m, !http)) && forall k <- order :: k in m
    ensures Indexable(before + ExportAll(m, order), side)
    ensures var start := ImportMap(before, side, http, siteId);
            ImportMap(before + ExportAll(m, order), side, http, siteId) ==
              if AllOf(m, http) then AgainAll(start, m, order, side, siteId) else start
  {
    if order == [] {
      assert before + ExportAll(m, order) == before;
    } else {
      var n := |order| - 1;
      assert forall k <- order[..n] :: k in order;
      ImportExported(before, m, order[..n], side, http, siteId);
      ImportSnoc(before + ExportAll(m, order[..n]), m[order[n]], side, http, siteId);
      assert before + ExportAll(m, order) == before + ExportAll(m, order[..n]) + [ExportOne(m[order[n]])];
    }
  }

  lemma {:induction false} AgainAllIsPlain(m: Bridges, order: seq<string>, side: Side, siteId: string)
    requires forall k <- order :: k in m
    ensures AllPlain(AgainAll(map[], m, order, side, siteId))
  {
    if order != [] {
      var n := |order| - 1;
      assert forall k <- order[..n] :: k in order;
      AgainAllIsPlain(m, order[..n], side, siteId);
      AgainIsPlain(m[order[n]], side, siteId);
    }
  }

  lemma {:induction false} AgainAllOfPlain(m: Bridges, order: seq<string>, side: Side, siteId: string)
    requires AllPlain(m) && forall k <- order :: k in m
    ensures var back := AgainAll(map[], m, order, side, siteId);
            back.Keys == SetOf(order) && forall k <- order :: back[k] == m[k].(siteId := siteId)
  {
    if order != [] {
      var n := |order| - 1;
      var init, k := order[..n], order[n];
      assert forall x <- init :: x in order;
      AgainAllOfPlain(m, init, side, siteId);
      AgainIsPlain(m[k], side, siteId);
      assert order == init + [k];
      assert Plain(k, m[k]);
    }
  }

  /** One map survives the round trip if and only if its endpoints are plain. */
  lemma MapRoundTrip(m: Bridges, order: seq<string>, side: Side, siteId: string)
    requires Enumerates(order, m.Keys)
    ensures forall k <- order :: k in m
    ensures AgainAll(map[], m, order, side, siteId) == Moved(m, siteId) <==> AllPlain(m)
  {
    EnumeratedKeys(m, order);
    var back := AgainAll(map[], m, order, side, siteId);
    AgainAllIsPlain(m, order, side, siteId);
    if AllPlain(m) {
      AgainAllOfPlain(m, order, side, siteId);
      assert forall k <- m :: k in SetOf(order);
      assert back == Moved(m, siteId);
    } else {
      var k :| k in m && !Plain(k, m[k]);
      assert k in Moved(m, siteId) && !Plain(k, Moved(m, siteId)[k]);
    }
  }

  /** One side of the configuration: TCP endpoints first, then HTTP endpoints. */
  lemma SideRoundTrip(tcp: Bridges, http: Bridges, tcpOrder: seq<string>, httpOrder: seq<string>, side: Side,
                      siteId: string)
    requires AllOf(tcp, false) && AllOf(http, true)
    requires Enumerates(tcpOrder, tcp.Keys) && Enumerates(httpOrder, http.Keys)
    ensures (forall k <- tcpOrder :: k in tcp) && (forall k <- httpOrder :: k in http)
    ensures var list := ExportAll(tcp, tcpOrder) + ExportAll(http, httpOrder);
            && Indexable(list, side)
            && (ImportMap(list, side, false, siteId) == Moved(tcp, siteId) <==> AllPlain(tcp))
            && (ImportMap(list, side, true, siteId) == Moved(http, siteId) <==> AllPlain(http))
  {
    MapRoundTrip(tcp, tcpOrder, side, siteId);
    MapRoundTrip(http, httpOrder, side, siteId);
    var first := ExportAll(tcp, tcpOrder);
    ImportExported([], tcp, tcpOrder, side, false, siteId);
    ImportExported([], tcp, tcpOrder, side, true, siteId);
    assert [] + first == first;
    ImportExported(first, http, httpOrder, side, false, siteId);
    ImportExported(first, http, httpOrder, side, true, siteId);
    if AllOf(tcp, true) { assert tcp == map[] && first == []; }
    if AllOf(http, false) { assert http == map[] && ExportAll(http, httpOrder) == []; }
  }

  /** Exporting a configuration and importing the result gives the same bridges back, up to the site
      ID and whatever the orders in which the maps are visited, if and only if its endpoints are
      plain. */
  lemma RoundTripExactlyWhen(bc: BridgeConfig, o: Orders, siteId: string)
    requires bc.Typed() && o.Of(bc)
    ensures Indexable(Export(bc, o).forwards, Listeners)
    ensures Import(Export(bc, o), siteId) == MovedConfig(bc, siteId) <==> PlainConfig(bc)
  {
    SideRoundTrip(bc.tcpConnectors, bc.httpConnectors, o.tcpConnectors, o.httpConnectors, Connectors, siteId);
    SideRoundTrip(bc.tcpListeners, bc.httpListeners, o.tcpListeners, o.httpListeners, Listeners, siteId);
  }

  // ---- What is exported and imported ---------------------------------------------------------

  /** The entry is that of the bridge: where it is, what it is for, by which protocol, at its one port. */
  ghost predicate IsEntry(g: GatewayEndpoint, e: Endpoint) {
    && g.host == e.host && g.address == e.address && g.ports == g.targetPorts == [Atoi(e.port)]
    && (g.protocol == Tcp <==> e.http.None?)
    && (g.protocol == Http2 <==> e.http.Some? && e.http.value.version == Version2) && g.protocol != Unsupported
    && (e.http.None? ==> g.aggregate == "" && !g.eventChannel)
    && (e.http.Some? ==> g.aggregate == e.http.value.aggregation && g.eventChannel == e.http.value.eventChannel)
  }

  /** An exported list has one entry for each bridge, in the order of the visits. */
  lemma {:induction false} ExportTells(m: Bridges, order: seq<string>)
    requires forall k <- order :: k in m
    ensures AreEntriesOf(ExportAll(m, order), m, order)
  {
    if order != [] {
      ExportTells(m, order[..|order| - 1]);
    }
  }

  /** The list is that of a TCP map followed by that of an HTTP map. */
  ghost predicate AreEntries(list: seq<GatewayEndpoint>, tcp: Bridges, tcpOrder: seq<string>, http: Bridges,
                             httpOrder: seq<string>)
  {
    && |list| == |tcpOrder| + |httpOrder|
    && (forall i | 0 <= i < |tcpOrder| :: tcpOrder[i] in tcp && IsEntry(list[i], tcp[tcpOrder[i]]))
    && forall i | 0 <= i < |httpOrder| :: httpOrder[i] in http && IsEntry(list[|tcpOrder| + i], http[httpOrder[i]])
  }

  lemma JoinedEntries(tcp: Bridges, tcpOrder: seq<string>, http: Bridges, httpOrder: seq<string>)
    requires (forall k <- tcpOrder :: k in tcp) && (forall k <- httpOrder :: k in http)
    ensures AreEntries(ExportAll(tcp, tcpOrder) + ExportAll(http, httpOrder), tcp, tcpOrder, http, httpOrder)
  {
    ExportTells(tcp, tcpOrder);
    ExportTells(http, httpOrder);
    JoinedLists(ExportAll(tcp, tcpOrder), ExportAll(http, httpOrder), tcp, tcpOrder, http, httpOrder);
  }

  ghost predicate AreEntriesOf(list: seq<GatewayEndpoint>, m: Bridges, order: seq<string>) {
    |list| == |order| && forall i | 0 <= i < |order| :: order[i] in m && IsEntry(list[i], m[order[i]])
  }

  lemma JoinedLists(a: seq<GatewayEndpoint>, b: seq<GatewayEndpoint>, tcp: Bridges, tcpOrder: seq<string>,
                    http: Bridges, httpOrder: seq<string>)
    requires AreEntriesOf(a, tcp, tcpOrder) && AreEntriesOf(b, http, httpOrder)
    ensures AreEntries(a + b, tcp, tcpOrder, http, httpOrder)
  {
    var list := a + b;
    assert list[..|a|] == a && list[|a|..] == b;
    assert forall i | 0 <= i < |b| :: list[|a| + i] == b[i];
  }

  /** The bindings of an export are the entries of the connectors, the forwards those of the listeners. */
  lemma ExportConfigTells(bc: BridgeConfig, o: Orders)
    requires o.Of(bc)
    ensures AreEntries(Export(bc, o).bindings, bc.tcpConnectors, o.tcpConnectors, bc.httpConnectors, o.httpConnectors)
    ensures AreEntries(Export(bc, o).forwards, bc.tcpListeners, o.tcpListeners, bc.httpListeners, o.httpListeners)
  {
    EnumeratedKeys(bc.tcpConnectors, o.tcpConnectors);
    EnumeratedKeys(bc.tcpListeners, o.tcpListeners);
    EnumeratedKeys(bc.httpConnectors, o.httpConnectors);
    EnumeratedKeys(bc.httpListeners, o.httpListeners);
    JoinedEntries(bc.tcpConnectors, o.tcpConnectors, bc.httpConnectors, o.httpConnectors);
    JoinedEntries(bc.tcpListeners, o.tcpListeners, bc.httpListeners, o.httpListeners);
  }

  /** The bridge is that of the `i`-th port of the entry: a connector goes to the target port, a listener
      is at the service's port. */
  ghost predicate IsImported(e: Endpoint, g: GatewayEndpoint, i: nat, side: Side, siteId: string)
    requires i < |g.targetPorts| && (side == Listeners ==> i < |g.ports|)
  {
    && e.name == e.address == g.address && e.host == g.host && e.siteId == siteId && e.other == ""
    && (side == Connectors ==> e.port == Decimal(g.targetPorts[i]))
    && (side == Listeners ==> e.port == Decimal(g.ports[i]))
    && (e.http.None? <==> g.protocol == Tcp)
    && (e.http.Some? ==> e.http.value.aggregation == g.aggregate && e.http.value.eventChannel == g.eventChannel)
    && (g.protocol == Http ==> e.http.value.version == Version1)
    && (g.protocol == Http2 ==> e.http.value.version == Version2)
  }

  /** The entry makes a bridge under `k` in the TCP or in the HTTP map. */
  ghost predicate MakesBridge(g: GatewayEndpoint, http: bool, k: string) {
    g.address == k && g.targetPorts != []
        && (if http then g.protocol == Http || g.protocol == Http2 else g.protocol == Tcp)
  }

  /** Without an entry for an address there is no bridge under it. */
  lemma {:induction false} ImportsNothingElse(gs: seq<GatewayEndpoint>, side: Side, http: bool, siteId: string,
                                              k: string)
    requires Indexable(gs, side) && forall j | 0 <= j < |gs| :: !MakesBridge(gs[j], http, k)
    ensures k !in ImportMap(gs, side, http, siteId)
  {
    if gs != [] {
      var n := |gs| - 1;
      assert forall j | 0 <= j < n :: gs[..n][j] == gs[j];
      ImportsNothingElse(gs[..n], side, http, siteId, k);
      EntryTells(ImportMap(gs[..n], side, http, siteId), gs[n], |gs[n].targetPorts|, side, http, siteId, k);
    }
  }

  /** The bridge under an address is that of the last port of the last entry for the address. */
  lemma {:induction false} ImportTells(gs: seq<GatewayEndpoint>, side: Side, http: bool, siteId: string, k: string,
                                       j: nat)
    requires Indexable(gs, side) && j < |gs| && MakesBridge(gs[j], http, k)
    requires forall x | j < x < |gs| :: !MakesBridge(gs[x], http, k)
    ensures var m := ImportMap(gs, side, http, siteId);
            k in m && IsImported(m[k], gs[j], |gs[j].targetPorts| - 1, side, siteId)
  {
    var n := |gs| - 1;
    EntryTells(ImportMap(gs[..n], side, http, siteId), gs[n], |gs[n].targetPorts|, side, http, siteId, k);
    if j < n {
      assert forall x | 0 <= x < n :: gs[..n][x] == gs[x];
      ImportTells(gs[..n], side, http, siteId, k, j);
    }
  }

  /** Connectors are imported from the bindings, listeners from the forwards. */
  lemma ImportConfigTells(config: GatewayConfig, siteId: string, k: string, j: nat)
    requires Indexable(config.forwards, Listeners)
    ensures var bc := Import(config, siteId);
            && (LastMakes(config.bindings, false, k, j) ==>
                k in bc.tcpConnectors && IsImportedLast(bc.tcpConnectors[k], config.bindings[j], Connectors, siteId))
            && (LastMakes(config.bindings, true, k, j) ==>
                k in bc.httpConnectors && IsImportedLast(bc.httpConnectors[k], config.bindings[j], Connectors, siteId))
            && (LastMakes(config.forwards, false, k, j) ==>
                k in bc.tcpListeners && IsImportedLast(bc.tcpListeners[k], config.forwards[j], Listeners, siteId))
            && (LastMakes(config.forwards, true, k, j) ==>
                k in bc.httpListeners && IsImportedLast(bc.httpListeners[k], config.forwards[j], Listeners, siteId))
  {
    if LastMakes(config.bindings, false, k, j) {
      ImportTells(config.bindings, Connectors, false, siteId, k, j);
    }
    if LastMakes(config.bindings, true, k, j) {
      ImportTells(config.bindings, Connectors, true, siteId, k, j);
    }
    if LastMakes(config.forwards, false, k, j) {
      ImportTells(config.forwards, Listeners, false, siteId, k, j);
    }
    if LastMakes(config.forwards, true, k, j) {
      ImportTells(config.forwards, Listeners, true, siteId, k, j);
    }
  }

  ghost predicate LastMakes(gs: seq<GatewayEndpoint>, http: bool, k: string, j: nat) {
    j < |gs| && MakesBridge(gs[j], http, k) && forall x | j < x < |gs| :: !MakesBridge(gs[x], http, k)
  }

  ghost predicate IsImportedLast(e: Endpoint, g: GatewayEndpoint, side: Side, siteId: string) {
    && g.targetPorts != [] && (side == Listeners ==> |g.targetPorts| <= |g.ports|)
    && IsImported(e, g, |g.targetPorts| - 1, side, siteId)
  }

  lemma {:induction false} EntryTells(m: Bridges, g: GatewayEndpoint, n: nat, side: Side, http: bool, siteId: string,
                                      k: string)
    requires n <= |g.targetPorts| && (side == Listeners ==> |g.targetPorts| <= |g.ports|)
    ensures var m' := AddPorts(m, g, n, side, http, siteId);
            if g.address == k && n > 0 && Goes(g, http) then k in m' && IsImported(m'[k], g, n - 1, side, siteId)
            else (k in m' <==> k in m) && (k in m ==> m'[k] == m[k])
  {
    if n > 0 {
      EntryTells(m, g, n - 1, side, http, siteId, k);
    }
  }

  // ---- Bind, unbind, forward, unforward ------------------------------------------------------

  function Digits(n: nat): string {
    (if n < 10 then [] else Digits(n / 10)) + [(n % 10) as char + '0']
  }

  /** `address:port`. */
  function BridgeName(address: string, port: int): string {
    address + ":" + (if port < 0 then "-" + Digits(-port) else Digits(port))
  }

  /** A call of `gatewayBridgeEndpointUpdate`: the endpoint as given, the service definition found for
      it, and the port each listener ends up with (the given one, or a free one in its place, if one
      can be had). */
  datatype Request = Request(
    add: bool,
    egress: bool,
    host: string,
    loopback: bool,
    ports: seq<int>,
    address: string,
    servicePorts: seq<int>,
    protocol: Protocol,
    aggregate: string,
    eventChannel: bool,
    listen: seq<Option<int>>)
  {
    /** The source reads a service port, and picks a listening port, for every port given. */
    ghost predicate Answerable() {
      add && !egress ==> |ports| <= |servicePorts| && |listen| == |ports|
    }

    predicate Mismatched() {
      add && egress && |servicePorts| != |ports|
    }

    /** The first `n` listeners have got a port. */
    predicate Picked(n: nat)
      requires n <= |ports|
    {
      egress || (n <= |listen| && forall i | 0 <= i < n :: listen[i].Some?)
    }

    predicate Refused() {
      Mismatched() || (add && !Picked(|ports|))
    }

    function Count(): nat {
      if add then |ports| else |servicePorts|
    }
  }

  function NewEndpoint(r: Request, i: nat, routerId: string): Endpoint
    requires r.Answerable() && !r.Mismatched() && r.add && i < |r.ports| && r.Picked(i + 1)
  {
    var name := BridgeName(r.address, r.servicePorts[i]);
    var version := if r.protocol == Http2 then Version2 else Version1;
    if r.egress then
      Endpoint(name, r.host, Itoa(r.ports[i]), name, routerId,
               if r.protocol == Tcp then None else Some(HttpPart(version, "", false)), "")
    else
      Endpoint(name, if r.loopback then "127.0.0.1" else "", Itoa(r.listen[i].value), name, routerId,
               if r.protocol == Tcp then None else Some(HttpPart(version, r.aggregate, r.eventChannel)), "")
  }

  /** The edits of the first `n` rounds of the loop on the map they go to. */
  function Edited(m: Bridges, r: Request, n: nat, routerId: string): Bridges
    requires r.Answerable() && !r.Mismatched() && n <= r.Count() && (r.add ==> r.Picked(n))
  {
    if n == 0 then m
    else if r.add then
      var e := NewEndpoint(r, n - 1, routerId);
      Edited(m, r, n - 1, routerId)[e.name := e]
    else Edited(m, r, n - 1, routerId) - {BridgeName(r.address, r.servicePorts[n - 1])}
  }

  /** The configuration written back, or `None` where the call fails and nothing is written. */
  function Update(bc: BridgeConfig, r: Request, routerId: string): Option<BridgeConfig>
    requires r.Answerable()
  {
    if r.Refused() || (r.protocol == Unsupported && r.Count() > 0) then None
    else if r.protocol == Unsupported then Some(bc)
    else if r.protocol == Tcp then
      Some(if r.egress then bc.(tcpConnectors := Edited(bc.tcpConnectors, r, r.Count(), routerId))
           else bc.(tcpListeners := Edited(bc.tcpListeners, r, r.Count(), routerId)))
    else
      Some(if r.egress then bc.(httpConnectors := Edited(bc.httpConnectors, r, r.Count(), routerId))
           else bc.(httpListeners := Edited(bc.httpListeners, r, r.Count(), routerId)))
  }

  method EditMap(m0: Bridges, r: Request, routerId: string) returns (m: Option<Bridges>)
    requires r.Answerable() && !r.Mismatched()
    ensures m == if r.Refused() then None else Some(Edited(m0, r, r.Count(), routerId))
  {
    var edited := m0;
    for i := 0 to r.Count()
      invariant (r.add ==> r.Picked(i)) && edited == Edited(m0, r, i, routerId)
    {
      if r.add {
        if !r.egress && r.listen[i].None? {
          return None;
        }
        var e := NewEndpoint(r, i, routerId);
        edited := edited[e.name := e];
      } else {
        edited := edited - {BridgeName(r.address, r.servicePorts[i])};
      }
    }
    return Some(edited);
  }

  /** The map edits of `gatewayBridgeEndpointUpdate`. */
  method GatewayBridgeEndpointUpdate(bc: BridgeConfig, r: Request, routerId: string)
      returns (written: Option<BridgeConfig>)
    requires r.Answerable()
    ensures written == Update(bc, r, routerId)
  {
    if r.add && r.egress && |r.servicePorts| != |r.ports| {
      return None;
    }
    match r.protocol {
      case Tcp =>
        if r.egress {
          var m := EditMap(bc.tcpConnectors, r, routerId);
          return if m.None? then None else Some(bc.(tcpConnectors := m.value));
        } else {
          var m := EditMap(bc.tcpListeners, r, routerId);
          return if m.None? then None else Some(bc.(tcpListeners := m.value));
        }
      case Unsupported =>
        return if r.Count() > 0 then None else Some(bc);
      case _ =>
        if r.egress {
          var m := EditMap(bc.httpConnectors, r, routerId);
          return if m.None? then None else Some(bc.(httpConnectors := m.value));
        } else {
          var m := EditMap(bc.httpListeners, r, routerId);
          return if m.None? then None else Some(bc.(httpListeners := m.value));
        }
    }
  }

  lemma {:induction false} EditedStaysPlain(m: Bridges, r: Request, n: nat, routerId: string)
    requires r.Answerable() && !r.Mismatched() && n <= r.Count() && (r.add ==> r.Picked(n)) && r.protocol != Unsupported
    requires AllPlain(m) && AllOf(m, r.protocol != Tcp)
    ensures AllPlain(Edited(m, r, n, routerId)) && AllOf(Edited(m, r, n, routerId), r.protocol != Tcp)
  {
    if n > 0 {
      EditedStaysPlain(m, r, n - 1, routerId);
      if r.add {
        var e := NewEndpoint(r, n - 1, routerId);
        assert Plain(e.name, e);
      }
    }
  }

  lemma UpdateStaysPlain(bc: BridgeConfig, r: Request, routerId: string)
    requires r.Answerable() && bc.Typed() && PlainConfig(bc) && Update(bc, r, routerId).Some?
    ensures var bc' := Update(bc, r, routerId).value; bc'.Typed() && PlainConfig(bc')
  {
    if r.protocol == Tcp {
      EditedStaysPlain(if r.egress then bc.tcpConnectors else bc.tcpListeners, r, r.Count(), routerId);
    } else if r.protocol != Unsupported {
      EditedStaysPlain(if r.egress then bc.httpConnectors else bc.httpListeners, r, r.Count(), routerId);
    }
  }

  /** Any calls of bind, unbind, forward and unforward, one after another; those that fail change
      nothing. */
  function UpdateAll(bc: BridgeConfig, rs: seq<Request>, routerId: string): BridgeConfig
    requires forall r <- rs :: r.Answerable()
    decreases rs
  {
    if rs == [] then bc
    else
      var next := Update(bc, rs[0], routerId);
      UpdateAll(if next.Some? then next.value else bc, rs[1..], routerId)
  }

  lemma {:induction false} UpdateAllStaysPlain(bc: BridgeConfig, rs: seq<Request>, routerId: string)
    requires (forall r <- rs :: r.Answerable()) && bc.Typed() && PlainConfig(bc)
    ensures var bc' := UpdateAll(bc, rs, routerId); bc'.Typed() && PlainConfig(bc')
    decreases rs
  {
    if rs != [] {
      var next := Update(bc, rs[0], routerId);
      if next.Some? {
        UpdateStaysPlain(bc, rs[0], routerId);
      }
      UpdateAllStaysPlain(if next.Some? then next.value else bc, rs[1..], routerId);
    }
  }

  /** Whatever was bound, unbound, forwarded and unforwarded on a gateway, exporting its configuration
      and importing it elsewhere gives the same bridges, up to the site ID. */
  lemma ReachableRoundTrip(rs: seq<Request>, routerId: string, o: Orders, siteId: string)
    requires forall r <- rs :: r.Answerable()
    requires o.Of(UpdateAll(EMPTY, rs, routerId))
    ensures var bc := UpdateAll(EMPTY, rs, routerId);
            && Indexable(Export(bc, o).forwards, Listeners)
            && Import(Export(bc, o), siteId) == MovedConfig(bc, siteId)
  {
    UpdateAllStaysPlain(EMPTY, rs, routerId);
    RoundTripExactlyWhen(UpdateAll(EMPTY, rs, routerId), o, siteId);
  }
}
