/** Links in the router configuration: client/connector_create.go, client/connector_remove.go and
    cmd/service-controller/token_handler.go over the maps of pkg/qdr/qdr.go. */
module Links {
  import opened Prelude

  datatype Role = InterRouter | Edge

  datatype Connector = Connector(name: string, role: Role, host: string, port: string, cost: int,
                                 maxFrameSize: int, maxSessionFrames: int, sslProfile: string)

  datatype SslProfile = SslProfile(name: string, certFile: string, privateKeyFile: string, caCertFile: string)

  datatype Config = Config(edge: bool, connectors: map<string, Connector>, sslProfiles: map<string, SslProfile>)

  datatype Site = Site(id: string, maxFrameSize: int, maxSessionFrames: int)

  /** A secret that holds a token; an annotation it does not have reads as the empty text. */
  datatype Token = Token(
    name: string,
    certToken: bool,
    clientCert: bool,
    generatedBy: Option<string>,
    cost: Option<int>,
    edgeHost: string,
    edgePort: string,
    interRouterHost: string,
    interRouterPort: string)

  const SUFFIX := "-profile"

  function ProfileOf(link: string): string {
    link + SUFFIX
  }

  predicate IsLinkProfile(profile: string) {
    |profile| >= |SUFFIX| && profile[|profile| - |SUFFIX|..] == SUFFIX
  }

  function OwnerOf(profile: string): string
    requires IsLinkProfile(profile)
  {
    profile[..|profile| - |SUFFIX|]
  }

  lemma OwnerOfProfile(link: string)
    ensures IsLinkProfile(ProfileOf(link)) && OwnerOf(ProfileOf(link)) == link && ProfileOf(link) != ""
  {
  }

  lemma ProfileOfOwner(profile: string)
    requires IsLinkProfile(profile)
    ensures ProfileOf(OwnerOf(profile)) == profile
  {
  }

  // ---- One step ------------------------------------------------------------------------------

  function CertPath(profile: string, file: string): string {
    "/etc/skupper-router-certs/" + profile + file
  }

  /** A token without a client certificate gets a profile that only trusts an authority. */
  function NewProfile(token: Token, name: string): SslProfile {
    if token.certToken && !token.clientCert then SslProfile(name, "", "", CertPath(name, "/ca.crt"))
    else SslProfile(name, CertPath(name, "/tls.crt"), CertPath(name, "/tls.key"), CertPath(name, "/ca.crt"))
  }

  function NewConnector(edge: bool, site: Site, token: Token): Connector {
    var cost := if token.cost.Some? then token.cost.value else 0;
    if edge then
      Connector(token.name, Edge, token.edgeHost, token.edgePort, cost, site.maxFrameSize, site.maxSessionFrames,
                ProfileOf(token.name))
    else
      Connector(token.name, InterRouter, token.interRouterHost, token.interRouterPort, cost,
                site.maxFrameSize, site.maxSessionFrames, ProfileOf(token.name))
  }

  /** The configuration with the token's link in it. */
  function Connected(c: Config, site: Site, token: Token): Config {
    var profile := ProfileOf(token.name);
    c.(connectors := c.connectors[token.name := NewConnector(c.edge, site, token)],
       sslProfiles := if profile in c.sslProfiles then c.sslProfiles
                      else c.sslProfiles[profile := NewProfile(token, profile)])
  }

  /** The configuration without the link and the profile its connector uses, if it uses one. */
  function Disconnected(c: Config, link: string): Config {
    c.(connectors := c.connectors - {link},
       sslProfiles := if link in c.connectors && c.connectors[link].sslProfile != ""
                      then c.sslProfiles - {c.connectors[link].sslProfile}
                      else c.sslProfiles)
  }

  /** The configuration without the link and the profile named after it. */
  function Removed(c: Config, link: string): Config {
    c.(connectors := c.connectors - {link}, sslProfiles := c.sslProfiles - {ProfileOf(link)})
  }

  predicate SelfGenerated(site: Site, token: Token) {
    token.generatedBy == Some(site.id)
  }

  /** The host that the policy is asked about; without the router's mode, the inter-router one. */
  function PolicyHost(token: Token, edge: bool, inspected: bool): string {
    if inspected && edge then token.edgeHost else token.interRouterHost
  }

  /** What handling the token key `link` makes of the configuration. */
  function Handled(c: Config, site: Site, link: string, token: Option<Token>, disabled: bool): Config {
    if token.None? then Disconnected(c, link)
    else if SelfGenerated(site, token.value) then c
    else if disabled then Disconnected(c, link)
    else Connected(c, site, token.value)
  }

  /** The config map that holds the router configuration; `writes` counts the updates that went through. */
  class RouterConfigMap {
    var config: Config
    var writes: nat

    constructor (c: Config)
      ensures config == c && writes == 0
    {
      config, writes := c, 0;
    }

    /** `accepted` says whether the API server takes the update, should there be one. */
    method Update(c: Config, accepted: bool) returns (ok: bool)
      modifies this
      ensures ok == accepted
      ensures config == (if accepted then c else old(config)) && writes == old(writes) + if accepted then 1 else 0
    {
      if accepted {
        config, writes := c, writes + 1;
      }
      return accepted;
    }

    method ConnectorCreate(site: Site, token: Token, accepted: bool) returns (ok: bool)
      modifies this
      ensures var wanted := Connected(old(config), site, token);
              && (ok <==> accepted || wanted == old(config))
              && config == (if ok then wanted else old(config))
              && writes == old(writes) + if config != old(config) then 1 else 0
    {
      var connectors, sslProfiles, updated := config.connectors, config.sslProfiles, false;
      var profileName := ProfileOf(token.name);
      if profileName !in sslProfiles {
        sslProfiles := sslProfiles[profileName := NewProfile(token, profileName)];
        updated := true;
      }
      var connector := NewConnector(config.edge, site, token);
      if connector.name in connectors {
        if connectors[connector.name] != connector {
          connectors := connectors[connector.name := connector];
          updated := true;
        }
      } else {
        connectors := connectors[connector.name := connector];
        updated := true;
      }
      assert connectors == config.connectors[token.name := connector];
      if updated {
        assert profileName !in config.sslProfiles || token.name !in config.connectors
            || config.connectors[token.name] != connector;
        ok := Update(config.(connectors := connectors, sslProfiles := sslProfiles), accepted);
      } else {
        ok := true;
      }
    }

    method RemoveConnectorRouterConfig(link: string, accepted: bool) returns (ok: bool)
      modifies this
      ensures ok == accepted && config == if ok then Removed(old(config), link) else old(config)
    {
      var connectors := config.connectors - {link};
      var sslProfiles := config.sslProfiles - {ProfileOf(link)};
      ok := Update(config.(connectors := connectors, sslProfiles := sslProfiles), accepted);
    }

    method RemoveConnectorFromConfig(link: string, accepted: bool) returns (ok: bool)
      modifies this
      ensures var wanted := Disconnected(old(config), link);
              && (ok <==> accepted || wanted == old(config))
              && config == (if ok then wanted else old(config))
              && writes == old(writes) + if config != old(config) then 1 else 0
    {
      var connectors, sslProfiles := config.connectors, config.sslProfiles;
      var updated, profile := false, "";
      if link in connectors {
        profile := connectors[link].sslProfile;
        connectors := connectors - {link};
        updated := true;
      }
      if profile != "" && profile in sslProfiles {
        sslProfiles := sslProfiles - {profile};
        updated := true;
      }
      assert connectors == config.connectors - {link};
      if updated {
        assert link in config.connectors && link !in connectors;
        ok := Update(config.(connectors := connectors, sslProfiles := sslProfiles), accepted);
      } else {
        ok := true;
      }
    }

    /** `allowed` is the policy's answer for a host. */
    method Handle(site: Site, link: string, token: Option<Token>, inspected: bool, allowed: string -> bool,
                  accepted: bool) returns (ok: bool)
      modifies this
      ensures var disabled := token.Some? && !allowed(PolicyHost(token.value, old(config).edge, inspected));
              var wanted := Handled(old(config), site, link, token, disabled);
              && (ok <==> accepted || wanted == old(config))
              && config == Next(old(config), site, HandleKey(link, token, disabled, ok))
              && writes == old(writes) + if config != old(config) then 1 else 0
    {
      if token.Some? {
        if token.value.generatedBy != Some(site.id) {
          var host := token.value.interRouterHost;
          if inspected && config.edge {
            host := token.value.edgeHost;
          }
          if !allowed(host) {
            ok := RemoveConnectorFromConfig(link, accepted);
          } else {
            ok := ConnectorCreate(site, token.value, accepted);
          }
        } else {
          ok := true;
        }
      } else {
        ok := RemoveConnectorFromConfig(link, accepted);
      }
    }
  }

  // ---- Any run -------------------------------------------------------------------------------

  /** A token key handled, with the token it stood for at that time, or a link removed by the user;
      an update that is not accepted leaves the configuration as it was. */
  datatype Event =
    | HandleKey(link: string, token: Option<Token>, disabled: bool, accepted: bool)
    | RemoveLink(link: string, accepted: bool)
  {
    /** A key names its token. */
    predicate Proper() {
      HandleKey? && token.Some? ==> token.value.name == link
    }
  }

  function Next(c: Config, site: Site, e: Event): Config {
    if !e.accepted then c
    else if e.RemoveLink? then Removed(c, e.link)
    else Handled(c, site, e.link, e.token, e.disabled)
  }

  function Run(c: Config, site: Site, events: seq<Event>): Config {
    if events == [] then c else Next(Run(c, site, events[..|events| - 1]), site, events[|events| - 1])
  }

  ghost predicate AllProper(events: seq<Event>) {
    forall i | 0 <= i < |events| :: events[i].Proper()
  }

  /** Each link has its own profile, and each link profile its link. */
  ghost predicate Paired(c: Config) {
    && (forall n <- c.connectors ::
        c.connectors[n].name == n && c.connectors[n].sslProfile == ProfileOf(n) && ProfileOf(n) in c.sslProfiles)
    && (forall p <- c.sslProfiles :: IsLinkProfile(p) ==> OwnerOf(p) in c.connectors)
  }

  lemma ConnectedKeepsPaired(c: Config, site: Site, token: Token)
    requires Paired(c)
    ensures Paired(Connected(c, site, token))
  {
    OwnerOfProfile(token.name);
    var c' := Connected(c, site, token);
    forall p <- c'.sslProfiles ensures IsLinkProfile(p) ==> OwnerOf(p) in c'.connectors {
      if p !in c.sslProfiles {
        assert p == ProfileOf(token.name);
      }
    }
  }

  lemma RemovedKeepsPaired(c: Config, link: string)
    requires Paired(c)
    ensures Paired(Removed(c, link)) && Disconnected(c, link) == Removed(c, link)
  {
    OwnerOfProfile(link);
    var c' := Removed(c, link);
    forall n <- c'.connectors ensures ProfileOf(n) in c'.sslProfiles {
      OwnerOfProfile(n);
    }
    forall p <- c'.sslProfiles ensures IsLinkProfile(p) ==> OwnerOf(p) in c'.connectors {
      if IsLinkProfile(p) {
        ProfileOfOwner(p);
      }
    }
    if link !in c.connectors {
      assert ProfileOf(link) !in c.sslProfiles;
      assert c.sslProfiles - {ProfileOf(link)} == c.sslProfiles;
    }
  }

  lemma NextKeepsPaired(c: Config, site: Site, e: Event)
    requires Paired(c) && e.Proper()
    ensures Paired(Next(c, site, e))
  {
    RemovedKeepsPaired(c, e.link);
    if e.HandleKey? && e.token.Some? {
      ConnectedKeepsPaired(c, site, e.token.value);
    }
  }

  /** In every run each link keeps its own profile and no link profile is orphaned. */
  lemma {:induction false} RunKeepsPaired(c: Config, site: Site, events: seq<Event>)
    requires Paired(c) && AllProper(events)
    ensures Paired(Run(c, site, events))
  {
    if events != [] {
      RunKeepsPaired(c, site, events[..|events| - 1]);
      NextKeepsPaired(Run(c, site, events[..|events| - 1]), site, events[|events| - 1]);
    }
  }

  /** Handling the same key with the same token again changes nothing, and so writes nothing. */
  lemma HandlingAgainChangesNothing(c: Config, site: Site, link: string, token: Option<Token>, disabled: bool)
    requires token.Some? ==> token.value.name == link
    ensures var c' := Handled(c, site, link, token, disabled); Handled(c', site, link, token, disabled) == c'
  {
    var c' := Handled(c, site, link, token, disabled);
    if token.Some? && !SelfGenerated(site, token.value) && !disabled {
      assert c'.connectors[link := NewConnector(c.edge, site, token.value)] == c'.connectors;
    } else if token.None? || (disabled && !SelfGenerated(site, token.value)) {
      assert c'.connectors - {link} == c'.connectors;
    }
  }

  // ---- Settling ------------------------------------------------------------------------------

  function Lookup<V>(m: map<string, V>, k: string): Option<V> {
    if k in m then Some(m[k]) else None
  }

  predicate Wanted(site: Site, edge: bool, allowed: string -> bool, token: Token) {
    !SelfGenerated(site, token) && allowed(PolicyHost(token, edge, true))
  }

  /** The events all see these tokens and this policy. */
  ghost predicate Sees(events: seq<Event>, edge: bool, tokens: map<string, Token>, allowed: string -> bool) {
    forall i | 0 <= i < |events| ::
      && events[i].HandleKey? && events[i].token == Lookup(tokens, events[i].link)
      && (events[i].token.Some? ==> events[i].disabled == !allowed(PolicyHost(events[i].token.value, edge, true)))
  }

  /** The key has been handled and its update, if any, accepted. */
  ghost predicate Done(events: seq<Event>, link: string) {
    exists i :: 0 <= i < |events| && events[i].link == link && events[i].accepted
  }

  /** What handling leaves under a name that held `before`. */
  function Goal(site: Site, edge: bool, tokens: map<string, Token>, allowed: string -> bool, link: string,
                before: Option<Connector>): Option<Connector>
  {
    if link !in tokens then None
    else if SelfGenerated(site, tokens[link]) then before
    else if allowed(PolicyHost(tokens[link], edge, true)) then Some(NewConnector(edge, site, tokens[link]))
    else None
  }

  ghost predicate Named(tokens: map<string, Token>) {
    forall n <- tokens :: tokens[n].name == n
  }

  lemma NextAt(c: Config, site: Site, tokens: map<string, Token>, allowed: string -> bool, e: Event, link: string)
    requires Named(tokens) && Sees([e], c.edge, tokens, allowed)
    ensures Next(c, site, e).edge == c.edge
    ensures Lookup(Next(c, site, e).connectors, link) ==
            if e.accepted && e.link == link then Goal(site, c.edge, tokens, allowed, link, Lookup(c.connectors, link))
            else Lookup(c.connectors, link)
  {
    assert [e][0] == e;
  }

  lemma DoneMore(init: seq<Event>, e: Event, link: string)
    ensures Done(init + [e], link) <==> Done(init, link) || (e.accepted && e.link == link)
  {
    var events := init + [e];
    if i :| 0 <= i < |init| && init[i].link == link && init[i].accepted {
      assert events[i] == init[i];
    } else if e.accepted && e.link == link {
      assert events[|init|] == e;
    } else {
      assert forall i | 0 <= i < |init| :: events[i] == init[i];
    }
  }

  lemma {:induction false} RunAt(c: Config, site: Site, tokens: map<string, Token>, allowed: string -> bool,
                                 events: seq<Event>, link: string)
    requires Named(tokens) && Sees(events, c.edge, tokens, allowed)
    ensures Run(c, site, events).edge == c.edge
    ensures Lookup(Run(c, site, events).connectors, link) ==
            if Done(events, link) then Goal(site, c.edge, tokens, allowed, link, Lookup(c.connectors, link))
            else Lookup(c.connectors, link)
  {
    if events != [] {
      var n := |events| - 1;
      var init, e := events[..n], events[n];
      RunAt(c, site, tokens, allowed, init, link);
      NextAt(Run(c, site, init), site, tokens, allowed, e, link);
      DoneMore(init, e, link);
      assert events == init + [e];
    }
  }

  /** The names under which connectors remain: the wanted tokens, and the tokens of this site that
      had one to begin with. */
  ghost function Remaining(c: Config, site: Site, tokens: map<string, Token>, allowed: string -> bool): set<string> {
    set n | n in tokens
        && (Wanted(site, c.edge, allowed, tokens[n]) || (SelfGenerated(site, tokens[n]) && n in c.connectors))
  }

  ghost predicate AllDone(c: Config, tokens: map<string, Token>, events: seq<Event>) {
    forall n | n in tokens || n in c.connectors :: Done(events, n)
  }

  /** What remains under a token's name. */
  function Final(c: Config, site: Site, token: Token): Connector {
    if SelfGenerated(site, token) && token.name in c.connectors then c.connectors[token.name]
    else NewConnector(c.edge, site, token)
  }

  lemma SettledAt(c: Config, site: Site, tokens: map<string, Token>, allowed: string -> bool, events: seq<Event>,
                  n: string)
    requires Named(tokens) && Sees(events, c.edge, tokens, allowed) && AllDone(c, tokens, events)
    ensures var c' := Run(c, site, events);
            && (n in c'.connectors <==> n in Remaining(c, site, tokens, allowed))
            && (n in c'.connectors ==> n in tokens && c'.connectors[n] == Final(c, site, tokens[n]))
  {
    RunAt(c, site, tokens, allowed, events, n);
  }

  /** Once every key of a token or a connector has been handled, whatever the order, the repetitions
      and the refused updates, the connectors are those of the wanted tokens, each as its token says,
      plus what this site's own tokens had before; and the link profiles are theirs. */
  lemma HandledKeysSettle(c: Config, site: Site, tokens: map<string, Token>, allowed: string -> bool,
                          events: seq<Event>)
    requires Paired(c) && Named(tokens) && Sees(events, c.edge, tokens, allowed) && AllDone(c, tokens, events)
    ensures var c' := Run(c, site, events);
            && c'.connectors.Keys == Remaining(c, site, tokens, allowed)
            && (forall n <- c'.connectors :: n in tokens && c'.connectors[n] == Final(c, site, tokens[n]))
            && (forall p: string | IsLinkProfile(p) :: p in c'.sslProfiles <==> OwnerOf(p) in c'.connectors)
  {
    var c' := Run(c, site, events);
    assert c'.connectors.Keys == Remaining(c, site, tokens, allowed) by {
      forall n ensures n in c'.connectors <==> n in Remaining(c, site, tokens, allowed) {
        SettledAt(c, site, tokens, allowed, events, n);
      }
    }
    forall n <- c'.connectors ensures n in tokens && c'.connectors[n] == Final(c, site, tokens[n]) {
      SettledAt(c, site, tokens, allowed, events, n);
    }
    RunKeepsPaired(c, site, events);
    forall p: string | IsLinkProfile(p) ensures p in c'.sslProfiles <==> OwnerOf(p) in c'.connectors {
      ProfileOfOwner(p);
    }
  }

  /** So the connectors are exactly the tokens that are neither this site's own nor disabled, exactly
      when no token of this site had a connector. */
  lemma ExactlyTheWantedTokensWhen(c: Config, site: Site, tokens: map<string, Token>, allowed: string -> bool,
                                   events: seq<Event>)
    requires Paired(c) && Named(tokens) && Sees(events, c.edge, tokens, allowed) && AllDone(c, tokens, events)
    ensures Run(c, site, events).connectors.Keys == (set n | n in tokens && Wanted(site, c.edge, allowed, tokens[n]))
            <==> forall n | n in tokens && n in c.connectors :: !SelfGenerated(site, tokens[n])
  {
    HandledKeysSettle(c, site, tokens, allowed, events);
    RemainingIsWantedExactlyWhen(c, site, tokens, allowed);
  }

  lemma RemainingIsWantedExactlyWhen(c: Config, site: Site, tokens: map<string, Token>, allowed: string -> bool)
    ensures Remaining(c, site, tokens, allowed) == (set n | n in tokens && Wanted(site, c.edge, allowed, tokens[n]))
            <==> forall n | n in tokens && n in c.connectors :: !SelfGenerated(site, tokens[n])
  {
    var wanted := set n | n in tokens && Wanted(site, c.edge, allowed, tokens[n]);
    if n :| n in tokens && n in c.connectors && SelfGenerated(site, tokens[n]) {
      assert n in Remaining(c, site, tokens, allowed) && n !in wanted;
    } else {
      assert Remaining(c, site, tokens, allowed) == wanted;
    }
  }

  // ---- Profiles ------------------------------------------------------------------------------

  lemma ProfileAt(c: Config, site: Site, tokens: map<string, Token>, allowed: string -> bool, e: Event, link: string)
    requires Paired(c) && Named(tokens) && Sees([e], c.edge, tokens, allowed)
    requires link in tokens && Wanted(site, c.edge, allowed, tokens[link])
    ensures var p := ProfileOf(link);
            Lookup(Next(c, site, e).sslProfiles, p) ==
              if p !in c.sslProfiles && e.accepted && e.link == link then Some(NewProfile(tokens[link], p))
              else Lookup(c.sslProfiles, p)
  {
    assert [e][0] == e;
    OwnerOfProfile(link);
    OwnerOfProfile(e.link);
  }

  /** The link of a wanted token keeps the profile it has, and gets that of its token only where it has
      none. */
  lemma {:induction false} RunProfileAt(c: Config, site: Site, tokens: map<string, Token>, allowed: string -> bool,
                                        events: seq<Event>, link: string)
    requires Paired(c) && Named(tokens) && Sees(events, c.edge, tokens, allowed)
    requires link in tokens && Wanted(site, c.edge, allowed, tokens[link])
    ensures var p := ProfileOf(link);
            Lookup(Run(c, site, events).sslProfiles, p) ==
              if p !in c.sslProfiles && Done(events, link) then Some(NewProfile(tokens[link], p))
              else Lookup(c.sslProfiles, p)
  {
    if events != [] {
      var n := |events| - 1;
      var init, e := events[..n], events[n];
      RunProfileAt(c, site, tokens, allowed, init, link);
      RunKeepsPaired(c, site, init);
      RunAt(c, site, tokens, allowed, init, link);
      ProfileAt(Run(c, site, init), site, tokens, allowed, e, link);
      DoneMore(init, e, link);
      assert events == init + [e];
    }
  }

  /** Once every key has been handled, a wanted token's profile is the one it calls for if and only if
      its link was not there before, or had that profile already: a token that comes with a client
      certificate, or without one, after the link was made does not change the profile. */
  lemma ProfileIsTheTokensExactlyWhen(c: Config, site: Site, tokens: map<string, Token>, allowed: string -> bool,
                                      events: seq<Event>, link: string)
    requires Paired(c) && Named(tokens) && Sees(events, c.edge, tokens, allowed) && AllDone(c, tokens, events)
    requires link in tokens && Wanted(site, c.edge, allowed, tokens[link])
    ensures var p := ProfileOf(link);
            var wanted := Some(NewProfile(tokens[link], p));
            Lookup(Run(c, site, events).sslProfiles, p) == wanted <==>
                link !in c.connectors || Lookup(c.sslProfiles, p) == wanted
  {
    OwnerOfProfile(link);
    RunProfileAt(c, site, tokens, allowed, events, link);
  }

  // ---- Where a link goes ---------------------------------------------------------------------

  /** The connector is that of its token: on an edge router it goes to the edge host and port of the token,
      on another to its inter-router host and port; at the token's cost, or 0, with the site's frame
      settings and the profile named after the link. */
  ghost predicate IsConnector(x: Connector, edge: bool, site: Site, token: Token) {
    && x.name == token.name && x.sslProfile == token.name + "-profile"
    && (edge ==> x.role == Edge && x.host == token.edgeHost && x.port == token.edgePort)
    && (!edge ==> x.role == InterRouter && x.host == token.interRouterHost && x.port == token.interRouterPort)
    && (token.cost.Some? ==> x.cost == token.cost.value) && (token.cost.None? ==> x.cost == 0)
    && x.maxFrameSize == site.maxFrameSize && x.maxSessionFrames == site.maxSessionFrames
  }

  lemma NewConnectorIsTheTokens(edge: bool, site: Site, token: Token)
    ensures IsConnector(NewConnector(edge, site, token), edge, site, token)
  {
  }

  /** A token calls for a link if it was not made by this site and the policy allows the host that this
      kind of router is to go to. */
  lemma WantedExactlyWhen(site: Site, edge: bool, allowed: string -> bool, token: Token)
    ensures Wanted(site, edge, allowed, token) <==>
              token.generatedBy != Some(site.id) && allowed(if edge then token.edgeHost else token.interRouterHost)
    ensures SelfGenerated(site, token) <==> token.generatedBy == Some(site.id)
  {
  }

  /** Once every key has been handled, each link that is not of this site's own tokens goes where its token
      says, and to a host that the policy allows. */
  lemma SettledLinksAreAllowed(c: Config, site: Site, tokens: map<string, Token>, allowed: string -> bool,
                               events: seq<Event>, n: string)
    requires Paired(c) && Named(tokens) && Sees(events, c.edge, tokens, allowed) && AllDone(c, tokens, events)
    requires n in Run(c, site, events).connectors
    ensures n in tokens
    ensures tokens[n].generatedBy != Some(site.id) ==>
              var x := Run(c, site, events).connectors[n];
              IsConnector(x, c.edge, site, tokens[n]) && allowed(x.host)
  {
    SettledAt(c, site, tokens, allowed, events, n);
    NewConnectorIsTheTokens(c.edge, site, tokens[n]);
  }

  /** Handling a token whose policy answer is yes makes a link to an allowed host, unless the router is an
      edge, its mode could not be inspected and the edge host is not allowed: the policy was then asked
      about the inter-router host. */
  lemma HandledLinkIsAllowedExactlyWhen(c: Config, site: Site, token: Token, inspected: bool, allowed: string -> bool)
    requires !SelfGenerated(site, token) && allowed(PolicyHost(token, c.edge, inspected))
    ensures var c' := Handled(c, site, token.name, Some(token), false);
            && token.name in c'.connectors && IsConnector(c'.connectors[token.name], c.edge, site, token)
            && (allowed(c'.connectors[token.name].host) <==> inspected || !c.edge || allowed(token.edgeHost))
  {
    NewConnectorIsTheTokens(c.edge, site, token);
  }

  /** The files of the profile made for a token: an authority to trust, and a certificate and key unless
      the token comes without a client certificate. */
  lemma NewProfileTells(token: Token, name: string)
    ensures var p, dir := NewProfile(token, name), "/etc/skupper-router-certs/" + name;
            && p.name == name && p.caCertFile == dir + "/ca.crt"
            && if token.certToken && !token.clientCert then p.certFile == "" && p.privateKeyFile == ""
               else p.certFile == dir + "/tls.crt" && p.privateKeyFile == dir + "/tls.key"
  {
  }
}
