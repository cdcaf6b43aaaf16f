/** The network of sites as the quotient of the network of routers, cmd/service-controller/console_server.go. */
module Sites {
  import opened Prelude

  datatype SiteInfo = SiteInfo(id: string, version: string, platform: string)

  datatype Router = Router(id: string, site: SiteInfo, edge: bool, connectedTo: seq<string>) {
    predicate IsGateway() {
      "skupper-gateway-" <= id
    }
  }

  datatype Site = Site(siteId: string, version: string, platform: string, edge: bool, connected: seq<string>)

  // ---- What the list should hold -------------------------------------------------------------

  /** The site of each router id; of several routers with one id the last counts. */
  function Resolution(routers: seq<Router>): map<string, string> {
    if routers == [] then map[]
    else
      var r := routers[|routers| - 1];
      Resolution(routers[..|routers| - 1])[r.id := r.site.id]
  }

  /** Looking up an id that no router has gives the empty text. */
  function Resolve(resolution: map<string, string>, id: string): string {
    if id in resolution then resolution[id] else ""
  }

  /** Some router of the first `n` in site `a` is connected to a router of site `b`. */
  ghost predicate LinkedIn(routers: seq<Router>, n: nat, resolution: map<string, string>, a: string, b: string)
    requires n <= |routers|
  {
    exists i :: 0 <= i < n && routers[i].site.id == a && Reaches(routers[i], resolution, b)
  }

  ghost predicate Reaches(router: Router, resolution: map<string, string>, b: string) {
    exists k :: 0 <= k < |router.connectedTo| && Resolve(resolution, router.connectedTo[k]) == b
  }

  ghost predicate Linked(routers: seq<Router>, a: string, b: string) {
    LinkedIn(routers, |routers|, Resolution(routers), a, b)
  }

  /** Router `k` is the first of its site that is not a gateway. */
  ghost predicate Founds(routers: seq<Router>, k: nat) {
    && k < |routers| && !routers[k].IsGateway()
    && forall j | 0 <= j < k :: routers[j].site.id == routers[k].site.id ==> routers[j].IsGateway()
  }

  ghost predicate HasSite(routers: seq<Router>, a: string) {
    exists k :: 0 <= k < |routers| && routers[k].site.id == a && !routers[k].IsGateway()
  }

  function NewSite(r: Router): Site {
    Site(r.site.id, r.site.version, r.site.platform, r.edge && Contains(r.id, "skupper-router"), [])
  }

  ghost predicate DistinctIds(list: seq<Site>) {
    forall i, j | 0 <= i < j < |list| :: list[i].siteId != list[j].siteId
  }

  /** The list entry is that of the site, as its first router describes it, with its links. */
  ghost predicate Describes(routers: seq<Router>, s: Site) {
    && (exists k: nat :: Founds(routers, k) && s == NewSite(routers[k]).(connected := s.connected))
    && NoDup(s.connected)
    && forall b :: b in s.connected <==> b != s.siteId && Linked(routers, s.siteId, b)
  }

  ghost predicate IsSiteList(routers: seq<Router>, list: seq<Site>) {
    && DistinctIds(list)
    && AllDescribed(routers, list)
    && (forall a :: HasSite(routers, a) ==> exists i :: 0 <= i < |list| && list[i].siteId == a)
  }

  // ---- The loops -----------------------------------------------------------------------------

  type Connections = map<string, set<string>>

  ghost predicate Has(m: Connections, a: string, b: string) {
    a in m && b in m[a]
  }

  function Set(m: Connections, k1: string, k2: string): (m': Connections)
    ensures forall a, b :: Has(m', a, b) <==> Has(m, a, b) || (a == k1 && b == k2)
  {
    m[k1 := (if k1 in m then m[k1] else {}) + {k2}]
  }

  method AddConnections(m: Connections, router: Router, resolution: map<string, string>) returns (m': Connections)
    ensures forall a, b :: Has(m', a, b) <==> Has(m, a, b) || (a == router.site.id && Reaches(router, resolution, b))
  {
    m' := m;
    for k := 0 to |router.connectedTo|
      invariant forall a, b :: Has(m', a, b) <==>
        Has(m, a, b)
        || (a == router.site.id && exists j :: 0 <= j < k && Resolve(resolution, router.connectedTo[j]) == b)
    {
      m' := Set(m', router.site.id, Resolve(resolution, router.connectedTo[k]));
    }
  }

  /** The connections of all routers. */
  ghost predicate Collects(routers: seq<Router>, resolution: map<string, string>, m: Connections) {
    forall a, b :: Has(m, a, b) <==> LinkedIn(routers, |routers|, resolution, a, b)
  }

  method AllConnections(routers: seq<Router>, resolution: map<string, string>) returns (m: Connections)
    ensures Collects(routers, resolution, m)
  {
    m := map[];
    for i := 0 to |routers|
      invariant forall a, b :: Has(m, a, b) <==> LinkedIn(routers, i, resolution, a, b)
    {
      var m' := AddConnections(m, routers[i], resolution);
      forall a, b ensures Has(m', a, b) <==> LinkedIn(routers, i + 1, resolution, a, b) {
        LinkedMore(routers, i, resolution, a, b);
      }
      m := m';
    }
  }

  lemma LinkedMore(routers: seq<Router>, n: nat, resolution: map<string, string>, a: string, b: string)
    requires n < |routers|
    ensures LinkedIn(routers, n + 1, resolution, a, b) <==>
            LinkedIn(routers, n, resolution, a, b) || (a == routers[n].site.id && Reaches(routers[n], resolution, b))
  {
    if LinkedIn(routers, n + 1, resolution, a, b) && !(a == routers[n].site.id && Reaches(routers[n], resolution, b)) {
      var i :| 0 <= i < n + 1 && routers[i].site.id == a && Reaches(routers[i], resolution, b);
      assert i < n;
    }
  }

  /** The sites found among the first `n` routers. */
  ghost predicate Found(routers: seq<Router>, n: nat, sites: map<string, Site>)
    requires n <= |routers|
  {
    && (forall a <- sites :: exists k ::
        0 <= k < n && Founds(routers, k) && routers[k].site.id == a && sites[a] == NewSite(routers[k]))
    && (forall k | 0 <= k < n :: !routers[k].IsGateway() ==> routers[k].site.id in sites)
  }

  method FindSites(routers: seq<Router>) returns (sites: map<string, Site>, routerToSite: map<string, string>)
    ensures Found(routers, |routers|, sites) && routerToSite == Resolution(routers)
  {
    sites, routerToSite := map[], map[];
    for i := 0 to |routers|
      invariant Found(routers, i, sites) && routerToSite == Resolution(routers[..i])
    {
      var r := routers[i];
      assert routers[..i + 1][..i] == routers[..i];
      routerToSite := routerToSite[r.id := r.site.id];
      if r.site.id !in sites && !r.IsGateway() {
        assert Founds(routers, i);
        FoundOneMore(routers, i, sites);
        sites := sites[r.site.id := NewSite(r)];
      }
    }
    assert routers[..|routers|] == routers;
  }

  lemma FoundOneMore(routers: seq<Router>, i: nat, sites: map<string, Site>)
    requires i < |routers| && Found(routers, i, sites) && Founds(routers, i) && routers[i].site.id !in sites
    ensures Found(routers, i + 1, sites[routers[i].site.id := NewSite(routers[i])])
  {
    var more := sites[routers[i].site.id := NewSite(routers[i])];
    forall a <- more
      ensures exists k ::
                0 <= k < i + 1 && Founds(routers, k) && routers[k].site.id == a && more[a] == NewSite(routers[k])
    {
      if a in sites {
        var k :| 0 <= k < i && Founds(routers, k) && routers[k].site.id == a && sites[a] == NewSite(routers[k]);
      }
    }
  }

  /** The inner loop over one site's connections, in any order. */
  method Others(m: set<string>, self: string) returns (list: seq<string>)
    ensures NoDup(list) && forall b :: b in list <==> b in m && b != self
  {
    list := [];
    var todo := m;
    while todo != {}
      invariant todo <= m && NoDup(list)
      invariant forall b :: b in list <==> b in m && b !in todo && b != self
      decreases todo
    {
      var key :| key in todo;
      if key != self {
        list := list + [key];
      }
      todo := todo - {key};
    }
  }

  /** The entry for one site. */
  method Describe(routers: seq<Router>, sites: map<string, Site>, siteConnections: Connections, a: string)
      returns (s: Site)
    requires Found(routers, |routers|, sites) && a in sites
    requires Collects(routers, Resolution(routers), siteConnections)
    ensures s.siteId == a && Describes(routers, s)
  {
    var connected := Others(if a in siteConnections then siteConnections[a] else {}, a);
    s := sites[a].(connected := connected);
    ghost var k :| 0 <= k < |routers| && Founds(routers, k) && routers[k].site.id == a
        && sites[a] == NewSite(routers[k]);
    assert s == NewSite(routers[k]).(connected := s.connected);
    forall b ensures b in connected <==> b != a && Linked(routers, a, b) {
      assert Has(siteConnections, a, b) <==> Linked(routers, a, b);
    }
  }

  /** The list has an entry for each of these ids, once. */
  ghost predicate Lists(list: seq<Site>, ids: set<string>) {
    && DistinctIds(list)
    && (forall i | 0 <= i < |list| :: list[i].siteId in ids)
    && (forall a <- ids :: exists i :: 0 <= i < |list| && list[i].siteId == a)
  }

  ghost predicate AllDescribed(routers: seq<Router>, list: seq<Site>) {
    forall i | 0 <= i < |list| :: Describes(routers, list[i])
  }

  method GetAllSites(routers: seq<Router>) returns (list: seq<Site>)
    ensures IsSiteList(routers, list)
  {
    var sites, routerToSite := FindSites(routers);
    var siteConnections := AllConnections(routers, routerToSite);
    list := [];
    var todo := sites.Keys;
    while todo != {}
      invariant todo <= sites.Keys && Lists(list, sites.Keys - todo) && AllDescribed(routers, list)
      decreases todo
    {
      var a :| a in todo;
      var s := Describe(routers, sites, siteConnections, a);
      ListOneMore(list, sites.Keys - todo, s);
      DescribedOneMore(routers, list, s);
      list := list + [s];
      assert sites.Keys - (todo - {a}) == (sites.Keys - todo) + {a};
      todo := todo - {a};
    }
    assert sites.Keys - todo == sites.Keys;
    AllListed(routers, sites, list);
  }

  lemma AllListed(routers: seq<Router>, sites: map<string, Site>, list: seq<Site>)
    requires Found(routers, |routers|, sites) && Lists(list, sites.Keys) && AllDescribed(routers, list)
    ensures IsSiteList(routers, list)
  {
    forall a | HasSite(routers, a) ensures exists i :: 0 <= i < |list| && list[i].siteId == a {
      assert a in sites;
    }
  }

  lemma DescribedOneMore(routers: seq<Router>, list: seq<Site>, s: Site)
    requires AllDescribed(routers, list) && Describes(routers, s)
    ensures AllDescribed(routers, list + [s])
  {
    forall i | 0 <= i < |list + [s]| ensures Describes(routers, (list + [s])[i]) {
      if i < |list| {
        assert (list + [s])[i] == list[i];
      }
    }
  }

  lemma ListOneMore(list: seq<Site>, ids: set<string>, s: Site)
    requires Lists(list, ids) && s.siteId !in ids
    ensures Lists(list + [s], ids + {s.siteId})
  {
    var more := list + [s];
    forall a <- ids + {s.siteId} ensures exists i :: 0 <= i < |more| && more[i].siteId == a {
      if a == s.siteId {
        assert more[|list|].siteId == a;
      } else {
        var i :| 0 <= i < |list| && list[i].siteId == a;
        assert more[i].siteId == a;
      }
    }
  }

  // ---- What the list means -------------------------------------------------------------------

  ghost predicate UniqueIds(routers: seq<Router>) {
    forall i, j | 0 <= i < j < |routers| :: routers[i].id != routers[j].id
  }

  /** Router `i` says that it is connected to router `j`. */
  predicate Joined(routers: seq<Router>, i: nat, j: nat)
    requires i < |routers| && j < |routers|
  {
    routers[j].id in routers[i].connectedTo
  }

  ghost predicate SymmetricRouters(routers: seq<Router>) {
    forall i, j | 0 <= i < |routers| && 0 <= j < |routers| :: Joined(routers, i, j) ==> Joined(routers, j, i)
  }

  /** A router of site `a` says that it is connected to one that is not known. */
  ghost predicate Dangles(routers: seq<Router>, a: string) {
    exists i, k :: 0 <= i < |routers| && routers[i].site.id == a && 0 <= k < |routers[i].connectedTo|
                   && routers[i].connectedTo[k] !in Resolution(routers)
  }

  /** Two known routers, one in each site, are joined. */
  ghost predicate JoinedSites(routers: seq<Router>, a: string, b: string) {
    exists i, j :: 0 <= i < |routers| && 0 <= j < |routers| && routers[i].site.id == a && routers[j].site.id == b
        && Joined(routers, i, j)
  }

  lemma {:induction false} ResolvesTo(routers: seq<Router>, j: nat)
    requires UniqueIds(routers) && j < |routers|
    ensures routers[j].id in Resolution(routers) && Resolution(routers)[routers[j].id] == routers[j].site.id
  {
    var n := |routers| - 1;
    if j < n {
      assert routers[..n][j] == routers[j];
      ResolvesTo(routers[..n], j);
    }
  }

  lemma {:induction false} ResolvedFrom(routers: seq<Router>, id: string)
    requires id in Resolution(routers)
    ensures exists j :: 0 <= j < |routers| && routers[j].id == id
  {
    var n := |routers| - 1;
    if routers[n].id != id {
      ResolvedFrom(routers[..n], id);
      var j :| 0 <= j < n && routers[..n][j].id == id;
      assert routers[j].id == id;
    }
  }

  /** The links of sites are the joined known routers, and a link to the site with the empty id for
      every unknown router. */
  lemma LinkedExactlyWhen(routers: seq<Router>, a: string, b: string)
    requires UniqueIds(routers)
    ensures Linked(routers, a, b) <==> JoinedSites(routers, a, b) || (b == "" && Dangles(routers, a))
  {
    var resolution := Resolution(routers);
    if Linked(routers, a, b) {
      var i :| 0 <= i < |routers| && routers[i].site.id == a && Reaches(routers[i], resolution, b);
      var k :| 0 <= k < |routers[i].connectedTo| && Resolve(resolution, routers[i].connectedTo[k]) == b;
      var id := routers[i].connectedTo[k];
      if id in resolution {
        ResolvedFrom(routers, id);
        var j :| 0 <= j < |routers| && routers[j].id == id;
        ResolvesTo(routers, j);
        assert Joined(routers, i, j);
      }
    }
    if JoinedSites(routers, a, b) {
      var i, j :| 0 <= i < |routers| && 0 <= j < |routers| && routers[i].site.id == a && routers[j].site.id == b
          && Joined(routers, i, j);
      ResolvesTo(routers, j);
      var k :| 0 <= k < |routers[i].connectedTo| && routers[i].connectedTo[k] == routers[j].id;
      assert Reaches(routers[i], resolution, b);
    }
    if b == "" && Dangles(routers, a) {
      var i, k :| 0 <= i < |routers| && routers[i].site.id == a && 0 <= k < |routers[i].connectedTo|
                  && routers[i].connectedTo[k] !in resolution;
      assert Resolve(resolution, routers[i].connectedTo[k]) == b;
      assert Reaches(routers[i], resolution, b);
    }
  }

  lemma JoinedSitesSymmetric(routers: seq<Router>, a: string, b: string)
    requires SymmetricRouters(routers) && JoinedSites(routers, a, b)
    ensures JoinedSites(routers, b, a)
  {
    var i, j :| 0 <= i < |routers| && 0 <= j < |routers| && routers[i].site.id == a && routers[j].site.id == b
        && Joined(routers, i, j);
    assert Joined(routers, j, i);
  }

  ghost predicate SymmetricSites(list: seq<Site>) {
    forall s, t | s in list && t in list :: t.siteId in s.connected ==> s.siteId in t.connected
  }

  /** A listed site with unknown neighbours, next to a listed site with the empty id that none of its
      routers is joined to. */
  ghost predicate Misled(routers: seq<Router>) {
    HasSite(routers, "") && exists a ::
        a != "" && HasSite(routers, a) && Dangles(routers, a) && !JoinedSites(routers, "", a)
  }

  lemma ListedIsSite(routers: seq<Router>, list: seq<Site>, s: Site)
    requires IsSiteList(routers, list) && s in list
    ensures Describes(routers, s) && HasSite(routers, s.siteId)
  {
    var i :| 0 <= i < |list| && list[i] == s;
    assert Describes(routers, list[i]);
    var k: nat :| Founds(routers, k) && s == NewSite(routers[k]).(connected := s.connected);
    assert routers[k].site.id == s.siteId;
  }

  lemma SiteIsListed(routers: seq<Router>, list: seq<Site>, a: string) returns (s: Site)
    requires IsSiteList(routers, list) && HasSite(routers, a)
    ensures s in list && s.siteId == a && Describes(routers, s)
  {
    var i :| 0 <= i < |list| && list[i].siteId == a;
    s := list[i];
  }

  /** If connections between known routers are mutual then so are those between listed sites, exactly
      unless unknown routers are mistaken for a listed site with the empty id. */
  lemma SymmetricExactlyWhen(routers: seq<Router>, list: seq<Site>)
    requires UniqueIds(routers) && SymmetricRouters(routers) && IsSiteList(routers, list)
    ensures SymmetricSites(list) <==> !Misled(routers)
  {
    if !Misled(routers) {
      forall s, t | s in list && t in list && t.siteId in s.connected ensures s.siteId in t.connected {
        MutualUnlessMisled(routers, list, s, t);
      }
    } else {
      var a :| a != "" && HasSite(routers, a) && Dangles(routers, a) && !JoinedSites(routers, "", a);
      var s := SiteIsListed(routers, list, a);
      var t := SiteIsListed(routers, list, "");
      LinkedExactlyWhen(routers, a, "");
      LinkedExactlyWhen(routers, "", a);
      assert t.siteId in s.connected && s.siteId !in t.connected;
    }
  }

  lemma MutualUnlessMisled(routers: seq<Router>, list: seq<Site>, s: Site, t: Site)
    requires UniqueIds(routers) && SymmetricRouters(routers) && IsSiteList(routers, list) && !Misled(routers)
    requires s in list && t in list && t.siteId in s.connected
    ensures s.siteId in t.connected
  {
    ListedIsSite(routers, list, s);
    ListedIsSite(routers, list, t);
    LinkedExactlyWhen(routers, s.siteId, t.siteId);
    LinkedExactlyWhen(routers, t.siteId, s.siteId);
    if JoinedSites(routers, s.siteId, t.siteId) {
      JoinedSitesSymmetric(routers, s.siteId, t.siteId);
    }
  }

  /** Two routers, one of a site with an ID and one of a site without, neither a gateway; the first names a
      router `x` that is not known, the second none. */
  lemma UnknownRouterMisleads(routers: seq<Router>, x: string, list: seq<Site>)
    requires |routers| == 2 && routers[0].id != routers[1].id && x != routers[0].id && x != routers[1].id
    requires routers[0].connectedTo == [x] && routers[1].connectedTo == []
    requires routers[0].site.id != "" && routers[1].site.id == "" && !routers[0].IsGateway() && !routers[1].IsGateway()
    requires IsSiteList(routers, list)
    ensures UniqueIds(routers) && SymmetricRouters(routers) && !SymmetricSites(list)
  {
    OneDangles(routers, x);
    SymmetricExactlyWhen(routers, list);
  }

  lemma OneDangles(routers: seq<Router>, x: string)
    requires |routers| == 2 && routers[0].id != routers[1].id && x != routers[0].id && x != routers[1].id
    requires routers[0].connectedTo == [x] && routers[1].connectedTo == []
    requires routers[0].site.id != "" && routers[1].site.id == "" && !routers[0].IsGateway() && !routers[1].IsGateway()
    ensures UniqueIds(routers) && SymmetricRouters(routers) && Misled(routers)
  {
    var a := routers[0].site.id;
    forall id | id in Resolution(routers) ensures id != x {
      ResolvedFrom(routers, id);
    }
    assert routers[0].connectedTo[0] == x;
    assert Dangles(routers, a) && HasSite(routers, a) && HasSite(routers, "");
    assert !JoinedSites(routers, "", a);
  }

  /** A site is listed if and only if it has a router whose name does not begin with `skupper-gateway-`. */
  lemma ListedExactlyWhen(routers: seq<Router>, list: seq<Site>, a: string)
    requires IsSiteList(routers, list)
    ensures (exists i :: 0 <= i < |list| && list[i].siteId == a) <==>
            exists k :: 0 <= k < |routers| && routers[k].site.id == a && !("skupper-gateway-" <= routers[k].id)
  {
    if i :| 0 <= i < |list| && list[i].siteId == a {
      ListedAsFounded(routers, list, i);
    }
    if k :| 0 <= k < |routers| && routers[k].site.id == a && !("skupper-gateway-" <= routers[k].id) {
      assert HasSite(routers, a);
    }
  }

  /** Each listed site has the ID, version and platform of its first router that is not a gateway, and is an
      edge if and only if that router is one and its name has `skupper-router` in it. */
  lemma ListedAsFounded(routers: seq<Router>, list: seq<Site>, i: nat)
    requires IsSiteList(routers, list) && i < |list|
    ensures exists k: nat ::
              && Founds(routers, k) && !("skupper-gateway-" <= routers[k].id)
              && var s, r := list[i], routers[k];
                 && s.siteId == r.site.id && s.version == r.site.version && s.platform == r.site.platform
                 && (s.edge <==> r.edge && exists j :: OccursAt(r.id, "skupper-router", j))
  {
    assert Describes(routers, list[i]);
    var k: nat :| Founds(routers, k) && list[i] == NewSite(routers[k]).(connected := list[i].connected);
    ContainsExactlyWhen(routers[k].id, "skupper-router");
  }
}
