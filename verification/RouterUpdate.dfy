/** The crash-resumable site update: client/router_update.go.

    An update writes a marker (the configmap `skupper-update-state`) that holds the version it
    started from, then the new version, then performs the migrations that version calls for, and
    finally removes the marker.  A run may stop between any two of these; the next run finds the
    marker and carries on, except where it needs something that the stopped run deleted. */
module RouterUpdate {
  import opened Prelude

  // ---- Versions: pkg/utils/version.go --------------------------------------------------------

  /** A version string and the numbers it parses to. */
  datatype Version = Version(text: string, major: int, minor: int, patch: int)

  predicate LessRecent(a: Version, b: Version) {
    if a.major < b.major then true
    else if a.major > b.major then false
    else if a.minor < b.minor then true
    else if a.minor > b.minor then false
    else a.patch < b.patch
  }

  predicate MoreRecent(a: Version, b: Version) {
    LessRecent(b, a)
  }

  predicate Equivalent(a: Version, b: Version) {
    a.major == b.major && a.minor == b.minor && a.patch == b.patch
  }

  function Numbers(v: Version): seq<int> {
    [v.major, v.minor, v.patch]
  }

  /** Versions are compared as their numbers are in a dictionary: the first that differ decide. */
  lemma LessRecentIsLexicographic(a: Version, b: Version)
    ensures LessRecent(a, b) <==>
              exists k :: 0 <= k < 3 && Numbers(a)[..k] == Numbers(b)[..k] && Numbers(a)[k] < Numbers(b)[k]
    ensures Equivalent(a, b) <==> Numbers(a) == Numbers(b)
  {
    var x, y := Numbers(a), Numbers(b);
    assert x[..0] == y[..0] == [];
    assert x[..1] == [a.major] && y[..1] == [b.major];
    assert x[..2] == [a.major, a.minor] && y[..2] == [b.major, b.minor];
    if LessRecent(a, b) {
      if a.major < b.major {
        assert x[0] < y[0];
      } else if a.minor < b.minor {
        assert x[1] < y[1];
      } else {
        assert x[2] < y[2];
      }
    }
    if k :| 0 <= k < 3 && x[..k] == y[..k] && x[k] < y[k] {
      assert k > 0 ==> x[..k][0] == a.major && y[..k][0] == b.major;
      assert k > 1 ==> x[..k][1] == a.minor && y[..k][1] == b.minor;
    }
  }

  /** Of two versions one is less recent than the other, or they are equivalent, and only one of these; and
      what is less recent than a third one's less recent version is less recent than the third. */
  lemma VersionsAreOrdered(a: Version, b: Version, c: Version)
    ensures LessRecent(a, b) || LessRecent(b, a) || Equivalent(a, b)
    ensures !(LessRecent(a, b) && LessRecent(b, a)) && !(LessRecent(a, b) && Equivalent(a, b))
    ensures LessRecent(a, b) && LessRecent(b, c) ==> LessRecent(a, c)
    ensures Equivalent(a, b) ==> (LessRecent(a, c) <==> LessRecent(b, c)) && (LessRecent(c, a) <==> LessRecent(c, b))
    ensures MoreRecent(a, b) <==> LessRecent(b, a)
  {
  }

  const V050 := Version("0.5.0", 0, 5, 0)
  const V070 := Version("0.7.0", 0, 7, 0)
  const V080 := Version("0.8.0", 0, 8, 0)
  const V090 := Version("0.9.0", 0, 9, 0)
  const V130 := Version("1.3.0", 1, 3, 0)
  const V140 := Version("1.4.0", 1, 4, 0)
  const V150 := Version("1.5.0", 1, 5, 0)

  // ---- Migrations ----------------------------------------------------------------------------

  /** `RenameFor050` copies the resources to their new names, `DropOldNames` deletes the old ones (but for
      the first; see `ClearOldNames`). */
  datatype Migration =
    | RenameFor050 | AddCertsSharedVolume | ClaimsRoute | MoveClaims | UpdateRole
    | AddMultiportServices | AddClusterPolicy | UpdateRouterPolicyRule | SubstituteFlowCollector
    | AddPrometheusServer | DropOldNames

  /** The version a migration was introduced for: sites older than that need it. */
  function Threshold(m: Migration): Version {
    match m
    case RenameFor050 => V050
    case DropOldNames => V050
    case ClaimsRoute => V070
    case AddMultiportServices => V080
    case AddCertsSharedVolume => V090
    case AddClusterPolicy => V090
    case UpdateRouterPolicyRule => V090
    case SubstituteFlowCollector => V130
    case AddPrometheusServer => V140
    case MoveClaims => V150
    case UpdateRole => V150
  }

  /** Whether the router is an edge, and whether the site is exposed by routes. */
  datatype Kind = Kind(edge: bool, routes: bool)

  /** A site of version `v` needs migration `m`.  Edge sites redeem no claims, and the route for claims
      is for sites that use routes. */
  predicate Needs(v: Version, k: Kind, m: Migration) {
    LessRecent(v, Threshold(m)) && (m == MoveClaims ==> !k.edge) && (m == ClaimsRoute ==> !k.edge && k.routes)
  }

  /** An update from version `v` performs migration `m`: all that are needed, except that the source
      finds out whether routes are used only while it makes up for the renaming of 0.5.0. */
  predicate Calls(v: Version, k: Kind, m: Migration) {
    Needs(v, k, m) && (m == ClaimsRoute ==> LessRecent(v, V050))
  }

  datatype Flags = Flags(
    renameFor050: bool,
    addClaimsSupport: bool,
    addMultiportServices: bool,
    addClusterPolicy: bool,
    updateRouterPolicyRule: bool,
    addCertsSharedVolume: bool,
    substituteFlowCollector: bool,
    addPrometheusServer: bool,
    moveClaims: bool,
    updateRole: bool)

  const NO_FLAGS := Flags(false, false, false, false, false, false, false, false, false, false)

  /** The flags of a run that finds the marker. */
  function ResumedFlags(from: Version, edge: bool): Flags {
    Flags(LessRecent(from, V050), LessRecent(from, V070), LessRecent(from, V080), LessRecent(from, V090),
          LessRecent(from, V090), LessRecent(from, V090), LessRecent(from, V130), LessRecent(from, V140),
          LessRecent(from, V150) && !edge, LessRecent(from, V150))
  }

  /** The flags of a run that starts the update: the rename is decided inside the claims branch. */
  function FreshFlags(from: Version, edge: bool): Flags {
    Flags(LessRecent(from, V070) && LessRecent(from, V050), LessRecent(from, V070), LessRecent(from, V080),
          LessRecent(from, V090), LessRecent(from, V090), LessRecent(from, V090), LessRecent(from, V130),
          LessRecent(from, V140), LessRecent(from, V150) && !edge, LessRecent(from, V150))
  }

  /** A resumed run decides exactly as the run it resumes. */
  lemma ResumedEqualsFresh(from: Version, edge: bool)
    ensures ResumedFlags(from, edge) == FreshFlags(from, edge)
  {
  }

  // ---- A run as a list of actions ------------------------------------------------------------

  /** What the first versions of the cluster policy left behind. */
  datatype Leftover = OldClusterRole | OldClusterRoleBinding

  datatype Action =
    | WriteMarker(from: Version)
    | WriteVersion(version: Version)
    | Do(m: Migration)
    | DropLeftover(o: Leftover)
    | ClearOldNames              // the service `skupper-messaging` is deleted, which the renaming reads first
    | RemoveMarker

  /** What is stored about the site, what is left of old versions, and everything done to it so far. */
  datatype Site = Site(
    version: Version,
    marker: Option<Version>,
    oldNames: bool,
    remains: set<Leftover>,
    log: seq<Action>)

  /** The order of the source, before and after the cluster policy. */
  const FIRST: seq<Migration> :=
    [RenameFor050, AddCertsSharedVolume, ClaimsRoute, UpdateRole, MoveClaims, AddMultiportServices]

  const LAST: seq<Migration> := [UpdateRouterPolicyRule, SubstituteFlowCollector, AddPrometheusServer]

  /** The condition under which the source performs each migration, where `remains` is left over. */
  predicate Chosen(f: Flags, k: Kind, remains: set<Leftover>, m: Migration) {
    match m
    case RenameFor050 => f.renameFor050
    case AddCertsSharedVolume => f.addCertsSharedVolume
    case ClaimsRoute => f.addClaimsSupport && !k.edge && f.renameFor050 && k.routes
    case UpdateRole => f.moveClaims || f.updateRole
    case MoveClaims => f.moveClaims
    case AddMultiportServices => f.addMultiportServices
    case AddClusterPolicy => f.addClusterPolicy || remains != {}
    case UpdateRouterPolicyRule => f.updateRouterPolicyRule
    case SubstituteFlowCollector => f.substituteFlowCollector
    case AddPrometheusServer => f.addPrometheusServer
    case DropOldNames => f.renameFor050
  }

  function Select(f: Flags, k: Kind, remains: set<Leftover>, list: seq<Migration>): seq<Action> {
    if list == [] then []
    else (if Chosen(f, k, remains, list[0]) then [Do(list[0])] else []) + Select(f, k, remains, list[1..])
  }

  function Drops(remains: set<Leftover>): seq<Action> {
    (if OldClusterRole in remains then [DropLeftover(OldClusterRole)] else [])
    + (if OldClusterRoleBinding in remains then [DropLeftover(OldClusterRoleBinding)] else [])
  }

  function Renewal(f: Flags, remains: set<Leftover>): seq<Action> {
    if f.addClusterPolicy || remains != {} then [Do(AddClusterPolicy)] else []
  }

  function Cleanup(f: Flags): seq<Action> {
    if f.renameFor050 then [ClearOldNames, Do(DropOldNames)] else []
  }

  /** What a run does between the new version and the removal of the marker. */
  function Steps(f: Flags, k: Kind, remains: set<Leftover>): seq<Action> {
    Select(f, k, remains, FIRST) + Drops(remains) + Renewal(f, remains) + (Select(f, k, remains, LAST) + Cleanup(f))
  }

  lemma {:induction false} Selected(f: Flags, k: Kind, remains: set<Leftover>, list: seq<Migration>, m: Migration)
    ensures Do(m) in Select(f, k, remains, list) <==> m in list && Chosen(f, k, remains, m)
    ensures forall a <- Select(f, k, remains, list) :: a.Do?
  {
    if list != [] {
      Selected(f, k, remains, list[1..], m);
      assert m in list <==> m == list[0] || m in list[1..];
    }
  }

  lemma ListedOnce(m: Migration)
    ensures m in FIRST || m in LAST || m == AddClusterPolicy || m == DropOldNames
    ensures AddClusterPolicy !in FIRST && AddClusterPolicy !in LAST && DropOldNames !in FIRST && DropOldNames !in LAST
  {
    assert FIRST[0] == RenameFor050 && FIRST[1] == AddCertsSharedVolume && FIRST[2] == ClaimsRoute
        && FIRST[3] == UpdateRole;
    assert FIRST[4] == MoveClaims && FIRST[5] == AddMultiportServices;
    assert LAST[0] == UpdateRouterPolicyRule && LAST[1] == SubstituteFlowCollector && LAST[2] == AddPrometheusServer;
  }

  /** The steps are those chosen, everything left over is dropped, and the old names are cleared along
      with the renaming. */
  ghost predicate Follows(ms: seq<Action>, f: Flags, k: Kind, remains: set<Leftover>) {
    && (forall a <- ms :: a.Do? || a.DropLeftover? || a.ClearOldNames?)
    && (forall m :: Do(m) in ms <==> Chosen(f, k, remains, m))
    && (forall o :: DropLeftover(o) in ms <==> o in remains)
    && (ClearOldNames in ms <==> f.renameFor050)
  }

  /** By the time the cluster policy is renewed, everything left over is dropped. */
  ghost predicate DropsFirst(ms: seq<Action>) {
    forall n, o | 0 <= n <= |ms| && Do(AddClusterPolicy) in ms[..n] && DropLeftover(o) in ms ::
        DropLeftover(o) in ms[..n]
  }

  lemma DropsAreLeftovers(remains: set<Leftover>, o: Leftover)
    ensures DropLeftover(o) in Drops(remains) <==> o in remains
    ensures forall a <- Drops(remains) :: a.DropLeftover?
  {
    var d := Drops(remains);
    if OldClusterRole in remains {
      assert d[0] == DropLeftover(OldClusterRole);
    }
    if OldClusterRoleBinding in remains {
      assert d[|d| - 1] == DropLeftover(OldClusterRoleBinding);
    }
  }

  lemma StepsFollow(f: Flags, k: Kind, remains: set<Leftover>)
    ensures Follows(Steps(f, k, remains), f, k, remains)
  {
    var a, b, ms := Select(f, k, remains, FIRST), Select(f, k, remains, LAST), Steps(f, k, remains);
    Selected(f, k, remains, FIRST, UpdateRole);
    Selected(f, k, remains, LAST, UpdateRole);
    forall m ensures Do(m) in ms <==> Chosen(f, k, remains, m) {
      Listed(f, k, remains, m);
      JoinedSteps(f, remains, a, b, ms, Do(m));
    }
    forall o ensures DropLeftover(o) in ms <==> o in remains {
      DropsAreLeftovers(remains, o);
      JoinedSteps(f, remains, a, b, ms, DropLeftover(o));
    }
    forall x | x in ms ensures x.Do? || x.DropLeftover? || x.ClearOldNames? {
      DropsAreLeftovers(remains, OldClusterRole);
      JoinedSteps(f, remains, a, b, ms, x);
    }
    DropsAreLeftovers(remains, OldClusterRole);
    JoinedSteps(f, remains, a, b, ms, ClearOldNames);
  }

  /** Where a migration is among the steps. */
  lemma Listed(f: Flags, k: Kind, remains: set<Leftover>, m: Migration)
    ensures Chosen(f, k, remains, m) <==>
              || Do(m) in Select(f, k, remains, FIRST) || Do(m) in Select(f, k, remains, LAST)
              || (m == AddClusterPolicy && (f.addClusterPolicy || remains != {}))
                  || (m == DropOldNames && f.renameFor050)
    ensures Do(m) !in Drops(remains)
  {
    ListedOnce(m);
    Selected(f, k, remains, FIRST, m);
    Selected(f, k, remains, LAST, m);
    DropsAreLeftovers(remains, OldClusterRole);
  }

  lemma JoinedSteps(f: Flags, remains: set<Leftover>, a: seq<Action>, b: seq<Action>, ms: seq<Action>, x: Action)
    requires ms == a + Drops(remains) + Renewal(f, remains) + (b + Cleanup(f))
    ensures x in ms <==>
              || x in a || x in Drops(remains) || (x == Do(AddClusterPolicy) && (f.addClusterPolicy || remains != {}))
              || x in b || (f.renameFor050 && (x == ClearOldNames || x == Do(DropOldNames)))
  {
    assert x in ms <==> x in a || x in Drops(remains) || x in Renewal(f, remains) || x in b || x in Cleanup(f);
    assert f.renameFor050 ==> Cleanup(f)[0] == ClearOldNames && Cleanup(f)[1] == Do(DropOldNames);
    assert f.addClusterPolicy || remains != {} ==> Renewal(f, remains)[0] == Do(AddClusterPolicy);
  }

  lemma StepsDropFirst(f: Flags, k: Kind, remains: set<Leftover>)
    ensures DropsFirst(Steps(f, k, remains))
  {
    var a, b := Select(f, k, remains, FIRST), Select(f, k, remains, LAST) + Cleanup(f);
    Selected(f, k, remains, FIRST, AddClusterPolicy);
    ListedOnce(AddClusterPolicy);
    StepsFollow(f, k, remains);
    DropsThenRenewal(a, Drops(remains), Renewal(f, remains), b, remains, Steps(f, k, remains));
  }

  lemma DropsThenRenewal(a: seq<Action>, drops: seq<Action>, renewal: seq<Action>, b: seq<Action>,
                         remains: set<Leftover>, ms: seq<Action>)
    requires ms == a + drops + renewal + b && drops == Drops(remains) && Do(AddClusterPolicy) !in a
    requires forall o :: DropLeftover(o) in ms ==> o in remains
    ensures DropsFirst(ms)
  {
    forall n, o | 0 <= n <= |ms| && Do(AddClusterPolicy) in ms[..n] && DropLeftover(o) in ms
      ensures DropLeftover(o) in ms[..n] {
      var i :| 0 <= i < n && ms[..n][i] == Do(AddClusterPolicy);
      DropsAreLeftovers(remains, o);
      assert i >= |a| + |drops|;
      var j :| 0 <= j < |drops| && drops[j] == DropLeftover(o);
      assert ms[..n][|a| + j] == DropLeftover(o);
    }
  }

  /** The place of each migration among the others. */
  function Place(m: Migration): nat {
    match m
    case RenameFor050 => 0
    case AddCertsSharedVolume => 1
    case ClaimsRoute => 2
    case UpdateRole => 3
    case MoveClaims => 4
    case AddMultiportServices => 5
    case AddClusterPolicy => 6
    case UpdateRouterPolicyRule => 7
    case SubstituteFlowCollector => 8
    case AddPrometheusServer => 9
    case DropOldNames => 10
  }

  ghost predicate InOrder(ms: seq<Action>) {
    forall i, j | 0 <= i < j < |ms| && ms[i].Do? && ms[j].Do? :: Place(ms[i].m) < Place(ms[j].m)
  }

  ghost predicate Within(ms: seq<Action>, from: nat, to: nat) {
    forall i | 0 <= i < |ms| && ms[i].Do? :: from <= Place(ms[i].m) < to
  }

  lemma {:induction false} SelectInOrder(f: Flags, k: Kind, remains: set<Leftover>, list: seq<Migration>, from: nat,
                                         to: nat)
    requires forall i, j | 0 <= i < j < |list| :: Place(list[i]) < Place(list[j])
    requires forall i | 0 <= i < |list| :: from <= Place(list[i]) < to
    ensures InOrder(Select(f, k, remains, list)) && Within(Select(f, k, remains, list), from, to)
  {
    if list != [] {
      var rest := list[1..];
      SelectInOrder(f, k, remains, rest, Place(list[0]) + 1, to);
    }
  }

  lemma OrderJoins(a: seq<Action>, b: seq<Action>, from: nat, mid: nat, to: nat)
    requires InOrder(a) && InOrder(b) && Within(a, from, mid) && Within(b, mid, to) && from <= mid <= to
    ensures InOrder(a + b) && Within(a + b, from, to)
  {
  }

  lemma FirstInOrder(f: Flags, k: Kind, remains: set<Leftover>)
    ensures InOrder(Select(f, k, remains, FIRST)) && Within(Select(f, k, remains, FIRST), 0, 6)
  {
    SelectInOrder(f, k, remains, FIRST, 0, 6);
  }

  lemma LastInOrder(f: Flags, k: Kind, remains: set<Leftover>)
    ensures InOrder(Select(f, k, remains, LAST)) && Within(Select(f, k, remains, LAST), 7, 10)
  {
    SelectInOrder(f, k, remains, LAST, 7, 10);
  }

  /** A run performs its migrations in the order of the source: the renaming first, the cluster policy
      after what is left over of it was dropped, the old names last. */
  lemma StepsAreInOrder(f: Flags, k: Kind, remains: set<Leftover>)
    ensures InOrder(Steps(f, k, remains))
  {
    FirstInOrder(f, k, remains);
    LastInOrder(f, k, remains);
    PartsInOrder(f, remains, Select(f, k, remains, FIRST), Select(f, k, remains, LAST));
  }

  lemma PartsInOrder(f: Flags, remains: set<Leftover>, a: seq<Action>, b: seq<Action>)
    requires InOrder(a) && Within(a, 0, 6) && InOrder(b) && Within(b, 7, 10)
    ensures InOrder(a + Drops(remains) + Renewal(f, remains) + (b + Cleanup(f)))
  {
    DropsAreLeftovers(remains, OldClusterRole);
    assert forall x <- Drops(remains) :: x.DropLeftover?;
    OrderJoins(a, Drops(remains), 0, 6, 6);
    OrderJoins(a + Drops(remains), Renewal(f, remains), 0, 6, 7);
    OrderJoins(b, Cleanup(f), 7, 10, 11);
    OrderJoins(a + Drops(remains) + Renewal(f, remains), b + Cleanup(f), 0, 7, 11);
  }

  predicate Outdated(site: Version, lib: Version) {
    MoreRecent(lib, site) || (Equivalent(lib, site) && lib != site)
  }

  function FlagsFor(site: Site, lib: Version, edge: bool): Flags {
    if site.marker.Some? then ResumedFlags(site.marker.value, edge)
    else if Outdated(site.version, lib) then FreshFlags(site.version, edge)
    else NO_FLAGS
  }

  /** The marker, if there is none yet, and the new version. */
  function Opening(site: Site, lib: Version): seq<Action> {
    if !Outdated(site.version, lib) then []
    else if site.marker.None? then [WriteMarker(site.version), WriteVersion(lib)]
    else [WriteVersion(lib)]
  }

  function Closing(site: Site, lib: Version): seq<Action> {
    if Outdated(site.version, lib) || site.marker.Some? then [RemoveMarker] else []
  }

  /** The renaming copies objects of the old names; where these are gone, it fails and ends the run. */
  predicate Blocked(site: Site, flags: Flags) {
    flags.renameFor050 && !site.oldNames
  }

  /** Everything a run with library version `lib` would do, if it is not interrupted. */
  function Plan(site: Site, lib: Version, k: Kind): seq<Action> {
    var flags := FlagsFor(site, lib, k.edge);
    if LessRecent(lib, site.version) then []
    else if Blocked(site, flags) then Opening(site, lib)
    else Opening(site, lib) + Steps(flags, k, site.remains) + Closing(site, lib)
  }

  function Perform(site: Site, a: Action): Site {
    match a
    case WriteMarker(from) => site.(marker := Some(from), log := site.log + [a])
    case WriteVersion(v) => site.(version := v, log := site.log + [a])
    case Do(_) => site.(log := site.log + [a])
    case DropLeftover(o) => site.(remains := site.remains - {o}, log := site.log + [a])
    case ClearOldNames => site.(oldNames := false, log := site.log + [a])
    case RemoveMarker => site.(marker := None, log := site.log + [a])
  }

  function PerformAll(site: Site, actions: seq<Action>): Site
    decreases actions
  {
    if actions == [] then site else PerformAll(Perform(site, actions[0]), actions[1..])
  }

  /** A run: its library version, the kind of site, and after how many actions it stops. */
  datatype Attempt = Attempt(lib: Version, kind: Kind, stop: nat)

  function Prefix(actions: seq<Action>, n: nat): seq<Action> {
    if n <= |actions| then actions[..n] else actions
  }

  /** What the attempt does. */
  function Doing(site: Site, t: Attempt): seq<Action> {
    Prefix(Plan(site, t.lib, t.kind), t.stop)
  }

  function Try(site: Site, t: Attempt): Site {
    PerformAll(site, Doing(site, t))
  }

  function TryAll(site: Site, attempts: seq<Attempt>): Site
    decreases attempts
  {
    if attempts == [] then site else TryAll(Try(site, attempts[0]), attempts[1..])
  }

  // ---- The site as an object -----------------------------------------------------------------

  class Cluster {
    var version: Version
    var marker: Option<Version>
    var oldNames: bool
    var remains: set<Leftover>
    ghost var log: seq<Action>

    ghost function Abstract(): Site
      reads this
    {
      Site(version, marker, oldNames, this.remains, log)
    }

    constructor (v: Version, oldNames: bool, remains: set<Leftover>)
      ensures Abstract() == Site(v, None, oldNames, remains, [])
    {
      version, marker, this.oldNames, this.remains, log := v, None, oldNames, remains, [];
    }

    /** The run that began in `site` and stops after `stop` actions has come to the end of `done`, and
        has `left` actions left. */
    ghost predicate Reached(site: Site, done: seq<Action>, stop: nat, left: nat)
      reads this
    {
      && Abstract() == PerformAll(site, Prefix(done, stop))
      && left == if stop <= |done| then 0 else stop - |done|
    }

    /** Performs `a` unless the run has stopped. */
    method Act(a: Action, left: nat, ghost site: Site, ghost done: seq<Action>, ghost stop: nat) returns (rest: nat)
      requires Reached(site, done, stop, left)
      modifies this
      ensures Reached(site, done + [a], stop, rest)
    {
      if left == 0 {
        assert Prefix(done + [a], stop) == Prefix(done, stop);
        return 0;
      }
      PerformSnoc(site, done, a);
      match a {
        case WriteMarker(from) => marker := Some(from);
        case WriteVersion(v) => version := v;
        case Do(_) =>
        case DropLeftover(o) => this.remains := this.remains - {o};
        case ClearOldNames => oldNames := false;
        case RemoveMarker => marker := None;
      }
      log := log + [a];
      rest := left - 1;
      assert Prefix(done + [a], stop) == done + [a];
    }

    method ActAll(actions: seq<Action>, left: nat, ghost site: Site, ghost done: seq<Action>, ghost stop: nat)
        returns (rest: nat)
      requires Reached(site, done, stop, left)
      modifies this
      ensures Reached(site, done + actions, stop, rest)
    {
      rest := left;
      assert done + actions[..0] == done;
      for i := 0 to |actions|
        invariant Reached(site, done + actions[..i], stop, rest)
      {
        rest := Act(actions[i], rest, site, done + actions[..i], stop);
        assert done + actions[..i] + [actions[i]] == done + actions[..i + 1];
      }
      assert actions[..|actions|] == actions;
    }

    /** The part of a run before the migrations. */
    method Open(lib: Version, edge: bool, stop: nat) returns (flags: Flags, inprogress: bool, left: nat)
      modifies this
      ensures flags == FlagsFor(old(Abstract()), lib, edge)
      ensures inprogress <==> Closing(old(Abstract()), lib) == [RemoveMarker]
      ensures Reached(old(Abstract()), Opening(old(Abstract()), lib), stop, left)
    {
      ghost var site := Abstract();
      flags, inprogress, left := NO_FLAGS, marker.Some?, stop;
      if inprogress {
        flags := ResumedFlags(marker.value, edge);
      }
      if MoreRecent(lib, version) || (Equivalent(lib, version) && lib != version) {
        if !inprogress {
          flags := FreshFlags(version, edge);
          left := Act(WriteMarker(version), left, site, [], stop);
          assert [] + [WriteMarker(site.version)] == [WriteMarker(site.version)];
          inprogress := true;
          left := Act(WriteVersion(lib), left, site, [WriteMarker(site.version)], stop);
          assert [WriteMarker(site.version)] + [WriteVersion(lib)] == Opening(site, lib);
        } else {
          left := Act(WriteVersion(lib), left, site, [], stop);
          assert [] + [WriteVersion(lib)] == Opening(site, lib);
        }
      }
    }

    /** The migrations and the removal of the marker. */
    method Migrate(ms: seq<Action>, inprogress: bool, left: nat, ghost site: Site, ghost done: seq<Action>,
                   ghost stop: nat)
      requires Reached(site, done, stop, left)
      modifies this
      ensures Abstract() == PerformAll(site, Prefix(done + ms + (if inprogress then [RemoveMarker] else []), stop))
    {
      var rest := ActAll(ms, left, site, done, stop);
      if inprogress {
        rest := Act(RemoveMarker, rest, site, done + ms, stop);
      } else {
        assert done + ms + [] == done + ms;
      }
    }

    /** `RouterUpdateVersionInNamespace`, stopping after `stop` actions. */
    method RouterUpdateVersion(lib: Version, k: Kind, stop: nat)
      modifies this
      ensures Abstract() == Try(old(Abstract()), Attempt(lib, k, stop))
    {
      if LessRecent(lib, version) {
        return;
      }
      ghost var site := Abstract();
      var flags, inprogress, left := Open(lib, k.edge, stop);
      OpeningKeeps(site, lib, stop);
      if flags.renameFor050 && !oldNames {
        return;
      }
      Migrate(Steps(flags, k, this.remains), inprogress, left, site, Opening(site, lib), stop);
    }
  }

  lemma OpeningKeeps(site: Site, lib: Version, stop: nat)
    ensures var end := PerformAll(site, Prefix(Opening(site, lib), stop));
            end.oldNames == site.oldNames && end.remains == site.remains
  {
    var o := Opening(site, lib);
    assert o != [] ==> PerformAll(site, [o[0]]) == Perform(site, o[0]) by {
      assert o != [] ==> [o[0]][1..] == [];
    }
    if |o| == 2 {
      assert o == [o[0]] + [o[1]];
      PerformSnoc(site, [o[0]], o[1]);
      assert Prefix(o, stop) == [] || Prefix(o, stop) == [o[0]] || Prefix(o, stop) == o;
    } else {
      assert Prefix(o, stop) == [] || Prefix(o, stop) == o;
      assert |o| == 1 ==> o == [o[0]];
    }
  }

  lemma {:induction false} PerformConcat(site: Site, a: seq<Action>, b: seq<Action>)
    ensures PerformAll(site, a + b) == PerformAll(PerformAll(site, a), b)
    decreases a
  {
    if a == [] {
      assert a + b == b;
    } else {
      assert (a + b)[1..] == a[1..] + b;
      PerformConcat(Perform(site, a[0]), a[1..], b);
    }
  }

  lemma PerformSnoc(site: Site, actions: seq<Action>, a: Action)
    ensures PerformAll(site, actions + [a]) == Perform(PerformAll(site, actions), a)
  {
    PerformConcat(site, actions, [a]);
    assert PerformAll(PerformAll(site, actions), [a]) == Perform(PerformAll(site, actions), a);
  }

  // ---- What actions do to what is stored -----------------------------------------------------

  lemma {:induction false} PerformLogs(site: Site, actions: seq<Action>)
    ensures PerformAll(site, actions).log == site.log + actions
    decreases actions
  {
    if actions != [] {
      PerformLogs(Perform(site, actions[0]), actions[1..]);
      assert site.log + actions == site.log + [actions[0]] + actions[1..];
    }
  }

  lemma {:induction false} PerformDrops(site: Site, actions: seq<Action>)
    ensures PerformAll(site, actions).remains == set o | o in site.remains && DropLeftover(o) !in actions
    ensures PerformAll(site, actions).oldNames <==> site.oldNames && ClearOldNames !in actions
    decreases actions
  {
    if actions != [] {
      assert actions == [actions[0]] + actions[1..];
      PerformDrops(Perform(site, actions[0]), actions[1..]);
    }
  }

  // Actions that leave the marker alone.
  ghost predicate Quiet(actions: seq<Action>) {
    forall a <- actions :: !a.WriteMarker? && !a.RemoveMarker?
  }

  ghost predicate Versionless(actions: seq<Action>) {
    forall a <- actions :: !a.WriteVersion?
  }

  lemma {:induction false} QuietKeepsMarker(site: Site, actions: seq<Action>)
    requires Quiet(actions)
    ensures PerformAll(site, actions).marker == site.marker
    ensures Versionless(actions) ==> PerformAll(site, actions).version == site.version
    ensures forall v0 | !LessRecent(site.version, v0)
              && (forall a <- actions :: a.WriteVersion? ==> !LessRecent(a.version, v0)) ::
              !LessRecent(PerformAll(site, actions).version, v0)
    decreases actions
  {
    if actions != [] {
      assert actions[0] in actions && forall a <- actions[1..] :: a in actions;
      QuietKeepsMarker(Perform(site, actions[0]), actions[1..]);
    }
  }

  // ---- Whole series of runs ------------------------------------------------------------------

  ghost predicate Done(log: seq<Action>, m: Migration) {
    Do(m) in log
  }

  ghost predicate Begun(log: seq<Action>) {
    exists v :: WriteMarker(v) in log
  }

  /** Everything done to a site was called for by version `v0`; only the cluster policy is also
      renewed where something was left over. */
  ghost predicate Warranted(v0: Version, k: Kind, log: seq<Action>) {
    forall m | Done(log, m) :: Calls(v0, k, m) || m == AddClusterPolicy
  }

  /** Where a site that began at version `v0` can be: untouched; in the middle of an update that still
      calls for every migration not yet done; or with every migration it called for done and nothing
      left over.  Neither the stored version nor the marker ever falls below `v0`. */
  ghost predicate Sound(v0: Version, k: Kind, site: Site) {
    && (!Begun(site.log) ==> site.version == v0 && site.marker.None?)
    && (site.marker.Some? ==> forall m | Calls(v0, k, m) :: Done(site.log, m) || Calls(site.marker.value, k, m))
    && (site.marker.None? && Begun(site.log) ==> site.remains == {} && forall m | Calls(v0, k, m) :: Done(site.log, m))
    && !LessRecent(site.version, v0) && (site.marker.Some? ==> !LessRecent(site.marker.value, v0))
    && Warranted(v0, k, site.log)
  }

  /** The migrations performed are those the version calls for (and, where something is left over, the
      cluster policy). */
  lemma MigrationsAreCalledFor(from: Version, k: Kind, remains: set<Leftover>, m: Migration)
    ensures Do(m) in Steps(ResumedFlags(from, k.edge), k, remains) <==>
              Calls(from, k, m) || (m == AddClusterPolicy && remains != {})
  {
    StepsFollow(ResumedFlags(from, k.edge), k, remains);
    assert Do(m) in Steps(ResumedFlags(from, k.edge), k, remains) <==>
        Chosen(ResumedFlags(from, k.edge), k, remains, m);
  }

  /** A version is below the one with these first two numbers and no patch. */
  predicate Below(v: Version, major: int, minor: int) {
    v.major < major || (v.major == major && (v.minor < minor || (v.minor == minor && v.patch < 0)))
  }

  /** The migrations that a version calls for, by its numbers. */
  lemma CallsByNumbers(v: Version, k: Kind, m: Migration)
    ensures Calls(v, k, m) <==>
              match m
              case RenameFor050 => Below(v, 0, 5)
              case DropOldNames => Below(v, 0, 5)
              case ClaimsRoute => Below(v, 0, 5) && !k.edge && k.routes
              case AddMultiportServices => Below(v, 0, 8)
              case AddCertsSharedVolume => Below(v, 0, 9)
              case AddClusterPolicy => Below(v, 0, 9)
              case UpdateRouterPolicyRule => Below(v, 0, 9)
              case SubstituteFlowCollector => Below(v, 1, 3)
              case AddPrometheusServer => Below(v, 1, 4)
              case UpdateRole => Below(v, 1, 5)
              case MoveClaims => Below(v, 1, 5) && !k.edge
  {
  }

  /** What a later version calls for, an earlier one calls for too. */
  lemma EarlierCallsForMore(v0: Version, v: Version, k: Kind, m: Migration)
    requires !LessRecent(v, v0) && Calls(v, k, m)
    ensures Calls(v0, k, m)
  {
  }

  /** The version an update in this run starts from. */
  function From(site: Site): Version {
    if site.marker.Some? then site.marker.value else site.version
  }

  /** The run updates, or goes on updating. */
  predicate Updating(site: Site, lib: Version) {
    Outdated(site.version, lib) || site.marker.Some?
  }

  /** A plan taken apart: the marker if it is to be written, then `middle`, then the removal of the
      marker if this run updates. */
  ghost predicate Shape(site: Site, k: Kind, start: seq<Action>, middle: seq<Action>, closing: seq<Action>) {
    && (start == [] || (start == [WriteMarker(site.version)] && site.marker.None?))
    && Quiet(middle)
    && (start == [] && site.marker.None? ==> closing == [] && Versionless(middle))
    && (closing == [] || closing == [RemoveMarker])
    && (closing != [] ==>
        (forall m | Calls(From(site), k, m) :: Do(m) in middle)
            && (forall o <- site.remains :: DropLeftover(o) in middle))
    && Proper(site, k, middle)
  }

  /** The migrations are called for by the version the update starts from, and the version written is
      not older than the stored one. */
  ghost predicate Proper(site: Site, k: Kind, middle: seq<Action>) {
    && (forall m | Do(m) in middle :: Calls(From(site), k, m) || m == AddClusterPolicy)
    && (forall a <- middle | a.WriteVersion? :: !LessRecent(a.version, site.version))
  }

  /** The steps of a run: called for by the version it starts from, and all of those if it updates. */
  ghost predicate Fit(site: Site, lib: Version, k: Kind, ms: seq<Action>) {
    && (forall a <- ms :: a.Do? || a.DropLeftover? || a.ClearOldNames?)
    && (forall m | Do(m) in ms :: Calls(From(site), k, m) || m == AddClusterPolicy)
    && (Updating(site, lib) ==>
        (forall m | Calls(From(site), k, m) :: Do(m) in ms) && (forall o <- site.remains :: DropLeftover(o) in ms))
  }

  lemma ChosenIsCalledFor(site: Site, lib: Version, k: Kind, m: Migration)
    ensures var flags := FlagsFor(site, lib, k.edge);
            && (Chosen(flags, k, site.remains, m) ==> Calls(From(site), k, m) || m == AddClusterPolicy)
            && (Updating(site, lib) && Calls(From(site), k, m) ==> Chosen(flags, k, site.remains, m))
  {
    ResumedEqualsFresh(From(site), k.edge);
  }

  lemma FollowingFits(site: Site, lib: Version, k: Kind, ms: seq<Action>)
    requires Follows(ms, FlagsFor(site, lib, k.edge), k, site.remains)
    ensures Fit(site, lib, k, ms)
  {
    forall m ensures Do(m) in ms ==> Calls(From(site), k, m) || m == AddClusterPolicy
             ensures Updating(site, lib) && Calls(From(site), k, m) ==> Do(m) in ms
    {
      ChosenIsCalledFor(site, lib, k, m);
    }
  }

  /** The plan of a run that is not refused, with its steps `ms`. */
  lemma ShapeOf(site: Site, lib: Version, k: Kind, ms: seq<Action>)
      returns (start: seq<Action>, middle: seq<Action>, closing: seq<Action>)
    requires Fit(site, lib, k, ms) && !LessRecent(lib, site.version)
    ensures Opening(site, lib) + ms + Closing(site, lib) == start + middle + closing
    ensures Shape(site, k, start, middle, closing) && closing == Closing(site, lib)
    ensures |start + middle| == |Opening(site, lib) + ms|
  {
    closing := Closing(site, lib);
    if !Outdated(site.version, lib) {
      start, middle := [], ms;
    } else {
      start := if site.marker.None? then [WriteMarker(site.version)] else [];
      middle := [WriteVersion(lib)] + ms;
      assert Opening(site, lib) == start + [WriteVersion(lib)];
      assert forall m | Do(m) in middle :: Do(m) in ms;
    }
  }

  lemma LogGrows(v0: Version, k: Kind, site: Site, site': Site, more: seq<Action>)
    requires Sound(v0, k, site) && site'.log == site.log + more && site'.marker == site.marker
    requires site'.remains <= site.remains
    requires forall a <- more :: !a.WriteMarker?
    requires Begun(site.log) || site'.version == site.version
    requires !LessRecent(site'.version, v0) && forall m | Do(m) in more :: Calls(v0, k, m) || m == AddClusterPolicy
    ensures Sound(v0, k, site')
  {
    assert Begun(site'.log) <==> Begun(site.log);
    assert forall m | Done(site.log, m) :: Done(site'.log, m);
    assert forall m | Done(site'.log, m) :: Done(site.log, m) || Do(m) in more;
  }

  lemma MarkerWritten(v0: Version, k: Kind, site: Site)
    requires Sound(v0, k, site) && site.marker.None?
    ensures Sound(v0, k, Perform(site, WriteMarker(site.version)))
  {
    var site' := Perform(site, WriteMarker(site.version));
    assert WriteMarker(site.version) in site'.log;
    assert forall m | Done(site.log, m) :: Done(site'.log, m);
    assert forall m | Done(site'.log, m) :: Done(site.log, m);
  }

  lemma QuietKeepsSound(v0: Version, k: Kind, site: Site, done: seq<Action>)
    requires Sound(v0, k, site) && Quiet(done) && (Begun(site.log) || Versionless(done))
    requires forall m | Do(m) in done :: Calls(v0, k, m) || m == AddClusterPolicy
    requires forall a <- done | a.WriteVersion? :: !LessRecent(a.version, v0)
    ensures Sound(v0, k, PerformAll(site, done))
    ensures PerformAll(site, done).marker == site.marker
  {
    PerformLogs(site, done);
    PerformDrops(site, done);
    QuietKeepsMarker(site, done);
    LogGrows(v0, k, site, PerformAll(site, done), done);
  }

  /** What is proper for the version an update starts from is warranted by the original version. */
  lemma ProperIsWarranted(v0: Version, k: Kind, site: Site, middle: seq<Action>)
    requires Sound(v0, k, site) && Proper(site, k, middle)
    ensures forall m | Do(m) in middle :: Calls(v0, k, m) || m == AddClusterPolicy
    ensures forall a <- middle | a.WriteVersion? :: !LessRecent(a.version, v0)
  {
    forall m | Do(m) in middle ensures Calls(v0, k, m) || m == AddClusterPolicy {
      if Calls(From(site), k, m) {
        EarlierCallsForMore(v0, From(site), k, m);
      }
    }
  }

  lemma StartKeepsSound(v0: Version, k: Kind, site: Site, start: seq<Action>, middle: seq<Action>, closing: seq<Action>)
    requires Sound(v0, k, site) && Shape(site, k, start, middle, closing)
    ensures var marked := PerformAll(site, start);
            && Sound(v0, k, marked) && (Begun(marked.log) || Versionless(middle))
            && marked.log == site.log + start && marked.remains == site.remains
            && (closing != [] ==> marked.marker == Some(From(site)) && Begun(marked.log))
  {
    PerformLogs(site, start);
    if start != [] {
      assert PerformAll(site, start) == Perform(site, WriteMarker(site.version));
      MarkerWritten(v0, k, site);
      assert WriteMarker(site.version) in site.log + start;
    }
  }

  /** A run stopped before its last action. */
  lemma StoppedRunIsSound(v0: Version, k: Kind, site: Site, start: seq<Action>, middle: seq<Action>,
                          closing: seq<Action>, n: nat)
    requires Sound(v0, k, site) && Shape(site, k, start, middle, closing) && n <= |start + middle|
    ensures Sound(v0, k, PerformAll(site, (start + middle)[..n]))
  {
    if n >= |start| {
      var done := middle[..n - |start|];
      assert (start + middle)[..n] == start + done;
      PerformConcat(site, start, done);
      StartKeepsSound(v0, k, site, start, middle, closing);
      ProperIsWarranted(v0, k, site, middle);
      assert forall a <- done :: a in middle;
      QuietKeepsSound(v0, k, PerformAll(site, start), done);
    } else {
      assert (start + middle)[..n] == [];
    }
  }

  /** A run that removes the marker has performed every migration that the update calls for. */
  lemma CompletedRunIsSound(v0: Version, k: Kind, site: Site, start: seq<Action>, middle: seq<Action>)
    requires Sound(v0, k, site) && Shape(site, k, start, middle, [RemoveMarker])
    ensures Sound(v0, k, PerformAll(site, start + middle + [RemoveMarker]))
  {
    var marked := PerformAll(site, start);
    StartKeepsSound(v0, k, site, start, middle, [RemoveMarker]);
    ProperIsWarranted(v0, k, site, middle);
    PerformConcat(site, start, middle);
    QuietKeepsSound(v0, k, marked, middle);
    PerformLogs(marked, middle);
    PerformDrops(marked, middle);
    PerformSnoc(site, start + middle, RemoveMarker);
    var before := PerformAll(marked, middle);
    assert forall m | Calls(v0, k, m) :: Done(before.log, m) by {
      forall m | Calls(v0, k, m) ensures Done(before.log, m) {
        if !Done(marked.log, m) {
          assert Calls(From(site), k, m);
        }
      }
    }
    var v :| WriteMarker(v) in marked.log;
    assert WriteMarker(v) in before.log;
    MarkerRemoved(v0, k, before);
  }

  lemma MarkerRemoved(v0: Version, k: Kind, site: Site)
    requires Sound(v0, k, site) && Begun(site.log) && site.remains == {}
    requires forall m | Calls(v0, k, m) :: Done(site.log, m)
    ensures Sound(v0, k, Perform(site, RemoveMarker))
  {
    var site' := Perform(site, RemoveMarker);
    var v :| WriteMarker(v) in site.log;
    assert WriteMarker(v) in site'.log;
    assert forall m | Done(site.log, m) :: Done(site'.log, m);
    assert forall m | Done(site'.log, m) :: Done(site.log, m);
  }

  lemma PrefixOfPlan(done: seq<Action>, closing: seq<Action>, n: nat)
    requires closing == [] || closing == [RemoveMarker]
    ensures Prefix(done + closing, n) ==
              if n <= |done| then done[..n] else if closing == [] then done[..|done|] else done + [RemoveMarker]
  {
  }

  lemma RunKeepsSound(v0: Version, site: Site, lib: Version, k: Kind, ms: seq<Action>, stop: nat)
    requires Sound(v0, k, site) && Fit(site, lib, k, ms) && !LessRecent(lib, site.version)
    ensures Sound(v0, k, PerformAll(site, Prefix(Opening(site, lib) + ms + Closing(site, lib), stop)))
  {
    var start, middle, closing := ShapeOf(site, lib, k, ms);
    PrefixOfPlan(start + middle, closing, stop);
    if stop <= |start + middle| {
      StoppedRunIsSound(v0, k, site, start, middle, closing, stop);
    } else if closing == [] {
      StoppedRunIsSound(v0, k, site, start, middle, closing, |start + middle|);
    } else {
      CompletedRunIsSound(v0, k, site, start, middle);
    }
  }

  /** A run whose renaming fails gets no further than the new version. */
  lemma BlockedRunKeepsSound(v0: Version, site: Site, lib: Version, k: Kind, ms: seq<Action>, stop: nat)
    requires Sound(v0, k, site) && Fit(site, lib, k, ms) && !LessRecent(lib, site.version)
    ensures Sound(v0, k, PerformAll(site, Prefix(Opening(site, lib), stop)))
  {
    var opening := Opening(site, lib);
    var n := if stop <= |opening| then stop else |opening|;
    RunKeepsSound(v0, site, lib, k, ms, n);
    assert Prefix(opening + ms + Closing(site, lib), n) == Prefix(opening, stop);
  }

  lemma TryKeepsSound(v0: Version, site: Site, t: Attempt)
    requires Sound(v0, t.kind, site)
    ensures Sound(v0, t.kind, Try(site, t))
  {
    if !LessRecent(t.lib, site.version) {
      var flags := FlagsFor(site, t.lib, t.kind.edge);
      StepsFollow(flags, t.kind, site.remains);
      FollowingFits(site, t.lib, t.kind, Steps(flags, t.kind, site.remains));
      RunKeepsSound(v0, site, t.lib, t.kind, Steps(flags, t.kind, site.remains), t.stop);
      BlockedRunKeepsSound(v0, site, t.lib, t.kind, Steps(flags, t.kind, site.remains), t.stop);
    }
  }

  /** However often the update of a site of version `v0` is interrupted, wherever that happens and
      whatever library versions resume it: the stored version and the marker never fall below `v0`,
      nothing is done that `v0` does not call for, and when no marker is left, either no update was
      begun, or everything that `v0` calls for has been done. */
  lemma {:induction false} InterruptedUpdatesComplete(v0: Version, k: Kind, site: Site, attempts: seq<Attempt>)
    requires Sound(v0, k, site) && forall t <- attempts :: t.kind == k
    ensures Sound(v0, k, TryAll(site, attempts))
    decreases attempts
  {
    if attempts != [] {
      assert attempts[0] in attempts && forall t <- attempts[1..] :: t in attempts;
      TryKeepsSound(v0, site, attempts[0]);
      InterruptedUpdatesComplete(v0, k, Try(site, attempts[0]), attempts[1..]);
    }
  }

  /** A site that no update has touched. */
  ghost predicate New(v0: Version, site: Site) {
    site.version == v0 && site.marker.None? && site.log == []
  }

  lemma NewIsSound(v0: Version, k: Kind, site: Site)
    requires New(v0, site)
    ensures Sound(v0, k, site)
  {
  }

  /** An update of the site was begun and is over. */
  ghost predicate Updated(site: Site) {
    site.marker.None? && Begun(site.log)
  }

  /** On a site that began without a marker, once an update was begun and no marker is left, exactly
      the migrations that its original version calls for have been performed. */
  lemma UpdatesOfANewSiteAreExact(v0: Version, k: Kind, site: Site, attempts: seq<Attempt>, m: Migration)
    requires New(v0, site) && (forall t <- attempts :: t.kind == k) && Updated(TryAll(site, attempts))
    ensures Calls(v0, k, m) ==> Done(TryAll(site, attempts).log, m)
    ensures Done(TryAll(site, attempts).log, m) ==> Calls(v0, k, m) || m == AddClusterPolicy
  {
    NewIsSound(v0, k, site);
    InterruptedUpdatesComplete(v0, k, site, attempts);
  }

  /** The route for claims is there afterwards if and only if the site began below 0.5.0, is not an edge
      and uses routes. */
  lemma ClaimsRouteExactlyWhen(v0: Version, k: Kind, site: Site, attempts: seq<Attempt>)
    requires New(v0, site) && (forall t <- attempts :: t.kind == k) && Updated(TryAll(site, attempts))
    ensures Done(TryAll(site, attempts).log, ClaimsRoute) <==> LessRecent(v0, V050) && !k.edge && k.routes
  {
    UpdatesOfANewSiteAreExact(v0, k, site, attempts, ClaimsRoute);
  }
}
