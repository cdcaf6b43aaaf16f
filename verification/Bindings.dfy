/** The bindings the service controller keeps per address, and the ports they hold:
    `updateServiceBindings` in cmd/service-controller/controller.go, with the record of
    pkg/service/bindings.go.  Controller.dfy drives these functions. */
module Bindings {
  import opened Prelude
  import opened Ports
  import Targets

  // ---- Definitions and bindings --------------------------------------------------------------

  datatype Headless = Headless(name: string, size: int, targetPorts: map<int, int>)

  /** The `protocol` string of a definition. */
  datatype Protocol = Tcp | Http | Http2 | Other(name: string)

  /** The `origin` string of a definition: empty, `annotation`, or the ID of another site. */
  datatype Origin = NoOrigin | FromAnnotation | FromSite(id: string)

  /** The `exposeIngress` string of a definition: empty, `Always`, `Never` or something else. */
  datatype Exposure = Unset | Always | Never | Odd(text: string)

  datatype ServiceInterface = ServiceInterface(
    address: string,
    protocol: Protocol,
    ports: seq<int>,
    exposeIngress: Exposure,
    aggregate: string,
    eventChannel: bool,
    headless: Option<Headless>,
    labels: map<string, string>,
    annotations: map<string, string>,
    origin: Origin,
    tlsCredentials: string,
    tlsCertAuthority: string,
    publishNotReady: bool,
    bridgeImage: string,
    targets: seq<Targets.Target>)
  {
    /** What the definition says about its targets. */
    function Asks(): Targets.Request {
      Targets.Request(targets, ports, publishNotReady)
    }

    predicate RequiresExternalBridge() {
      bridgeImage != "" || protocol.Other?
    }

    predicate RequiresIngressPortAllocations() {
      headless.None? && !RequiresExternalBridge()
    }
  }

  /** How a service is exposed in the cluster: by a service that selects the router, by one that selects
      the external bridge of an address, not at all, or as a headless service. */
  datatype Ingress = ToRouter | ToBridge(address: string) | Unexposed | HeadlessInOrigin | HeadlessRemote

  function NewServiceIngress(def: ServiceInterface): Ingress {
    if def.RequiresExternalBridge() then ToBridge(def.address)
    else if def.headless.Some? then
      if def.origin.FromSite? then HeadlessRemote else HeadlessInOrigin
    else if def.exposeIngress == Never then Unexposed
    else ToRouter
  }

  /** The ingress is kept for this definition. */
  predicate Matches(ingress: Ingress, def: ServiceInterface) {
    match ingress
    case ToRouter => def.headless.None? && (def.exposeIngress == Unset || def.exposeIngress == Always)
    case ToBridge(_) => def.headless.None? && (def.exposeIngress == Unset || def.exposeIngress == Always)
    case Unexposed => def.headless.None? && def.exposeIngress == Never
    case HeadlessInOrigin => def.headless.Some? && def.origin == NoOrigin
    case HeadlessRemote => def.headless.Some? && def.origin != NoOrigin
  }

  /** How a definition is exposed: by its external bridge if it needs one; otherwise a headless one as
      such, remotely if it comes from another site; otherwise not at all if so asked, else by the router. */
  lemma NewIngressTells(def: ServiceInterface)
    ensures var bridge, ingress := def.bridgeImage != "" || def.protocol.Other?, NewServiceIngress(def);
            && (ingress == ToBridge(def.address) <==> bridge)
            && (ingress == HeadlessRemote <==> !bridge && def.headless.Some? && def.origin.FromSite?)
            && (ingress == HeadlessInOrigin <==> !bridge && def.headless.Some? && !def.origin.FromSite?)
            && (ingress == Unexposed <==> !bridge && def.headless.None? && def.exposeIngress == Never)
            && (ingress == ToRouter <==> !bridge && def.headless.None? && def.exposeIngress != Never)
  {
  }

  /** An ingress is kept if and only if it is headless exactly where the definition is, and agrees with
      where that comes from or with how it is to be exposed; an odd text for the latter renews it. */
  lemma KeptExactlyWhen(ingress: Ingress, def: ServiceInterface)
    ensures Matches(ingress, def) <==>
              && (ingress.HeadlessInOrigin? || ingress.HeadlessRemote? <==> def.headless.Some?)
              && (ingress.HeadlessInOrigin? ==> def.origin.NoOrigin?)
              && (ingress.HeadlessRemote? ==> !def.origin.NoOrigin?)
              && (ingress.Unexposed? ==> def.exposeIngress == Never)
              && (ingress.ToRouter? || ingress.ToBridge? ==> def.exposeIngress == Unset || def.exposeIngress == Always)
  {
  }

  /** An ingress that is kept is the one the definition calls for if and only if it goes to the bridge of
      that address exactly where there is one to be, and, if it is a remote headless one, the definition
      does come from another site: nothing else is checked when a bridge comes or goes. */
  lemma KeptIsRightExactlyWhen(ingress: Ingress, def: ServiceInterface)
    requires Matches(ingress, def)
    ensures ingress == NewServiceIngress(def) <==>
              && (ingress.ToBridge? <==> def.RequiresExternalBridge())
              && (ingress.ToBridge? ==> ingress.address == def.address)
              && (ingress.HeadlessRemote? ==> def.origin.FromSite?)
  {
  }

  datatype ServiceBindings = ServiceBindings(
    origin: Origin,
    protocol: Protocol,
    publicPorts: seq<int>,
    ingressPorts: seq<int>,
    ingress: Ingress,
    aggregation: string,
    eventChannel: bool,
    headless: Option<Headless>,
    labels: map<string, string>,
    annotations: map<string, string>,
    tlsCredentials: string,
    tlsCertAuthority: string,
    publishNotReady: bool,
    external: Option<ServiceInterface>,
    targets: Targets.Table)
  {
    /** Its ingress ports come from the pool. */
    predicate Pooled() {
      headless.None? && external.None?
    }
  }

  function NewServiceBindings(required: ServiceInterface, ports: seq<int>): ServiceBindings {
    ServiceBindings(required.origin, required.protocol, required.ports, ports, NewServiceIngress(required),
                    required.aggregate,
                    required.eventChannel, required.headless, required.labels, required.annotations,
                    required.tlsCredentials, required.tlsCertAuthority, required.publishNotReady,
                    if required.RequiresExternalBridge() then Some(required) else None,
                    Targets.NewTable(required.Asks()))
  }

  /** Labels and annotations are added to, and dropped only when none are required. */
  function Overlay(current: map<string, string>, required: map<string, string>): map<string, string> {
    if current == required then current
    else if required == map[] then map[]
    else current + required
  }

  /** `ServiceBindings.Update`. */
  function Updated(b: ServiceBindings, required: ServiceInterface): ServiceBindings {
    b.(protocol := required.protocol,
       publicPorts := required.ports,
       ingressPorts := if required.headless.Some? then required.ports else b.ingressPorts,
       ingress := if Matches(b.ingress, required) then b.ingress else NewServiceIngress(required),
       aggregation := required.aggregate,
       eventChannel := required.eventChannel,
       headless := required.headless,
       tlsCredentials := if b.tlsCredentials == "" then required.tlsCredentials else b.tlsCredentials,
       publishNotReady := required.publishNotReady,
       tlsCertAuthority := required.tlsCertAuthority,
       labels := Overlay(b.labels, required.labels),
       annotations := Overlay(b.annotations, required.annotations),
       external := if b.external == Some(required) then b.external
                   else if required.RequiresExternalBridge() then Some(required) else None,
       targets := Targets.NextTable(b.targets, required.Asks()))
  }

  /** A binding keeps an external bridge only for definitions that need one, and its targets are filed
      under what they select. */
  ghost predicate Sound(b: ServiceBindings) {
    (b.external.Some? ==> b.external.value.RequiresExternalBridge()) && Targets.WellKept(b.targets)
  }

  lemma NewIsSound(required: ServiceInterface, ports: seq<int>)
    ensures Sound(NewServiceBindings(required, ports))
  {
    Targets.AddIsPointwise(required.Asks(), required.targets, Targets.TargetKey("", ""));
  }

  /** An updated binding carries exactly the required labels if and only if they cover every label
      it had, or none are required: labels that disappear from a definition otherwise stay. */
  lemma LabelsFollowExactlyWhen(b: ServiceBindings, required: ServiceInterface)
    ensures Updated(b, required).labels == required.labels <==>
              b.labels.Keys <= required.labels.Keys || required.labels == map[]
    ensures Updated(b, required).annotations == required.annotations <==>
              b.annotations.Keys <= required.annotations.Keys || required.annotations == map[]
  {
    OverlayExactlyWhen(b.labels, required.labels);
    OverlayExactlyWhen(b.annotations, required.annotations);
  }

  lemma OverlayExactlyWhen(current: map<string, string>, required: map<string, string>)
    ensures Overlay(current, required) == required <==> current.Keys <= required.Keys || required == map[]
  {
    if current != required && required != map[] {
      assert (current + required).Keys == current.Keys + required.Keys;
      if current.Keys <= required.Keys {
        assert current + required == required;
      }
    }
  }

  // ---- Taking ports --------------------------------------------------------------------------

  datatype Taken = Taken(ports: seq<int>, free: set<int>, complete: bool)

  /** `n` calls of `nextFreePort`, stopping at the first failure. */
  ghost function Take(free: set<int>, n: nat): Taken {
    if n == 0 then Taken([], free, true)
    else if free == {} then Taken([], free, false)
    else
      var p := LeastOf(free);
      var rest := Take(free - {p}, n - 1);
      Taken([p] + rest.ports, rest.free, rest.complete)
  }

  /** Distinct ports that were free and no longer are. */
  ghost predicate Fair(free: set<int>, t: Taken) {
    NoDup(t.ports) && SetOf(t.ports) <= free && t.free == free - SetOf(t.ports)
  }

  /** The pool hands out distinct free ports, and fails exactly when too few are free. */
  lemma {:induction false} TakeIsExact(free: set<int>, n: nat)
    ensures Fair(free, Take(free, n))
    ensures Take(free, n).complete <==> |Take(free, n).ports| == n
    ensures Take(free, n).complete <==> n <= |free|
  {
    if n != 0 && free != {} {
      var p := LeastOf(free);
      var rest := Take(free - {p}, n - 1);
      TakeIsExact(free - {p}, n - 1);
      TakeOne(free, p, rest);
    }
  }

  lemma TakeOne(free: set<int>, p: int, rest: Taken)
    requires p in free && Fair(free - {p}, rest)
    ensures Fair(free, Taken([p] + rest.ports, rest.free, rest.complete))
    ensures |free| == |free - {p}| + 1
  {
    var ports := [p] + rest.ports;
    assert forall x :: x in ports <==> x == p || x in rest.ports;
    assert SetOf(ports) == {p} + SetOf(rest.ports);
    assert p !in SetOf(rest.ports);
    forall i, j | 0 <= i < j < |ports| ensures ports[i] != ports[j] {
      assert ports[j] in rest.ports;
    }
  }

  // ---- One update ----------------------------------------------------------------------------

  /** The bindings and the pool; and, for the accounts only: the pool ports that each binding holds whose
      ports are not the pool's business any more, the ports that nobody holds and nobody gave back, and
      the ports that are kept out of the pool for good. */
  datatype State = State(
    bindings: map<string, ServiceBindings>,
    free: set<int>,
    lent: map<string, set<int>>,
    lost: set<int>,
    withheld: set<int>)

  type Recovered = map<string, seq<int>>

  function PortsFor(recovered: Recovered, address: string): seq<int> {
    if address in recovered then recovered[address] else []
  }

  /** The pool ports that the binding of `a` holds. */
  ghost function Holds(st: State, a: string): set<int> {
    if a !in st.bindings then {}
    else if st.bindings[a].Pooled() then SetOf(st.bindings[a].ingressPorts)
    else if a in st.lent then st.lent[a]
    else {}
  }

  /** The first branch of `updateServiceBindings`: there is no binding yet.  `t` is what the pool
      hands out when asked for as many ports as are required. */
  ghost function Create(st: State, required: ServiceInterface, recovered: Recovered, t: Taken): (State, bool) {
    var a := required.address;
    if !required.RequiresIngressPortAllocations() then
      (st.(bindings := st.bindings[a := NewServiceBindings(required, required.ports)],
           lent := st.lent - {a},
           lost := st.lost + SetOf(PortsFor(recovered, a))), true)
    else if PortsFor(recovered, a) != [] then
      (st.(bindings := st.bindings[a := NewServiceBindings(required, recovered[a])]), true)
    else if t.complete then
      (st.(bindings := st.bindings[a := NewServiceBindings(required, t.ports)], free := t.free), true)
    else
      (st.(free := t.free, lost := st.lost + SetOf(t.ports)), false)
  }

  /** `ports` replace the ingress ports of `b`; of these, `mine` came from the pool.  A definition that
      draws on the pool makes all of them pool ports, a headless one forgets them. */
  ghost function Settle(st: State, b: ServiceBindings, ports: seq<int>, mine: set<int>,
                        required: ServiceInterface): State
  {
    var a, b' := required.address, Updated(b.(ingressPorts := ports), required);
    if b'.Pooled() then
      st.(bindings := st.bindings[a := b'], lent := st.lent - {a}, lost := st.lost - SetOf(ports))
    else if required.headless.Some? then
      st.(bindings := st.bindings[a := b'], lent := st.lent - {a}, lost := st.lost + mine)
    else
      st.(bindings := st.bindings[a := b'], lent := st.lent[a := mine])
  }

  /** The second branch: grow by `len(required.Ports)`, or release the surplus, then update. */
  ghost function Change(st: State, b: ServiceBindings, required: ServiceInterface, t: Taken): (State, bool) {
    var n, held, mine := |required.ports|, b.ingressPorts, Holds(st, required.address);
    if |held| < n then
      if t.complete then
        (Settle(st.(free := t.free), b, held + t.ports, mine + SetOf(t.ports), required), true)
      else
        (st.(free := t.free, lost := st.lost + SetOf(t.ports)), false)
    else
      var back := SetOf(held[n..]);
      (Settle(st.(free := st.free + back, lost := st.lost - back), b, held[..n], mine - back, required), true)
  }

  ghost function Delete(st: State, a: string): State {
    st.(bindings := st.bindings - {a}, lent := st.lent - {a}, lost := st.lost + Holds(st, a))
  }

  ghost function UpdateWith(st: State, required: ServiceInterface, allowed: bool, recovered: Recovered,
                            t: Taken): (State, bool)
  {
    var a := required.address;
    if a !in st.bindings then
      if allowed then Create(st, required, recovered, t) else (st, true)
    else if !allowed then
      (Delete(st, a), true)
    else
      Change(st, st.bindings[a], required, t)
  }

  /** `updateServiceBindings`; the second component is false where the source returns an error. */
  ghost function Update(st: State, required: ServiceInterface, allowed: bool, recovered: Recovered): (State, bool) {
    UpdateWith(st, required, allowed, recovered, Take(st.free, |required.ports|))
  }

  lemma PooledAfterUpdate(b: ServiceBindings, ports: seq<int>, required: ServiceInterface)
    requires Sound(b)
    ensures var b' := Updated(b.(ingressPorts := ports), required);
            && Sound(b')
            && (b'.Pooled() <==> required.RequiresIngressPortAllocations())
            && b'.ingressPorts == if required.headless.Some? then required.ports else ports
  {
    Targets.NextIsPointwise(b.targets, required.Asks(), Targets.TargetKey("", ""));
  }

  lemma CreateKeepsSound(st: State, required: ServiceInterface, recovered: Recovered, t: Taken)
    requires forall a <- st.bindings :: Sound(st.bindings[a])
    ensures var st' := Create(st, required, recovered, t).0; forall a <- st'.bindings :: Sound(st'.bindings[a])
  {
    NewIsSound(required, required.ports);
    NewIsSound(required, PortsFor(recovered, required.address));
    NewIsSound(required, t.ports);
  }

  lemma ChangeKeepsSound(st: State, required: ServiceInterface, t: Taken)
    requires (forall a <- st.bindings :: Sound(st.bindings[a])) && required.address in st.bindings
    ensures var st' := Change(st, st.bindings[required.address], required, t).0;
            forall a <- st'.bindings :: Sound(st'.bindings[a])
  {
    var b := st.bindings[required.address];
    PooledAfterUpdate(b, b.ingressPorts + t.ports, required);
    if |required.ports| <= |b.ingressPorts| {
      PooledAfterUpdate(b, b.ingressPorts[..|required.ports|], required);
    }
  }

  lemma UpdateKeepsSound(st: State, required: ServiceInterface, allowed: bool, recovered: Recovered, t: Taken)
    requires forall a <- st.bindings :: Sound(st.bindings[a])
    ensures var st' := UpdateWith(st, required, allowed, recovered, t).0;
            forall a <- st'.bindings :: Sound(st'.bindings[a])
  {
    CreateKeepsSound(st, required, recovered, t);
    if required.address in st.bindings {
      ChangeKeepsSound(st, required, t);
    }
  }

  // ---- Repeating an update -------------------------------------------------------------------

  ghost predicate BoundTo(st: State, a: string, n: nat) {
    a in st.bindings && |st.bindings[a].ingressPorts| == n
  }

  /** One successful update of a binding with `k` ports leaves it the `n` ports required if and only
      if it had none or at least `n`: growth takes `n` MORE ports, not the difference. */
  lemma OneUpdateSettlesExactlyWhen(st: State, required: ServiceInterface, recovered: Recovered)
    requires required.address in st.bindings && required.RequiresIngressPortAllocations()
    requires Update(st, required, true, recovered).1
    ensures var k, n := |st.bindings[required.address].ingressPorts|, |required.ports|;
            BoundTo(Update(st, required, true, recovered).0, required.address, n) <==> k == 0 || n <= k
  {
    var b, n, t := st.bindings[required.address], |required.ports|, Take(st.free, |required.ports|);
    TakeIsExact(st.free, n);
    if n <= |b.ingressPorts| {
      var back := SetOf(b.ingressPorts[n..]);
      SettledPorts(st.(free := st.free + back, lost := st.lost - back), b, b.ingressPorts[..n],
                   Holds(st, required.address) - back, required);
    } else {
      SettledPorts(st.(free := t.free), b, b.ingressPorts + t.ports, Holds(st, required.address) + SetOf(t.ports),
                   required);
    }
  }

  lemma SettledPorts(st: State, b: ServiceBindings, ports: seq<int>, mine: set<int>, required: ServiceInterface)
    requires required.headless.None?
    ensures BoundTo(Settle(st, b, ports, mine, required), required.address, |ports|)
  {
  }

  /** Updating a binding that has at least the ports required. */
  lemma UpdateOfEnough(st: State, required: ServiceInterface, recovered: Recovered)
    requires required.address in st.bindings && required.RequiresIngressPortAllocations()
    requires Sound(st.bindings[required.address])
    requires |required.ports| <= |st.bindings[required.address].ingressPorts|
    ensures var b := st.bindings[required.address];
            var after := Updated(b.(ingressPorts := b.ingressPorts[..|required.ports|]), required);
            var st' := Update(st, required, true, recovered);
            && st'.1 && required.address in st'.0.bindings && st'.0.bindings[required.address] == after
            && after.ingressPorts == b.ingressPorts[..|required.ports|]
            && (required.address !in st'.0.lent && SetOf(after.ingressPorts) !! st'.0.lost)
            && (|b.ingressPorts| == |required.ports| && after == b && required.address !in st.lent
                && SetOf(b.ingressPorts) !! st.lost
                ==> st'.0 == st)
  {
    var a, n := required.address, |required.ports|;
    var b, st' := st.bindings[a], Update(st, required, true, recovered).0;
    var after := Updated(b.(ingressPorts := b.ingressPorts[..n]), required);
    PooledAfterUpdate(b, b.ingressPorts[..n], required);
    if |b.ingressPorts| == n && after == b && a !in st.lent && SetOf(b.ingressPorts) !! st.lost {
      assert b.ingressPorts[n..] == [] && b.ingressPorts[..n] == b.ingressPorts;
      assert SetOf(b.ingressPorts[n..]) == {};
      assert st'.lent == st.lent && st'.lost == st.lost && st'.bindings == st.bindings;
    }
  }

  /** A second update always succeeds and always leaves exactly the ports required; a third changes
      nothing at all. */
  lemma RepeatedUpdateSettles(st: State, required: ServiceInterface, recovered: Recovered)
    requires required.address in st.bindings && required.RequiresIngressPortAllocations()
    requires Sound(st.bindings[required.address])
    requires Update(st, required, true, recovered).1
    ensures var once := Update(st, required, true, recovered).0;
            var twice := Update(once, required, true, recovered);
            && twice.1 && BoundTo(twice.0, required.address, |required.ports|)
            && Update(twice.0, required, true, recovered) == (twice.0, true)
  {
    var a, n := required.address, |required.ports|;
    var once := Update(st, required, true, recovered).0;
    OnceIsEnough(st, required, recovered);
    var b := once.bindings[a];
    UpdateOfEnough(once, required, recovered);
    var twice := Update(once, required, true, recovered).0;
    var kept := b.(ingressPorts := b.ingressPorts[..n]);
    UpdatedAgain(kept, st.bindings[a].targets, required);
    PooledAfterUpdate(b, b.ingressPorts[..n], required);
    var b2 := twice.bindings[a];
    assert b2 == Updated(kept, required) && b2.ingressPorts[..n] == b2.ingressPorts;
    assert b2.(ingressPorts := b2.ingressPorts[..n]) == b2;
    UpdateOfEnough(twice, required, recovered);
  }

  lemma OnceIsEnough(st: State, required: ServiceInterface, recovered: Recovered)
    requires required.address in st.bindings && required.RequiresIngressPortAllocations()
    requires Sound(st.bindings[required.address])
    requires Update(st, required, true, recovered).1
    ensures var once := Update(st, required, true, recovered).0;
            && required.address in once.bindings
            && |once.bindings[required.address].ingressPorts| >= |required.ports|
            && Sound(once.bindings[required.address])
            && once.bindings[required.address].targets ==
                 Targets.NextTable(st.bindings[required.address].targets, required.Asks())
  {
    var b := st.bindings[required.address];
    TakeIsExact(st.free, |required.ports|);
    PooledAfterUpdate(b, b.ingressPorts + Take(st.free, |required.ports|).ports, required);
    if |required.ports| <= |b.ingressPorts| {
      PooledAfterUpdate(b, b.ingressPorts[..|required.ports|], required);
    }
  }

  /** Only targets may take a second update to settle: one that was a service's and is now a selector's,
      under the same key, is removed by the first and made by the second. */
  lemma UpdatedAgain(b: ServiceBindings, table: Targets.Table, required: ServiceInterface)
    requires Targets.WellKept(table) && b.targets == Targets.NextTable(table, required.Asks())
    ensures Updated(Updated(b, required), required) == Updated(b, required)
  {
    Targets.SecondUpdateSettles(table, required.Asks());
    assert b.labels + required.labels + required.labels == b.labels + required.labels;
    assert b.annotations + required.annotations + required.annotations == b.annotations + required.annotations;
  }
}
