/** Taking over the ports of an existing Kubernetes service, recording what they were, and restoring
    them: cmd/service-controller/definition_monitor.go, pkg/kube/serviceingressbindings.go,
    pkg/kube/services.go and pkg/kube/misc.go. */
module Restore {
  import opened Prelude

  /** An `intstr.IntOrString`; its `IntVal` is 0 for a named port. */
  datatype TargetPort = Number(value: int) | Named(name: string) {
    function IntVal(): int {
      if Number? then value else 0
    }
  }

  /** `Numbered(p)` is the name `port<p>`. */
  datatype PortName = Given(text: string) | Numbered(port: int)

  datatype ServicePort = ServicePort(name: PortName, protocol: string, port: int, targetPort: TargetPort)

  type PortMap = map<int, int>

  /** The ports as a map to target ports; of several with one number the last counts. */
  function Mapping(ports: seq<ServicePort>): PortMap {
    if ports == [] then map[]
    else
      var p := ports[|ports| - 1];
      Mapping(ports[..|ports| - 1])[p.port := p.targetPort.IntVal()]
  }

  function Numbers(ports: seq<ServicePort>): set<int> {
    set i | 0 <= i < |ports| :: ports[i].port
  }

  ghost predicate Distinct(ports: seq<ServicePort>) {
    forall i, j | 0 <= i < j < |ports| :: ports[i].port != ports[j].port
  }

  /** Every listed port is wanted and has the wanted target. */
  ghost predicate Suits(ports: seq<ServicePort>, wanted: PortMap) {
    forall i | 0 <= i < |ports| :: ports[i].port in wanted && ports[i].targetPort.IntVal() == wanted[ports[i].port]
  }

  // ---- Fitting a port list to a map ----------------------------------------------------------

  /** A port with the target the map wants; `lazy` leaves a target alone whose number is right already. */
  function Retarget(p: ServicePort, target: int, lazy: bool): ServicePort {
    if lazy && p.targetPort.IntVal() == target then p else p.(targetPort := Number(target))
  }

  /** Of the first `n` ports the first with each wanted number, retargeted. */
  function Kept(ports: seq<ServicePort>, wanted: PortMap, lazy: bool, n: nat): seq<ServicePort>
    requires n <= |ports|
  {
    if n == 0 then []
    else
      var p := ports[n - 1];
      Kept(ports, wanted, lazy, n - 1) +
      if p.port in wanted && p.port !in Numbers(ports[..n - 1]) then [Retarget(p, wanted[p.port], lazy)] else []
  }

  /** A new entry for each of `numbers`, once, in some order. */
  ghost predicate Adds(added: seq<ServicePort>, wanted: PortMap, protocol: string, numbers: set<int>) {
    && (forall i | 0 <= i < |added| ::
          added[i].port in numbers && added[i].port in wanted
          && added[i] == ServicePort(Numbered(added[i].port), protocol, added[i].port, Number(wanted[added[i].port])))
    && Distinct(added)
    && Numbers(added) == numbers
  }

  /** The kept ports in their order, then the missing ones. */
  ghost predicate Fitted(ports: seq<ServicePort>, wanted: PortMap, protocol: string, lazy: bool,
                         fitted: seq<ServicePort>)
  {
    var kept := Kept(ports, wanted, lazy, |ports|);
    && |kept| <= |fitted| && fitted[..|kept|] == kept
    && Adds(fitted[|kept|..], wanted, protocol, wanted.Keys - Numbers(ports))
  }

  lemma NumbersSnoc(ports: seq<ServicePort>, p: ServicePort)
    ensures Numbers(ports + [p]) == Numbers(ports) + {p.port}
  {
    var more := ports + [p];
    assert more[|ports|] == p;
    forall x <- Numbers(ports) ensures x in Numbers(more) {
      var i :| 0 <= i < |ports| && ports[i].port == x;
      assert more[i].port == x;
    }
  }

  lemma SuitsOneMore(kept: seq<ServicePort>, wanted: PortMap, p: ServicePort)
    requires Suits(kept, wanted) && Distinct(kept) && p.port !in Numbers(kept)
    requires p.port in wanted && p.targetPort.IntVal() == wanted[p.port]
    ensures Suits(kept + [p], wanted) && Distinct(kept + [p])
  {
    assert forall i | 0 <= i < |kept| :: kept[i].port in Numbers(kept);
  }

  lemma {:induction false} KeptNumbers(ports: seq<ServicePort>, wanted: PortMap, lazy: bool, n: nat)
    requires n <= |ports|
    ensures var kept := Kept(ports, wanted, lazy, n);
            Numbers(kept) == Numbers(ports[..n]) * wanted.Keys && Distinct(kept) && Suits(kept, wanted)
  {
    if n > 0 {
      KeptNumbers(ports, wanted, lazy, n - 1);
      var p, kept := ports[n - 1], Kept(ports, wanted, lazy, n - 1);
      assert ports[..n] == ports[..n - 1] + [p];
      NumbersSnoc(ports[..n - 1], p);
      if p.port in wanted && p.port !in Numbers(ports[..n - 1]) {
        var q := Retarget(p, wanted[p.port], lazy);
        NumbersSnoc(kept, q);
        SuitsOneMore(kept, wanted, q);
      } else {
        assert Kept(ports, wanted, lazy, n) == kept;
      }
    }
  }

  lemma {:induction false} DistinctMapping(ports: seq<ServicePort>, wanted: PortMap)
    requires Distinct(ports) && Numbers(ports) == wanted.Keys
    requires Suits(ports, wanted)
    ensures Mapping(ports) == wanted
  {
    if ports != [] {
      var n := |ports| - 1;
      var less := wanted - {ports[n].port};
      AllButLast(ports, wanted);
      DistinctMapping(ports[..n], less);
      assert less[ports[n].port := wanted[ports[n].port]] == wanted;
    }
  }

  lemma AllButLast(ports: seq<ServicePort>, wanted: PortMap)
    requires ports != [] && Distinct(ports) && Numbers(ports) == wanted.Keys && Suits(ports, wanted)
    ensures var init, less := ports[..|ports| - 1], wanted - {ports[|ports| - 1].port};
            Distinct(init) && Numbers(init) == less.Keys && Suits(init, less)
  {
    var n := |ports| - 1;
    var init := ports[..n];
    assert ports == init + [ports[n]];
    NumbersSnoc(init, ports[n]);
    assert forall i | 0 <= i < n :: init[i] == ports[i] && init[i].port != ports[n].port;
  }

  lemma NumbersConcat(a: seq<ServicePort>, b: seq<ServicePort>)
    ensures Numbers(a + b) == Numbers(a) + Numbers(b)
  {
    forall x <- Numbers(a) ensures x in Numbers(a + b) {
      var i :| 0 <= i < |a| && a[i].port == x;
      assert (a + b)[i].port == x;
    }
    forall x <- Numbers(b) ensures x in Numbers(a + b) {
      var i :| 0 <= i < |b| && b[i].port == x;
      assert (a + b)[|a| + i].port == x;
    }
  }

  lemma DistinctConcat(a: seq<ServicePort>, b: seq<ServicePort>)
    requires Distinct(a) && Distinct(b) && Numbers(a) !! Numbers(b)
    ensures Distinct(a + b)
  {
    assert forall i | 0 <= i < |a| :: a[i].port in Numbers(a);
    assert forall i | 0 <= i < |b| :: b[i].port in Numbers(b);
  }

  /** A fitted list is exactly the wanted map: nothing lost, invented or listed twice. */
  lemma FittedIsExact(ports: seq<ServicePort>, wanted: PortMap, protocol: string, lazy: bool, fitted: seq<ServicePort>)
    requires Fitted(ports, wanted, protocol, lazy, fitted)
    ensures Distinct(fitted) && Mapping(fitted) == wanted
  {
    var kept := Kept(ports, wanted, lazy, |ports|);
    var added := fitted[|kept|..];
    KeptNumbers(ports, wanted, lazy, |ports|);
    assert ports[..|ports|] == ports;
    assert fitted == kept + added;
    NumbersConcat(kept, added);
    DistinctConcat(kept, added);
    assert Suits(added, wanted);
    SuitsConcat(kept, added, wanted);
    assert Numbers(fitted) == wanted.Keys;
    DistinctMapping(fitted, wanted);
  }

  lemma SuitsConcat(a: seq<ServicePort>, b: seq<ServicePort>, wanted: PortMap)
    requires Suits(a, wanted) && Suits(b, wanted)
    ensures Suits(a + b, wanted)
  {
  }

  /** The ports still wanted after the first `n`: deleting from the map as the loops do. */
  ghost predicate Remaining(ports: seq<ServicePort>, wanted: PortMap, n: nat, rest: PortMap)
    requires n <= |ports|
  {
    rest == wanted - Numbers(ports[..n])
  }

  lemma RemainingStep(ports: seq<ServicePort>, wanted: PortMap, n: nat)
    requires n < |ports|
    ensures wanted - Numbers(ports[..n + 1]) == (wanted - Numbers(ports[..n])) - {ports[n].port}
    ensures ports[n].port in wanted - Numbers(ports[..n]) <==>
              ports[n].port in wanted && ports[n].port !in Numbers(ports[..n])
  {
    assert ports[..n + 1] == ports[..n] + [ports[n]];
    NumbersSnoc(ports[..n], ports[n]);
  }

  lemma Inhabited(numbers: set<int>)
    requires numbers != {}
    ensures exists k :: k in numbers
  {
    var k: int := Pick(numbers);
    assert k in numbers;
  }

  /** The second loop: an entry for each port left in the map, in any order. */
  method AddMissing(wanted: PortMap, rest: PortMap, protocol: string) returns (added: seq<ServicePort>)
    requires rest.Keys <= wanted.Keys && forall k <- rest :: rest[k] == wanted[k]
    ensures Adds(added, wanted, protocol, rest.Keys)
  {
    added := [];
    var todo := rest.Keys;
    while todo != {}
      invariant todo <= rest.Keys && Adds(added, wanted, protocol, rest.Keys - todo)
      decreases todo
    {
      Inhabited(todo);
      var k :| k in todo;
      var p := ServicePort(Numbered(k), protocol, k, Number(rest[k]));
      NumbersSnoc(added, p);
      assert forall i | 0 <= i < |added| :: added[i].port in Numbers(added);
      assert rest.Keys - (todo - {k}) == (rest.Keys - todo) + {k};
      added := added + [p];
      todo := todo - {k};
    }
    assert rest.Keys - todo == rest.Keys;
  }

  // ---- The recorded ports --------------------------------------------------------------------

  datatype Field = Num(value: int) | Junk

  /** One comma-separated part of the annotation: a port and perhaps, after a colon, its target. */
  datatype Entry = Entry(port: Field, target: Option<Field>) {
    predicate Good() {
      port.Num? && (target.Some? ==> target.value.Num?)
    }

    function Target(): int
      requires Good()
    {
      if target.Some? then target.value.value else port.value
    }
  }

  /** The annotation's parts; none for the empty text. */
  type PortText = seq<Entry>

  predicate AllGood(text: PortText) {
    forall i | 0 <= i < |text| :: text[i].Good()
  }

  /** What the text denotes: nothing if any part is malformed. */
  function Denoted(text: PortText): PortMap {
    if AllGood(text) then LastOf(text) else map[]
  }

  function LastOf(text: PortText): PortMap
    requires AllGood(text)
  {
    if text == [] then map[]
    else
      var e := text[|text| - 1];
      LastOf(text[..|text| - 1])[e.port.value := e.Target()]
  }

  method PortLabelStrToMap(text: PortText) returns (ports: PortMap)
    ensures ports == Denoted(text)
  {
    ports := map[];
    for i := 0 to |text|
      invariant AllGood(text[..i]) && ports == LastOf(text[..i])
    {
      var e := text[i];
      if e.port.Junk? {
        return map[];
      }
      var target := e.port.value;
      if e.target.Some? {
        if e.target.value.Junk? {
          return map[];
        }
        target := e.target.value.value;
      }
      assert text[..i + 1][..i] == text[..i];
      ports := ports[e.port.value := target];
    }
    assert text[..|text|] == text;
  }

  function PortsAsString(ports: seq<ServicePort>): PortText {
    seq(|ports|, i requires 0 <= i < |ports| => Entry(Num(ports[i].port), Some(Num(ports[i].targetPort.IntVal()))))
  }

  /** Reading back what was recorded gives the mapping of the recorded ports. */
  lemma {:induction false} RecordRoundTrip(ports: seq<ServicePort>)
    ensures Denoted(PortsAsString(ports)) == Mapping(ports)
  {
    if ports != [] {
      var init := ports[..|ports| - 1];
      RecordRoundTrip(init);
      var text := PortsAsString(ports);
      assert text[..|text| - 1] == PortsAsString(init);
    }
  }

  // ---- Taking over and restoring -------------------------------------------------------------

  /** A service with the three annotations that say what it was. */
  datatype Service = Service(
    ports: seq<ServicePort>,
    selector: map<string, string>,
    originalSelector: Option<map<string, string>>,
    originalTargetPort: Option<PortText>,
    originalAssigned: Option<PortText>)

  /** `update` is reported unless the list already is the wanted map. */
  ghost predicate IsPortUpdate(ports: seq<ServicePort>, wanted: PortMap, protocol: string, updated: bool,
                               ports': seq<ServicePort>)
  {
    && (updated <==> !(Distinct(ports) && Mapping(ports) == wanted))
    && if updated then Fitted(ports, wanted, protocol, true, ports') else ports' == ports
  }

  lemma {:induction false} MappingDistinct(ports: seq<ServicePort>, i: nat)
    requires i < |ports| && Distinct(ports)
    ensures ports[i].port in Mapping(ports) && Mapping(ports)[ports[i].port] == ports[i].targetPort.IntVal()
  {
    var n := |ports| - 1;
    if i < n {
      assert ports[..n][i] == ports[i] && Distinct(ports[..n]);
      MappingDistinct(ports[..n], i);
    }
  }

  lemma {:induction false} MappingKeys(ports: seq<ServicePort>)
    ensures Mapping(ports).Keys == Numbers(ports)
  {
    if ports != [] {
      var n := |ports| - 1;
      MappingKeys(ports[..n]);
      assert ports == ports[..n] + [ports[n]];
      NumbersSnoc(ports[..n], ports[n]);
    }
  }

  /** The first `n` ports need no change: each is wanted, listed once, and has the right target. */
  ghost predicate Settled(ports: seq<ServicePort>, wanted: PortMap, n: nat)
    requires n <= |ports|
  {
    Distinct(ports[..n]) && Suits(ports[..n], wanted)
  }

  lemma SettledIsMapping(ports: seq<ServicePort>, wanted: PortMap)
    ensures Settled(ports, wanted, |ports|) && wanted.Keys <= Numbers(ports) <==>
              Distinct(ports) && Mapping(ports) == wanted
  {
    assert ports[..|ports|] == ports;
    if Settled(ports, wanted, |ports|) && wanted.Keys <= Numbers(ports) {
      DistinctMapping(ports, wanted);
    }
    if Distinct(ports) && Mapping(ports) == wanted {
      MappingKeys(ports);
      forall i | 0 <= i < |ports|
        ensures ports[i].port in wanted && ports[i].targetPort.IntVal() == wanted[ports[i].port] {
        MappingDistinct(ports, i);
      }
    }
  }

  lemma SettledStep(ports: seq<ServicePort>, wanted: PortMap, n: nat)
    requires n < |ports|
    ensures Settled(ports, wanted, n + 1) <==>
            && Settled(ports, wanted, n) && ports[n].port in wanted && ports[n].port !in Numbers(ports[..n])
            && ports[n].targetPort.IntVal() == wanted[ports[n].port]
  {
    assert ports[..n + 1] == ports[..n] + [ports[n]];
    if Settled(ports, wanted, n + 1) {
      forall i | 0 <= i < n ensures ports[..n][i].port != ports[n].port {
        assert ports[..n + 1][i].port != ports[..n + 1][n].port;
      }
      forall i, j | 0 <= i < j < n ensures ports[..n][i].port != ports[..n][j].port {
        assert ports[..n + 1][i].port != ports[..n + 1][j].port;
      }
    }
    if Settled(ports, wanted, n) && ports[n].port !in Numbers(ports[..n]) {
      assert forall i | 0 <= i < n :: ports[..n][i].port in Numbers(ports[..n]);
    }
  }

  method UpdatePorts(ports: seq<ServicePort>, wanted: PortMap, protocol: string)
      returns (updated: bool, ports': seq<ServicePort>)
    ensures IsPortUpdate(ports, wanted, protocol, updated, ports')
  {
    var rest, kept := wanted, [];
    updated := false;
    for n := 0 to |ports|
      invariant Remaining(ports, wanted, n, rest)
      invariant kept == Kept(ports, wanted, true, n)
      invariant updated <==> !Settled(ports, wanted, n)
    {
      var p := ports[n];
      RemainingStep(ports, wanted, n);
      SettledStep(ports, wanted, n);
      if p.port in rest {
        if rest[p.port] != p.targetPort.IntVal() {
          updated := true;
        }
        kept := kept + [Retarget(p, rest[p.port], true)];
        rest := rest - {p.port};
      } else {
        updated := true;
      }
    }
    assert ports[..|ports|] == ports;
    SettledIsMapping(ports, wanted);
    NothingMissing(ports, wanted, rest);
    if rest.Keys != {} {
      updated := true;
    }
    var added := AddMissing(wanted, rest, protocol);
    JoinedIsFitted(ports, wanted, protocol, rest, added);
    ports' := if updated then kept + added else ports;
  }

  lemma NothingMissing(ports: seq<ServicePort>, wanted: PortMap, rest: PortMap)
    requires rest == wanted - Numbers(ports)
    ensures rest.Keys == {} <==> wanted.Keys <= Numbers(ports)
  {
    assert rest.Keys == wanted.Keys - Numbers(ports);
    forall p <- wanted ensures p in rest.Keys <==> p !in Numbers(ports) {
    }
  }

  lemma JoinedIsFitted(ports: seq<ServicePort>, wanted: PortMap, protocol: string, rest: PortMap,
                       added: seq<ServicePort>)
    requires rest == wanted - Numbers(ports) && Adds(added, wanted, protocol, rest.Keys)
    ensures Fitted(ports, wanted, protocol, true, Kept(ports, wanted, true, |ports|) + added)
  {
    var kept := Kept(ports, wanted, true, |ports|);
    assert rest.Keys == wanted.Keys - Numbers(ports);
    assert (kept + added)[|kept|..] == added;
  }

  /** What one takeover makes of a service: a change of the ports is recorded unless the site owns it. */
  ghost predicate IsTakeover(service: Service, owned: bool, wanted: PortMap, protocol: string, service': Service) {
    exists updated, ports' ::
        IsPortUpdate(service.ports, wanted, protocol, updated, ports')
            && service' == Taken(service, owned, updated, ports')
  }

  function Taken(service: Service, owned: bool, updated: bool, ports': seq<ServicePort>): Service {
    if updated && !owned then
      service.(ports := ports', originalTargetPort := Some(PortsAsString(service.ports)),
               originalAssigned := Some(PortsAsString(ports')))
    else service.(ports := ports')
  }

  method Takeover(service: Service, owned: bool, wanted: PortMap, protocol: string) returns (service': Service)
    ensures IsTakeover(service, owned, wanted, protocol, service')
  {
    var original := PortsAsString(service.ports);
    var updated, ports' := UpdatePorts(service.ports, wanted, protocol);
    service' := service.(ports := ports');
    if updated && !owned {
      service' := service'.(originalTargetPort := Some(original), originalAssigned := Some(PortsAsString(ports')));
    }
    assert IsPortUpdate(service.ports, wanted, protocol, updated, ports');
  }

  /** What a restore writes back, if it writes anything. */
  ghost predicate IsRestore(service: Service, updated: bool, service': Service) {
    && (updated <==>
        service.originalSelector.Some? || service.originalTargetPort.Some? || service.originalAssigned.Some?)
    && service'.originalSelector.None? && service'.originalTargetPort.None? && service'.originalAssigned.None?
    && service'.selector ==
         (if service.originalSelector.Some? then service.originalSelector.value else service.selector)
    && if service.originalTargetPort.Some? then
         Fitted(service.ports, Denoted(service.originalTargetPort.value), "TCP", false, service'.ports)
       else service'.ports == service.ports
  }

  method RestoreServiceDefinitions(service: Service) returns (updated: bool, service': Service)
    ensures IsRestore(service, updated, service')
  {
    updated, service' := false, service;
    if service'.originalSelector.Some? {
      updated := true;
      service' := service'.(originalSelector := None, selector := service'.originalSelector.value);
    }
    if service'.originalTargetPort.Some? {
      updated := true;
      var wanted := PortLabelStrToMap(service'.originalTargetPort.value);
      var ports, rest, restored := service'.ports, wanted, [];
      for n := 0 to |ports|
        invariant Remaining(ports, wanted, n, rest)
        invariant restored == Kept(ports, wanted, false, n)
      {
        var p := ports[n];
        RemainingStep(ports, wanted, n);
        if p.port in rest {
          restored := restored + [p.(targetPort := Number(rest[p.port]))];
          rest := rest - {p.port};
        }
      }
      assert ports[..|ports|] == ports;
      assert rest.Keys == wanted.Keys - Numbers(ports);
      var added := AddMissing(wanted, rest, "TCP");
      assert (restored + added)[|restored|..] == added;
      service' := service'.(originalTargetPort := None, ports := restored + added);
    }
    if service'.originalAssigned.Some? {
      updated := true;
      service' := service'.(originalAssigned := None);
    }
  }

  // ---- What a restore brings back ------------------------------------------------------------

  lemma RestoredIsRecorded(service: Service, updated: bool, service': Service)
    requires IsRestore(service, updated, service')
    ensures if service.originalTargetPort.Some? then
              Distinct(service'.ports) && Mapping(service'.ports) == Denoted(service.originalTargetPort.value)
            else service'.ports == service.ports
  {
    if service.originalTargetPort.Some? {
      FittedIsExact(service.ports, Denoted(service.originalTargetPort.value), "TCP", false, service'.ports);
    }
  }

  /** The restored list is the recorded map exactly, whatever the service lists by then; a second
      restore changes and writes nothing. */
  lemma RestoreIsExact(service: Service, updated: bool, service': Service, again: bool, service'': Service)
    requires IsRestore(service, updated, service') && IsRestore(service', again, service'')
    ensures service.originalTargetPort.Some? ==>
              Distinct(service'.ports) && Mapping(service'.ports) == Denoted(service.originalTargetPort.value)
    ensures !again && service'' == service'
  {
    RestoredIsRecorded(service, updated, service');
  }

  // ---- Any number of takeovers ---------------------------------------------------------------

  /** The ports in force when takeover `i` begins. */
  function Before(original: PortMap, wanted: seq<PortMap>, i: nat): PortMap
    requires i <= |wanted|
  {
    if i == 0 then original else wanted[i - 1]
  }

  /** Takeover `i` changes the ports: they are not the wanted ones, or the service lists a port twice. */
  predicate Changes(distinct: bool, original: PortMap, wanted: seq<PortMap>, i: nat)
    requires i < |wanted|
  {
    wanted[i] != Before(original, wanted, i) || (i == 0 && !distinct)
  }

  ghost predicate NoChange(distinct: bool, original: PortMap, wanted: seq<PortMap>, n: nat)
    requires n <= |wanted|
  {
    forall i | 0 <= i < n :: !Changes(distinct, original, wanted, i)
  }

  ghost predicate LastChange(distinct: bool, original: PortMap, wanted: seq<PortMap>, i: nat) {
    && i < |wanted| && Changes(distinct, original, wanted, i)
    && forall j | i < j < |wanted| :: !Changes(distinct, original, wanted, j)
  }

  ghost predicate IsTakeoverRun(services: seq<Service>, wanted: seq<PortMap>, protocol: string) {
    && |services| == |wanted| + 1
    && forall i | 0 <= i < |wanted| :: IsTakeover(services[i], false, wanted[i], protocol, services[i + 1])
  }

  ghost predicate Untouched(service: Service) {
    service.originalTargetPort.None?
  }

  /** After the first `n` takeovers: the ports in force are those last wanted, and on record are those
      in force before the last change. */
  ghost predicate Tracks(services: seq<Service>, wanted: seq<PortMap>, n: nat)
    requires n <= |wanted| && |services| == |wanted| + 1
  {
    var distinct, original, now := Distinct(services[0].ports), Mapping(services[0].ports), services[n];
    && Mapping(now.ports) == Before(original, wanted, n) && (n > 0 ==> Distinct(now.ports))
    && (forall i | LastChange(distinct, original, wanted[..n], i) ::
          now.originalTargetPort.Some? && Denoted(now.originalTargetPort.value) == Before(original, wanted, i))
    && (NoChange(distinct, original, wanted, n) ==> now.originalTargetPort.None? && now.ports == services[0].ports)
  }

  /** What one takeover does to the ports in force and to the record. */
  lemma TakeoverRecords(service: Service, wanted: PortMap, protocol: string, service': Service)
    requires IsTakeover(service, false, wanted, protocol, service')
    ensures Mapping(service'.ports) == wanted && Distinct(service'.ports)
    ensures if Distinct(service.ports) && Mapping(service.ports) == wanted then service' == service
            else
              && service'.originalTargetPort.Some?
              && Denoted(service'.originalTargetPort.value) == Mapping(service.ports)
  {
    var updated, ports' :| IsPortUpdate(service.ports, wanted, protocol, updated, ports')
        && service' == Taken(service, false, updated, ports');
    if updated {
      FittedIsExact(service.ports, wanted, protocol, true, ports');
      RecordRoundTrip(service.ports);
    }
  }

  lemma ChangesOfPrefix(distinct: bool, original: PortMap, wanted: seq<PortMap>, n: nat, i: nat)
    requires i < n <= |wanted|
    ensures Changes(distinct, original, wanted[..n], i) <==> Changes(distinct, original, wanted, i)
    ensures Before(original, wanted[..n], i) == Before(original, wanted, i)
  {
  }

  lemma LastChangeMore(distinct: bool, original: PortMap, wanted: seq<PortMap>, n: nat, i: nat)
    requires n < |wanted| && LastChange(distinct, original, wanted[..n + 1], i)
    ensures Changes(distinct, original, wanted, n) <==> i == n
    ensures i < n ==> LastChange(distinct, original, wanted[..n], i)
  {
    forall j: nat | j < n + 1
      ensures Changes(distinct, original, wanted[..n + 1], j) <==> Changes(distinct, original, wanted, j)
      ensures j < n ==>
                (Changes(distinct, original, wanted[..n], j) <==> Changes(distinct, original, wanted, j))
    {
      ChangesOfPrefix(distinct, original, wanted, n + 1, j);
      if j < n {
        ChangesOfPrefix(distinct, original, wanted, n, j);
      }
    }
    assert i < n ==> !Changes(distinct, original, wanted[..n + 1], n);
  }

  lemma {:induction false} RunTracks(services: seq<Service>, wanted: seq<PortMap>, protocol: string, n: nat)
    requires IsTakeoverRun(services, wanted, protocol) && Untouched(services[0]) && n <= |wanted|
    ensures Tracks(services, wanted, n)
  {
    if n > 0 {
      var k := n - 1;
      var distinct, original := Distinct(services[0].ports), Mapping(services[0].ports);
      RunTracks(services, wanted, protocol, k);
      TakeoverRecords(services[k], wanted[k], protocol, services[k + 1]);
      assert (Distinct(services[k].ports) && Mapping(services[k].ports) == wanted[k]) <==>
          !Changes(distinct, original, wanted, k);
      forall i | LastChange(distinct, original, wanted[..n], i)
        ensures services[n].originalTargetPort.Some?
        ensures Denoted(services[n].originalTargetPort.value) == Before(original, wanted, i)
      {
        LastChangeMore(distinct, original, wanted, k, i);
      }
    }
  }

  /** Restoring after any number of takeovers brings back the ports that were in force before the last
      takeover that changed them, and leaves the service as it was if none did. */
  lemma RestoreUndoesLastChange(services: seq<Service>, wanted: seq<PortMap>, protocol: string, updated: bool,
                                restored: Service)
    requires IsTakeoverRun(services, wanted, protocol) && Untouched(services[0])
    requires IsRestore(services[|wanted|], updated, restored)
    ensures var distinct, original := Distinct(services[0].ports), Mapping(services[0].ports);
            && (forall i | LastChange(distinct, original, wanted, i) ::
                  Distinct(restored.ports) && Mapping(restored.ports) == Before(original, wanted, i))
            && (NoChange(distinct, original, wanted, |wanted|) ==> restored.ports == services[0].ports)
  {
    RunTracks(services, wanted, protocol, |wanted|);
    RestoredIsRecorded(services[|wanted|], updated, restored);
    var distinct, original, last := Distinct(services[0].ports), Mapping(services[0].ports), services[|wanted|];
    assert wanted[..|wanted|] == wanted;
    forall i | LastChange(distinct, original, wanted, i)
      ensures Distinct(restored.ports) && Mapping(restored.ports) == Before(original, wanted, i)
    {
      assert last.originalTargetPort.Some? && Denoted(last.originalTargetPort.value) == Before(original, wanted, i);
    }
  }

  lemma {:induction false} SomeLastChange(distinct: bool, original: PortMap, wanted: seq<PortMap>, n: nat)
      returns (last: nat)
    requires n <= |wanted| && exists i :: 0 <= i < n && Changes(distinct, original, wanted, i)
    requires forall j | n <= j < |wanted| :: !Changes(distinct, original, wanted, j)
    ensures LastChange(distinct, original, wanted, last)
  {
    if Changes(distinct, original, wanted, n - 1) {
      last := n - 1;
    } else {
      last := SomeLastChange(distinct, original, wanted, n - 1);
    }
  }

  /** The original ports come back if and only if no takeover changed them, or the last that changed any
      found the original ones in force. */
  lemma OriginalComesBackExactlyWhen(services: seq<Service>, wanted: seq<PortMap>, protocol: string, updated: bool,
                                     restored: Service)
    requires IsTakeoverRun(services, wanted, protocol) && Untouched(services[0])
    requires IsRestore(services[|wanted|], updated, restored)
    ensures var distinct, original := Distinct(services[0].ports), Mapping(services[0].ports);
            Mapping(restored.ports) == original <==>
            || NoChange(distinct, original, wanted, |wanted|)
            || (exists i: nat :: LastChange(distinct, original, wanted, i) && Before(original, wanted, i) == original)
  {
    RestoreUndoesLastChange(services, wanted, protocol, updated, restored);
    var distinct, original := Distinct(services[0].ports), Mapping(services[0].ports);
    if !NoChange(distinct, original, wanted, |wanted|) {
      var last := SomeLastChange(distinct, original, wanted, |wanted|);
      assert Mapping(restored.ports) == Before(original, wanted, last);
    }
  }

  /** A service whose ports are taken over twice, to different maps, does not get the first ones back. */
  lemma SecondTakeoverForgetsOriginal(services: seq<Service>, wanted: seq<PortMap>, protocol: string, updated: bool,
                                      restored: Service)
    requires IsTakeoverRun(services, wanted, protocol) && Untouched(services[0])
    requires IsRestore(services[|wanted|], updated, restored)
    requires |wanted| == 2 && wanted[0] != Mapping(services[0].ports) && wanted[1] != wanted[0]
    ensures Mapping(restored.ports) == wanted[0] != Mapping(services[0].ports)
  {
    RestoreUndoesLastChange(services, wanted, protocol, updated, restored);
    assert LastChange(Distinct(services[0].ports), Mapping(services[0].ports), wanted, 1);
  }

  /** Changing the ports of a service that the site owns leaves no record. */
  lemma OwnedIsNotRecorded(service: Service, wanted: PortMap, protocol: string, service': Service)
    requires IsTakeover(service, true, wanted, protocol, service')
    ensures Mapping(service'.ports) == wanted && Distinct(service'.ports)
    ensures service'.originalTargetPort == service.originalTargetPort
    ensures service'.originalAssigned == service.originalAssigned
  {
    var updated, ports' :| IsPortUpdate(service.ports, wanted, protocol, updated, ports')
        && service' == Taken(service, true, updated, ports');
    if updated {
      FittedIsExact(service.ports, wanted, protocol, true, ports');
    }
  }

  /** A named target port is recorded as 0, so it does not come back as it was. */
  lemma TargetsComeBackExactlyWhenNumbered(service: Service, wanted: PortMap, protocol: string, taken: Service,
                                           updated: bool, restored: Service, i: nat, j: nat)
    requires Untouched(service) && Distinct(service.ports) && Mapping(service.ports) != wanted
    requires IsTakeover(service, false, wanted, protocol, taken) && IsRestore(taken, updated, restored)
    requires i < |service.ports| && j < |restored.ports| && restored.ports[j].port == service.ports[i].port
    ensures restored.ports[j].targetPort == service.ports[i].targetPort <==> service.ports[i].targetPort.Number?
  {
    TakeoverRecords(service, wanted, protocol, taken);
    FittedIsExact(taken.ports, Mapping(service.ports), "TCP", false, restored.ports);
    MappingDistinct(service.ports, i);
    MappingDistinct(restored.ports, j);
    FittedIsNumbered(taken.ports, Mapping(service.ports), "TCP", restored.ports, j);
  }

  lemma {:induction false} KeptIsNumbered(ports: seq<ServicePort>, wanted: PortMap, n: nat, i: nat)
    requires n <= |ports| && i < |Kept(ports, wanted, false, n)|
    ensures Kept(ports, wanted, false, n)[i].targetPort.Number?
  {
    if n > 0 && i < |Kept(ports, wanted, false, n - 1)| {
      KeptIsNumbered(ports, wanted, n - 1, i);
    }
  }

  lemma FittedIsNumbered(ports: seq<ServicePort>, wanted: PortMap, protocol: string, fitted: seq<ServicePort>, i: nat)
    requires Fitted(ports, wanted, protocol, false, fitted) && i < |fitted|
    ensures fitted[i].targetPort.Number?
  {
    var kept := Kept(ports, wanted, false, |ports|);
    if i < |kept| {
      KeptIsNumbered(ports, wanted, |ports|, i);
      assert fitted[..|kept|][i] == fitted[i];
    } else {
      assert fitted[|kept|..][i - |kept|] == fitted[i];
    }
  }

  /** Where a kept entry comes from. */
  lemma {:induction false} KeptFrom(ports: seq<ServicePort>, wanted: PortMap, lazy: bool, n: nat, m: nat)
      returns (i: nat)
    requires n <= |ports| && m < |Kept(ports, wanted, lazy, n)|
    ensures i < n && ports[i].port in wanted
    ensures Kept(ports, wanted, lazy, n)[m] == Retarget(ports[i], wanted[ports[i].port], lazy)
  {
    if m < |Kept(ports, wanted, lazy, n - 1)| {
      i := KeptFrom(ports, wanted, lazy, n - 1, m);
    } else {
      i := n - 1;
    }
  }

  /** An entry of a fitted list: the one there was, retargeted, or else a new one. */
  lemma FittedEntry(ports: seq<ServicePort>, wanted: PortMap, protocol: string, lazy: bool, fitted: seq<ServicePort>,
                    j: nat, i: nat)
    requires Fitted(ports, wanted, protocol, lazy, fitted) && Distinct(ports) && j < |fitted|
    ensures fitted[j].port in wanted
    ensures i < |ports| && ports[i].port == fitted[j].port ==>
              fitted[j] == Retarget(ports[i], wanted[fitted[j].port], lazy)
    ensures fitted[j].port !in Numbers(ports) ==>
              fitted[j] == ServicePort(Numbered(fitted[j].port), protocol, fitted[j].port,
                                       Number(wanted[fitted[j].port]))
  {
    var kept := Kept(ports, wanted, lazy, |ports|);
    if j < |kept| {
      assert fitted[..|kept|][j] == fitted[j];
      var from := KeptFrom(ports, wanted, lazy, |ports|, j);
      assert ports[from].port in Numbers(ports);
    } else {
      assert fitted[|kept|..][j - |kept|] == fitted[j];
      assert i < |ports| ==> ports[i].port in Numbers(ports);
    }
  }

  /** A port comes back as it was if and only if its target was a number and the takeover kept the port,
      or it was a TCP port named after its number: what was dropped comes back as such. */
  lemma PortComesBackExactlyWhen(service: Service, wanted: PortMap, protocol: string, taken: Service, updated: bool,
                                 restored: Service, i: nat, j: nat)
    requires Untouched(service) && Distinct(service.ports) && Mapping(service.ports) != wanted
    requires IsTakeover(service, false, wanted, protocol, taken) && IsRestore(taken, updated, restored)
    requires i < |service.ports| && j < |restored.ports| && restored.ports[j].port == service.ports[i].port
    ensures var p := service.ports[i];
            restored.ports[j] == p <==>
              p.targetPort.Number? && (p.port in wanted || (p.name == Numbered(p.port) && p.protocol == "TCP"))
  {
    var p, q, original := service.ports[i], restored.ports[j], Mapping(service.ports);
    TargetsComeBackExactlyWhenNumbered(service, wanted, protocol, taken, updated, restored, i, j);
    TakeoverRecords(service, wanted, protocol, taken);
    var u, ports' :| IsPortUpdate(service.ports, wanted, protocol, u, ports')
        && taken == Taken(service, false, u, ports');
    if p.port in wanted {
      assert p.port in Numbers(taken.ports) by {
        MappingNumbers(taken.ports);
      }
      var m :| 0 <= m < |taken.ports| && taken.ports[m].port == p.port;
      FittedEntry(service.ports, wanted, protocol, true, taken.ports, m, i);
      FittedEntry(taken.ports, original, "TCP", false, restored.ports, j, m);
    } else {
      assert p.port !in Numbers(taken.ports) by {
        MappingNumbers(taken.ports);
      }
      FittedEntry(taken.ports, original, "TCP", false, restored.ports, j, 0);
    }
  }

  lemma {:induction false} MappingNumbers(ports: seq<ServicePort>)
    ensures Mapping(ports).Keys == Numbers(ports)
  {
    if ports != [] {
      var n := |ports| - 1;
      MappingNumbers(ports[..n]);
      NumbersSnoc(ports[..n], ports[n]);
      assert ports == ports[..n] + [ports[n]];
    }
  }

  /** The last part of a well-formed text that is for port `p`. */
  ghost predicate LastFor(text: PortText, i: nat, p: int) {
    && i < |text| && text[i].port == Num(p)
    && forall j | i < j < |text| :: text[j].port != Num(p)
  }

  /** A text with a malformed part says nothing; otherwise a port has the target given after the colon in
      its last part, or its own number where none is given, and ports without a part are not there. */
  lemma DenotedTells(text: PortText, p: int)
    ensures !AllGood(text) ==> Denoted(text) == map[]
    ensures p in Denoted(text) ==> exists i: nat :: LastFor(text, i, p)
    ensures AllGood(text) ==> forall i: nat | LastFor(text, i, p) ::
              p in Denoted(text) && Denoted(text)[p] == match text[i].target case None => p case Some(t) => t.value
  {
    if AllGood(text) {
      LastOfTells(text, p);
    }
  }

  lemma {:induction false} LastOfTells(text: PortText, p: int)
    requires AllGood(text)
    ensures p in LastOf(text) ==> exists i: nat :: LastFor(text, i, p)
    ensures forall i: nat | LastFor(text, i, p) ::
              p in LastOf(text) && LastOf(text)[p] == match text[i].target case None => p case Some(t) => t.value
  {
    if text != [] {
      var n := |text| - 1;
      var init, e := text[..n], text[n];
      LastOfTells(init, p);
      if e.port.value == p {
        assert LastFor(text, n, p);
      } else {
        forall i: nat ensures LastFor(text, i, p) <==> LastFor(init, i, p) {
          assert text[n].port != Num(p);
          assert forall j | 0 <= j < n :: init[j] == text[j];
        }
      }
    }
  }

  /** What is recorded: each port with its target, in order, a named target as 0. */
  lemma RecordTells(ports: seq<ServicePort>, i: nat)
    requires i < |ports|
    ensures |PortsAsString(ports)| == |ports|
    ensures PortsAsString(ports)[i].port == Num(ports[i].port)
    ensures PortsAsString(ports)[i].target ==
              Some(Num(match ports[i].targetPort case Number(n) => n case Named(_) => 0))
  {
  }

  /** A restore brings back the recorded selector, if there is one, leaves no annotation, and without any
      annotation changes nothing. */
  lemma RestoreTells(service: Service, updated: bool, restored: Service)
    requires IsRestore(service, updated, restored)
    ensures service.originalSelector.Some? ==> restored.selector == service.originalSelector.value
    ensures service.originalSelector.None? ==> restored.selector == service.selector
    ensures restored.originalSelector.None? && restored.originalTargetPort.None? && restored.originalAssigned.None?
    ensures !updated <==>
              service.originalSelector.None? && service.originalTargetPort.None? && service.originalAssigned.None?
    ensures !updated ==> restored == service
  {
  }

  /** What a takeover records: the ports as they were and as they are now, if it changed them and the site
      does not own the service; otherwise the records stay as they are. */
  lemma TakeoverTells(service: Service, owned: bool, wanted: PortMap, protocol: string, taken: Service)
    requires IsTakeover(service, owned, wanted, protocol, taken)
    ensures taken.selector == service.selector && taken.originalSelector == service.originalSelector
    ensures var changed := !(Distinct(service.ports) && Mapping(service.ports) == wanted);
            if changed && !owned then
              && taken.originalTargetPort == Some(PortsAsString(service.ports))
              && taken.originalAssigned == Some(PortsAsString(taken.ports))
            else
              taken.originalTargetPort == service.originalTargetPort
                  && taken.originalAssigned == service.originalAssigned
  {
  }

  /** A takeover keeps the name and protocol of a port that is wanted, and its target too, named or not, if
      the number of that is the one wanted; otherwise the target becomes that number. */
  lemma TakenPortTells(service: Service, owned: bool, wanted: PortMap, protocol: string, taken: Service, i: nat, j: nat)
    requires IsTakeover(service, owned, wanted, protocol, taken) && Distinct(service.ports)
    requires i < |service.ports| && j < |taken.ports| && taken.ports[j].port == service.ports[i].port
    ensures var p, q := service.ports[i], taken.ports[j];
            && p.port in wanted && q.name == p.name && q.protocol == p.protocol
            && var number := match p.targetPort case Number(n) => n case Named(_) => 0;
               q.targetPort == if number == wanted[p.port] then p.targetPort else Number(wanted[p.port])
  {
    var u, ports' :| IsPortUpdate(service.ports, wanted, protocol, u, ports')
        && taken == Taken(service, owned, u, ports');
    if u {
      FittedEntry(service.ports, wanted, protocol, true, ports', j, i);
    } else {
      MappingDistinct(service.ports, i);
    }
  }
}
