/** The `servicedefs` events of cmd/service-controller/controller.go over whole runs.

    `ServiceController.Server` changes its fields the way the source does, and each of its methods is
    proved against a function of this module.  A Go `range` over a map visits the keys
    in some order; that order is part of the event, so a statement about all events is a statement
    about all orders. */
module Controller {
  import opened Prelude
  import opened Ports
  import opened Bindings
  import opened Accounts

  // ---- Recovering allocations from the router's bridges --------------------------------------

  /** A bridge: its address (`service:port`) and the number its port string parses to. */
  datatype Endpoint = Endpoint(address: string, port: int)

  /** The four endpoint maps, each listed in the order in which it is visited. */
  datatype BridgeConfig = BridgeConfig(
    httpConnectors: seq<Endpoint>,
    httpListeners: seq<Endpoint>,
    tcpConnectors: seq<Endpoint>,
    tcpListeners: seq<Endpoint>)
  {
    function Listeners(): seq<Endpoint> {
      httpListeners + tcpListeners
    }
  }

  ghost function PortsOf(list: seq<Endpoint>): set<int> {
    set e | e in list :: e.port
  }

  /** The ports of the listeners of service `a`, in order. */
  ghost function ListenerPorts(list: seq<Endpoint>, a: string): seq<int> {
    if list == [] then []
    else
      var rest := ListenerPorts(list[..|list| - 1], a);
      var e := list[|list| - 1];
      if BeforeColon(e.address) == a then rest + [e.port] else rest
  }

  function AddPort(allocations: Recovered, a: string, port: int): Recovered {
    allocations[a := PortsFor(allocations, a) + [port]]
  }

  /** What `getPortAllocations` returns for these listeners. */
  ghost function Allocations(list: seq<Endpoint>): Recovered {
    if list == [] then map[]
    else
      var e := list[|list| - 1];
      AddPort(Allocations(list[..|list| - 1]), BeforeColon(e.address), e.port)
  }

  /** Each service gets back the ports of its own listeners, in order, and no others. */
  lemma {:induction false} AllocationsAreListenerPorts(list: seq<Endpoint>)
    ensures forall a :: PortsFor(Allocations(list), a) == ListenerPorts(list, a)
  {
    if list != [] {
      AllocationsAreListenerPorts(list[..|list| - 1]);
    }
  }

  ghost predicate DistinctPorts(list: seq<Endpoint>) {
    forall i, j | 0 <= i < j < |list| :: list[i].port != list[j].port
  }

  /** No service is given a port twice, and no two services the same port. */
  ghost predicate Apart(allocations: Recovered) {
    && (forall a :: NoDup(PortsFor(allocations, a)))
    && (forall a, a', p :: p in PortsFor(allocations, a) && p in PortsFor(allocations, a') ==> a == a')
  }

  /** The services whose ports include that of a listener at the front of the list still do at the end. */
  lemma {:induction false} ListenerPortsFrom(list: seq<Endpoint>, a: string, p: int)
    ensures p in ListenerPorts(list, a) <==>
              exists i :: 0 <= i < |list| && list[i].port == p && BeforeColon(list[i].address) == a
  {
    if list != [] {
      var n := |list| - 1;
      ListenerPortsFrom(list[..n], a, p);
      if p in ListenerPorts(list[..n], a) {
        var i :| 0 <= i < n && list[..n][i].port == p && BeforeColon(list[..n][i].address) == a;
        assert list[i] == list[..n][i];
      } else if p in ListenerPorts(list, a) {
        assert list[n].port == p && BeforeColon(list[n].address) == a;
      }
      forall i | 0 <= i < |list| && list[i].port == p && BeforeColon(list[i].address) == a
        ensures p in ListenerPorts(list, a)
      {
        if i < n { assert list[..n][i] == list[i]; }
      }
    }
  }

  lemma {:induction false} DistinctIsNoDup(list: seq<Endpoint>, a: string)
    requires DistinctPorts(list)
    ensures NoDup(ListenerPorts(list, a))
  {
    if list != [] {
      var n := |list| - 1;
      DistinctIsNoDup(list[..n], a);
      ListenerPortsFrom(list[..n], a, list[n].port);
    }
  }

  /** Recovered allocations are free of overlaps if and only if no two listeners share a port. */
  lemma {:induction false} ApartExactlyWhenDistinct(list: seq<Endpoint>)
    ensures Apart(Allocations(list)) <==> DistinctPorts(list)
  {
    AllocationsAreListenerPorts(list);
    var alloc := Allocations(list);
    if DistinctPorts(list) {
      forall a ensures NoDup(PortsFor(alloc, a)) {
        DistinctIsNoDup(list, a);
      }
      forall a, a', p | p in PortsFor(alloc, a) && p in PortsFor(alloc, a') ensures a == a' {
        ListenerPortsFrom(list, a, p);
        ListenerPortsFrom(list, a', p);
      }
    } else {
      OverlapFrom(list);
    }
  }

  lemma OverlapAtLast(list: seq<Endpoint>, i: int)
    requires 0 <= i < |list| - 1 && list[i].port == list[|list| - 1].port
    ensures !Apart(Allocations(list))
  {
    var n := |list| - 1;
    var p, a, a' := list[n].port, BeforeColon(list[i].address), BeforeColon(list[n].address);
    AllocationsAreListenerPorts(list);
    assert list[..n][i] == list[i];
    ListenerPortsFrom(list[..n], a, p);
    if a == a' {
      var rest := ListenerPorts(list[..n], a);
      var k :| 0 <= k < |rest| && rest[k] == p;
      assert (rest + [p])[k] == (rest + [p])[|rest|];
      assert !NoDup(PortsFor(Allocations(list), a));
    } else {
      ListenerPortsFrom(list, a, p);
      ListenerPortsFrom(list, a', p);
      assert p in PortsFor(Allocations(list), a) && p in PortsFor(Allocations(list), a');
    }
  }

  lemma ApartOfPrefix(list: seq<Endpoint>)
    requires list != [] && Apart(Allocations(list))
    ensures Apart(Allocations(list[..|list| - 1]))
  {
    var before, after := Allocations(list[..|list| - 1]), Allocations(list);
    AllocationsAreListenerPorts(list);
    AllocationsAreListenerPorts(list[..|list| - 1]);
    forall a ensures PortsFor(before, a) <= PortsFor(after, a) && NoDup(PortsFor(before, a)) {
      assert NoDup(PortsFor(after, a));
    }
    forall a, p | p in PortsFor(before, a) ensures p in PortsFor(after, a) {
    }
  }

  lemma {:induction false} OverlapFrom(list: seq<Endpoint>)
    requires !DistinctPorts(list)
    ensures !Apart(Allocations(list))
  {
    var n := |list| - 1;
    if DistinctPorts(list[..n]) {
      var i, j :| 0 <= i < j < |list| && list[i].port == list[j].port;
      OverlapAtLast(list, i);
    } else {
      OverlapFrom(list[..n]);
      if Apart(Allocations(list)) {
        ApartOfPrefix(list);
      }
    }
  }

  lemma AllocatedAreListenerPorts(list: seq<Endpoint>, p: int)
    ensures p in PortsOf(list) <==> exists a :: p in PortsFor(Allocations(list), a)
  {
    AllocationsAreListenerPorts(list);
    if p in PortsOf(list) {
      var e :| e in list && e.port == p;
      var i :| 0 <= i < |list| && list[i] == e;
      ListenerPortsFrom(list, BeforeColon(e.address), p);
      assert p in PortsFor(Allocations(list), BeforeColon(e.address));
    }
    forall a | p in PortsFor(Allocations(list), a) ensures p in PortsOf(list) {
      ListenerPortsFrom(list, a, p);
      var i :| 0 <= i < |list| && list[i].port == p && BeforeColon(list[i].address) == a;
      assert list[i] in list;
    }
    if exists a :: p in PortsFor(Allocations(list), a) {
      var a :| p in PortsFor(Allocations(list), a);
    }
  }

  // ---- The controller's state and its events -------------------------------------------------

  /** `started` is false while `c.bindings` is nil. */
  datatype Control = Control(started: bool, previous: Option<map<string, string>>, st: State)

  /** Reading the router's configuration when the bindings are first initialised. */
  datatype BridgeRead = ReadError | ReadOk(config: BridgeConfig)

  /** A configmap snapshot with the order in which its keys are visited, the import policy in force,
      and what reading the router configuration gives.  Only a controller that has not started
      reads it. */
  datatype Event = Event(data: map<string, string>, order: seq<string>, allowed: string -> bool, read: BridgeRead)

  type Decoder = string -> Option<ServiceInterface>

  ghost function Changed(previous: Option<map<string, string>>, latest: map<string, string>): map<string, string> {
    if previous.None? then latest
    else map k | k in latest && (k !in previous.value || previous.value[k] != latest[k]) :: latest[k]
  }

  /** The update an entry calls for, if it parses. */
  ghost function ApplyOne(st: State, entries: map<string, string>, k: string, decode: Decoder, allowed: string -> bool,
                          recovered: Recovered): (State, bool)
  {
    if k in entries then
      match decode(entries[k])
      case None => (st, true)
      case Some(si) => Update(st, si, allowed(si.address), recovered)
    else (st, true)
  }

  /** The changed entries, in order. */
  ghost function Apply(st: State, entries: map<string, string>, order: seq<string>, decode: Decoder,
                       allowed: string -> bool, recovered: Recovered): State
    decreases order
  {
    if order == [] then st
    else Apply(ApplyOne(st, entries, order[0], decode, allowed, recovered).0, entries, order[1..], decode, allowed,
               recovered)
  }

  ghost function HeldIn(st: State, gone: set<string>): set<int> {
    set a, p | a in gone && p in Holds(st, a) :: p
  }

  ghost function DeleteAll(st: State, gone: set<string>): State {
    st.(bindings := st.bindings - gone, lent := st.lent - gone, lost := st.lost + HeldIn(st, gone))
  }

  ghost function Unclaimed(bindings: map<string, ServiceBindings>, recovered: Recovered): set<int> {
    set a, p | a in recovered.Keys - bindings.Keys && p in PortsFor(recovered, a) :: p
  }

  /** Allocations that no definition claimed are not handed out again. */
  ghost function Close(st: State, recovered: Recovered): State {
    st.(lost := st.lost + Unclaimed(st.bindings, recovered))
  }

  ghost function EndpointPorts(config: BridgeConfig): set<int> {
    PortsOf(config.httpConnectors) + PortsOf(config.httpListeners) + PortsOf(config.tcpConnectors)
        + PortsOf(config.tcpListeners)
  }

  /** `initialiseServiceBindingsMap`.  Note that the bindings are set, and the controller counts as
      started, even when the read fails. */
  ghost function Initialise(c: Control, read: BridgeRead): Control {
    match read
    case ReadError => c.(started := true, st := c.st.(bindings := map[]))
    case ReadOk(config) =>
      var taken := EndpointPorts(config) + RESERVED;
      var claimed := PortsOf(config.Listeners());
      c.(started := true,
         st := c.st.(bindings := map[], free := c.st.free - taken,
                     withheld := c.st.withheld + (c.st.free * taken - claimed)))
  }

  /** After a read the pool lacks exactly the ports of the router's bridges, connectors as well as
      listeners, and the seven that the router has for itself. */
  lemma InitialisedPool(c: Control, config: BridgeConfig, p: int)
    ensures var c' := Initialise(c, ReadOk(config));
            && c'.started && c'.st.bindings == map[]
            && (p in c'.st.free <==>
                && p in c.st.free && p !in {5671, 5672, 8080, 9090, 9191, 45671, 55671}
                && (forall e <- config.httpConnectors :: e.port != p)
                && (forall e <- config.httpListeners :: e.port != p)
                && (forall e <- config.tcpConnectors :: e.port != p)
                && (forall e <- config.tcpListeners :: e.port != p))
  {
  }

  /** The part of the event that handles the snapshot. */
  ghost function Sync(c: Control, ev: Event, decode: Decoder, recovered: Recovered): Control {
    if ev.data != map[] then
      var entries := Changed(c.previous, ev.data);
      var st := Close(Apply(c.st, entries, ev.order, decode, ev.allowed, recovered), recovered);
      Control(true, Some(ev.data), DeleteAll(st, st.bindings.Keys - ev.data.Keys))
    else if c.st.bindings != map[] then
      var st := Close(c.st, recovered);
      Control(true, Some(map[]), DeleteAll(st, st.bindings.Keys))
    else
      c.(st := Close(c.st, recovered))
  }

  /** One `servicedefs` event. */
  ghost function Process(c: Control, ev: Event, decode: Decoder): Control {
    if c.started then Sync(c, ev, decode, map[])
    else if ev.read.ReadError? then Initialise(c, ev.read)
    else Sync(Initialise(c, ev.read), ev, decode, Allocations(ev.read.config.Listeners()))
  }

  ghost function Run(c: Control, events: seq<Event>, decode: Decoder): Control
    decreases events
  {
    if events == [] then c else Run(Process(c, events[0], decode), events[1..], decode)
  }

  /** A new controller: nothing bound, every port from 1024 up free. */
  ghost function Fresh(): Control {
    Control(false, None, State(map[], Span(MIN_PORT, MAX_PORT), map[], {}, {}))
  }

  // ---- Safety of whole runs ------------------------------------------------------------------

  lemma UnclaimedIsOwned(st: State, recovered: Recovered)
    ensures AllOwned(st, recovered) == AllOwned(st, map[]) + Unclaimed(st.bindings, recovered)
    ensures forall a, p :: p in Owns(st, map[], a) ==> a in st.bindings && p in Owns(st, recovered, a)
  {
    OwnedIsAll(st, recovered);
    OwnedIsAll(st, map[]);
    forall p | p in AllOwned(st, recovered)
      ensures p in AllOwned(st, map[]) + Unclaimed(st.bindings, recovered)
    {
      var a :| p in Owns(st, recovered, a);
      if a in st.bindings {
        assert p in Owns(st, map[], a);
      } else {
        assert a in recovered.Keys - st.bindings.Keys && p in PortsFor(recovered, a);
      }
    }
    forall p | p in Unclaimed(st.bindings, recovered) ensures p in AllOwned(st, recovered) {
      var a :| a in recovered.Keys - st.bindings.Keys && p in PortsFor(recovered, a);
      assert p in Owns(st, recovered, a);
    }
    forall p | p in AllOwned(st, map[]) ensures p in AllOwned(st, recovered) {
      var a :| p in Owns(st, map[], a);
      assert p in Owns(st, recovered, a);
    }
  }

  lemma UnclaimedApart(st: State, recovered: Recovered)
    requires Exclusive(st, recovered)
    ensures Unclaimed(st.bindings, recovered) !! AllOwned(st, map[])
  {
    OwnedIsAll(st, map[]);
    forall p | p in Unclaimed(st.bindings, recovered) ensures p !in AllOwned(st, map[]) {
      var a :| a in recovered.Keys - st.bindings.Keys && p in PortsFor(recovered, a);
      assert p in Owns(st, recovered, a);
      assert forall b | p in Owns(st, map[], b) :: p in Owns(st, recovered, b);
    }
  }

  /** Owning depends on the bindings and what is lent to them only. */
  lemma SameOwners(st: State, st': State, recovered: Recovered)
    requires st'.bindings == st.bindings && st'.lent == st.lent
    ensures AllOwned(st', recovered) == AllOwned(st, recovered)
    ensures forall a ::
              Owns(st', recovered, a) == Owns(st, recovered, a) && (Tidy(st', recovered, a) <==> Tidy(st, recovered, a))
  {
    OwnedIsAll(st, recovered);
    OwnedIsAll(st', recovered);
    assert forall a :: Owns(st', recovered, a) == Owns(st, recovered, a);
  }

  lemma CloseKeepsSafe(st: State, recovered: Recovered, universe: set<int>, reserved: set<int>)
    requires Safe(st, recovered, universe, reserved)
    ensures Safe(Close(st, recovered), map[], universe, reserved)
  {
    UnclaimedIsOwned(st, recovered);
    UnclaimedApart(st, recovered);
    var st' := Close(st, recovered);
    SameOwners(st, st', map[]);
    forall a ensures Tidy(st', map[], a) {
      assert Tidy(st, recovered, a);
    }
  }

  lemma DeletedOwners(st: State, gone: set<string>)
    ensures var st' := DeleteAll(st, gone);
            && (forall a :: Owns(st', map[], a) == if a in gone then {} else Owns(st, map[], a))
            && (forall a | Tidy(st, map[], a) :: Tidy(st', map[], a))
            && AllOwned(st, map[]) == AllOwned(st', map[]) + HeldIn(st, gone)
  {
    var st' := DeleteAll(st, gone);
    OwnedIsAll(st, map[]);
    OwnedIsAll(st', map[]);
    assert forall a :: Owns(st', map[], a) == if a in gone then {} else Owns(st, map[], a);
    forall p | p in HeldIn(st, gone) ensures p in AllOwned(st, map[]) {
      var a :| a in gone && p in Holds(st, a);
      assert p in Owns(st, map[], a);
    }
  }

  lemma DeleteAllKeepsSafe(st: State, gone: set<string>, universe: set<int>, reserved: set<int>)
    requires Safe(st, map[], universe, reserved)
    ensures Safe(DeleteAll(st, gone), map[], universe, reserved)
  {
    var st' := DeleteAll(st, gone);
    DeletedOwners(st, gone);
    DeletedApart(st, gone);
    forall a ensures Tidy(st', map[], a) {
      assert Tidy(st, map[], a);
    }
    assert AllOwned(st', map[]) <= AllOwned(st, map[]) && HeldIn(st, gone) <= AllOwned(st, map[]);
  }

  lemma DeletedApart(st: State, gone: set<string>)
    requires Exclusive(st, map[])
    ensures HeldIn(st, gone) !! AllOwned(DeleteAll(st, gone), map[])
    ensures forall a, a', p :: p in Owns(DeleteAll(st, gone), map[], a) && p in Owns(DeleteAll(st, gone), map[], a') ==>
              a == a'
  {
    var st' := DeleteAll(st, gone);
    DeletedOwners(st, gone);
    OwnedIsAll(st', map[]);
    forall p | p in HeldIn(st, gone) ensures p !in AllOwned(st', map[]) {
      var a :| a in gone && p in Holds(st, a);
      assert p in Owns(st, map[], a);
      assert forall x | p in Owns(st', map[], x) :: p in Owns(st, map[], x);
    }
  }

  /** Every update of the batch respects `Guard`. */
  ghost predicate GuardedApply(st: State, entries: map<string, string>, order: seq<string>, decode: Decoder,
                               allowed: string -> bool, recovered: Recovered)
    decreases order
  {
    order != [] ==>
      && (order[0] in entries && decode(entries[order[0]]).Some? ==>
            var si := decode(entries[order[0]]).value;
            Guard(st, si, allowed(si.address)))
      && GuardedApply(ApplyOne(st, entries, order[0], decode, allowed, recovered).0, entries, order[1..], decode,
                      allowed, recovered)
  }

  lemma {:induction false} ApplyKeepsSafe(st: State, entries: map<string, string>, order: seq<string>, decode: Decoder,
                                          allowed: string -> bool, recovered: Recovered, universe: set<int>,
                                          reserved: set<int>)
    requires Safe(st, recovered, universe, reserved)
    requires GuardedApply(st, entries, order, decode, allowed, recovered)
    requires forall a <- st.bindings :: a in recovered ==> allowed(a)
    ensures Safe(Apply(st, entries, order, decode, allowed, recovered), recovered, universe, reserved)
    decreases order
  {
    if order != [] {
      var k := order[0];
      var st' := ApplyOne(st, entries, k, decode, allowed, recovered).0;
      if k in entries && decode(entries[k]).Some? {
        var si := decode(entries[k]).value;
        UpdateKeepsSafeExactlyWhen(st, si, allowed(si.address), recovered, universe, reserved);
        UpdateKeys(st, si, allowed(si.address), recovered, Take(st.free, |si.ports|));
      }
      ApplyKeepsSafe(st', entries, order[1..], decode, allowed, recovered, universe, reserved);
    }
  }

  lemma UpdateKeys(st: State, required: ServiceInterface, allowed: bool, recovered: Recovered, t: Taken)
    ensures UpdateWith(st, required, allowed, recovered, t).0.bindings.Keys <= st.bindings.Keys
              + (if allowed then {required.address} else {})
  {
  }

  /** The recovered allocations do not overlap each other or the router's ports. */
  ghost predicate Fits(config: BridgeConfig) {
    DistinctPorts(config.Listeners()) && PortsOf(config.Listeners()) !! RESERVED
  }

  ghost function Universe(read: BridgeRead): set<int> {
    Span(MIN_PORT, MAX_PORT) + (if read.ReadOk? then PortsOf(read.config.Listeners()) else {})
  }

  ghost function ReservedAfter(read: BridgeRead): set<int> {
    if read.ReadOk? then RESERVED else {}
  }

  lemma ClaimedIsOwned(st: State, list: seq<Endpoint>)
    requires st.bindings == map[]
    ensures AllOwned(st, Allocations(list)) == PortsOf(list)
  {
    OwnedIsAll(st, Allocations(list));
    forall p ensures p in AllOwned(st, Allocations(list)) <==> p in PortsOf(list) {
      AllocatedAreListenerPorts(list, p);
      assert forall a :: Owns(st, Allocations(list), a) == SetOf(PortsFor(Allocations(list), a));
    }
  }

  lemma ListenersAreEndpoints(config: BridgeConfig)
    ensures PortsOf(config.Listeners()) <= EndpointPorts(config)
  {
  }

  lemma ApartOwners(st: State, alloc: Recovered)
    requires st.bindings == map[]
    ensures Apart(alloc) <==>
            && (forall a :: Tidy(st, alloc, a))
            && (forall a, a', p :: p in Owns(st, alloc, a) && p in Owns(st, alloc, a') ==> a == a')
  {
    assert forall a :: Owns(st, alloc, a) == SetOf(PortsFor(alloc, a));
    if forall a :: Tidy(st, alloc, a) {
      forall a ensures NoDup(PortsFor(alloc, a)) {
        assert Tidy(st, alloc, a);
      }
    }
    if forall a, a', p :: p in Owns(st, alloc, a) && p in Owns(st, alloc, a') ==> a == a' {
      forall a, a', p | p in PortsFor(alloc, a) && p in PortsFor(alloc, a') ensures a == a' {
        assert p in Owns(st, alloc, a) && p in Owns(st, alloc, a');
      }
    }
  }

  /** The accounts of an initialised controller add up and stay clear of the router's ports exactly
      when no listener sits on one of them. */
  lemma InitialAccounts(config: BridgeConfig)
    ensures var st, claimed := Initialise(Fresh(), ReadOk(config)).st, PortsOf(config.Listeners());
            && st.bindings == map[] && st.lost == {} && st.free !! claimed && st.free !! st.withheld
                 && st.withheld !! claimed
            && (st.free + claimed + st.withheld == Universe(ReadOk(config)) && RESERVED <= st.withheld <==>
                claimed !! RESERVED)
  {
    ListenersAreEndpoints(config);
    var st, claimed := Initialise(Fresh(), ReadOk(config)).st, PortsOf(config.Listeners());
    assert RESERVED <= Span(MIN_PORT, MAX_PORT);
    assert st.free + claimed + st.withheld == Universe(ReadOk(config));
    assert forall p <- RESERVED :: p in st.withheld <==> p !in claimed;
  }

  /** Initialising a new controller from the router's configuration leaves safe accounts if and only
      if no two listeners share a port and none sits on one of the router's own ports. */
  lemma InitialiseIsSafeExactlyWhen(config: BridgeConfig)
    ensures var read := ReadOk(config);
            Safe(Initialise(Fresh(), read).st, Allocations(config.Listeners()), Universe(read), RESERVED) <==>
                Fits(config)
  {
    var list, st := config.Listeners(), Initialise(Fresh(), ReadOk(config)).st;
    InitialAccounts(config);
    ClaimedIsOwned(st, list);
    ApartExactlyWhenDistinct(list);
    ApartOwners(st, Allocations(list));
    assert st.free + PortsOf(list) + st.lost + st.withheld == st.free + PortsOf(list) + st.withheld;
  }

  ghost predicate GuardedSync(c: Control, ev: Event, decode: Decoder, recovered: Recovered) {
    ev.data != map[] ==> GuardedApply(c.st, Changed(c.previous, ev.data), ev.order, decode, ev.allowed, recovered)
  }

  ghost predicate GuardedEvent(c: Control, ev: Event, decode: Decoder) {
    if c.started then GuardedSync(c, ev, decode, map[])
    else ev.read.ReadOk? ==> GuardedSync(Initialise(c, ev.read), ev, decode, Allocations(ev.read.config.Listeners()))
  }

  /** Every update of the run respects `Guard`. */
  ghost predicate GuardedRun(c: Control, events: seq<Event>, decode: Decoder)
    decreases events
  {
    events != [] ==>
        GuardedEvent(c, events[0], decode) && GuardedRun(Process(c, events[0], decode), events[1..], decode)
  }

  lemma SyncKeepsSafe(c: Control, ev: Event, decode: Decoder, recovered: Recovered, universe: set<int>,
                      reserved: set<int>)
    requires Safe(c.st, recovered, universe, reserved) && GuardedSync(c, ev, decode, recovered)
    requires recovered == map[] || c.st.bindings == map[]
    ensures Safe(Sync(c, ev, decode, recovered).st, map[], universe, reserved)
  {
    CloseKeepsSafe(c.st, recovered, universe, reserved);
    var st := Close(c.st, recovered);
    DeleteAllKeepsSafe(st, st.bindings.Keys, universe, reserved);
    if ev.data != map[] {
      var entries := Changed(c.previous, ev.data);
      ApplyKeepsSafe(c.st, entries, ev.order, decode, ev.allowed, recovered, universe, reserved);
      var applied := Apply(c.st, entries, ev.order, decode, ev.allowed, recovered);
      CloseKeepsSafe(applied, recovered, universe, reserved);
      DeleteAllKeepsSafe(Close(applied, recovered), applied.bindings.Keys - ev.data.Keys, universe, reserved);
    }
  }

  lemma {:induction false} StartedRunKeepsSafe(c: Control, events: seq<Event>, decode: Decoder, universe: set<int>,
                                               reserved: set<int>)
    requires c.started && Safe(c.st, map[], universe, reserved) && GuardedRun(c, events, decode)
    ensures Safe(Run(c, events, decode).st, map[], universe, reserved)
    decreases events
  {
    if events != [] {
      SyncKeepsSafe(c, events[0], decode, map[], universe, reserved);
      StartedRunKeepsSafe(Process(c, events[0], decode), events[1..], decode, universe, reserved);
    }
  }

  /** From a new controller, over any run whose updates respect `Guard`: the ports held by bindings
      are distinct, apart from each other, from the free ports and from the router's own ports, and
      every port is accounted for.  The router's ports are protected because the first event could
      read the router's configuration; see `ReservedExactlyWhenRead` for when it cannot. */
  lemma RunKeepsSafe(events: seq<Event>, decode: Decoder)
    requires events != [] && GuardedRun(Fresh(), events, decode)
    requires events[0].read.ReadOk? ==> Fits(events[0].read.config)
    ensures Safe(Run(Fresh(), events, decode).st, map[], Universe(events[0].read), ReservedAfter(events[0].read))
  {
    var c, ev := Fresh(), events[0];
    var universe, reserved := Universe(ev.read), ReservedAfter(ev.read);
    if ev.read.ReadOk? {
      var list := ev.read.config.Listeners();
      InitialiseIsSafeExactlyWhen(ev.read.config);
      SyncKeepsSafe(Initialise(c, ev.read), ev, decode, Allocations(list), universe, reserved);
    } else {
      EmptyIsSafe();
    }
    StartedRunKeepsSafe(Process(c, ev, decode), events[1..], decode, universe, reserved);
  }

  lemma EmptyIsSafe()
    ensures Safe(Fresh().st, map[], Span(MIN_PORT, MAX_PORT), {})
  {
    OwnedIsAll(Fresh().st, map[]);
    assert forall a :: Owns(Fresh().st, map[], a) == {};
  }

  // ---- Runs in which every service draws its ports from the pool ---------------------------------

  ghost predicate PoolOnly(decode: Decoder) {
    forall v :: decode(v).Some? ==> decode(v).value.RequiresIngressPortAllocations()
  }

  ghost predicate AllPooled(st: State) {
    forall a <- st.bindings :: Sound(st.bindings[a]) && st.bindings[a].Pooled()
  }

  lemma UpdateKeepsPooled(st: State, required: ServiceInterface, allowed: bool, recovered: Recovered, t: Taken)
    requires AllPooled(st) && required.RequiresIngressPortAllocations()
    ensures AllPooled(UpdateWith(st, required, allowed, recovered, t).0)
  {
    var a := required.address;
    if a in st.bindings {
      var b := st.bindings[a];
      PooledAfterUpdate(b, b.ingressPorts + t.ports, required);
      if |required.ports| <= |b.ingressPorts| {
        PooledAfterUpdate(b, b.ingressPorts[..|required.ports|], required);
      }
    } else {
      CreateKeepsSound(st, required, recovered, t);
    }
  }

  lemma {:induction false} ApplyPooled(st: State, entries: map<string, string>, order: seq<string>, decode: Decoder,
                                       allowed: string -> bool, recovered: Recovered)
    requires AllPooled(st) && PoolOnly(decode)
    ensures GuardedApply(st, entries, order, decode, allowed, recovered)
    ensures AllPooled(Apply(st, entries, order, decode, allowed, recovered))
    decreases order
  {
    if order != [] {
      var k := order[0];
      if k in entries && decode(entries[k]).Some? {
        var si := decode(entries[k]).value;
        UpdateKeepsPooled(st, si, allowed(si.address), recovered, Take(st.free, |si.ports|));
      }
      ApplyPooled(ApplyOne(st, entries, k, decode, allowed, recovered).0, entries, order[1..], decode, allowed,
                  recovered);
    }
  }

  lemma ProcessPooled(c: Control, ev: Event, decode: Decoder)
    requires AllPooled(c.st) && PoolOnly(decode)
    ensures GuardedEvent(c, ev, decode) && AllPooled(Process(c, ev, decode).st)
  {
    var c' := if c.started then c else Initialise(c, ev.read);
    var recovered := if c.started || ev.read.ReadError? then map[] else Allocations(ev.read.config.Listeners());
    ApplyPooled(c'.st, Changed(c'.previous, ev.data), ev.order, decode, ev.allowed, recovered);
  }

  lemma {:induction false} PoolOnlyRunIsGuarded(c: Control, events: seq<Event>, decode: Decoder)
    requires AllPooled(c.st) && PoolOnly(decode)
    ensures GuardedRun(c, events, decode)
    decreases events
  {
    if events != [] {
      ProcessPooled(c, events[0], decode);
      PoolOnlyRunIsGuarded(Process(c, events[0], decode), events[1..], decode);
    }
  }

  /** The same without any condition on the run, when every definition draws its ports from the pool. */
  lemma PoolOnlyRunKeepsSafe(events: seq<Event>, decode: Decoder)
    requires events != [] && PoolOnly(decode)
    requires events[0].read.ReadOk? ==> Fits(events[0].read.config)
    ensures Safe(Run(Fresh(), events, decode).st, map[], Universe(events[0].read), ReservedAfter(events[0].read))
  {
    PoolOnlyRunIsGuarded(Fresh(), events, decode);
    RunKeepsSafe(events, decode);
  }

  /** The router's own ports are out of the pool after the first event if and only if that event
      could read the router's configuration: on an error the controller counts as initialised, and
      by `FailedReadIsForGood` no later event reserves them. */
  lemma ReservedExactlyWhenRead(ev: Event, decode: Decoder)
    requires PoolOnly(decode) && (ev.read.ReadOk? ==> Fits(ev.read.config))
    ensures Process(Fresh(), ev, decode).started
    ensures Process(Fresh(), ev, decode).st.free !! RESERVED <==> ev.read.ReadOk?
  {
    PoolOnlyRunKeepsSafe([ev], decode);
    assert Run(Fresh(), [ev], decode) == Process(Fresh(), ev, decode) by {
      assert [ev][1..] == [];
    }
    assert 5672 in RESERVED && Within(MIN_PORT, 5672, MAX_PORT);
  }

  /** The same events, except for what reading the router's configuration would give. */
  ghost predicate SameButReads(events: seq<Event>, events': seq<Event>) {
    |events| == |events'| && forall i | 0 <= i < |events| :: events'[i] == events[i].(read := events'[i].read)
  }

  lemma {:induction false} LaterReadsAreIgnored(c: Control, events: seq<Event>, events': seq<Event>, decode: Decoder)
    requires c.started && SameButReads(events, events')
    ensures Run(c, events, decode) == Run(c, events', decode)
    decreases events
  {
    if events != [] {
      assert events'[0] == events[0].(read := events'[0].read);
      LaterReadsAreIgnored(Process(c, events[0], decode), events[1..], events'[1..], decode);
    }
  }

  /** After a failed first read a run is what it would be if the configuration could never be read: all
      ports, also the router's own, are free until a service takes them. */
  lemma FailedReadIsForGood(events: seq<Event>, events': seq<Event>, decode: Decoder)
    requires events != [] && SameButReads(events, events') && events[0].read.ReadError? && events'[0].read.ReadError?
    ensures Process(Fresh(), events[0], decode).st.free == Span(MIN_PORT, MAX_PORT)
    ensures Run(Fresh(), events, decode) == Run(Fresh(), events', decode)
  {
    assert events'[0] == events[0].(read := events'[0].read);
    LaterReadsAreIgnored(Process(Fresh(), events[0], decode), events[1..], events'[1..], decode);
  }
}
