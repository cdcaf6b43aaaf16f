/** Which ports a service holds: after one update, after the first event of a controller that recovers
    allocations from the router's bridges, and over the events that follow.
    cmd/service-controller/controller.go and cmd/service-controller/ports.go. */
module Recovery {
  import opened Prelude
  import opened Ports
  import opened Bindings
  import opened Controller
  import opened Accounts

  // ---- The ports the pool hands out ----------------------------------------------------------

  ghost predicate Increasing(s: seq<int>) {
    forall i, j | 0 <= i < j < |s| :: s[i] < s[j]
  }

  /** The `n` least of the free ports, in order. */
  ghost predicate AreLeast(ports: seq<int>, n: nat, free: set<int>) {
    && |ports| == n && Increasing(ports) && SetOf(ports) <= free
    && forall p, q | p in ports && q in free - SetOf(ports) :: p < q
  }

  lemma {:induction false} TakesTheLeast(free: set<int>, n: nat)
    requires n <= |free|
    ensures Take(free, n).complete && AreLeast(Take(free, n).ports, n, free)
    ensures Take(free, n).free == free - SetOf(Take(free, n).ports)
  {
    TakeIsExact(free, n);
    if n != 0 {
      var p := LeastOf(free);
      TakesTheLeast(free - {p}, n - 1);
      LeastAndMore(free, p, Take(free - {p}, n - 1).ports, n - 1);
    }
  }

  lemma LeastAndMore(free: set<int>, p: int, more: seq<int>, n: nat)
    requires p in free && (forall q <- free :: p <= q) && AreLeast(more, n, free - {p})
    ensures AreLeast([p] + more, n + 1, free)
  {
    var ports := [p] + more;
    assert forall x :: x in ports <==> x == p || x in more;
    assert SetOf(ports) == {p} + SetOf(more);
    forall i, j | 0 <= i < j < |ports| ensures ports[i] < ports[j] {
      assert ports[j] == more[j - 1] && more[j - 1] in SetOf(more);
      assert i > 0 ==> ports[i] == more[i - 1];
    }
    forall x, q | x in ports && q in free - SetOf(ports) ensures x < q {
      assert q in (free - {p}) - SetOf(more);
      assert x in more ==> x in SetOf(more);
    }
  }

  lemma TakesAll(free: set<int>, n: nat)
    requires n > |free|
    ensures !Take(free, n).complete && Take(free, n).free == {}
  {
    TakeIsExact(free, n);
    TakeEmpties(free, n);
  }

  lemma {:induction false} TakeEmpties(free: set<int>, n: nat)
    requires n >= |free|
    ensures Take(free, n).free == {}
  {
    if free != {} {
      var p := LeastOf(free);
      assert |free - {p}| == |free| - 1;
      TakeEmpties(free - {p}, n - 1);
    }
  }

  // ---- One update ----------------------------------------------------------------------------

  ghost predicate OthersStay(st: State, st': State, a: string) {
    forall x | x != a ::
      (x in st'.bindings <==> x in st.bindings) && (x in st.bindings ==> st'.bindings[x] == st.bindings[x])
  }

  /** The binding of `a` holds these ports. */
  ghost predicate HoldsPorts(st: State, a: string, ports: seq<int>) {
    a in st.bindings && st.bindings[a].ingressPorts == ports
  }

  /** The `n` least free ports leave the pool. */
  ghost predicate Draws(st: State, st': State, n: nat, ports: seq<int>) {
    AreLeast(ports, n, st.free) && st'.free == st.free - SetOf(ports)
  }

  /** A service that is new to the controller: one that draws on the pool gets its recovered ports back,
      all of them and in order, without touching the pool; where none were recovered it gets the least
      free ports, and if there are too few it gets none and the pool is drained; a headless or external
      one gets the ports it asks for. */
  lemma NewServiceHolds(st: State, required: ServiceInterface, recovered: Recovered)
    requires required.address !in st.bindings
    ensures var a, n := required.address, |required.ports|;
            var (st', ok) := Update(st, required, true, recovered);
            && OthersStay(st, st', a)
            && if !required.RequiresIngressPortAllocations() then
                 ok && HoldsPorts(st', a, required.ports) && st'.free == st.free
               else if PortsFor(recovered, a) != [] then
                 ok && HoldsPorts(st', a, PortsFor(recovered, a)) && st'.free == st.free
               else if n <= |st.free| then
                 ok && a in st'.bindings && Draws(st, st', n, st'.bindings[a].ingressPorts)
               else
                 !ok && a !in st'.bindings && st'.free == {}
  {
    var n := |required.ports|;
    var t := Take(st.free, n);
    CreatedHolds(st, required, recovered, t);
    if n <= |st.free| {
      TakesTheLeast(st.free, n);
    } else {
      TakesAll(st.free, n);
    }
  }

  lemma CreatedHolds(st: State, required: ServiceInterface, recovered: Recovered, t: Taken)
    requires required.address !in st.bindings
    ensures var a := required.address;
            var (st', ok) := Create(st, required, recovered, t);
            && OthersStay(st, st', a) && (ok <==> a in st'.bindings)
            && if !required.RequiresIngressPortAllocations() then
                 HoldsPorts(st', a, required.ports) && st'.free == st.free
               else if PortsFor(recovered, a) != [] then
                 HoldsPorts(st', a, PortsFor(recovered, a)) && st'.free == st.free
               else
                 (ok <==> t.complete) && (ok ==> HoldsPorts(st', a, t.ports)) && st'.free == t.free
  {
  }

  /** A service that policy does not allow has no binding, and its ports do not go to the pool. */
  lemma DeniedServiceGoes(st: State, required: ServiceInterface, recovered: Recovered)
    ensures var (st', ok) := Update(st, required, false, recovered);
            ok && required.address !in st'.bindings && st'.free == st.free && OthersStay(st, st', required.address)
  {
  }

  /** A service that is known keeps the first of its ports, as many as are required, and gives the others
      to the pool; if it has too few, it gets as many as are required on top.  (A headless one then has
      the ports it asks for, but the pool changes in the same way.) */
  lemma KnownServiceHolds(st: State, required: ServiceInterface, recovered: Recovered)
    requires required.address in st.bindings && Sound(st.bindings[required.address])
    ensures var a, n := required.address, |required.ports|;
            var held := st.bindings[a].ingressPorts;
            var (st', ok) := Update(st, required, true, recovered);
            && OthersStay(st, st', a) && a in st'.bindings
            && (ok && required.headless.Some? ==> HoldsPorts(st', a, required.ports))
            && if n <= |held| then
                 && ok && st'.free == st.free + SetOf(held[n..])
                 && (required.headless.None? ==> HoldsPorts(st', a, held[..n]))
               else if n <= |st.free| then
                 exists more ::
                   ok && Draws(st, st', n, more) && (required.headless.None? ==> HoldsPorts(st', a, held + more))
               else
                 !ok && st'.bindings == st.bindings && st'.free == {}
  {
    var b, n, t := st.bindings[required.address], |required.ports|, Take(st.free, |required.ports|);
    if n <= |b.ingressPorts| {
      ShrunkHolds(st, b, required, t);
    } else if n <= |st.free| {
      TakesTheLeast(st.free, n);
      GrownHolds(st, b, required, t);
      assert Draws(st, Update(st, required, true, recovered).0, n, t.ports);
    } else {
      TakesAll(st.free, n);
    }
  }

  lemma ShrunkHolds(st: State, b: ServiceBindings, required: ServiceInterface, t: Taken)
    requires Sound(b) && |required.ports| <= |b.ingressPorts|
    ensures var a, n := required.address, |required.ports|;
            var (st', ok) := Change(st, b, required, t);
            && ok && OthersStay(st, st', a) && st'.free == st.free + SetOf(b.ingressPorts[n..])
            && HoldsPorts(st', a, if required.headless.Some? then required.ports else b.ingressPorts[..n])
  {
    PooledAfterUpdate(b, b.ingressPorts[..|required.ports|], required);
  }

  lemma GrownHolds(st: State, b: ServiceBindings, required: ServiceInterface, t: Taken)
    requires Sound(b) && |required.ports| > |b.ingressPorts| && t.complete
    ensures var a := required.address;
            var (st', ok) := Change(st, b, required, t);
            && ok && OthersStay(st, st', a) && st'.free == t.free
            && HoldsPorts(st', a, if required.headless.Some? then required.ports else b.ingressPorts + t.ports)
  {
    PooledAfterUpdate(b, b.ingressPorts + t.ports, required);
  }

  // ---- The first event -----------------------------------------------------------------------

  /** Entry `a` is a service of that address that draws on the pool, and no other entry is for `a`. */
  ghost predicate SoleEntry(data: map<string, string>, decode: Decoder, a: string) {
    && a in data && decode(data[a]).Some?
    && decode(data[a]).value.address == a && decode(data[a]).value.RequiresIngressPortAllocations()
    && forall k <- data | k != a && decode(data[k]).Some? :: decode(data[k]).value.address != a
  }

  lemma ElsewhereStays(st: State, required: ServiceInterface, allowed: bool, recovered: Recovered, t: Taken, a: string)
    requires required.address != a
    ensures var st' := UpdateWith(st, required, allowed, recovered, t).0;
            (a in st'.bindings <==> a in st.bindings) && (a in st.bindings ==> st'.bindings[a] == st.bindings[a])
  {
  }

  /** The binding of `a` draws on the pool and holds these ports. */
  ghost predicate Bound(st: State, a: string, ports: seq<int>) {
    HoldsPorts(st, a, ports) && Sound(st.bindings[a]) && st.bindings[a].Pooled()
  }

  /** The binding of `a` is the one of these ports, if it is allowed, and there is none if not. */
  ghost predicate Recovers(st: State, a: string, allowed: bool, ports: seq<int>) {
    if allowed then Bound(st, a, ports) else a !in st.bindings
  }

  lemma {:induction false} ApplyRecovers(st: State, data: map<string, string>, order: seq<string>, decode: Decoder,
                                         allowed: string -> bool, recovered: Recovered, a: string)
    requires SoleEntry(data, decode, a) && NoDup(order) && PortsFor(recovered, a) != []
    requires if a in order then a !in st.bindings else Recovers(st, a, allowed(a), PortsFor(recovered, a))
    ensures Recovers(Apply(st, data, order, decode, allowed, recovered), a, allowed(a), PortsFor(recovered, a))
    decreases order
  {
    if order != [] {
      var k := order[0];
      var st' := ApplyOne(st, data, k, decode, allowed, recovered).0;
      assert order == [k] + order[1..];
      if k == a {
        var si := decode(data[a]).value;
        if allowed(a) {
          NewServiceHolds(st, si, recovered);
          NewIsSound(si, PortsFor(recovered, a));
        }
      } else if k in data && decode(data[k]).Some? {
        var si := decode(data[k]).value;
        ElsewhereStays(st, si, allowed(si.address), recovered, Take(st.free, |si.ports|), a);
      }
      ApplyRecovers(st', data, order[1..], decode, allowed, recovered, a);
    }
  }

  /** The first event of a controller that can read the bridges: a service with listeners, which draws on
      the pool and has one entry, is bound if and only if policy allows it, whatever is free, and holds
      exactly the ports of its listeners, in order. */
  lemma FirstEventRecovers(c: Control, ev: Event, decode: Decoder, a: string)
    requires !c.started && c.previous.None? && ev.read.ReadOk? && Enumerates(ev.order, ev.data.Keys)
    requires SoleEntry(ev.data, decode, a) && ListenerPorts(ev.read.config.Listeners(), a) != []
    ensures Recovers(Process(c, ev, decode).st, a, ev.allowed(a), ListenerPorts(ev.read.config.Listeners(), a))
  {
    var listeners := ev.read.config.Listeners();
    AllocationsAreListenerPorts(listeners);
    assert a in SetOf(ev.order);
    ApplyRecovers(Initialise(c, ev.read).st, ev.data, ev.order, decode, ev.allowed, Allocations(listeners), a);
  }

  // ---- The events that follow ----------------------------------------------------------------

  /** The event leaves the entry of `a` in place, and every changed entry for `a` is allowed, draws on the
      pool and has `n` ports. */
  ghost predicate KeepsCount(c: Control, ev: Event, decode: Decoder, a: string, n: nat) {
    var entries := Changed(c.previous, ev.data);
    && a in ev.data
    && forall k <- entries | decode(entries[k]).Some? && decode(entries[k]).value.address == a ::
         Steady(decode(entries[k]).value, ev.allowed(a), n)
  }

  ghost predicate Steady(si: ServiceInterface, allowed: bool, n: nat) {
    allowed && si.RequiresIngressPortAllocations() && |si.ports| == n
  }

  ghost predicate AllKeepCount(c: Control, events: seq<Event>, decode: Decoder, a: string, n: nat)
    decreases events
  {
    events != [] ==>
      && KeepsCount(c, events[0], decode, a, n)
      && AllKeepCount(Process(c, events[0], decode), events[1..], decode, a, n)
  }

  lemma SteadyUpdate(st: State, si: ServiceInterface, recovered: Recovered, ports: seq<int>)
    requires Bound(st, si.address, ports) && Steady(si, true, |ports|)
    ensures Bound(Update(st, si, true, recovered).0, si.address, ports)
  {
    var b := st.bindings[si.address];
    assert b.ingressPorts[..|si.ports|] == ports;
    KnownServiceHolds(st, si, recovered);
    PooledAfterUpdate(b, b.ingressPorts[..|si.ports|], si);
  }

  lemma {:induction false} ApplyKeepsPorts(st: State, entries: map<string, string>, order: seq<string>, decode: Decoder,
                                           allowed: string -> bool, a: string, ports: seq<int>)
    requires Bound(st, a, ports)
    requires forall k <- entries | decode(entries[k]).Some? && decode(entries[k]).value.address == a ::
               Steady(decode(entries[k]).value, allowed(a), |ports|)
    ensures Bound(Apply(st, entries, order, decode, allowed, map[]), a, ports)
    decreases order
  {
    if order != [] {
      var k := order[0];
      if k in entries && decode(entries[k]).Some? {
        var si := decode(entries[k]).value;
        if si.address == a {
          SteadyUpdate(st, si, map[], ports);
        } else {
          ElsewhereStays(st, si, allowed(si.address), map[], Take(st.free, |si.ports|), a);
        }
      }
      ApplyKeepsPorts(ApplyOne(st, entries, k, decode, allowed, map[]).0, entries, order[1..], decode, allowed, a,
                      ports);
    }
  }

  /** A service keeps its ports, in order, over any events as long as its entry stays and its definitions
      ask for as many ports. */
  lemma {:induction false} PortsStay(c: Control, events: seq<Event>, decode: Decoder, a: string, ports: seq<int>)
    requires c.started && Bound(c.st, a, ports) && AllKeepCount(c, events, decode, a, |ports|)
    ensures Bound(Run(c, events, decode).st, a, ports)
    decreases events
  {
    if events != [] {
      var ev := events[0];
      ApplyKeepsPorts(c.st, Changed(c.previous, ev.data), ev.order, decode, ev.allowed, a, ports);
      PortsStay(Process(c, ev, decode), events[1..], decode, a, ports);
    }
  }

  /** So a service keeps the ports it had over a restart of the controller, and for as long after it as
      its entry stays and its definitions ask for as many. */
  lemma RecoveredPortsStay(events: seq<Event>, decode: Decoder, a: string, ports: seq<int>)
    requires events != [] && events[0].read.ReadOk? && Enumerates(events[0].order, events[0].data.Keys)
    requires SoleEntry(events[0].data, decode, a) && events[0].allowed(a)
    requires ports == ListenerPorts(events[0].read.config.Listeners(), a) != []
    requires AllKeepCount(Process(Fresh(), events[0], decode), events[1..], decode, a, |ports|)
    ensures Bound(Run(Fresh(), events, decode).st, a, ports)
  {
    FirstEventRecovers(Fresh(), events[0], decode, a);
    PortsStay(Process(Fresh(), events[0], decode), events[1..], decode, a, ports);
  }
}
