/** The service controller as an object: the fields `c.bindings`, `c.ports` and
    `c.previousDefinitions` of cmd/service-controller/controller.go and the methods that change
    them.  Each method is proved to compute the function of the same purpose in Bindings.dfy or
    Controller.dfy, so the theorems there are about these methods. */
module ServiceController {
  import opened Prelude
  import opened Ports
  import opened Bindings
  import opened Accounts
  import opened Controller

  lemma {:induction false} TakeSnoc(free: set<int>, n: nat)
    requires Take(free, n).complete
    ensures Take(free, n).free == {} ==> Take(free, n + 1) == Taken(Take(free, n).ports, {}, false)
    ensures Take(free, n).free != {} ==>
              var t := Take(free, n);
              var p := LeastOf(t.free);
              Take(free, n + 1) == Taken(t.ports + [p], t.free - {p}, true)
  {
    if n == 0 {
      if free != {} {
        var p := LeastOf(free);
        assert Take(free - {p}, 0) == Taken([], free - {p}, true);
        assert Take(free, 1) == Taken([p] + [], free - {p}, true);
        assert [p] + [] == [] + [p];
      }
    } else {
      var q := LeastOf(free);
      TakeSnoc(free - {q}, n - 1);
      var t, rest := Take(free, n), Take(free - {q}, n - 1);
      if t.free != {} {
        assert [q] + (rest.ports + [LeastOf(t.free)]) == t.ports + [LeastOf(t.free)];
      }
    }
  }

  lemma {:induction false} TakeStuck(free: set<int>, m: nat, n: nat)
    requires m <= n && !Take(free, m).complete
    ensures Take(free, n) == Take(free, m)
  {
    if free != {} {
      TakeStuck(free - {LeastOf(free)}, m - 1, n - 1);
    }
  }

  class Server {
    var started: bool
    var bindings: map<string, ServiceBindings>
    var previousDefinitions: Option<map<string, string>>
    const ports: FreePorts
    /** For the accounts only; see `Bindings.State`. */
    ghost var lent: map<string, set<int>>
    ghost var lost: set<int>
    ghost var withheld: set<int>

    ghost predicate Valid()
      reads this, ports
    {
      ports.Valid()
    }

    ghost function Current(): State
      reads this, ports
    {
      State(bindings, ports.Free(), lent, lost, withheld)
    }

    ghost function Abstract(): Control
      reads this, ports
    {
      Control(started, previousDefinitions, Current())
    }

    constructor ()
      ensures Valid() && fresh(ports)
      ensures Abstract() == Fresh()
    {
      started := false;
      bindings := map[];
      previousDefinitions := None;
      ports := new FreePorts();
      lent, lost, withheld := map[], {}, {};
    }

    /** The two allocation loops of `updateServiceBindings`: `n` ports, or what there was. */
    method AllocatePorts(n: nat) returns (taken: seq<int>, complete: bool)
      requires Valid()
      modifies ports
      ensures Valid()
      ensures Taken(taken, ports.Free(), complete) == Take(old(ports.Free()), n)
    {
      taken, complete := [], true;
      for i := 0 to n
        invariant Valid() && complete
        invariant Taken(taken, ports.Free(), true) == Take(old(ports.Free()), i)
      {
        TakeSnoc(old(ports.Free()), i);
        ghost var before := ports.Free();
        var port := ports.NextFreePort();
        if port.None? {
          TakeStuck(old(ports.Free()), i + 1, n);
          return taken, false;
        }
        assert port.value == LeastOf(before);
        taken := taken + [port.value];
      }
    }

    method ReleaseFrom(held: seq<int>, n: nat)
      requires Valid() && n <= |held|
      modifies ports
      ensures Valid() && ports.Free() == old(ports.Free()) + SetOf(held[n..])
    {
      for i := n to |held|
        invariant Valid() && ports.Free() == old(ports.Free()) + SetOf(held[n..i])
      {
        var _ := ports.Release(held[i]);
        assert held[n..i + 1] == held[n..i] + [held[i]];
      }
      assert held[n..|held|] == held[n..];
    }

    method CreateServiceBindings(required: ServiceInterface, recovered: Recovered) returns (ok: bool)
      requires Valid() && required.address !in bindings
      modifies this`bindings, this`lent, this`lost, ports
      ensures Valid()
      ensures (Current(), ok) == Create(old(Current()), required, recovered, Take(old(ports.Free()), |required.ports|))
    {
      var held: seq<int> := [];
      if required.RequiresIngressPortAllocations() {
        held := PortsFor(recovered, required.address);
        if |held| == 0 {
          var complete;
          held, complete := AllocatePorts(|required.ports|);
          if !complete {
            lost := lost + SetOf(held);
            return false;
          }
        }
      } else {
        held := required.ports;
        lent, lost := lent - {required.address}, lost + SetOf(PortsFor(recovered, required.address));
      }
      bindings := bindings[required.address := NewServiceBindings(required, held)];
      return true;
    }

    method ChangeServiceBindings(required: ServiceInterface) returns (ok: bool)
      requires Valid() && required.address in bindings
      modifies this`bindings, this`lent, this`lost, ports
      ensures Valid()
      ensures (Current(), ok) ==
              old(Change(Current(), bindings[required.address], required, Take(ports.Free(), |required.ports|)))
    {
      var b := bindings[required.address];
      var held := b.ingressPorts;
      ghost var mine := Holds(Current(), required.address);
      if |held| < |required.ports| {
        var more, complete := AllocatePorts(|required.ports|);
        if !complete {
          lost := lost + SetOf(more);
          return false;
        }
        b := b.(ingressPorts := held + more);
        mine := mine + SetOf(more);
      } else {
        if |held| > |required.ports| {
          ReleaseFrom(held, |required.ports|);
          b := b.(ingressPorts := held[..|required.ports|]);
        }
        assert held[..|required.ports|] == b.ingressPorts;
        assert b == bindings[required.address].(ingressPorts := held[..|required.ports|]);
        assert ports.Free() == old(ports.Free()) + SetOf(held[|required.ports|..]) by {
          assert |held| == |required.ports| ==> SetOf(held[|required.ports|..]) == {};
        }
        mine, lost := mine - SetOf(held[|required.ports|..]), lost - SetOf(held[|required.ports|..]);
      }
      var b' := Updated(b, required);
      bindings := bindings[required.address := b'];
      if b'.Pooled() {
        lent, lost := lent - {required.address}, lost - SetOf(b.ingressPorts);
      } else if required.headless.Some? {
        lent, lost := lent - {required.address}, lost + mine;
      } else {
        lent := lent[required.address := mine];
      }
      return true;
    }

    /** `updateServiceBindings`. */
    method UpdateServiceBindings(required: ServiceInterface, allowed: bool, recovered: Recovered) returns (ok: bool)
      requires Valid()
      modifies this`bindings, this`lent, this`lost, ports
      ensures Valid()
      ensures (Current(), ok) == Update(old(Current()), required, allowed, recovered)
    {
      if required.address !in bindings {
        if !allowed {
          return true;
        }
        ok := CreateServiceBindings(required, recovered);
      } else {
        if !allowed {
          lent, lost := lent - {required.address}, lost + Holds(Current(), required.address);
          bindings := bindings - {required.address};
          return true;
        }
        ok := ChangeServiceBindings(required);
      }
    }

    method MarkInUse(list: seq<Endpoint>)
      requires Valid()
      modifies ports
      ensures Valid() && ports.Free() == old(ports.Free()) - PortsOf(list)
    {
      for i := 0 to |list|
        invariant Valid() && ports.Free() == old(ports.Free()) - PortsOf(list[..i])
      {
        var _ := ports.Inuse(list[i].port);
        PortsOfSnoc(list, i);
      }
      assert list[..|list|] == list;
    }

    method RecoverPorts(list: seq<Endpoint>, start: Recovered, ghost before: seq<Endpoint>)
        returns (allocations: Recovered)
      requires Valid() && start == Allocations(before)
      modifies ports
      ensures Valid() && ports.Free() == old(ports.Free()) - PortsOf(list)
      ensures allocations == Allocations(before + list)
    {
      allocations := start;
      assert before + list[..0] == before;
      for i := 0 to |list|
        invariant Valid() && ports.Free() == old(ports.Free()) - PortsOf(list[..i])
        invariant allocations == Allocations(before + list[..i])
      {
        allocations := AddPort(allocations, BeforeColon(list[i].address), list[i].port);
        AllocationsSnoc(before, list, i);
        var _ := ports.Inuse(list[i].port);
        PortsOfSnoc(list, i);
      }
      assert list[..|list|] == list;
    }

    /** `getPortAllocations`. */
    method GetPortAllocations(config: BridgeConfig) returns (allocations: Recovered)
      requires Valid()
      modifies ports
      ensures Valid() && ports.Free() == old(ports.Free()) - EndpointPorts(config)
      ensures allocations == Allocations(config.Listeners())
    {
      MarkInUse(config.httpConnectors);
      allocations := RecoverPorts(config.httpListeners, map[], []);
      assert [] + config.httpListeners == config.httpListeners;
      MarkInUse(config.tcpConnectors);
      allocations := RecoverPorts(config.tcpListeners, allocations, config.httpListeners);
    }

    method ReserveRouterPorts()
      requires Valid()
      modifies ports
      ensures Valid() && ports.Free() == old(ports.Free()) - RESERVED
    {
      var _ := ports.Inuse(5672);
      var _ := ports.Inuse(5671);
      var _ := ports.Inuse(45671);
      var _ := ports.Inuse(55671);
      var _ := ports.Inuse(8080);
      var _ := ports.Inuse(9090);
      var _ := ports.Inuse(9191);
    }

    /** `initialiseServiceBindingsMap`. */
    method InitialiseServiceBindingsMap(read: BridgeRead) returns (allocations: Option<Recovered>)
      requires Valid()
      modifies this`bindings, this`started, this`withheld, ports
      ensures Valid()
      ensures Abstract() == Initialise(old(Abstract()), read)
      ensures allocations == if read.ReadOk? then Some(Allocations(read.config.Listeners())) else None
    {
      bindings, started := map[], true;
      if read.ReadError? {
        return None;
      }
      var found := GetPortAllocations(read.config);
      ReserveRouterPorts();
      ghost var taken := EndpointPorts(read.config) + RESERVED;
      withheld := withheld + (old(ports.Free()) * taken - PortsOf(read.config.Listeners()));
      return Some(found);
    }

    /** `changedServiceDefinitions`. */
    method ChangedServiceDefinitions(latest: map<string, string>) returns (changed: map<string, string>)
      modifies this`previousDefinitions
      ensures changed == Changed(old(previousDefinitions), latest)
      ensures previousDefinitions == Some(latest)
    {
      if previousDefinitions.None? {
        previousDefinitions := Some(latest);
        return latest;
      }
      changed := map[];
      var todo := latest.Keys;
      while todo != {}
        invariant todo <= latest.Keys && previousDefinitions == old(previousDefinitions)
        invariant changed == map k | k in latest && k !in todo &&
                    (k !in previousDefinitions.value || previousDefinitions.value[k] != latest[k]) :: latest[k]
        decreases todo
      {
        var k :| k in todo;
        if k !in previousDefinitions.value || previousDefinitions.value[k] != latest[k] {
          changed := changed[k := latest[k]];
        }
        todo := todo - {k};
      }
      previousDefinitions := Some(latest);
    }

    /** Deletes the bindings of `gone`, in any order; their ports are not given back. */
    method DeleteServiceBindings(gone: set<string>)
      modifies this`bindings, this`lent, this`lost
      ensures Current() == DeleteAll(old(Current()), gone)
    {
      ghost var was := bindings;
      var todo := gone;
      while todo != {}
        invariant todo <= gone
        invariant bindings == was - (gone - todo) && lent == old(lent) && lost == old(lost)
        decreases todo
      {
        var k :| k in todo;
        bindings := bindings - {k};
        todo := todo - {k};
      }
      assert gone - todo == gone;
      lent, lost := lent - gone, lost + HeldIn(old(Current()), gone);
    }

    method ApplyEntries(entries: map<string, string>, order: seq<string>, decode: Decoder, allowed: string -> bool,
                        recovered: Recovered)
      requires Valid()
      modifies this`bindings, this`lent, this`lost, ports
      ensures Valid()
      ensures Current() == Apply(old(Current()), entries, order, decode, allowed, recovered)
    {
      ghost var goal := Apply(Current(), entries, order, decode, allowed, recovered);
      for i := 0 to |order|
        invariant Valid()
        invariant Apply(Current(), entries, order[i..], decode, allowed, recovered) == goal
      {
        assert order[i..][0] == order[i] && order[i..][1..] == order[i + 1..];
        ghost var st := Current();
        if order[i] in entries {
          var si := decode(entries[order[i]]);
          if si.Some? {
            var _ := UpdateServiceBindings(si.value, allowed(si.value.address), recovered);
          }
        }
        assert Current() == ApplyOne(st, entries, order[i], decode, allowed, recovered).0;
      }
    }

    /** The snapshot part of a `servicedefs` event. */
    method SyncDefinitions(ev: Event, decode: Decoder, recovered: Recovered)
      requires Valid() && started
      modifies this`bindings, this`lent, this`lost, this`previousDefinitions, ports
      ensures Valid()
      ensures Abstract() == Sync(old(Abstract()), ev, decode, recovered)
    {
      if |ev.data| > 0 {
        var entries := ChangedServiceDefinitions(ev.data);
        ApplyEntries(entries, ev.order, decode, ev.allowed, recovered);
        lost := lost + Unclaimed(bindings, recovered);
        DeleteServiceBindings(bindings.Keys - ev.data.Keys);
      } else {
        assert ev.data == map[];
        lost := lost + Unclaimed(bindings, recovered);
        if |bindings| > 0 {
          var _ := ChangedServiceDefinitions(map[]);
          DeleteServiceBindings(bindings.Keys);
        }
      }
    }

    /** One `servicedefs` event of `processNextEvent`. */
    method ProcessServiceDefinitions(ev: Event, decode: Decoder)
      requires Valid()
      modifies this, ports
      ensures Valid()
      ensures Abstract() == Process(old(Abstract()), ev, decode)
    {
      var recovered: Recovered := map[];
      if !started {
        var found := InitialiseServiceBindingsMap(ev.read);
        if found.None? {
          return;
        }
        recovered := found.value;
      }
      SyncDefinitions(ev, decode, recovered);
    }
  }

  lemma PortsOfSnoc(list: seq<Endpoint>, i: int)
    requires 0 <= i < |list|
    ensures PortsOf(list[..i + 1]) == PortsOf(list[..i]) + {list[i].port}
  {
    assert list[..i + 1] == list[..i] + [list[i]];
  }

  lemma AllocationsSnoc(before: seq<Endpoint>, list: seq<Endpoint>, i: int)
    requires 0 <= i < |list|
    ensures Allocations(before + list[..i + 1]) ==
              AddPort(Allocations(before + list[..i]), BeforeColon(list[i].address), list[i].port)
  {
    var all := before + list[..i + 1];
    assert all[..|all| - 1] == before + list[..i] && all[|all| - 1] == list[i];
  }

  /** A controller, from its creation on, over any events: the object does what the functions say,
      so `RunKeepsSafe` and `RunMirrorsSnapshots` are about it. */
  method ServeEvents(events: seq<Event>, decode: Decoder) returns (server: Server)
    ensures fresh(server) && server.Valid()
    ensures server.Abstract() == Run(Fresh(), events, decode)
  {
    server := new Server();
    ghost var goal := Run(Fresh(), events, decode);
    for i := 0 to |events|
      invariant fresh(server) && fresh(server.ports) && server.Valid()
      invariant Run(server.Abstract(), events[i..], decode) == goal
    {
      assert events[i..][0] == events[i] && events[i..][1..] == events[i + 1..];
      server.ProcessServiceDefinitions(events[i], decode);
    }
  }
}
