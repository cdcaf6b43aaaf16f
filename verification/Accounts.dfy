/** The accounts of the port pool under `updateServiceBindings`: no port has two holders, none is both
    free and in use, none is lost from sight, and the router's own ports stay out of reach. */
module Accounts {
  import opened Prelude
  import opened Ports
  import opened Bindings

  /** The pool ports an address accounts for: those its binding holds, or, while the recovered
      allocations are being handed out, those waiting for it. */
  ghost function Owns(st: State, recovered: Recovered, a: string): set<int> {
    if a in st.bindings then Holds(st, a) else SetOf(PortsFor(recovered, a))
  }

  ghost function AllOwned(st: State, recovered: Recovered): set<int> {
    set a, p | a in st.bindings.Keys + recovered.Keys && p in Owns(st, recovered, a) :: p
  }

  /** The ports the router itself uses (AMQP, AMQPS, edge, inter-router, console, 9090, 9191). */
  const RESERVED: set<int> := {5672, 5671, 45671, 55671, 8080, 9090, 9191}

  /** An address has no pool port twice; a binding that does not draw on the pool holds the pool ports
      that it is said to hold. */
  ghost predicate Tidy(st: State, recovered: Recovered, a: string) {
    if a !in st.bindings then NoDup(PortsFor(recovered, a))
    else if st.bindings[a].Pooled() then NoDup(st.bindings[a].ingressPorts)
    else Holds(st, a) <= SetOf(st.bindings[a].ingressPorts)
  }

  /** Nobody's ports overlap, nothing is both free and in use, every port is accounted for and none is
      invented, and the reserved ports are out of reach. */
  ghost predicate Safe(st: State, recovered: Recovered, universe: set<int>, reserved: set<int>) {
    && (forall a <- st.bindings :: Sound(st.bindings[a]))
    && Exclusive(st, recovered)
    && st.free + AllOwned(st, recovered) + st.lost + st.withheld == universe
    && reserved <= st.withheld
  }

  ghost predicate Exclusive(st: State, recovered: Recovered) {
    && (forall a :: Tidy(st, recovered, a))
    && (forall a, a', p :: p in Owns(st, recovered, a) && p in Owns(st, recovered, a') ==> a == a')
    && AllOwned(st, recovered) !! (st.free + st.lost + st.withheld)
    && st.free !! st.lost && st.free !! st.withheld && st.lost !! st.withheld
  }

  lemma OwnedIsAll(st: State, recovered: Recovered)
    ensures forall a, p | p in Owns(st, recovered, a) :: p in AllOwned(st, recovered)
    ensures forall p | p in AllOwned(st, recovered) :: exists a :: p in Owns(st, recovered, a)
  {
    forall a, p | p in Owns(st, recovered, a) ensures p in AllOwned(st, recovered) {
      assert a in st.bindings.Keys + recovered.Keys;
    }
  }

  // ---- One address ---------------------------------------------------------------------------

  /** The free ports, those of one address, the lost and the withheld ones. */
  datatype Ledger = Ledger(free: set<int>, owned: set<int>, lost: set<int>, withheld: set<int>)
  {
    ghost predicate Disjoint() {
      && free !! owned && free !! lost && free !! withheld
      && owned !! lost && owned !! withheld && lost !! withheld
    }

    ghost function All(): set<int> {
      free + owned + lost + withheld
    }
  }

  ghost function LedgerOf(st: State, recovered: Recovered, a: string): Ledger {
    Ledger(st.free, Owns(st, recovered, a), st.lost, st.withheld)
  }

  /** Ports moved between the sets, without overlap, and none came or went. */
  ghost predicate Balanced(l: Ledger, l': Ledger) {
    l'.Disjoint() && l'.All() == l.All()
  }

  ghost predicate OthersSame(st: State, st': State, recovered: Recovered, a: string) {
    forall x | x != a ::
        Owns(st', recovered, x) == Owns(st, recovered, x) && (Tidy(st', recovered, x) <==> Tidy(st, recovered, x))
  }

  lemma LedgerDisjoint(st: State, recovered: Recovered, a: string)
    requires Exclusive(st, recovered)
    ensures LedgerOf(st, recovered, a).Disjoint()
  {
    OwnedIsAll(st, recovered);
    forall p | p in Owns(st, recovered, a) ensures p !in st.free && p !in st.lost && p !in st.withheld {
      assert p in AllOwned(st, recovered);
    }
  }

  lemma OthersApart(st: State, recovered: Recovered, a: string)
    requires Exclusive(st, recovered)
    ensures forall x, p | x != a && p in Owns(st, recovered, x) :: p !in LedgerOf(st, recovered, a).All()
  {
    OwnedIsAll(st, recovered);
  }

  ghost function OthersOwn(st: State, recovered: Recovered, a: string): set<int> {
    set x, p | x in st.bindings.Keys + recovered.Keys && x != a && p in Owns(st, recovered, x) :: p
  }

  lemma AllOwnedSplit(st: State, recovered: Recovered, a: string)
    ensures AllOwned(st, recovered) == Owns(st, recovered, a) + OthersOwn(st, recovered, a)
  {
    OwnedIsAll(st, recovered);
    forall p | p in AllOwned(st, recovered) ensures p in Owns(st, recovered, a) + OthersOwn(st, recovered, a) {
      var x :| x in st.bindings.Keys + recovered.Keys && p in Owns(st, recovered, x);
    }
    forall p | p in OthersOwn(st, recovered, a) ensures p in AllOwned(st, recovered) {
      var x :| x in st.bindings.Keys + recovered.Keys && x != a && p in Owns(st, recovered, x);
    }
    forall p | p in Owns(st, recovered, a) ensures p in AllOwned(st, recovered) {
    }
  }

  lemma OthersOwnSame(st: State, st': State, recovered: Recovered, a: string)
    requires OthersSame(st, st', recovered, a)
    ensures OthersOwn(st', recovered, a) == OthersOwn(st, recovered, a)
  {
    OthersOwnBelow(st, st', recovered, a);
    OthersOwnBelow(st', st, recovered, a);
  }

  lemma OthersOwnBelow(st: State, st': State, recovered: Recovered, a: string)
    requires OthersSame(st, st', recovered, a)
    ensures OthersOwn(st', recovered, a) <= OthersOwn(st, recovered, a)
  {
    forall p | p in OthersOwn(st', recovered, a) ensures p in OthersOwn(st, recovered, a) {
      var x :| x in st'.bindings.Keys + recovered.Keys && x != a && p in Owns(st', recovered, x);
      assert p in Owns(st, recovered, x);
      assert x in st.bindings.Keys + recovered.Keys;
    }
  }

  /** In safe accounts, what the others own is apart from the ledger of an address, and with it makes up
      the universe. */
  lemma OthersAreTheRest(st: State, recovered: Recovered, a: string, universe: set<int>, reserved: set<int>)
    requires Safe(st, recovered, universe, reserved)
    ensures OthersOwn(st, recovered, a) !! LedgerOf(st, recovered, a).All()
    ensures OthersOwn(st, recovered, a) + LedgerOf(st, recovered, a).All() == universe
  {
    OthersApart(st, recovered, a);
    AllOwnedSplit(st, recovered, a);
  }

  lemma BalancedIsExclusive(st: State, st': State, recovered: Recovered, a: string)
    requires Exclusive(st, recovered) && OthersSame(st, st', recovered, a) && Tidy(st', recovered, a)
    requires Balanced(LedgerOf(st, recovered, a), LedgerOf(st', recovered, a))
    ensures Exclusive(st', recovered)
  {
    OthersApart(st, recovered, a);
    var l' := LedgerOf(st', recovered, a);
    forall x, p | x != a && p in Owns(st', recovered, x) ensures p !in l'.All() {
      assert p in Owns(st, recovered, x);
    }
    OwnedIsAll(st', recovered);
    forall p | p in AllOwned(st', recovered) ensures p !in st'.free && p !in st'.lost && p !in st'.withheld {
      var x :| p in Owns(st', recovered, x);
      assert x == a ==> p in l'.owned;
    }
  }

  /** An update that leaves the other addresses alone keeps the accounts safe if and only if it leaves its
      own address tidy and its ledger balanced. */
  lemma SafeExactlyWhenBalanced(st: State, st': State, recovered: Recovered, a: string, universe: set<int>,
                                reserved: set<int>)
    requires Safe(st, recovered, universe, reserved) && OthersSame(st, st', recovered, a) && st'.withheld == st.withheld
    requires forall x <- st'.bindings :: Sound(st'.bindings[x])
    ensures Safe(st', recovered, universe, reserved) <==>
            Tidy(st', recovered, a) && Balanced(LedgerOf(st, recovered, a), LedgerOf(st', recovered, a))
  {
    var l, l' := LedgerOf(st, recovered, a), LedgerOf(st', recovered, a);
    OthersAreTheRest(st, recovered, a, universe, reserved);
    OthersOwnSame(st, st', recovered, a);
    var others := OthersOwn(st, recovered, a);
    if Safe(st', recovered, universe, reserved) {
      LedgerDisjoint(st', recovered, a);
      OthersAreTheRest(st', recovered, a, universe, reserved);
      assert l.All() == universe - others && l'.All() == universe - others;
    }
    if Tidy(st', recovered, a) && Balanced(l, l') {
      BalancedIsExclusive(st, st', recovered, a);
      AllOwnedSplit(st', recovered, a);
      assert st'.free + AllOwned(st', recovered) + st'.lost + st'.withheld == others + l'.All();
    }
  }

  // ---- What an update does to the ledger -----------------------------------------------------

  /** What becomes of a binding's ports: they are the pool's, the external bridge's, or forgotten. */
  datatype Use = InPool | ByBridge | AsHeadless

  function UseOf(si: ServiceInterface): Use {
    if si.RequiresIngressPortAllocations() then InPool else if si.headless.Some? then AsHeadless else ByBridge
  }

  /** Of the ports, `kept` stay and `back` are released. */
  ghost function ShrunkLedger(l: Ledger, kept: set<int>, back: set<int>, to: Use): Ledger {
    match to
    case InPool => Ledger(l.free + back, kept, l.lost - back - kept, l.withheld)
    case ByBridge => Ledger(l.free + back, l.owned - back, l.lost - back, l.withheld)
    case AsHeadless => Ledger(l.free + back, {}, l.lost - back + (l.owned - back), l.withheld)
  }

  /** The ports `held` are joined by `taken` from the pool. */
  ghost function GrownLedger(l: Ledger, held: set<int>, taken: set<int>, to: Use): Ledger {
    match to
    case InPool => Ledger(l.free - taken, held + taken, l.lost - (held + taken), l.withheld)
    case ByBridge => Ledger(l.free - taken, l.owned + taken, l.lost, l.withheld)
    case AsHeadless => Ledger(l.free - taken, {}, l.lost + (l.owned + taken), l.withheld)
  }

  lemma ShrunkBalancesExactlyWhen(l: Ledger, kept: set<int>, back: set<int>, to: Use)
    requires l.Disjoint() && l.owned <= kept + back
    ensures Balanced(l, ShrunkLedger(l, kept, back, to)) <==>
            back <= l.free + l.owned + l.lost && (to == InPool ==> kept <= l.owned + l.lost && kept !! back)
  {
    var l' := ShrunkLedger(l, kept, back, to);
    if Balanced(l, l') {
      assert back <= l'.free && l'.free <= l.All() && back !! l.withheld;
      if to == InPool {
        assert kept <= l.All() && kept !! l.withheld && kept !! l'.free;
      }
    }
    if back <= l.free + l.owned + l.lost && (to == InPool ==> kept <= l.owned + l.lost && kept !! back) {
      assert l'.All() == l.All();
    }
  }

  lemma GrownBalancesExactlyWhen(l: Ledger, held: set<int>, taken: set<int>, to: Use)
    requires l.Disjoint() && l.owned <= held && taken <= l.free
    ensures Balanced(l, GrownLedger(l, held, taken, to)) <==> (to == InPool ==> held <= l.owned + l.lost + taken)
  {
    var l' := GrownLedger(l, held, taken, to);
    if Balanced(l, l') && to == InPool {
      assert held <= l.All() && held !! l.withheld && held !! l'.free;
    }
    if to == InPool ==> held <= l.owned + l.lost + taken {
      assert l'.All() == l.All();
    }
  }

  /** A state after an update of `a`: its ledger, its bindings and what the others have. */
  ghost predicate Shape(st: State, st': State, recovered: Recovered, a: string, l': Ledger, ports: seq<int>, to: Use) {
    && OthersSame(st, st', recovered, a) && st'.withheld == st.withheld
    && LedgerOf(st', recovered, a) == l'
    && a in st'.bindings && (st'.bindings[a].Pooled() <==> to == InPool)
    && (to != AsHeadless ==> st'.bindings[a].ingressPorts == ports)
  }

  /** Binding, rebinding or unbinding `a` leaves what the other addresses own. */
  lemma OthersKeep(st: State, st': State, recovered: Recovered, a: string)
    requires st'.bindings - {a} == st.bindings - {a} && st'.lent - {a} == st.lent - {a}
    ensures OthersSame(st, st', recovered, a)
  {
    forall x | x != a ensures Owns(st', recovered, x) == Owns(st, recovered, x)
                      ensures Tidy(st', recovered, x) <==> Tidy(st, recovered, x)
    {
      assert x in st'.bindings <==> x in st'.bindings - {a};
      assert x in st.bindings <==> x in st.bindings - {a};
      assert x in st.bindings ==>
          st'.bindings[x] == (st'.bindings - {a})[x] && st.bindings[x] == (st.bindings - {a})[x];
      assert x in st'.lent <==> x in st'.lent - {a};
      assert x in st.lent <==> x in st.lent - {a};
      assert x in st.lent ==> st'.lent[x] == (st'.lent - {a})[x] && st.lent[x] == (st.lent - {a})[x];
    }
  }

  lemma SettleShape(st: State, b: ServiceBindings, ports: seq<int>, mine: set<int>, required: ServiceInterface,
                    recovered: Recovered)
    requires Sound(b)
    ensures var a, st', to := required.address, Settle(st, b, ports, mine, required), UseOf(required);
            var l' := match to
                      case InPool => Ledger(st.free, SetOf(ports), st.lost - SetOf(ports), st.withheld)
                      case ByBridge => Ledger(st.free, mine, st.lost, st.withheld)
                      case AsHeadless => Ledger(st.free, {}, st.lost + mine, st.withheld);
            Shape(st, st', recovered, a, l', ports, to)
  {
    PooledAfterUpdate(b, ports, required);
    OthersKeep(st, Settle(st, b, ports, mine, required), recovered, required.address);
  }

  // ---- When an update keeps the accounts -----------------------------------------------------

  /** What an update of a binding that does not draw on the pool must respect.  It may release ports that
      the binding holds from the pool, ports nobody holds and ports that are free already; and if the
      binding returns to the pool, the ports it keeps must be distinct and from the pool or nobody's,
      and none of them released.  Bindings that draw on the pool are under no restriction. */
  ghost predicate Guard(st: State, required: ServiceInterface, allowed: bool) {
    var a, n := required.address, |required.ports|;
    a in st.bindings && allowed && !st.bindings[a].Pooled() ==>
      var held, usable := st.bindings[a].ingressPorts, Holds(st, a) + st.lost;
      if n <= |held| then
        && SetOf(held[n..]) <= st.free + usable
        && (UseOf(required) == InPool ==>
            NoDup(held[..n]) && SetOf(held[..n]) <= usable && SetOf(held[..n]) !! SetOf(held[n..]))
      else
        UseOf(required) == InPool && n <= |st.free| ==> NoDup(held) && SetOf(held) <= usable
  }

  lemma JoinSets(s: seq<int>, t: seq<int>)
    ensures SetOf(s + t) == SetOf(s) + SetOf(t)
    ensures NoDup(s + t) <==> NoDup(s) && NoDup(t) && SetOf(s) !! SetOf(t)
  {
    var st := s + t;
    forall x | x in t ensures x in st {
      var j :| 0 <= j < |t| && t[j] == x;
      assert st[|s| + j] == x;
    }
    if NoDup(st) {
      forall i, j | 0 <= i < j < |s| ensures s[i] != s[j] {
        assert st[i] != st[j];
      }
      forall i, j | 0 <= i < j < |t| ensures t[i] != t[j] {
        assert st[|s| + i] != st[|s| + j];
      }
      forall x | x in s ensures x !in t {
        var i :| 0 <= i < |s| && s[i] == x;
        forall j | 0 <= j < |t| ensures t[j] != x {
          assert st[i] != st[|s| + j];
        }
      }
    }
    if NoDup(s) && NoDup(t) && SetOf(s) !! SetOf(t) {
      forall i, j | 0 <= i < j < |st| ensures st[i] != st[j] {
        if i < |s| && |s| <= j {
          assert s[i] in SetOf(s) && t[j - |s|] in SetOf(t);
        }
      }
    }
  }

  lemma SplitSets(s: seq<int>, n: nat)
    requires n <= |s|
    ensures SetOf(s) == SetOf(s[..n]) + SetOf(s[n..])
    ensures NoDup(s) ==> NoDup(s[..n]) && SetOf(s[..n]) !! SetOf(s[n..])
  {
    assert s == s[..n] + s[n..];
    JoinSets(s[..n], s[n..]);
  }

  lemma ShrinkShape(st: State, required: ServiceInterface, recovered: Recovered, t: Taken)
    requires required.address in st.bindings && Sound(st.bindings[required.address])
    requires |required.ports| <= |st.bindings[required.address].ingressPorts|
    ensures var a, b, n := required.address, st.bindings[required.address], |required.ports|;
            var l' := ShrunkLedger(LedgerOf(st, recovered, a), SetOf(b.ingressPorts[..n]), SetOf(b.ingressPorts[n..]),
                                   UseOf(required));
            Shape(st, Change(st, b, required, t).0, recovered, a, l', b.ingressPorts[..n], UseOf(required))
  {
    var a, b, n := required.address, st.bindings[required.address], |required.ports|;
    var held, back := b.ingressPorts, SetOf(b.ingressPorts[n..]);
    var st1 := st.(free := st.free + back, lost := st.lost - back);
    OthersKeep(st, st1, recovered, a);
    SettleShape(st1, b, held[..n], Holds(st, a) - back, required, recovered);
  }

  lemma GrowShape(st: State, required: ServiceInterface, recovered: Recovered, t: Taken)
    requires required.address in st.bindings && Sound(st.bindings[required.address]) && t.complete && Fair(st.free, t)
    requires |required.ports| > |st.bindings[required.address].ingressPorts|
    ensures var a, b := required.address, st.bindings[required.address];
            var l' := GrownLedger(LedgerOf(st, recovered, a), SetOf(b.ingressPorts), SetOf(t.ports), UseOf(required));
            Shape(st, Change(st, b, required, t).0, recovered, a, l', b.ingressPorts + t.ports, UseOf(required))
  {
    var a, b := required.address, st.bindings[required.address];
    var st1 := st.(free := t.free);
    OthersKeep(st, st1, recovered, a);
    SettleShape(st1, b, b.ingressPorts + t.ports, Holds(st, a) + SetOf(t.ports), required, recovered);
    JoinSets(b.ingressPorts, t.ports);
  }

  /** The ports of a bound address, as sets. */
  lemma TidyHolds(st: State, recovered: Recovered, a: string)
    requires Tidy(st, recovered, a) && a in st.bindings
    ensures Holds(st, a) <= SetOf(st.bindings[a].ingressPorts)
    ensures st.bindings[a].Pooled() ==>
              Holds(st, a) == SetOf(st.bindings[a].ingressPorts) && NoDup(st.bindings[a].ingressPorts)
  {
  }

  lemma ShapeIsTidyExactlyWhen(st: State, st': State, recovered: Recovered, a: string, l': Ledger, ports: seq<int>,
                               to: Use)
    requires Shape(st, st', recovered, a, l', ports, to)
    ensures Tidy(st', recovered, a) <==>
            match to
            case InPool => NoDup(ports)
            case ByBridge => l'.owned <= SetOf(ports)
            case AsHeadless => l'.owned <= SetOf(st'.bindings[a].ingressPorts)
  {
  }

  lemma ShrinkIsSafeExactlyWhen(st: State, required: ServiceInterface, recovered: Recovered, t: Taken,
                                universe: set<int>, reserved: set<int>)
    requires Safe(st, recovered, universe, reserved) && required.address in st.bindings
    requires |required.ports| <= |st.bindings[required.address].ingressPorts|
    ensures Safe(Change(st, st.bindings[required.address], required, t).0, recovered, universe, reserved) <==>
              Guard(st, required, true)
  {
    var a, b, n := required.address, st.bindings[required.address], |required.ports|;
    var st', held, to := Change(st, b, required, t).0, b.ingressPorts, UseOf(required);
    var kept, back, l := SetOf(held[..n]), SetOf(held[n..]), LedgerOf(st, recovered, a);
    ShrinkShape(st, required, recovered, t);
    ChangeKeepsSound(st, required, t);
    SafeExactlyWhenBalanced(st, st', recovered, a, universe, reserved);
    assert Tidy(st, recovered, a);
    TidyHolds(st, recovered, a);
    SplitSets(held, n);
    LedgerDisjoint(st, recovered, a);
    ShrunkBalancesExactlyWhen(l, kept, back, to);
    ShapeIsTidyExactlyWhen(st, st', recovered, a, ShrunkLedger(l, kept, back, to), held[..n], to);
  }

  lemma GrowIsSafeExactlyWhen(st: State, required: ServiceInterface, recovered: Recovered, t: Taken, universe: set<int>,
                              reserved: set<int>)
    requires Safe(st, recovered, universe, reserved) && required.address in st.bindings
    requires |required.ports| > |st.bindings[required.address].ingressPorts|
    requires Fair(st.free, t) && t.complete && |required.ports| <= |st.free|
    ensures Safe(Change(st, st.bindings[required.address], required, t).0, recovered, universe, reserved) <==>
              Guard(st, required, true)
  {
    var a, b := required.address, st.bindings[required.address];
    var st', held, to := Change(st, b, required, t).0, b.ingressPorts, UseOf(required);
    var taken, l := SetOf(t.ports), LedgerOf(st, recovered, a);
    GrowShape(st, required, recovered, t);
    ChangeKeepsSound(st, required, t);
    SafeExactlyWhenBalanced(st, st', recovered, a, universe, reserved);
    assert Tidy(st, recovered, a);
    TidyHolds(st, recovered, a);
    JoinSets(held, t.ports);
    LedgerDisjoint(st, recovered, a);
    GrownBalancesExactlyWhen(l, SetOf(held), taken, to);
    ShapeIsTidyExactlyWhen(st, st', recovered, a, GrownLedger(l, SetOf(held), taken, to), held + t.ports, to);
  }

  /** A failed allocation loses the ports it got; nothing else changes. */
  lemma FailureIsSafe(st: State, recovered: Recovered, t: Taken, universe: set<int>, reserved: set<int>)
    requires Safe(st, recovered, universe, reserved) && Fair(st.free, t)
    ensures Safe(st.(free := t.free, lost := st.lost + SetOf(t.ports)), recovered, universe, reserved)
  {
    var st' := st.(free := t.free, lost := st.lost + SetOf(t.ports));
    OthersKeep(st, st', recovered, "");
    LedgerDisjoint(st, recovered, "");
    assert Tidy(st, recovered, "") && LedgerOf(st', recovered, "").All() == LedgerOf(st, recovered, "").All();
    SafeExactlyWhenBalanced(st, st', recovered, "", universe, reserved);
  }

  lemma CreateIsSafe(st: State, required: ServiceInterface, recovered: Recovered, t: Taken, universe: set<int>,
                     reserved: set<int>)
    requires Safe(st, recovered, universe, reserved) && required.address !in st.bindings && Fair(st.free, t)
    ensures Safe(Create(st, required, recovered, t).0, recovered, universe, reserved)
  {
    var a, st' := required.address, Create(st, required, recovered, t).0;
    if a !in st'.bindings {
      FailureIsSafe(st, recovered, t, universe, reserved);
    } else {
      var l, l' := LedgerOf(st, recovered, a), LedgerOf(st', recovered, a);
      LedgerDisjoint(st, recovered, a);
      assert Tidy(st, recovered, a);
      OthersKeep(st, st', recovered, a);
      CreateKeepsSound(st, required, recovered, t);
      CreatedLedger(st, required, recovered, t);
      SafeExactlyWhenBalanced(st, st', recovered, a, universe, reserved);
    }
  }

  lemma CreatedLedger(st: State, required: ServiceInterface, recovered: Recovered, t: Taken)
    requires required.address !in st.bindings && Fair(st.free, t)
    requires required.address in Create(st, required, recovered, t).0.bindings
    requires Tidy(st, recovered, required.address) && LedgerOf(st, recovered, required.address).Disjoint()
    ensures var a, st' := required.address, Create(st, required, recovered, t).0;
            Tidy(st', recovered, a) && Balanced(LedgerOf(st, recovered, a), LedgerOf(st', recovered, a))
                && st'.withheld == st.withheld
  {
    var a, st' := required.address, Create(st, required, recovered, t).0;
    var l, l' := LedgerOf(st, recovered, a), LedgerOf(st', recovered, a);
    if !required.RequiresIngressPortAllocations() {
      assert l' == Ledger(l.free, {}, l.lost + l.owned, l.withheld);
    } else if PortsFor(recovered, a) != [] {
      assert l' == l;
    } else {
      assert l' == Ledger(l.free - SetOf(t.ports), SetOf(t.ports), l.lost, l.withheld) && l.owned == {};
    }
    assert l'.All() == l.All();
  }

  lemma DeleteIsSafe(st: State, a: string, recovered: Recovered, universe: set<int>, reserved: set<int>)
    requires Safe(st, recovered, universe, reserved) && a in st.bindings && a !in recovered
    ensures Safe(Delete(st, a), recovered, universe, reserved)
  {
    var st' := Delete(st, a);
    var l, l' := LedgerOf(st, recovered, a), LedgerOf(st', recovered, a);
    LedgerDisjoint(st, recovered, a);
    OthersKeep(st, st', recovered, a);
    assert l' == Ledger(l.free, {}, l.lost + l.owned, l.withheld);
    assert l'.All() == l.All();
    SafeExactlyWhenBalanced(st, st', recovered, a, universe, reserved);
  }

  /** One update keeps the accounts if and only if it respects `Guard`. */
  lemma UpdateKeepsSafeExactlyWhen(st: State, required: ServiceInterface, allowed: bool, recovered: Recovered,
                                   universe: set<int>, reserved: set<int>)
    requires Safe(st, recovered, universe, reserved)
    requires required.address in st.bindings && !allowed ==> required.address !in recovered
    ensures Safe(Update(st, required, allowed, recovered).0, recovered, universe, reserved) <==>
              Guard(st, required, allowed)
  {
    var a, t := required.address, Take(st.free, |required.ports|);
    TakeIsExact(st.free, |required.ports|);
    if a !in st.bindings {
      CreateIsSafe(st, required, recovered, t, universe, reserved);
    } else if !allowed {
      DeleteIsSafe(st, a, recovered, universe, reserved);
    } else if |required.ports| <= |st.bindings[a].ingressPorts| {
      ShrinkIsSafeExactlyWhen(st, required, recovered, t, universe, reserved);
    } else if t.complete {
      GrowIsSafeExactlyWhen(st, required, recovered, t, universe, reserved);
    } else {
      FailureIsSafe(st, recovered, t, universe, reserved);
    }
  }

  // ---- What `Guard` lets through and what it does not ----------------------------------------

  /** A binding that draws on the pool may turn to an external bridge, with as many ports as it had, and
      back: it has kept its ports, and they are the pool's again. */
  lemma BridgeAndBackIsGuarded(st: State, bridged: ServiceInterface, back: ServiceInterface, recovered: Recovered,
                               universe: set<int>, reserved: set<int>)
    requires Safe(st, recovered, universe, reserved) && bridged.address == back.address && back.address in st.bindings
    requires st.bindings[back.address].Pooled() && UseOf(bridged) == ByBridge && UseOf(back) == InPool
    requires |bridged.ports| == |st.bindings[back.address].ingressPorts| && |back.ports| <= |bridged.ports|
    ensures var st' := Update(st, bridged, true, recovered).0;
            && Safe(st', recovered, universe, reserved) && Guard(st', back, true)
            && back.address in st'.bindings
                 && st'.bindings[back.address].ingressPorts == st.bindings[back.address].ingressPorts
  {
    var a, n, t := back.address, |bridged.ports|, Take(st.free, |bridged.ports|);
    var held, st' := st.bindings[a].ingressPorts, Update(st, bridged, true, recovered).0;
    UpdateKeepsSafeExactlyWhen(st, bridged, true, recovered, universe, reserved);
    assert held[..n] == held && held[n..] == [];
    ShrinkShape(st, bridged, recovered, t);
    assert Tidy(st, recovered, a);
    assert Holds(st', a) == SetOf(held) by {
      assert Holds(st', a) == LedgerOf(st', recovered, a).owned;
    }
    SplitSets(held, |back.ports|);
  }

  /** An external service that grew may give back what it took: of the ports it holds, the first `k` are
      its own and the others the pool's, and at least `k` are still required. */
  lemma BridgeGivesBackIsGuarded(st: State, required: ServiceInterface, k: nat)
    requires required.address in st.bindings && !st.bindings[required.address].Pooled() && UseOf(required) != InPool
    requires k <= |required.ports| <= |st.bindings[required.address].ingressPorts|
    requires SetOf(st.bindings[required.address].ingressPorts[k..]) <= Holds(st, required.address)
    ensures Guard(st, required, true)
  {
    var held, n := st.bindings[required.address].ingressPorts, |required.ports|;
    assert held[n..] == held[k..][n - k..];
    forall p | p in held[n..] ensures p in held[k..] {
      var i :| 0 <= i < |held[n..]| && held[n..][i] == p;
      assert held[k..][n - k + i] == p;
    }
  }

  /** Where `Guard` fails: a headless service drops its port 8080, and the console's port becomes free
      for any other service to take. */
  lemma HeadlessShrinkFreesRouterPort(required: ServiceInterface, universe: set<int>)
    requires required.headless.Some? && required.ports == [80] && universe >= RESERVED
    ensures var b := NewServiceBindings(required.(ports := [80, 8080]), [80, 8080]);
            var st := State(map[required.address := b], universe - RESERVED, map[], {}, RESERVED);
            && !Guard(st, required, true)
            && 8080 in Update(st, required, true, map[]).0.free * RESERVED
  {
    var b := NewServiceBindings(required.(ports := [80, 8080]), [80, 8080]);
    var st := State(map[required.address := b], universe - RESERVED, map[], {}, RESERVED);
    assert b.ingressPorts[1..] == [8080];
    assert 8080 in SetOf(b.ingressPorts[1..]);
  }
}
