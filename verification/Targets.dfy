/** The local targets of a binding, and what updates leave of earlier ones: `NewServiceBindings` and
    `ServiceBindings.Update` of pkg/service/bindings.go. */
module Targets {
  import opened Prelude

  // ---- Targets and their table ---------------------------------------------------------------

  /** A target of a service definition: the pods with a selector, or the hosts of another service. */
  datatype Target = Target(name: string, selector: string, service: string, ports: map<int, int>, namespace: string)

  /** What a definition says about its targets. */
  datatype Request = Request(targets: seq<Target>, ports: seq<int>, notReady: bool)

  datatype TargetKey = TargetKey(identifier: string, namespace: string)

  /** The binding of a target; `notReady` is how its resolver was made, for selectors. */
  datatype Egress = Egress(name: string, selector: string, service: string, ports: map<int, int>, notReady: bool)

  type Table = map<TargetKey, Egress>

  function KeyOf(t: Target): Option<TargetKey> {
    if t.selector != "" then Some(TargetKey(t.selector, t.namespace))
    else if t.service != "" then Some(TargetKey(t.service, t.namespace))
    else None
  }

  /** `getTargetPorts`. */
  function PortsOf(r: Request, t: Target): map<int, int> {
    if t.ports == map[] then map p | p in r.ports :: p else t.ports
  }

  function EgressOf(r: Request, t: Target): Egress {
    if t.selector != "" then Egress(t.name, t.selector, "", PortsOf(r, t), r.notReady)
    else Egress(t.name, "", t.service, PortsOf(r, t), false)
  }

  /** The targets of a new binding: each is added, over another of the same key. */
  function AddAll(r: Request, list: seq<Target>): Table {
    if list == [] then map[]
    else
      var before, t := AddAll(r, list[..|list| - 1]), list[|list| - 1];
      if KeyOf(t).Some? then before[KeyOf(t).value := EgressOf(r, t)] else before
  }

  function NewTable(r: Request): Table {
    AddAll(r, r.targets)
  }

  /** One target of an update.  A service target is looked up by its selector, which is empty. */
  function Put(table: Table, r: Request, t: Target): Table {
    var found := TargetKey(t.selector, t.namespace);
    if KeyOf(t).None? then table
    else if found in table then table[found := table[found].(ports := PortsOf(r, t))]
    else table[KeyOf(t).value := EgressOf(r, t)]
  }

  function PutAll(table: Table, r: Request, list: seq<Target>): Table {
    if list == [] then table else Put(PutAll(table, r, list[..|list| - 1]), r, list[|list| - 1])
  }

  const ROUTER := "skupper.io/component=router"

  /** Some target's selector selects the router. */
  predicate SelectsRouter(r: Request) {
    exists t <- r.targets :: Contains(t.selector, ROUTER)
  }

  predicate HasSelector(r: Request, k: TargetKey) {
    exists t <- r.targets :: t.selector == k.identifier && t.namespace == k.namespace
  }

  predicate HasService(r: Request, k: TargetKey) {
    exists t <- r.targets :: t.service == k.identifier && t.namespace == k.namespace
  }

  /** The update removes this entry. */
  predicate Stale(r: Request, k: TargetKey, e: Egress) {
    if e.selector != "" then !HasSelector(r, k) && !SelectsRouter(r)
    else e.service != "" && !HasService(r, k)
  }

  function NextTable(table: Table, r: Request): Table {
    var put := PutAll(table, r, r.targets);
    map k | k in put && !Stale(r, k, put[k]) :: put[k]
  }

  class Egresses {
    var targets: Table

    /** The part of `Update` that is about targets. */
    method Update(r: Request)
      modifies this
      ensures targets == NextTable(old(targets), r)
    {
      ghost var before := targets;
      for i := 0 to |r.targets|
        invariant targets == PutAll(before, r, r.targets[..i])
      {
        var t := r.targets[i];
        assert r.targets[..i + 1][..i] == r.targets[..i];
        var found := TargetKey(t.selector, t.namespace);
        if t.selector != "" {
          if found !in targets {
            targets := targets[found := EgressOf(r, t)];
          } else {
            targets := targets[found := targets[found].(ports := PortsOf(r, t))];
          }
        } else if t.service != "" {
          if found !in targets {
            targets := targets[TargetKey(t.service, t.namespace) := EgressOf(r, t)];
          } else {
            targets := targets[found := targets[found].(ports := PortsOf(r, t))];
          }
        }
      }
      assert r.targets[..|r.targets|] == r.targets;
      RemoveStale(r);
    }

    method RemoveStale(r: Request)
      modifies this
      ensures targets == map k | k in old(targets) && !Stale(r, k, old(targets)[k]) :: old(targets)[k]
    {
      ghost var before := targets;
      var todo := targets.Keys;
      while todo != {}
        invariant todo <= before.Keys
        invariant forall k :: k in targets <==> k in before && (k in todo || !Stale(r, k, before[k]))
        invariant forall k <- targets :: targets[k] == before[k]
      {
        var k :| k in todo;
        todo := todo - {k};
        if Stale(r, k, targets[k]) {
          targets := targets - {k};
        }
      }
    }
  }

  /** A target that names no ports serves each port of the service at the same number. */
  lemma PortsOfTells(r: Request, t: Target)
    ensures t.ports != map[] ==> PortsOf(r, t) == t.ports
    ensures t.ports == map[] ==>
              forall p :: (p in PortsOf(r, t) <==> p in r.ports) && (p in r.ports ==> PortsOf(r, t)[p] == p)
  {
  }

  /** The router is selected if and only if some selector has the label of its component in it. */
  lemma SelectsRouterExactlyWhen(r: Request)
    ensures SelectsRouter(r) <==>
              exists t, i :: t in r.targets && OccursAt(t.selector, "skupper.io/component=router", i)
  {
    forall t <- r.targets ensures Contains(t.selector, ROUTER) <==> exists i :: OccursAt(t.selector, ROUTER, i) {
      ContainsExactlyWhen(t.selector, ROUTER);
    }
  }

  // ---- One key at a time ---------------------------------------------------------------------

  ghost function At(table: Table, k: TargetKey): Option<Egress> {
    if k in table then Some(table[k]) else None
  }

  predicate Under(t: Target, k: TargetKey) {
    KeyOf(t) == Some(k)
  }

  /** The last target filed under `k`. */
  function LastUnder(list: seq<Target>, k: TargetKey): Option<Target> {
    if list == [] then None
    else if Under(list[|list| - 1], k) then Some(list[|list| - 1])
    else LastUnder(list[..|list| - 1], k)
  }

  /** The first target filed under `k`. */
  function FirstUnder(list: seq<Target>, k: TargetKey): Option<Target> {
    if list == [] then None
    else if FirstUnder(list[..|list| - 1], k).Some? then FirstUnder(list[..|list| - 1], k)
    else if Under(list[|list| - 1], k) then Some(list[|list| - 1])
    else None
  }

  /** A service target is filed under `k`. */
  ghost predicate ServiceUnder(list: seq<Target>, k: TargetKey) {
    exists t <- list :: Under(t, k) && t.selector == ""
  }

  function NewAt(r: Request, k: TargetKey): Option<Egress> {
    var t := LastUnder(r.targets, k);
    if t.None? then None else Some(EgressOf(r, t.value))
  }

  ghost function PutAt(prev: Option<Egress>, r: Request, list: seq<Target>, k: TargetKey): Option<Egress> {
    if list == [] then prev
    else
      var before, t := PutAt(prev, r, list[..|list| - 1], k), list[|list| - 1];
      if !Under(t, k) then before
      else if t.selector != "" && before.Some? then Some(before.value.(ports := PortsOf(r, t)))
      else Some(EgressOf(r, t))
  }

  ghost function NextAt(prev: Option<Egress>, r: Request, k: TargetKey): Option<Egress> {
    var put := PutAt(prev, r, r.targets, k);
    if put.Some? && Stale(r, k, put.value) then None else put
  }

  /** An entry is a selector's or a service's, and is filed under it. */
  ghost predicate Proper(e: Egress, k: TargetKey) {
    if e.selector != "" then e.selector == k.identifier && e.service == ""
    else e.service == k.identifier && e.service != "" && !e.notReady
  }

  ghost predicate WellKept(table: Table) {
    forall k <- table :: k.identifier != "" && Proper(table[k], k)
  }

  lemma {:induction false} AddIsPointwise(r: Request, list: seq<Target>, k: TargetKey)
    ensures WellKept(AddAll(r, list))
    ensures At(AddAll(r, list), k) == var t := LastUnder(list, k); if t.None? then None else Some(EgressOf(r, t.value))
  {
    if list != [] {
      AddIsPointwise(r, list[..|list| - 1], k);
    }
  }

  lemma {:induction false} PutIsPointwise(table: Table, r: Request, list: seq<Target>, k: TargetKey)
    requires WellKept(table)
    ensures WellKept(PutAll(table, r, list))
    ensures At(PutAll(table, r, list), k) == PutAt(At(table, k), r, list, k)
  {
    if list != [] {
      PutIsPointwise(table, r, list[..|list| - 1], k);
      PutOne(PutAll(table, r, list[..|list| - 1]), r, list[|list| - 1], k);
    }
  }

  /** No key has an empty identifier, so the look-up of a service target never finds anything: service
      targets are always replaced. */
  lemma PutOne(table: Table, r: Request, t: Target, k: TargetKey)
    requires WellKept(table)
    ensures WellKept(Put(table, r, t))
    ensures At(Put(table, r, t), k) ==
              if !Under(t, k) then At(table, k)
              else if t.selector != "" && k in table then Some(table[k].(ports := PortsOf(r, t)))
              else Some(EgressOf(r, t))
  {
  }

  lemma NextIsPointwise(table: Table, r: Request, k: TargetKey)
    requires WellKept(table)
    ensures WellKept(NextTable(table, r))
    ensures At(NextTable(table, r), k) == NextAt(At(table, k), r, k)
  {
    PutIsPointwise(table, r, r.targets, k);
  }

  // ---- When an update leaves what a new binding would have -----------------------------------

  /** What the targets of an update do to an entry. */
  lemma {:induction false} PutAtTells(prev: Option<Egress>, r: Request, list: seq<Target>, k: TargetKey)
    requires prev.Some? ==> Proper(prev.value, k)
    ensures LastUnder(list, k).None? <==> FirstUnder(list, k).None?
    ensures LastUnder(list, k).Some? ==> LastUnder(list, k).value in list && Under(LastUnder(list, k).value, k)
    ensures FirstUnder(list, k).Some? ==> FirstUnder(list, k).value in list && Under(FirstUnder(list, k).value, k)
    ensures var last, first := LastUnder(list, k), FirstUnder(list, k);
            PutAt(prev, r, list, k) ==
              if last.None? then prev
              else if last.value.selector == "" then Some(EgressOf(r, last.value))
              else if ServiceUnder(list, k) then PutAt(prev, r, list, k)
              else Some((if prev.Some? then prev.value else EgressOf(r, first.value)).(ports := PortsOf(r, last.value)))
    ensures ServiceUnder(list, k) ==> PutAt(prev, r, list, k).Some? && PutAt(prev, r, list, k).value.selector == ""
  {
    if list != [] {
      var before, t := list[..|list| - 1], list[|list| - 1];
      PutAtTells(prev, r, before, k);
      assert list == before + [t];
      assert ServiceUnder(list, k) <==> ServiceUnder(before, k) || (Under(t, k) && t.selector == "");
    }
  }

  lemma {:induction false} PutAtIsProper(prev: Option<Egress>, r: Request, list: seq<Target>, k: TargetKey)
    requires prev.Some? ==> Proper(prev.value, k)
    ensures PutAt(prev, r, list, k).Some? ==> Proper(PutAt(prev, r, list, k).value, k)
  {
    if list != [] {
      PutAtIsProper(prev, r, list[..|list| - 1], k);
    }
  }

  /** The name under which an entry is made: where the binding is created the last target of the key
      counts, in an update the first. */
  function FirstName(r: Request, creates: bool, k: TargetKey): string {
    var t := if creates then LastUnder(r.targets, k) else FirstUnder(r.targets, k);
    if t.None? then "" else t.value.name
  }

  /** The update of an entry leaves what a new binding would have: an entry without a target goes; a
      service target is always new; and a selector's entry, found or just made, has the name of the last
      target of its key, and was made as it would be now. */
  ghost predicate Settled(prev: Option<Egress>, r: Request, k: TargetKey) {
    var last := LastUnder(r.targets, k);
    if last.None? then
      prev.None? || (if prev.value.selector != "" then !SelectsRouter(r) else !HasService(r, k))
    else
      || last.value.selector == ""
      || (&& !ServiceUnder(r.targets, k)
          && if prev.None? then FirstName(r, false, k) == last.value.name
             else prev.value.selector != "" && prev.value.name == last.value.name && prev.value.notReady == r.notReady)
  }

  lemma NextIsNewExactlyWhen(prev: Option<Egress>, r: Request, k: TargetKey)
    requires k.identifier != "" && (prev.Some? ==> Proper(prev.value, k))
    ensures NextAt(prev, r, k) == NewAt(r, k) <==> Settled(prev, r, k)
  {
    PutAtTells(prev, r, r.targets, k);
    var last := LastUnder(r.targets, k);
    if last.Some? {
      assert last.value.selector != "" ==> HasSelector(r, k);
      assert last.value.selector == "" ==> HasService(r, k);
    } else {
      SelectorIsUnder(r, k);
    }
  }

  lemma SelectorIsUnder(r: Request, k: TargetKey)
    requires LastUnder(r.targets, k).None? && k.identifier != ""
    ensures !HasSelector(r, k)
  {
    if HasSelector(r, k) {
      var t :| t in r.targets && t.selector == k.identifier && t.namespace == k.namespace;
      NoneUnder(r.targets, k, t);
    }
  }

  lemma {:induction false} NoneUnder(list: seq<Target>, k: TargetKey, t: Target)
    requires LastUnder(list, k).None? && t in list
    ensures !Under(t, k)
  {
    if t != list[|list| - 1] {
      NoneUnder(list[..|list| - 1], k, t);
    }
  }

  /** The same request a second time settles every entry. */
  lemma SecondTimeSettles(prev: Option<Egress>, r: Request, k: TargetKey)
    requires k.identifier != "" && (prev.Some? ==> Proper(prev.value, k))
    ensures NextAt(NextAt(NextAt(prev, r, k), r, k), r, k) == NextAt(NextAt(prev, r, k), r, k)
  {
    var once := NextAt(prev, r, k);
    var twice := NextAt(once, r, k);
    PutAtIsProper(prev, r, r.targets, k);
    PutAtIsProper(once, r, r.targets, k);
    PutAtTells(prev, r, r.targets, k);
    PutAtTells(once, r, r.targets, k);
    PutAtTells(twice, r, r.targets, k);
    PutAtAgain(prev, once, r, r.targets, k);
    PutAtAgain(once, twice, r, r.targets, k);
    if LastUnder(r.targets, k).Some? && LastUnder(r.targets, k).value.selector != "" {
      assert HasSelector(r, k);
    }
  }

  /** Where a service target is filed under the key, what was there before does not matter. */
  lemma {:induction false} PutAtAgain(a: Option<Egress>, b: Option<Egress>, r: Request, list: seq<Target>, k: TargetKey)
    ensures ServiceUnder(list, k) ==> PutAt(a, r, list, k) == PutAt(b, r, list, k)
  {
    if list != [] {
      var before, t := list[..|list| - 1], list[|list| - 1];
      PutAtAgain(a, b, r, before, k);
      assert list == before + [t];
      assert ServiceUnder(list, k) <==> ServiceUnder(before, k) || (Under(t, k) && t.selector == "");
    }
  }

  lemma SecondUpdateSettles(table: Table, r: Request)
    requires WellKept(table)
    ensures NextTable(NextTable(NextTable(table, r), r), r) == NextTable(NextTable(table, r), r)
  {
    var once := NextTable(table, r);
    var twice := NextTable(once, r);
    NextIsPointwise(table, r, TargetKey("", ""));
    NextIsPointwise(once, r, TargetKey("", ""));
    NextIsPointwise(twice, r, TargetKey("", ""));
    forall k: TargetKey | k.identifier != "" ensures At(NextTable(twice, r), k) == At(twice, k) {
      NextIsPointwise(table, r, k);
      NextIsPointwise(once, r, k);
      NextIsPointwise(twice, r, k);
      SecondTimeSettles(At(table, k), r, k);
    }
    SameTables(NextTable(twice, r), twice);
  }

  // ---- A series of definitions ---------------------------------------------------------------

  /** The table after these requests, the first of which created the binding. */
  function TableAfter(rs: seq<Request>): Table
    requires rs != []
  {
    var n := |rs| - 1;
    if n == 0 then NewTable(rs[0]) else NextTable(TableAfter(rs[..n]), rs[n])
  }

  /** The entry of `k` after these requests. */
  ghost function After(rs: seq<Request>, k: TargetKey): Option<Egress> {
    if rs == [] then None
    else if |rs| == 1 then NewAt(rs[0], k)
    else NextAt(After(rs[..|rs| - 1], k), rs[|rs| - 1], k)
  }

  lemma {:induction false} TableIsPointwise(rs: seq<Request>, k: TargetKey)
    requires rs != []
    ensures WellKept(TableAfter(rs))
    ensures At(TableAfter(rs), k) == After(rs, k)
  {
    var n := |rs| - 1;
    if n == 0 {
      AddIsPointwise(rs[0], rs[0].targets, k);
    } else {
      TableIsPointwise(rs[..n], k);
      AfterOneMore(rs, TableAfter(rs[..n]), After(rs[..n], k), k);
    }
  }

  lemma AfterOneMore(rs: seq<Request>, table: Table, entry: Option<Egress>, k: TargetKey)
    requires |rs| > 1 && table == TableAfter(rs[..|rs| - 1]) && entry == After(rs[..|rs| - 1], k)
    requires WellKept(table) && At(table, k) == entry
    ensures WellKept(TableAfter(rs)) && At(TableAfter(rs), k) == After(rs, k)
  {
    NextIsPointwise(table, rs[|rs| - 1], k);
  }

  /** Nothing is left of earlier targets. */
  ghost predicate TargetsForgotten(rs: seq<Request>)
    requires rs != []
  {
    var n := |rs| - 1;
    n > 0 ==> forall k: TargetKey | k.identifier != "" :: Settled(After(rs[..n], k), rs[n], k)
  }

  lemma TableIsNewExactlyWhen(rs: seq<Request>)
    requires rs != []
    ensures TableAfter(rs) == NewTable(rs[|rs| - 1]) <==> TargetsForgotten(rs)
  {
    var n := |rs| - 1;
    if n > 0 {
      var now, new_ := TableAfter(rs), NewTable(rs[n]);
      forall k: TargetKey | k.identifier != ""
        ensures At(now, k) == At(new_, k) <==> Settled(After(rs[..n], k), rs[n], k) {
        EntryIsNewExactlyWhen(rs, k);
      }
      TableIsPointwise(rs, TargetKey("", ""));
      AddIsPointwise(rs[n], rs[n].targets, TargetKey("", ""));
      SameTables(now, new_);
    }
  }

  lemma EntryIsNewExactlyWhen(rs: seq<Request>, k: TargetKey)
    requires |rs| > 1 && k.identifier != ""
    ensures var n := |rs| - 1; At(TableAfter(rs), k) == At(NewTable(rs[n]), k) <==> Settled(After(rs[..n], k), rs[n], k)
  {
    var n := |rs| - 1;
    TableIsPointwise(rs, k);
    TableIsPointwise(rs[..n], k);
    AddIsPointwise(rs[n], rs[n].targets, k);
    NextIsNewExactlyWhen(After(rs[..n], k), rs[n], k);
  }

  lemma SameTables(a: Table, b: Table)
    requires WellKept(a) && WellKept(b)
    ensures a == b <==> forall k: TargetKey | k.identifier != "" :: At(a, k) == At(b, k)
  {
    if forall k: TargetKey | k.identifier != "" :: At(a, k) == At(b, k) {
      forall k: TargetKey ensures (k in a <==> k in b) && (k in a ==> a[k] == b[k]) {
        assert k.identifier != "" ==> At(a, k) == At(b, k);
      }
    }
  }

  // ---- Selector targets over time ------------------------------------------------------------

  /** Only selectors are filed under `k`. */
  ghost predicate SelectorsOnly(rs: seq<Request>, k: TargetKey) {
    k.identifier != "" && forall r <- rs :: !ServiceUnder(r.targets, k)
  }

  /** The requests since the entry of `k` was made: it lasts as long as requests have a target for it or
      select the router. */
  function Life(rs: seq<Request>, k: TargetKey): seq<Request> {
    if rs == [] then []
    else
      var before, r := Life(rs[..|rs| - 1], k), rs[|rs| - 1];
      if LastUnder(r.targets, k).Some? || (before != [] && SelectsRouter(r)) then before + [r] else []
  }

  /** The ports of the last target for `k` in the latest of these requests that has one. */
  function LatestPorts(rs: seq<Request>, k: TargetKey): map<int, int> {
    if rs == [] then map[]
    else
      var r, t := rs[|rs| - 1], LastUnder(rs[|rs| - 1].targets, k);
      if t.Some? then PortsOf(r, t.value) else LatestPorts(rs[..|rs| - 1], k)
  }

  /** The entry of a selector: its name and its resolver from the start of its life, and the latest ports. */
  function Lasting(rs: seq<Request>, k: TargetKey): Option<Egress> {
    var life := Life(rs, k);
    if life == [] then None
    else Some(Egress(FirstName(life[0], |life| == |rs|, k), k.identifier, "", LatestPorts(life, k), life[0].notReady))
  }

  /** A selector's entry has the name and the resolver it was made with, and the latest ports. */
  lemma {:induction false} SelectorTargetTells(rs: seq<Request>, k: TargetKey)
    requires SelectorsOnly(rs, k)
    ensures After(rs, k) == Lasting(rs, k) && |Life(rs, k)| <= |rs|
  {
    if rs != [] {
      var n := |rs| - 1;
      var before, r := rs[..n], rs[n];
      assert r in rs && forall x <- before :: x in rs;
      SelectorTargetTells(before, k);
      assert rs == before + [r];
      SelectorStep(before, r, k);
    }
  }

  lemma SelectorStep(before: seq<Request>, r: Request, k: TargetKey)
    requires k.identifier != "" && !ServiceUnder(r.targets, k)
    requires After(before, k) == Lasting(before, k) && |Life(before, k)| <= |before|
    ensures After(before + [r], k) == Lasting(before + [r], k)
  {
    var rs := before + [r];
    assert rs[..|before|] == before;
    var life, life' := Life(before, k), Life(rs, k);
    PutAtTells(After(before, k), r, r.targets, k);
    var last := LastUnder(r.targets, k);
    if last.Some? {
      assert HasSelector(r, k);
      assert life'[..|life|] == life;
    } else {
      SelectorIsUnder(r, k);
      if life' != [] {
        assert life'[..|life|] == life;
      }
    }
  }

  /** A service's entry is always that of the latest definition: with its name and ports where its last
      target of the key is a service, and gone where it names the service no more. */
  lemma ServiceTargetTells(rs: seq<Request>, k: TargetKey)
    requires rs != [] && k.identifier != ""
    ensures var r := rs[|rs| - 1];
            var t := LastUnder(r.targets, k);
            && (t.Some? && t.value.selector == "" ==>
                After(rs, k) == Some(Egress(t.value.name, "", k.identifier, PortsOf(r, t.value), false)))
            && (t.None? && After(rs, k).Some? && After(rs, k).value.selector == "" ==> HasService(r, k))
  {
    var n := |rs| - 1;
    if n > 0 {
      TableIsPointwise(rs[..n], k);
      PutAtTells(After(rs[..n], k), rs[n], rs[n].targets, k);
      PutAtIsProper(After(rs[..n], k), rs[n], rs[n].targets, k);
    } else {
      PutAtTells(None, rs[0], rs[0].targets, k);
    }
  }

  /** A selector target whose name changes from one definition to the next keeps the old name. */
  lemma RenamedTargetKeepsItsName(first: Request, next: Request, t: Target, t': Target)
    requires first.targets == [t] && next.targets == [t'] && t.selector == t'.selector != ""
    requires t.namespace == t'.namespace
    ensures var k := TargetKey(t.selector, t.namespace);
            && At(TableAfter([first, next]), k) ==
                 Some(Egress(t.name, t.selector, "", PortsOf(next, t'), first.notReady))
            && At(NewTable(next), k) == Some(Egress(t'.name, t.selector, "", PortsOf(next, t'), next.notReady))
  {
    var k, rs := TargetKey(t.selector, t.namespace), [first, next];
    assert first.targets[|first.targets| - 1] == t && next.targets[|next.targets| - 1] == t';
    TableIsPointwise(rs, k);
    SelectorTargetTells(rs, k);
    assert rs[..1] == [first] && [first][..0] == [];
    AddIsPointwise(next, next.targets, k);
  }

  /** While a definition selects the router, no selector's entry is removed. */
  lemma RouterSelectorKeepsTargets(table: Table, r: Request, k: TargetKey)
    requires WellKept(table) && SelectsRouter(r) && k in table && table[k].selector != "" && !ServiceUnder(r.targets, k)
    ensures k in NextTable(table, r) && NextTable(table, r)[k].name == table[k].name
  {
    NextIsPointwise(table, r, k);
    PutAtTells(At(table, k), r, r.targets, k);
  }
}
