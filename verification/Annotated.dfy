/** The merge of the definitions of annotated objects that share an address,
    cmd/service-controller/definition_monitor.go. */
module Annotated {
  import opened Prelude

  datatype Target = Target(
    name: string,
    selector: string,
    targetPorts: map<int, int>,
    service: string,
    namespace: string)

  /** `headless` is a pointer in the source and is compared as one. */
  datatype Service = Service(
    origin: string,
    protocol: string,
    ports: seq<int>,
    headless: Option<int>,
    labels: map<string, string>,
    annotations: map<string, string>,
    targets: seq<Target>)

  type TargetMap = map<string, Target>

  // ---- One merge -----------------------------------------------------------------------------

  /** The targets by name; of several with one name the last counts. */
  function ByName(targets: seq<Target>): TargetMap {
    if targets == [] then map[]
    else
      var t := targets[|targets| - 1];
      ByName(targets[..|targets| - 1])[t.name := t]
  }

  datatype Merge = Merge(targets: TargetMap, updated: bool)

  /** The second target loop over the first `n` desired targets. */
  function MergeTargets(actual: TargetMap, desired: seq<Target>, n: nat): Merge
    requires n <= |desired|
  {
    if n == 0 then Merge(actual, false)
    else
      MergeOne(MergeTargets(actual, desired, n - 1), desired[n - 1])
  }

  function MergeOne(m: Merge, t: Target): Merge {
    if t.name in m.targets && m.targets[t.name] == t then m else Merge(m.targets[t.name := t], true)
  }

  /** Every actual port is a desired one; a port 0 passes, because looking up a missing key gives 0. */
  predicate SamePorts(actual: seq<int>, desired: seq<int>) {
    |actual| == |desired| && forall v <- actual :: v in desired || v == 0
  }

  /** Something other than the targets differs, so that the desired definition replaces the actual one. */
  predicate Replaces(actual: Service, desired: Service) {
    actual.protocol != desired.protocol || !SamePorts(actual.ports, desired.ports)
        || actual.headless != desired.headless
  }

  /** `list` holds the targets with these names, each once, in some order. */
  ghost predicate ListsOf(list: seq<Target>, m: TargetMap, names: set<string>) {
    && (forall i | 0 <= i < |list| :: list[i].name in names && list[i].name in m && m[list[i].name] == list[i])
    && (forall i, j | 0 <= i < j < |list| :: list[i].name != list[j].name)
    && (forall n <- names :: exists i :: 0 <= i < |list| && list[i].name == n)
  }

  ghost predicate Lists(list: seq<Target>, m: TargetMap) {
    ListsOf(list, m, m.Keys)
  }

  lemma ListOneMore(list: seq<Target>, m: TargetMap, names: set<string>, n: string)
    requires Keyed(m) && ListsOf(list, m, names) && n in m && n !in names
    ensures ListsOf(list + [m[n]], m, names + {n})
  {
    var more := list + [m[n]];
    forall x <- names + {n} ensures exists i :: 0 <= i < |more| && more[i].name == x {
      if x == n {
        assert more[|list|].name == n;
      } else {
        var i :| 0 <= i < |list| && list[i].name == x;
        assert more[i].name == x;
      }
    }
  }

  /** What `updateAnnotatedServiceDefinition` reports and makes of the desired definition. */
  ghost predicate IsUpdate(actual: Service, desired: Service, updated: bool, desired': Service) {
    if actual.origin != "annotation" then !updated && desired' == desired
    else if Replaces(actual, desired) then updated && desired' == desired
    else
      var m := MergeTargets(ByName(actual.targets), desired.targets, |desired.targets|);
      if !m.updated && actual.labels == desired.labels && actual.annotations == desired.annotations then
        !updated && desired' == desired
      else
        updated && desired' == desired.(targets := desired'.targets) && Lists(desired'.targets, m.targets)
  }

  method UpdateAnnotatedServiceDefinition(actual: Service, desired: Service) returns (updated: bool, desired': Service)
    ensures IsUpdate(actual, desired, updated, desired')
  {
    desired' := desired;
    if actual.origin != "annotation" {
      return false, desired;
    }
    if actual.protocol != desired.protocol || |actual.ports| != |desired.ports| {
      return true, desired;
    }
    var missing := MissingPort(actual.ports, desired.ports);
    if missing || actual.headless != desired.headless {
      return true, desired;
    }
    var targets: TargetMap := map[];
    for i := 0 to |actual.targets|
      invariant targets == ByName(actual.targets[..i])
    {
      assert actual.targets[..i + 1][..i] == actual.targets[..i];
      targets := targets[actual.targets[i].name := actual.targets[i]];
    }
    assert actual.targets[..|actual.targets|] == actual.targets;
    updated := false;
    for i := 0 to |desired.targets|
      invariant Merge(targets, updated) == MergeTargets(ByName(actual.targets), desired.targets, i)
    {
      var t := desired.targets[i];
      if t.name !in targets || targets[t.name] != t {
        targets := targets[t.name := t];
        updated := true;
      }
    }
    if actual.labels != desired.labels || actual.annotations != desired.annotations {
      updated := true;
    }
    if !updated {
      return;
    }
    MergedIsKeyed(actual.targets, desired.targets, |desired.targets|);
    var list := ListTargets(targets);
    desired' := desired.(targets := list);
  }

  method MissingPort(actual: seq<int>, desired: seq<int>) returns (missing: bool)
    requires |actual| == |desired|
    ensures missing <==> !SamePorts(actual, desired)
  {
    for i := 0 to |actual|
      invariant forall v <- actual[..i] :: v in desired || v == 0
    {
      if actual[i] !in desired && actual[i] != 0 {
        assert actual[i] in actual;
        return true;
      }
    }
    assert actual[..|actual|] == actual;
    return false;
  }

  ghost predicate Keyed(m: TargetMap) {
    forall n <- m :: m[n].name == n
  }

  /** The last loop: the targets of the map, in any order. */
  method ListTargets(m: TargetMap) returns (list: seq<Target>)
    requires Keyed(m)
    ensures Lists(list, m)
  {
    list := [];
    var todo := m.Keys;
    while todo != {}
      invariant todo <= m.Keys && ListsOf(list, m, m.Keys - todo)
      decreases todo
    {
      var n :| n in todo;
      ListOneMore(list, m, m.Keys - todo, n);
      list := list + [m[n]];
      assert m.Keys - (todo - {n}) == (m.Keys - todo) + {n};
      todo := todo - {n};
    }
    assert m.Keys - todo == m.Keys;
  }

  lemma {:induction false} ByNameIsKeyed(targets: seq<Target>)
    ensures Keyed(ByName(targets))
  {
    if targets != [] {
      ByNameIsKeyed(targets[..|targets| - 1]);
    }
  }

  lemma {:induction false} MergedIsKeyed(actual: seq<Target>, desired: seq<Target>, n: nat)
    requires n <= |desired|
    ensures Keyed(MergeTargets(ByName(actual), desired, n).targets)
  {
    if n == 0 {
      ByNameIsKeyed(actual);
    } else {
      MergedIsKeyed(actual, desired, n - 1);
    }
  }

  // ---- Events --------------------------------------------------------------------------------

  /** An event for an annotated object whose definition is `desired`: what is recorded for the address,
      and whether an update is reported. */
  ghost predicate Step(known: Option<Service>, desired: Service, known': Option<Service>, reported: bool) {
    match known
    case None => reported && known' == Some(desired)
    case Some(actual) =>
      exists desired' ::
          IsUpdate(actual, desired, reported, desired') && known' == if reported then Some(desired') else known
  }

  /** No two targets of the objects share a name without being the same target. */
  ghost predicate Agree(objects: seq<Service>) {
    forall i, j, t, t' | 0 <= i < |objects| && 0 <= j < |objects| && t in objects[i].targets
        && t' in objects[j].targets ::
      t.name == t'.name ==> t == t'
  }

  /** The objects share protocol and ports, and none is headless. */
  ghost predicate Kin(objects: seq<Service>) {
    forall i, j | 0 <= i < |objects| && 0 <= j < |objects| ::
      && objects[i].origin == "annotation" && objects[i].headless.None?
      && objects[i].protocol == objects[j].protocol && SamePorts(objects[i].ports, objects[j].ports)
  }

  predicate SameDress(a: Service, b: Service) {
    a.labels == b.labels && a.annotations == b.annotations
  }

  /** They share labels and annotations as well. */
  ghost predicate Peers(objects: seq<Service>) {
    Kin(objects) && forall i, j | 0 <= i < |objects| && 0 <= j < |objects| :: SameDress(objects[i], objects[j])
  }

  ghost predicate Numbers(objects: seq<Service>, events: seq<nat>) {
    forall i | 0 <= i < |events| :: events[i] < |objects|
  }

  /** The targets of the objects that events have named so far. */
  ghost function Union(objects: seq<Service>, events: seq<nat>): set<Target>
    requires Numbers(objects, events)
  {
    set i, t | 0 <= i < |events| && t in objects[events[i]].targets :: t
  }

  /** A target map, as the set of its targets. */
  ghost predicate Holds(m: TargetMap, targets: set<Target>) {
    && Keyed(m)
    && (forall n <- m :: m[n] in targets)
    && (forall t <- targets :: t.name in m && m[t.name] == t)
  }

  /** Targets that agree on names are a map. */
  ghost predicate Functional(targets: set<Target>) {
    forall t, t' {:trigger SameName(t, t')} | t in targets && t' in targets :: SameName(t, t') ==> t == t'
  }

  predicate SameName(t: Target, t': Target) {
    t.name == t'.name
  }

  lemma {:induction false} ByNameHolds(targets: seq<Target>)
    requires Functional(SetOf(targets))
    ensures Holds(ByName(targets), SetOf(targets))
  {
    if targets != [] {
      var n := |targets| - 1;
      assert targets == targets[..n] + [targets[n]];
      assert SetOf(targets) == SetOf(targets[..n]) + {targets[n]};
      FunctionalSubset(SetOf(targets), SetOf(targets[..n]));
      ByNameHolds(targets[..n]);
      HoldsOneMore(ByName(targets[..n]), SetOf(targets[..n]), targets[n]);
    }
  }

  lemma HoldsOneMore(m: TargetMap, targets: set<Target>, t: Target)
    requires Holds(m, targets) && Functional(targets + {t})
    ensures Holds(m[t.name := t], targets + {t})
    ensures t.name in m && m[t.name] == t <==> t in targets
  {
    assert forall u <- targets :: SameName(u, t) ==> u == t;
  }

  lemma FunctionalSubset(big: set<Target>, small: set<Target>)
    requires Functional(big) && small <= big
    ensures Functional(small)
  {
  }

  /** The targets held so far are those of `held` and `init`, and an update is due if that is more than `held`. */
  ghost predicate Merged(m: Merge, held: set<Target>, init: set<Target>) {
    Holds(m.targets, held + init) && (m.updated <==> !(init <= held))
  }

  lemma MergeOneHolds(m: Merge, held: set<Target>, init: set<Target>, t: Target)
    requires Merged(m, held, init) && Functional(held + (init + {t}))
    ensures Merged(MergeOne(m, t), held, init + {t})
  {
    assert held + init + {t} == held + (init + {t});
    HoldsOneMore(m.targets, held + init, t);
    if t in held + init {
      assert held + (init + {t}) == held + init;
    }
  }

  lemma PrefixSnoc(held: set<Target>, desired: seq<Target>, n: nat)
    requires n < |desired| && Functional(held + SetOf(desired))
    ensures SetOf(desired[..n + 1]) == SetOf(desired[..n]) + {desired[n]}
    ensures Functional(held + (SetOf(desired[..n]) + {desired[n]}))
  {
    assert desired[..n + 1] == desired[..n] + [desired[n]];
    FunctionalSubset(held + SetOf(desired), held + (SetOf(desired[..n]) + {desired[n]}));
  }

  lemma {:induction false} MergeHolds(actual: TargetMap, held: set<Target>, desired: seq<Target>, n: nat)
    requires n <= |desired| && Holds(actual, held) && Functional(held + SetOf(desired))
    ensures Merged(MergeTargets(actual, desired, n), held, SetOf(desired[..n]))
  {
    if n == 0 {
      assert held + SetOf(desired[..0]) == held;
    } else {
      MergeHolds(actual, held, desired, n - 1);
      PrefixSnoc(held, desired, n - 1);
      MergeOneHolds(MergeTargets(actual, desired, n - 1), held, SetOf(desired[..n - 1]), desired[n - 1]);
    }
  }

  lemma ListedIsByName(list: seq<Target>, m: TargetMap, targets: set<Target>)
    requires Lists(list, m) && Holds(m, targets)
    ensures SetOf(list) == targets
  {
    forall t <- targets ensures t in list {
      var i :| 0 <= i < |list| && list[i].name == t.name;
    }
  }

  /** The recorded definition is that of one of the objects, with exactly the targets of `done` and the
      labels and annotations of object `e`. */
  ghost predicate Recorded(objects: seq<Service>, known: Option<Service>, done: set<Target>, e: nat) {
    && known.Some? && SetOf(known.value.targets) == done && e < |objects| && SameDress(known.value, objects[e])
    && exists i :: 0 <= i < |objects|
         && known.value ==
              objects[i].(targets := known.value.targets, labels := known.value.labels,
                          annotations := known.value.annotations)
  }

  ghost function AllTargets(objects: seq<Service>): set<Target> {
    set i, t | 0 <= i < |objects| && t in objects[i].targets :: t
  }

  lemma AllIsFunctional(objects: seq<Service>)
    requires Agree(objects)
    ensures Functional(AllTargets(objects))
  {
  }

  /** A merge of definitions that differ at most in targets, labels and annotations. */
  lemma MergeAdds(actual: Service, desired: Service, updated: bool, desired': Service, done: set<Target>)
    requires actual.origin == "annotation" && !Replaces(actual, desired) && IsUpdate(actual, desired, updated, desired')
    requires SetOf(actual.targets) == done && Functional(done + SetOf(desired.targets))
    ensures updated <==> !(SetOf(desired.targets) <= done) || !SameDress(actual, desired)
    ensures updated ==>
              desired' == desired.(targets := desired'.targets)
                  && SetOf(desired'.targets) == done + SetOf(desired.targets)
  {
    var mine := SetOf(desired.targets);
    FunctionalSubset(done + mine, done);
    ByNameHolds(actual.targets);
    MergeHolds(ByName(actual.targets), done, desired.targets, |desired.targets|);
    assert desired.targets[..|desired.targets|] == desired.targets;
    var m := MergeTargets(ByName(actual.targets), desired.targets, |desired.targets|);
    if updated {
      ListedIsByName(desired'.targets, m.targets, done + mine);
    }
  }

  lemma KinDoNotReplace(objects: seq<Service>, known: Option<Service>, e: nat, done: set<Target>, last: nat)
    requires Kin(objects) && e < |objects| && Recorded(objects, known, done, last)
    ensures known.value.origin == "annotation" && !Replaces(known.value, objects[e])
  {
    var i :| 0 <= i < |objects|
        && known.value ==
             objects[i].(targets := known.value.targets, labels := known.value.labels,
                         annotations := known.value.annotations);
  }

  /** One event adds its object's targets to the recorded ones, and reports an update exactly when one
      of them was missing or the labels or annotations differ from those of the event before. */
  lemma StepAdds(objects: seq<Service>, known: Option<Service>, e: nat, known': Option<Service>, reported: bool,
                 done: set<Target>, last: nat)
    requires Kin(objects) && Agree(objects) && e < |objects| && done <= AllTargets(objects)
    requires Recorded(objects, known, done, last) && Step(known, objects[e], known', reported)
    ensures Recorded(objects, known', done + SetOf(objects[e].targets), e)
    ensures reported <==> !(SetOf(objects[e].targets) <= done) || !SameDress(objects[e], objects[last])
    ensures !reported ==> known' == known
  {
    var actual, desired, mine := known.value, objects[e], SetOf(objects[e].targets);
    var desired' :| IsUpdate(actual, desired, reported, desired')
        && known' == if reported then Some(desired') else known;
    KinDoNotReplace(objects, known, e, done, last);
    assert Functional(done + mine) by {
      AllIsFunctional(objects);
      FunctionalSubset(AllTargets(objects), done + mine);
    }
    MergeAdds(actual, desired, reported, desired', done);
    if reported {
      assert desired' ==
          objects[e].(targets := desired'.targets, labels := desired'.labels, annotations := desired'.annotations);
    } else {
      assert done + mine == done;
    }
  }

  // ---- Any order, any repetition -------------------------------------------------------------

  /** Events for the objects with the given numbers, in order. */
  ghost predicate IsRun(objects: seq<Service>, events: seq<nat>, states: seq<Option<Service>>, reports: seq<bool>) {
    && |states| == |events| + 1 && |reports| == |events| && states[0] == None
    && Numbers(objects, events)
    && forall n | 0 <= n < |events| ::
         events[n] < |objects| && Step(states[n], objects[events[n]], states[n + 1], reports[n])
  }

  lemma UnionSnoc(objects: seq<Service>, events: seq<nat>, n: nat)
    requires n < |events| && Numbers(objects, events)
    ensures Numbers(objects, events[..n]) && Numbers(objects, events[..n + 1])
    ensures Union(objects, events[..n + 1]) == Union(objects, events[..n]) + SetOf(objects[events[n]].targets)
    ensures Union(objects, events[..n + 1]) <= AllTargets(objects)
  {
    var now, before := events[..n + 1], events[..n];
    forall t <- Union(objects, before) ensures t in Union(objects, now) {
      var i :| 0 <= i < |before| && t in objects[before[i]].targets;
      assert t in objects[now[i]].targets;
    }
    forall t <- SetOf(objects[events[n]].targets) ensures t in Union(objects, now) {
      assert t in objects[now[n]].targets;
    }
    forall t <- Union(objects, now)
      ensures t in Union(objects, before) + SetOf(objects[events[n]].targets) && t in AllTargets(objects)
    {
      var i :| 0 <= i < |now| && t in objects[now[i]].targets;
      assert i < n ==> t in objects[before[i]].targets;
    }
  }

  lemma FirstRecords(objects: seq<Service>, e: nat)
    requires e < |objects|
    ensures Recorded(objects, Some(objects[e]), SetOf(objects[e].targets), e)
  {
    assert objects[e] ==
        objects[e].(targets := objects[e].targets, labels := objects[e].labels, annotations := objects[e].annotations);
  }

  lemma {:induction false} RunRecords(objects: seq<Service>, events: seq<nat>, states: seq<Option<Service>>,
                                      reports: seq<bool>, n: nat)
    requires Kin(objects) && Agree(objects) && IsRun(objects, events, states, reports) && 0 < n <= |events|
    ensures Numbers(objects, events[..n]) && Recorded(objects, states[n], Union(objects, events[..n]), events[n - 1])
    ensures Union(objects, events[..n]) <= AllTargets(objects)
  {
    var k := n - 1;
    UnionSnoc(objects, events, k);
    assert Step(states[k], objects[events[k]], states[k + 1], reports[k]);
    if k == 0 {
      FirstRecords(objects, events[0]);
      assert Union(objects, events[..n]) == SetOf(objects[events[0]].targets);
    } else {
      RunRecords(objects, events, states, reports, k);
      StepAdds(objects, states[k], events[k], states[n], reports[k], Union(objects, events[..k]), events[k - 1]);
    }
  }

  /** In any run, an event after the first reports an update exactly when it names a target that none
      before it did, or its labels or annotations differ from those of the event before. */
  lemma ReportsExactlyWhen(objects: seq<Service>, events: seq<nat>, states: seq<Option<Service>>, reports: seq<bool>,
                           n: nat)
    requires Kin(objects) && Agree(objects) && IsRun(objects, events, states, reports) && 0 < n < |events|
    ensures Numbers(objects, events[..n])
    ensures reports[n] <==>
              !(SetOf(objects[events[n]].targets) <= Union(objects, events[..n]))
                  || !SameDress(objects[events[n]], objects[events[n - 1]])
    ensures !reports[n] ==> states[n + 1] == states[n]
  {
    RunRecords(objects, events, states, reports, n);
    assert Step(states[n], objects[events[n]], states[n + 1], reports[n]);
    StepAdds(objects, states[n], events[n], states[n + 1], reports[n], Union(objects, events[..n]), events[n - 1]);
  }

  ghost predicate Covers(objects: seq<Service>, events: seq<nat>) {
    forall i: nat | i < |objects| :: i in events
  }

  lemma CoveredUnion(objects: seq<Service>, events: seq<nat>)
    requires Numbers(objects, events) && Covers(objects, events)
    ensures Union(objects, events) == AllTargets(objects)
  {
    forall t <- AllTargets(objects) ensures t in Union(objects, events) {
      var i :| 0 <= i < |objects| && t in objects[i].targets;
      assert i in events;
      var j :| 0 <= j < |events| && events[j] == i;
    }
  }

  lemma CoversMore(objects: seq<Service>, events: seq<nat>, n: nat, k: nat)
    requires n <= k <= |events| && Covers(objects, events[..n])
    ensures Covers(objects, events[..k])
  {
    forall i: nat | i < |objects| ensures i in events[..k] {
      assert i in events[..n];
      var j :| 0 <= j < n && events[..n][j] == i;
      assert events[..k][j] == i;
    }
  }

  /** Once every object has been seen, in any order and with any repetition, the recorded targets are
      exactly those of all objects; and an event reports an update exactly when its labels or
      annotations differ from those of the event before, and otherwise changes nothing. */
  lemma MergeConverges(objects: seq<Service>, events: seq<nat>, states: seq<Option<Service>>, reports: seq<bool>,
                       n: nat, k: nat)
    requires Kin(objects) && Agree(objects) && IsRun(objects, events, states, reports)
    requires 0 < n <= k <= |events| && Covers(objects, events[..n])
    ensures states[k].Some? && Holds(ByName(states[k].value.targets), AllTargets(objects))
    ensures k < |events| ==>
              && (reports[k] <==> !SameDress(objects[events[k]], objects[events[k - 1]]))
              && (!reports[k] ==> states[k + 1] == states[k])
  {
    RunRecords(objects, events, states, reports, k);
    CoversMore(objects, events, n, k);
    CoveredUnion(objects, events[..k]);
    AllIsFunctional(objects);
    ByNameHolds(states[k].value.targets);
    if k < |events| {
      ReportsExactlyWhen(objects, events, states, reports, k);
      assert SetOf(objects[events[k]].targets) <= AllTargets(objects);
    }
  }

  lemma {:induction false} DressOfQuietRun(objects: seq<Service>, events: seq<nat>, n: nat, k: nat)
    requires Numbers(objects, events) && 0 < n <= k < |events|
    requires forall j | n <= j <= k :: SameDress(objects[events[j]], objects[events[j - 1]])
    ensures SameDress(objects[events[k]], objects[events[n - 1]])
  {
    if k > n {
      DressOfQuietRun(objects, events, n, k - 1);
    }
  }

  /** Once every object has been seen, nothing is reported any more if and only if all further events
      have the labels and annotations of the last one before them. */
  lemma SettlesExactlyWhen(objects: seq<Service>, events: seq<nat>, states: seq<Option<Service>>, reports: seq<bool>,
                           n: nat)
    requires Kin(objects) && Agree(objects) && IsRun(objects, events, states, reports)
    requires 0 < n <= |events| && Covers(objects, events[..n])
    ensures (forall k | n <= k < |events| :: !reports[k]) <==>
            (forall k | n <= k < |events| :: SameDress(objects[events[k]], objects[events[n - 1]]))
  {
    forall k | n <= k < |events| ensures reports[k] <==> !SameDress(objects[events[k]], objects[events[k - 1]]) {
      MergeConverges(objects, events, states, reports, n, k);
    }
    if forall k | n <= k < |events| :: !reports[k] {
      forall k | n <= k < |events| ensures SameDress(objects[events[k]], objects[events[n - 1]]) {
        DressOfQuietRun(objects, events, n, k);
      }
    }
    if forall k | n <= k < |events| :: SameDress(objects[events[k]], objects[events[n - 1]]) {
      forall k | n <= k < |events| ensures !reports[k] {
        assert k > n ==> SameDress(objects[events[k - 1]], objects[events[n - 1]]);
      }
    }
  }

  /** So objects that share labels and annotations settle: no further event reports or changes anything. */
  lemma PeersSettle(objects: seq<Service>, events: seq<nat>, states: seq<Option<Service>>, reports: seq<bool>, n: nat,
                    k: nat)
    requires Peers(objects) && Agree(objects) && IsRun(objects, events, states, reports)
    requires 0 < n <= k < |events| && Covers(objects, events[..n])
    ensures !reports[k] && states[k + 1] == states[k]
  {
    MergeConverges(objects, events, states, reports, n, k);
  }

  lemma HoldsIsUnique(a: TargetMap, b: TargetMap, targets: set<Target>)
    requires Holds(a, targets) && Holds(b, targets)
    ensures a == b
  {
    assert forall n <- a :: a[n] in targets && a[n].name == n;
    assert forall n <- b :: b[n] in targets && b[n].name == n;
    assert a.Keys == b.Keys;
  }

  /** Two runs that have seen all objects record the same targets under the same names. */
  lemma OrderDoesNotMatter(objects: seq<Service>, events: seq<nat>, states: seq<Option<Service>>, reports: seq<bool>,
                           events': seq<nat>, states': seq<Option<Service>>, reports': seq<bool>)
    requires objects != [] && Kin(objects) && Agree(objects)
    requires IsRun(objects, events, states, reports) && Covers(objects, events)
    requires IsRun(objects, events', states', reports') && Covers(objects, events')
    ensures states[|events|].Some? && states'[|events'|].Some?
    ensures ByName(states[|events|].value.targets) == ByName(states'[|events'|].value.targets)
  {
    assert 0 in events && 0 in events';
    assert events[..|events|] == events && events'[..|events'|] == events';
    MergeConverges(objects, events, states, reports, |events|, |events|);
    MergeConverges(objects, events', states', reports', |events'|, |events'|);
    HoldsIsUnique(ByName(states[|events|].value.targets), ByName(states'[|events'|].value.targets),
                  AllTargets(objects));
  }

  // ---- One update of any object --------------------------------------------------------------

  /** The last of these targets that has the name. */
  function LastNamed(targets: seq<Target>, name: string): Option<Target> {
    if targets == [] then None
    else if targets[|targets| - 1].name == name then Some(targets[|targets| - 1])
    else LastNamed(targets[..|targets| - 1], name)
  }

  ghost function Lookup(m: TargetMap, name: string): Option<Target> {
    if name in m then Some(m[name]) else None
  }

  lemma {:induction false} ByNameIsLast(targets: seq<Target>, name: string)
    ensures Lookup(ByName(targets), name) == LastNamed(targets, name)
  {
    if targets != [] {
      ByNameIsLast(targets[..|targets| - 1], name);
    }
  }

  lemma LastNamedMore(targets: seq<Target>, t: Target, name: string)
    ensures LastNamed(targets + [t], name) == if t.name == name then Some(t) else LastNamed(targets, name)
  {
    assert (targets + [t])[..|targets|] == targets;
  }

  /** The `i`-th desired target says something new: it is not the last of its name before it. */
  ghost predicate News(actual: seq<Target>, desired: seq<Target>, i: nat)
    requires i < |desired|
  {
    LastNamed(actual + desired[..i], desired[i].name) != Some(desired[i])
  }

  lemma {:induction false} MergeTells(actual: seq<Target>, desired: seq<Target>, n: nat, name: string)
    requires n <= |desired|
    ensures Lookup(MergeTargets(ByName(actual), desired, n).targets, name) == LastNamed(actual + desired[..n], name)
  {
    if n == 0 {
      ByNameIsLast(actual, name);
      assert actual + desired[..0] == actual;
    } else {
      MergeTells(actual, desired, n - 1, name);
      LastNamedMore(actual + desired[..n - 1], desired[n - 1], name);
      assert actual + desired[..n] == actual + desired[..n - 1] + [desired[n - 1]];
    }
  }

  lemma {:induction false} MergeReports(actual: seq<Target>, desired: seq<Target>, n: nat)
    requires n <= |desired|
    ensures MergeTargets(ByName(actual), desired, n).updated <==> exists i :: 0 <= i < n && News(actual, desired, i)
  {
    if n > 0 {
      MergeReports(actual, desired, n - 1);
      MergeTells(actual, desired, n - 1, desired[n - 1].name);
      if News(actual, desired, n - 1) {
        assert exists i :: 0 <= i < n && News(actual, desired, i);
      }
    }
  }

  /** Something but the targets and the dress differs: the protocol, the number of ports, a port other than
      0 that is no longer there, or the headless settings. */
  ghost predicate Differs(actual: Service, desired: Service) {
    || actual.protocol != desired.protocol || |actual.ports| != |desired.ports| || actual.headless != desired.headless
    || exists p <- actual.ports :: p != 0 && p !in desired.ports
  }

  /** When an update is reported, for any two definitions: the recorded one must be annotated, and something
      must differ, or the desired one have news among its targets, or other labels or annotations. */
  lemma ReportedExactlyWhen(actual: Service, desired: Service, updated: bool, desired': Service)
    requires IsUpdate(actual, desired, updated, desired')
    ensures updated <==>
              && actual.origin == "annotation"
              && (|| Differs(actual, desired) || !SameDress(actual, desired)
                  || exists i :: 0 <= i < |desired.targets| && News(actual.targets, desired.targets, i))
  {
    MergeReports(actual.targets, desired.targets, |desired.targets|);
  }

  /** What is reported: where something differs, the desired definition alone; otherwise the desired
      definition with the targets of both, each name once, the last of its name counting. */
  lemma ReportTells(actual: Service, desired: Service, desired': Service, name: string)
    requires IsUpdate(actual, desired, true, desired')
    ensures desired' == desired.(targets := desired'.targets)
    ensures Differs(actual, desired) ==> desired' == desired
    ensures !Differs(actual, desired) ==>
              && LastNamed(desired'.targets, name) == LastNamed(actual.targets + desired.targets, name)
              && forall i, j | 0 <= i < j < |desired'.targets| :: desired'.targets[i].name != desired'.targets[j].name
  {
    if !Differs(actual, desired) {
      var m := MergeTargets(ByName(actual.targets), desired.targets, |desired.targets|);
      MergeTells(actual.targets, desired.targets, |desired.targets|, name);
      assert desired.targets[..|desired.targets|] == desired.targets;
      ListedTells(desired'.targets, m.targets, name);
    }
  }

  lemma ListedTells(list: seq<Target>, m: TargetMap, name: string)
    requires Lists(list, m)
    ensures LastNamed(list, name) == Lookup(m, name)
  {
    OnlyNamed(list, name);
    if name in m {
      var i :| 0 <= i < |list| && list[i].name == name;
    }
  }

  lemma {:induction false} OnlyNamed(list: seq<Target>, name: string)
    ensures LastNamed(list, name).None? <==> forall i | 0 <= i < |list| :: list[i].name != name
    ensures LastNamed(list, name).Some? ==>
              LastNamed(list, name).value in list && LastNamed(list, name).value.name == name
  {
    if list != [] {
      OnlyNamed(list[..|list| - 1], name);
      assert forall i | 0 <= i < |list| - 1 :: list[..|list| - 1][i] == list[i];
    }
  }

  /** Objects of which each differs from the one before report every event, and only the last is recorded:
      no merging takes place. */
  lemma {:induction false} DifferentObjectsReplace(objects: seq<Service>, events: seq<nat>,
                                                   states: seq<Option<Service>>,
                                                   reports: seq<bool>, n: nat)
    requires IsRun(objects, events, states, reports) && n < |events|
    requires forall i | 0 <= i < |objects| :: objects[i].origin == "annotation"
    requires forall i | 0 < i < |events| :: Differs(objects[events[i - 1]], objects[events[i]])
    ensures reports[n] && states[n + 1] == Some(objects[events[n]])
  {
    assert Step(states[n], objects[events[n]], states[n + 1], reports[n]);
    if n > 0 {
      DifferentObjectsReplace(objects, events, states, reports, n - 1);
    }
  }
}
