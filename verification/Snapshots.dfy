/** Incremental processing of configmap snapshots against processing the latest one from scratch:
    `changedServiceDefinitions` and the deletions of cmd/service-controller/controller.go, with the
    updates of pkg/service/bindings.go. */
module Snapshots {
  import opened Prelude
  import opened Bindings
  import opened Controller
  import Targets

  // ---- What a binding shows ------------------------------------------------------------------

  type Labels = map<string, string>

  /** The fields of a binding that an update does not simply replace. */
  datatype Kept = Kept(
    origin: Origin,
    tlsCredentials: string,
    labels: Labels,
    annotations: Labels,
    ingress: Ingress,
    targets: Targets.Table)

  /** The other fields. */
  datatype Rest = Rest(
    protocol: Protocol,
    ports: seq<int>,
    aggregate: string,
    eventChannel: bool,
    headless: Option<Headless>,
    tlsCertAuthority: string,
    publishNotReady: bool,
    external: Option<ServiceInterface>)

  /** Everything a binding has of its definitions, except for the ports it was allocated. */
  datatype View = View(kept: Kept, rest: Rest)

  function Shows(b: ServiceBindings): View {
    View(Kept(b.origin, b.tlsCredentials, b.labels, b.annotations, b.ingress, b.targets),
         Rest(b.protocol, b.publicPorts, b.aggregation, b.eventChannel, b.headless, b.tlsCertAuthority,
              b.publishNotReady, b.external))
  }

  function RestOf(si: ServiceInterface): Rest {
    Rest(si.protocol, si.ports, si.aggregate, si.eventChannel, si.headless, si.tlsCertAuthority, si.publishNotReady,
         if si.RequiresExternalBridge() then Some(si) else None)
  }

  function KeptOf(si: ServiceInterface): Kept {
    Kept(si.origin, si.tlsCredentials, si.labels, si.annotations, NewServiceIngress(si), Targets.NewTable(si.Asks()))
  }

  /** What a definition asks to be shown. */
  function Wanted(si: ServiceInterface): View {
    View(KeptOf(si), RestOf(si))
  }

  /** What an update keeps. */
  function NextKept(k: Kept, si: ServiceInterface): Kept {
    Kept(k.origin,
         if k.tlsCredentials == "" then si.tlsCredentials else k.tlsCredentials,
         Overlay(k.labels, si.labels),
         Overlay(k.annotations, si.annotations),
         if Matches(k.ingress, si) then k.ingress else NewServiceIngress(si),
         Targets.NextTable(k.targets, si.Asks()))
  }

  function Next(v: View, si: ServiceInterface): View {
    View(NextKept(v.kept, si), RestOf(si))
  }

  lemma UpdatedShows(b: ServiceBindings, ports: seq<int>, required: ServiceInterface)
    requires Sound(b)
    ensures Shows(Updated(b.(ingressPorts := ports), required)) == Next(Shows(b), required)
  {
  }

  lemma CreatedShows(required: ServiceInterface, ports: seq<int>)
    ensures Shows(NewServiceBindings(required, ports)) == Wanted(required)
  {
  }

  function Label(labels: Labels, x: string): Option<string> {
    if x in labels then Some(labels[x]) else None
  }

  // ---- What is left of earlier definitions ---------------------------------------------------

  /** Label sets put on top of each other: what the latest set that has the label says of it, back to
      the last set without labels. */
  function LatestSays(sets: seq<Labels>, x: string): Option<string> {
    if sets == [] then None
    else
      var last := sets[|sets| - 1];
      if x in last then Some(last[x]) else if last == map[] then None else LatestSays(sets[..|sets| - 1], x)
  }

  /** The labels of the sets since the last one that was empty. */
  function LiveKeys(sets: seq<Labels>): set<string> {
    if sets == [] || sets[|sets| - 1] == map[] then {} else LiveKeys(sets[..|sets| - 1]) + sets[|sets| - 1].Keys
  }

  lemma {:induction false} LiveIsSaid(sets: seq<Labels>, x: string)
    ensures x in LiveKeys(sets) <==> LatestSays(sets, x).Some?
  {
    if sets != [] {
      LiveIsSaid(sets[..|sets| - 1], x);
    }
  }

  function Said(sets: seq<Labels>, x: string): string
    requires x in LiveKeys(sets)
  {
    LiveIsSaid(sets, x);
    LatestSays(sets, x).value
  }

  function Overlaid(sets: seq<Labels>): Labels {
    map x | x in LiveKeys(sets) :: Said(sets, x)
  }

  lemma OverlaidMore(sets: seq<Labels>, more: Labels)
    ensures Overlaid(sets + [more]) == if sets == [] then more else Overlay(Overlaid(sets), more)
  {
    var all := sets + [more];
    assert all[..|sets|] == sets;
    assert LiveKeys(all) == if more == map[] then {} else LiveKeys(sets) + more.Keys;
    forall x <- LiveKeys(all) ensures Said(all, x) == if x in more then more[x] else Said(sets, x) {
      LiveIsSaid(all, x);
    }
  }

  /** The latest set is all that is shown if and only if it has every label since the last empty set. */
  lemma OverlaidIsLastExactlyWhen(sets: seq<Labels>)
    requires sets != []
    ensures Overlaid(sets) == sets[|sets| - 1] <==> LiveKeys(sets) <= sets[|sets| - 1].Keys
  {
    var all, last := Overlaid(sets), sets[|sets| - 1];
    assert all.Keys == LiveKeys(sets);
    if LiveKeys(sets) <= last.Keys {
      assert all.Keys == last.Keys;
      assert forall x <- last :: all[x] == last[x];
    }
  }

  /** The first text that is not empty. */
  function FirstSet(texts: seq<string>): string {
    if texts == [] then "" else if texts[0] != "" then texts[0] else FirstSet(texts[1..])
  }

  lemma {:induction false} FirstSetMore(texts: seq<string>, t: string)
    ensures FirstSet(texts + [t]) == if FirstSet(texts) == "" then t else FirstSet(texts)
  {
    if texts != [] {
      assert (texts + [t])[1..] == texts[1..] + [t];
      FirstSetMore(texts[1..], t);
    } else {
      assert FirstSet([t][1..]) == "";
    }
  }

  /** The ingress stays until a definition comes that it does not match. */
  function IngressOf(defs: seq<ServiceInterface>): Ingress
    requires defs != []
  {
    var n := |defs| - 1;
    if n > 0 && Matches(IngressOf(defs[..n]), defs[n]) then IngressOf(defs[..n]) else NewServiceIngress(defs[n])
  }

  function LabelsOf(defs: seq<ServiceInterface>): seq<Labels> {
    seq(|defs|, i requires 0 <= i < |defs| => defs[i].labels)
  }

  function AnnotationsOf(defs: seq<ServiceInterface>): seq<Labels> {
    seq(|defs|, i requires 0 <= i < |defs| => defs[i].annotations)
  }

  function CredentialsOf(defs: seq<ServiceInterface>): seq<string> {
    seq(|defs|, i requires 0 <= i < |defs| => defs[i].tlsCredentials)
  }

  function AskedBy(defs: seq<ServiceInterface>): seq<Targets.Request> {
    seq(|defs|, i requires 0 <= i < |defs| => defs[i].Asks())
  }

  /** What is kept of these definitions: the origin of the one that created the binding, the first
      credentials given, the labels and annotations since the last time there were none, the ingress
      last renewed, and the targets (`Targets.After` says which, key by key). */
  function KeptBy(defs: seq<ServiceInterface>): Kept
    requires defs != []
  {
    Kept(defs[0].origin, FirstSet(CredentialsOf(defs)), Overlaid(LabelsOf(defs)), Overlaid(AnnotationsOf(defs)),
         IngressOf(defs),
         Targets.TableAfter(AskedBy(defs)))
  }

  /** What is shown after these definitions, the first of which created the binding. */
  function Shown(defs: seq<ServiceInterface>): View
    requires defs != []
  {
    View(KeptBy(defs), RestOf(defs[|defs| - 1]))
  }

  lemma ToldFirst(si: ServiceInterface)
    ensures Shown([si]) == Wanted(si)
  {
    OverlaidMore([], si.labels);
    OverlaidMore([], si.annotations);
    FirstSetMore([], si.tlsCredentials);
    assert LabelsOf([si]) == [] + [si.labels] && AnnotationsOf([si]) == [] + [si.annotations];
    assert CredentialsOf([si]) == [] + [si.tlsCredentials];
    assert AskedBy([si]) == [si.Asks()];
  }

  lemma KeptMore(defs: seq<ServiceInterface>, si: ServiceInterface)
    requires defs != []
    ensures KeptBy(defs + [si]) == NextKept(KeptBy(defs), si)
  {
    var all := defs + [si];
    assert all[..|defs|] == defs;
    assert LabelsOf(all) == LabelsOf(defs) + [si.labels];
    assert AnnotationsOf(all) == AnnotationsOf(defs) + [si.annotations];
    assert CredentialsOf(all) == CredentialsOf(defs) + [si.tlsCredentials];
    OverlaidMore(LabelsOf(defs), si.labels);
    OverlaidMore(AnnotationsOf(defs), si.annotations);
    FirstSetMore(CredentialsOf(defs), si.tlsCredentials);
    AskedMore(defs, si);
  }

  lemma AskedMore(defs: seq<ServiceInterface>, si: ServiceInterface)
    requires defs != []
    ensures Targets.TableAfter(AskedBy(defs + [si])) == Targets.NextTable(Targets.TableAfter(AskedBy(defs)), si.Asks())
  {
    var all := AskedBy(defs + [si]);
    assert all == AskedBy(defs) + [si.Asks()];
    assert all[..|defs|] == AskedBy(defs);
  }

  /** An update shows the definitions so far and the new one. */
  lemma ToldMore(defs: seq<ServiceInterface>, si: ServiceInterface)
    requires defs != []
    ensures Shown(defs + [si]) == Next(Shown(defs), si)
  {
    KeptMore(defs, si);
  }

  /** Nothing is left of the earlier definitions: the origin is the same, the first credentials given
      are the latest, the latest labels and annotations cover all since the last time there were none,
      the ingress before was not kept, or is the one now called for, and every target was new, or is as
      it would be now. */
  ghost predicate Forgotten(defs: seq<ServiceInterface>)
    requires defs != []
  {
    var n := |defs| - 1;
    && defs[0].origin == defs[n].origin
    && FirstSet(CredentialsOf(defs)) == defs[n].tlsCredentials
    && LiveKeys(LabelsOf(defs)) <= defs[n].labels.Keys
    && LiveKeys(AnnotationsOf(defs)) <= defs[n].annotations.Keys
    && (n > 0 ==> !Matches(IngressOf(defs[..n]), defs[n]) || IngressOf(defs[..n]) == NewServiceIngress(defs[n]))
    && Targets.TargetsForgotten(AskedBy(defs))
  }

  lemma ShownIsWantedExactlyWhen(defs: seq<ServiceInterface>)
    requires defs != []
    ensures Shown(defs) == Wanted(defs[|defs| - 1]) <==> Forgotten(defs)
  {
    OverlaidIsLastExactlyWhen(LabelsOf(defs));
    OverlaidIsLastExactlyWhen(AnnotationsOf(defs));
    Targets.TableIsNewExactlyWhen(AskedBy(defs));
  }

  // ---- One entry -----------------------------------------------------------------------------

  ghost predicate AllSound(st: State) {
    forall a <- st.bindings :: Sound(st.bindings[a])
  }

  /** The entry parses, its key is its address, policy allows it, and its ports can be allocated. */
  ghost predicate CleanOne(st: State, entries: map<string, string>, k: string, decode: Decoder, allowed: string -> bool,
                           recovered: Recovered)
  {
    k in entries ==>
      && decode(entries[k]).Some? && decode(entries[k]).value.address == k && allowed(k)
      && ApplyOne(st, entries, k, decode, allowed, recovered).1
  }

  lemma CreateShows(st: State, required: ServiceInterface, recovered: Recovered, t: Taken)
    requires Create(st, required, recovered, t).1
    ensures var st', a := Create(st, required, recovered, t).0, required.address;
            && a in st'.bindings && Shows(st'.bindings[a]) == Wanted(required)
            && st'.bindings == st.bindings[a := st'.bindings[a]]
  {
    CreatedShows(required, required.ports);
    CreatedShows(required, PortsFor(recovered, required.address));
    CreatedShows(required, t.ports);
  }

  lemma ChangeShows(st: State, b: ServiceBindings, required: ServiceInterface, t: Taken)
    requires Sound(b) && Change(st, b, required, t).1
    ensures var st', a := Change(st, b, required, t).0, required.address;
            && a in st'.bindings && Shows(st'.bindings[a]) == Next(Shows(b), required)
            && st'.bindings == st.bindings[a := st'.bindings[a]]
  {
    UpdatedShows(b, b.ingressPorts + t.ports, required);
    if |required.ports| <= |b.ingressPorts| {
      UpdatedShows(b, b.ingressPorts[..|required.ports|], required);
    }
  }

  /** The binding shows these definitions. */
  ghost predicate Tells(b: ServiceBindings, defs: seq<ServiceInterface>) {
    defs != [] && Shows(b) == Shown(defs)
  }

  /** Address `k` has a binding exactly if there are definitions for it, which it then shows. */
  ghost predicate TellsAt(bindings: map<string, ServiceBindings>, k: string, defs: seq<ServiceInterface>) {
    (k in bindings <==> defs != []) && (k in bindings ==> Tells(bindings[k], defs))
  }

  lemma ApplyOneTells(st: State, entries: map<string, string>, k: string, decode: Decoder, allowed: string -> bool,
                      recovered: Recovered, defs: seq<ServiceInterface>)
    requires AllSound(st) && k in entries && CleanOne(st, entries, k, decode, allowed, recovered)
    requires TellsAt(st.bindings, k, defs)
    ensures TellsAt(ApplyOne(st, entries, k, decode, allowed, recovered).0.bindings, k,
                    defs + [decode(entries[k]).value])
  {
    var si := decode(entries[k]).value;
    var t := Take(st.free, |si.ports|);
    if k in st.bindings {
      ChangeShows(st, st.bindings[k], si, t);
      ToldMore(defs, si);
    } else {
      CreateShows(st, si, recovered, t);
      ToldFirst(si);
      assert defs + [si] == [si];
    }
  }

  /** A clean entry leaves the bindings of other addresses alone. */
  lemma ApplyOneElsewhere(st: State, entries: map<string, string>, x: string, decode: Decoder, allowed: string -> bool,
                          recovered: Recovered, k: string)
    requires AllSound(st) && CleanOne(st, entries, x, decode, allowed, recovered) && k != x
    ensures var after := ApplyOne(st, entries, x, decode, allowed, recovered).0.bindings;
            (k in after <==> k in st.bindings) && (k in after ==> after[k] == st.bindings[k])
  {
    if x in entries {
      var si := decode(entries[x]).value;
      var t := Take(st.free, |si.ports|);
      if x in st.bindings {
        ChangeShows(st, st.bindings[x], si, t);
      } else {
        CreateShows(st, si, recovered, t);
      }
    }
  }

  // ---- One batch -----------------------------------------------------------------------------

  ghost predicate CleanApply(st: State, entries: map<string, string>, order: seq<string>, decode: Decoder,
                             allowed: string -> bool, recovered: Recovered)
    decreases order
  {
    order != [] ==>
      && CleanOne(st, entries, order[0], decode, allowed, recovered)
      && CleanApply(ApplyOne(st, entries, order[0], decode, allowed, recovered).0, entries, order[1..], decode, allowed,
                    recovered)
  }

  lemma ApplyOneKeepsSound(st: State, entries: map<string, string>, k: string, decode: Decoder, allowed: string -> bool,
                           recovered: Recovered)
    requires AllSound(st)
    ensures AllSound(ApplyOne(st, entries, k, decode, allowed, recovered).0)
  {
    if k in entries && decode(entries[k]).Some? {
      var si := decode(entries[k]).value;
      UpdateKeepsSound(st, si, allowed(si.address), recovered, Take(st.free, |si.ports|));
    }
  }

  /** The definitions under `k` after the entries. */
  ghost function More(defs: seq<ServiceInterface>, entries: map<string, string>, decode: Decoder,
                      k: string): seq<ServiceInterface>
  {
    if k in entries && decode(entries[k]).Some? then defs + [decode(entries[k]).value] else defs
  }

  lemma {:induction false} ApplyTells(st: State, entries: map<string, string>, order: seq<string>, decode: Decoder,
                                      allowed: string -> bool, recovered: Recovered, k: string,
                                      defs: seq<ServiceInterface>)
    requires AllSound(st) && NoDup(order) && CleanApply(st, entries, order, decode, allowed, recovered)
    requires TellsAt(st.bindings, k, defs)
    ensures AllSound(Apply(st, entries, order, decode, allowed, recovered))
    ensures TellsAt(Apply(st, entries, order, decode, allowed, recovered).bindings, k,
                    if k in order then More(defs, entries, decode, k) else defs)
    ensures k in order && k in entries ==> decode(entries[k]).Some?
    decreases order
  {
    if order != [] {
      var x, rest := order[0], order[1..];
      var st1 := ApplyOne(st, entries, x, decode, allowed, recovered).0;
      ApplyOneKeepsSound(st, entries, x, decode, allowed, recovered);
      assert order == [x] + rest;
      if x != k {
        ApplyOneElsewhere(st, entries, x, decode, allowed, recovered, k);
        ApplyTells(st1, entries, rest, decode, allowed, recovered, k, defs);
      } else if k in entries {
        ApplyOneTells(st, entries, k, decode, allowed, recovered, defs);
        ApplyTells(st1, entries, rest, decode, allowed, recovered, k, More(defs, entries, decode, k));
      } else {
        ApplyTells(st1, entries, rest, decode, allowed, recovered, k, defs);
      }
    }
  }

  // ---- One event -----------------------------------------------------------------------------

  type Snapshot = map<string, string>

  ghost function Last(previous: Option<Snapshot>): Snapshot {
    if previous.None? then map[] else previous.value
  }

  ghost predicate CleanSync(c: Control, ev: Event, decode: Decoder, recovered: Recovered) {
    && Enumerates(ev.order, ev.data.Keys)
    && (ev.data != map[] ==> CleanApply(c.st, Changed(c.previous, ev.data), ev.order, decode, ev.allowed, recovered))
  }

  /** The definitions under `k` after a snapshot: one more if the entry changed, none if it is gone. */
  ghost function Advance(defs: seq<ServiceInterface>, previous: Snapshot, data: Snapshot, decode: Decoder,
                         k: string): seq<ServiceInterface>
  {
    if k !in data then []
    else if k in previous && previous[k] == data[k] then defs
    else More(defs, data, decode, k)
  }

  /** After the entries, the bindings of absent keys go. */
  lemma SyncLeaves(c: Control, ev: Event, decode: Decoder, recovered: Recovered, k: string)
    requires ev.data != map[]
    ensures var applied := Apply(c.st, Changed(c.previous, ev.data), ev.order, decode, ev.allowed, recovered);
            var after := Sync(c, ev, decode, recovered).st;
            && (k in after.bindings <==> k in applied.bindings && k in ev.data)
            && (k in after.bindings ==> after.bindings[k] == applied.bindings[k])
            && (AllSound(applied) ==> AllSound(after))
  {
  }

  lemma SyncTells(c: Control, ev: Event, decode: Decoder, recovered: Recovered, k: string, defs: seq<ServiceInterface>)
    requires ev.data != map[] && AllSound(c.st) && CleanSync(c, ev, decode, recovered)
               && TellsAt(c.st.bindings, k, defs)
    ensures AllSound(Sync(c, ev, decode, recovered).st)
    ensures TellsAt(Sync(c, ev, decode, recovered).st.bindings, k, Advance(defs, Last(c.previous), ev.data, decode, k))
    ensures k in Changed(c.previous, ev.data) ==> decode(ev.data[k]).Some?
  {
    var entries := Changed(c.previous, ev.data);
    ApplyTells(c.st, entries, ev.order, decode, ev.allowed, recovered, k, defs);
    SyncLeaves(c, ev, decode, recovered, k);
    assert k in ev.order <==> k in ev.data;
    if k in ev.data {
      AdvanceIsMore(defs, c.previous, ev.data, decode, k);
    }
    TellsOfKept(Apply(c.st, entries, ev.order, decode, ev.allowed, recovered).bindings,
                Sync(c, ev, decode, recovered).st.bindings, k,
                if k in ev.data then More(defs, entries, decode, k) else defs, k in ev.data);
  }

  lemma AdvanceIsMore(defs: seq<ServiceInterface>, previous: Option<Snapshot>, data: Snapshot, decode: Decoder,
                      k: string)
    requires k in data
    ensures Advance(defs, Last(previous), data, decode, k) == More(defs, Changed(previous, data), decode, k)
  {
  }

  lemma TellsOfKept(before: map<string, ServiceBindings>, after: map<string, ServiceBindings>, k: string,
                    defs: seq<ServiceInterface>, kept: bool)
    requires TellsAt(before, k, defs)
    requires (k in after <==> k in before && kept) && (k in after ==> after[k] == before[k])
    ensures TellsAt(after, k, if kept then defs else [])
  {
  }

  lemma EmptySyncTells(c: Control, ev: Event, decode: Decoder, recovered: Recovered, k: string)
    requires ev.data == map[] && AllSound(c.st)
    ensures AllSound(Sync(c, ev, decode, recovered).st) && TellsAt(Sync(c, ev, decode, recovered).st.bindings, k, [])
  {
  }

  // ---- A series of snapshots -----------------------------------------------------------------

  function Latest(snapshots: seq<Snapshot>): Snapshot {
    if snapshots == [] then map[] else snapshots[|snapshots| - 1]
  }

  /** The texts under the key since it appeared, without repetitions of the one before. */
  function Since(snapshots: seq<Snapshot>, k: string): seq<string> {
    if k !in Latest(snapshots) then []
    else
      var n := |snapshots| - 1;
      var before, text := snapshots[..n], snapshots[n][k];
      Since(before, k) + if k in Latest(before) && Latest(before)[k] == text then [] else [text]
  }

  /** The definitions among these texts. */
  function Parsed(texts: seq<string>, decode: Decoder): seq<ServiceInterface> {
    if texts == [] then []
    else
      var si := decode(texts[|texts| - 1]);
      Parsed(texts[..|texts| - 1], decode) + if si.Some? then [si.value] else []
  }

  /** The definitions under the key since it appeared. */
  function History(snapshots: seq<Snapshot>, decode: Decoder, k: string): seq<ServiceInterface> {
    Parsed(Since(snapshots, k), decode)
  }

  lemma HistoryAdvances(snapshots: seq<Snapshot>, data: Snapshot, decode: Decoder, k: string)
    ensures History(snapshots + [data], decode, k) ==
              Advance(History(snapshots, decode, k), Latest(snapshots), data, decode, k)
  {
    var more := snapshots + [data];
    assert more[..|snapshots|] == snapshots && Latest(more) == data;
    if k in data {
      var texts := Since(more, k);
      if k in Latest(snapshots) && Latest(snapshots)[k] == data[k] {
        assert texts == Since(snapshots, k);
      } else {
        assert texts == Since(snapshots, k) + [data[k]];
        assert texts[..|texts| - 1] == Since(snapshots, k);
      }
    }
  }

  /** The key has a parsable definition in the latest snapshot, the last of its history. */
  ghost predicate Current(snapshots: seq<Snapshot>, decode: Decoder, k: string) {
    var defs := History(snapshots, decode, k);
    if k in Latest(snapshots) then defs != [] && decode(Latest(snapshots)[k]) == Some(defs[|defs| - 1]) else defs == []
  }

  lemma CurrentAdvances(snapshots: seq<Snapshot>, data: Snapshot, decode: Decoder, k: string)
    requires Current(snapshots, decode, k)
    requires k in data && !(k in Latest(snapshots) && Latest(snapshots)[k] == data[k]) ==> decode(data[k]).Some?
    ensures Current(snapshots + [data], decode, k)
  {
    HistoryAdvances(snapshots, data, decode, k);
    assert Latest(snapshots + [data]) == data;
  }

  // ---- Whole runs ----------------------------------------------------------------------------

  ghost predicate CleanEvent(c: Control, ev: Event, decode: Decoder) {
    if c.started then CleanSync(c, ev, decode, map[])
    else ev.read.ReadOk? && CleanSync(Initialise(c, ev.read), ev, decode, Allocations(ev.read.config.Listeners()))
  }

  /** No entry of the run is malformed, misfiled, forbidden, or left without ports. */
  ghost predicate CleanRun(c: Control, events: seq<Event>, decode: Decoder)
    decreases events
  {
    events != [] ==> CleanEvent(c, events[0], decode) && CleanRun(Process(c, events[0], decode), events[1..], decode)
  }

  ghost function SnapshotsOf(events: seq<Event>): seq<Snapshot> {
    seq(|events|, i requires 0 <= i < |events| => events[i].data)
  }

  /** The binding of `k` is that of the snapshots: there exactly if the latest has the key, and showing
      what all snapshots since the key appeared say under it. */
  ghost predicate MirrorsAt(st: State, snapshots: seq<Snapshot>, decode: Decoder, k: string) {
    TellsAt(st.bindings, k, History(snapshots, decode, k)) && Current(snapshots, decode, k)
  }

  ghost predicate Mirrors(st: State, snapshots: seq<Snapshot>, decode: Decoder) {
    forall k :: MirrorsAt(st, snapshots, decode, k)
  }

  lemma MirrorsKeys(st: State, snapshots: seq<Snapshot>, decode: Decoder)
    requires Mirrors(st, snapshots, decode)
    ensures st.bindings.Keys == Latest(snapshots).Keys
  {
    forall k ensures k in st.bindings <==> k in Latest(snapshots) {
      assert MirrorsAt(st, snapshots, decode, k);
    }
  }

  lemma SyncMirrorsAt(c: Control, snapshots: seq<Snapshot>, ev: Event, decode: Decoder, recovered: Recovered, k: string)
    requires AllSound(c.st) && Last(c.previous) == Latest(snapshots)
    requires CleanSync(c, ev, decode, recovered) && MirrorsAt(c.st, snapshots, decode, k)
    ensures AllSound(Sync(c, ev, decode, recovered).st)
    ensures MirrorsAt(Sync(c, ev, decode, recovered).st, snapshots + [ev.data], decode, k)
  {
    HistoryAdvances(snapshots, ev.data, decode, k);
    if ev.data == map[] {
      EmptySyncTells(c, ev, decode, recovered, k);
    } else {
      SyncTells(c, ev, decode, recovered, k, History(snapshots, decode, k));
    }
    CurrentAdvances(snapshots, ev.data, decode, k);
  }

  ghost predicate Following(c: Control, snapshots: seq<Snapshot>, decode: Decoder) {
    && AllSound(c.st) && Last(c.previous) == Latest(snapshots) && Mirrors(c.st, snapshots, decode)
    && (!c.started ==> c.st.bindings == map[])
  }

  lemma SyncRemembers(c: Control, ev: Event, decode: Decoder, recovered: Recovered)
    requires c.st.bindings == map[] ==> Last(c.previous) == map[]
    ensures Last(Sync(c, ev, decode, recovered).previous) == ev.data
  {
  }

  lemma SyncFollows(c: Control, snapshots: seq<Snapshot>, ev: Event, decode: Decoder, recovered: Recovered)
    requires c.started && Following(c, snapshots, decode) && CleanSync(c, ev, decode, recovered)
    ensures Following(Sync(c, ev, decode, recovered), snapshots + [ev.data], decode)
  {
    MirrorsKeys(c.st, snapshots, decode);
    assert Latest(snapshots) == map[] <==> Latest(snapshots).Keys == {};
    SyncRemembers(c, ev, decode, recovered);
    assert MirrorsAt(c.st, snapshots, decode, "");
    SyncMirrorsAt(c, snapshots, ev, decode, recovered, "");
    forall k ensures MirrorsAt(Sync(c, ev, decode, recovered).st, snapshots + [ev.data], decode, k) {
      assert MirrorsAt(c.st, snapshots, decode, k);
      SyncMirrorsAt(c, snapshots, ev, decode, recovered, k);
    }
    assert Latest(snapshots + [ev.data]) == ev.data;
  }

  lemma InitialiseFollows(c: Control, snapshots: seq<Snapshot>, read: BridgeRead, decode: Decoder)
    requires Following(c, snapshots, decode) && !c.started
    ensures Following(Initialise(c, read), snapshots, decode)
  {
    forall k ensures MirrorsAt(Initialise(c, read).st, snapshots, decode, k) {
      assert MirrorsAt(c.st, snapshots, decode, k);
    }
  }

  lemma ProcessFollows(c: Control, snapshots: seq<Snapshot>, ev: Event, decode: Decoder)
    requires Following(c, snapshots, decode) && CleanEvent(c, ev, decode)
    ensures Following(Process(c, ev, decode), snapshots + [ev.data], decode)
  {
    if c.started {
      SyncFollows(c, snapshots, ev, decode, map[]);
    } else {
      InitialiseFollows(c, snapshots, ev.read, decode);
      SyncFollows(Initialise(c, ev.read), snapshots, ev, decode, Allocations(ev.read.config.Listeners()));
    }
  }

  lemma {:induction false} RunFollows(c: Control, snapshots: seq<Snapshot>, events: seq<Event>, decode: Decoder)
    requires Following(c, snapshots, decode) && CleanRun(c, events, decode)
    ensures Following(Run(c, events, decode), snapshots + SnapshotsOf(events), decode)
    decreases events
  {
    if events == [] {
      assert snapshots + SnapshotsOf(events) == snapshots;
    } else {
      ProcessFollows(c, snapshots, events[0], decode);
      RunFollows(Process(c, events[0], decode), snapshots + [events[0].data], events[1..], decode);
      assert snapshots + [events[0].data] + SnapshotsOf(events[1..]) == snapshots + SnapshotsOf(events);
    }
  }

  lemma FreshFollows(decode: Decoder)
    ensures Following(Fresh(), [], decode)
  {
    assert Fresh().st.bindings == map[];
    forall k ensures MirrorsAt(Fresh().st, [], decode, k) {
    }
  }

  /** After any clean run of events the bindings have exactly the keys of the latest snapshot, and each
      shows exactly the definitions under its key since that key appeared (`KeptBy` says what that
      is), although only changed entries were looked at. */
  lemma RunMirrorsSnapshots(events: seq<Event>, decode: Decoder)
    requires CleanRun(Fresh(), events, decode)
    ensures Mirrors(Run(Fresh(), events, decode).st, SnapshotsOf(events), decode)
    ensures Run(Fresh(), events, decode).st.bindings.Keys == Latest(SnapshotsOf(events)).Keys
  {
    FreshFollows(decode);
    RunFollows(Fresh(), [], events, decode);
    assert [] + SnapshotsOf(events) == SnapshotsOf(events);
    MirrorsKeys(Run(Fresh(), events, decode).st, SnapshotsOf(events), decode);
  }

  /** The binding of a key, field by field, after any clean run: the origin of the definition it was
      created for, the first credentials given, each label and annotation as last given since there
      were none, the ingress last renewed, each target as its own history leaves it, and the rest as in
      the latest definition. */
  lemma RunShowsFields(events: seq<Event>, decode: Decoder, k: string)
    requires CleanRun(Fresh(), events, decode) && k in Latest(SnapshotsOf(events))
    ensures var bindings, defs := Run(Fresh(), events, decode).st.bindings, History(SnapshotsOf(events), decode, k);
            && k in bindings && defs != [] && decode(Latest(SnapshotsOf(events))[k]) == Some(defs[|defs| - 1])
            && var v := Shows(bindings[k]);
               && v.kept.origin == defs[0].origin
               && v.kept.tlsCredentials == FirstSet(CredentialsOf(defs))
               && (forall x :: LatestSays(LabelsOf(defs), x) == Label(v.kept.labels, x))
               && (forall x :: LatestSays(AnnotationsOf(defs), x) == Label(v.kept.annotations, x))
               && v.kept.ingress == IngressOf(defs)
               && (forall key :: Targets.At(v.kept.targets, key) == Targets.After(AskedBy(defs), key))
               && v.rest == RestOf(defs[|defs| - 1])
  {
    RunMirrorsSnapshots(events, decode);
    assert MirrorsAt(Run(Fresh(), events, decode).st, SnapshotsOf(events), decode, k);
    var defs := History(SnapshotsOf(events), decode, k);
    forall x
      ensures LatestSays(LabelsOf(defs), x) == Label(Overlaid(LabelsOf(defs)), x)
      ensures LatestSays(AnnotationsOf(defs), x) == Label(Overlaid(AnnotationsOf(defs)), x)
    {
      LiveIsSaid(LabelsOf(defs), x);
      LiveIsSaid(AnnotationsOf(defs), x);
    }
    forall key ensures Targets.At(Targets.TableAfter(AskedBy(defs)), key) == Targets.After(AskedBy(defs), key) {
      Targets.TableIsPointwise(AskedBy(defs), key);
    }
  }

  // ---- Incremental and batch -----------------------------------------------------------------

  ghost predicate SameViews(a: map<string, ServiceBindings>, b: map<string, ServiceBindings>) {
    a.Keys == b.Keys && forall k <- a :: k in b && Shows(a[k]) == Shows(b[k])
  }

  /** Nothing under the key is left of definitions before the latest. */
  ghost predicate ForgottenUnder(snapshots: seq<Snapshot>, decode: Decoder, k: string) {
    var defs := History(snapshots, decode, k);
    defs != [] ==> Forgotten(defs)
  }

  lemma SameUnderExactlyWhen(all: State, one: State, snapshots: seq<Snapshot>, decode: Decoder, k: string)
    requires MirrorsAt(all, snapshots, decode, k) && MirrorsAt(one, [Latest(snapshots)], decode, k)
    requires k in Latest(snapshots)
    ensures k in all.bindings && k in one.bindings
    ensures Shows(all.bindings[k]) == Shows(one.bindings[k]) <==> ForgottenUnder(snapshots, decode, k)
  {
    var defs := History(snapshots, decode, k);
    HistoryOfOne(Latest(snapshots), decode, k);
    TellingExactlyWhen(all.bindings[k], one.bindings[k], defs);
  }

  lemma HistoryOfOne(data: Snapshot, decode: Decoder, k: string)
    requires k in data && decode(data[k]).Some?
    ensures History([data], decode, k) == [decode(data[k]).value]
  {
    HistoryAdvances([], data, decode, k);
    assert [] + [data] == [data];
  }

  lemma TellingExactlyWhen(all: ServiceBindings, one: ServiceBindings, defs: seq<ServiceInterface>)
    requires Tells(all, defs) && Tells(one, [defs[|defs| - 1]])
    ensures Shows(all) == Shows(one) <==> Forgotten(defs)
  {
    ToldFirst(defs[|defs| - 1]);
    ShownIsWantedExactlyWhen(defs);
  }

  /** Incremental processing and processing the latest snapshot alone leave the same keys; and they leave
      the same definitions if and only if nothing is left of earlier ones. */
  lemma IncrementalEqualsBatchExactlyWhen(events: seq<Event>, batch: seq<Event>, data: Snapshot, decode: Decoder)
    requires events != [] && CleanRun(Fresh(), events, decode) && CleanRun(Fresh(), batch, decode)
    requires SnapshotsOf(batch) == [data] && data == events[|events| - 1].data
    ensures var all, one := Run(Fresh(), events, decode).st.bindings, Run(Fresh(), batch, decode).st.bindings;
            && all.Keys == one.Keys == data.Keys
            && (SameViews(all, one) <==> forall k <- data :: ForgottenUnder(SnapshotsOf(events), decode, k))
  {
    RunMirrorsSnapshots(events, decode);
    RunMirrorsSnapshots(batch, decode);
    MirrorsOfBoth(Run(Fresh(), events, decode).st, Run(Fresh(), batch, decode).st, SnapshotsOf(events), data, decode);
  }

  lemma MirrorsOfBoth(all: State, one: State, snapshots: seq<Snapshot>, data: Snapshot, decode: Decoder)
    requires snapshots != [] && Mirrors(all, snapshots, decode) && Mirrors(one, [data], decode)
    requires all.bindings.Keys == one.bindings.Keys == data.Keys && data == Latest(snapshots)
    ensures SameViews(all.bindings, one.bindings) <==> forall k <- data :: ForgottenUnder(snapshots, decode, k)
  {
    forall k <- data
      ensures Shows(all.bindings[k]) == Shows(one.bindings[k]) <==> ForgottenUnder(snapshots, decode, k)
    {
      assert MirrorsAt(all, snapshots, decode, k) && MirrorsAt(one, [Latest(snapshots)], decode, k);
      SameUnderExactlyWhen(all, one, snapshots, decode, k);
    }
  }

  // ---- Names stay ----------------------------------------------------------------------------

  /** A definition of address "x" that differs from others in its credentials and in the name of its
      target only. */
  function Named(name: string): ServiceInterface {
    ServiceInterface("x", Tcp, [], Unset, "", false, None, map[], map[], NoOrigin, name, "", false, "",
                     [Targets.Target(name, "app", "", map[], "")])
  }

  ghost function Reader(): Decoder {
    (text: string) => Some(Named(text))
  }

  ghost function Renaming(name: string): Event {
    Event(map["x" := name], ["x"], (address: string) => true, ReadOk(BridgeConfig([], [], [], [])))
  }

  lemma RenamingIsClean(c: Control, name: string)
    ensures CleanEvent(c, Renaming(name), Reader())
  {
    var ev := Renaming(name);
    var c' := if c.started then c else Initialise(c, ev.read);
    var recovered := if c.started then map[] else Allocations(ev.read.config.Listeners());
    assert ev.read.config.Listeners() == [];
    RenamingApplies(c'.st, Changed(c'.previous, ev.data), ev, recovered);
  }

  lemma RenamingApplies(st: State, entries: map<string, string>, ev: Event, recovered: Recovered)
    requires ev.order == ["x"] && ev.data.Keys == {"x"} && (forall a :: ev.allowed(a)) && recovered == map[]
    ensures Enumerates(ev.order, ev.data.Keys) && CleanApply(st, entries, ev.order, Reader(), ev.allowed, recovered)
  {
    assert ev.order[0] == "x" && ev.order[1..] == [];
  }

  lemma {:induction false} RenamingsAreClean(c: Control, names: seq<string>)
    ensures CleanRun(c, Renamings(names), Reader())
    decreases names
  {
    if names != [] {
      RenamingIsClean(c, names[0]);
      RenamingsAreClean(Process(c, Renaming(names[0]), Reader()), names[1..]);
      assert Renamings(names)[1..] == Renamings(names[1..]);
    }
  }

  ghost function Renamings(names: seq<string>): seq<Event> {
    seq(|names|, i requires 0 <= i < |names| => Renaming(names[i]))
  }

  /** The binding of "x" has these credentials, and this name for its target. */
  ghost predicate Carries(bindings: map<string, ServiceBindings>, credentials: string, target: string) {
    var key := Targets.TargetKey("app", "");
    && "x" in bindings && bindings["x"].tlsCredentials == credentials
    && key in bindings["x"].targets && bindings["x"].targets[key].name == target
  }

  /** The credentials and the target's name of a service change: processed one after the other, its
      binding keeps the first ones; processed alone, the latest snapshot gives the last ones. */
  lemma RenamedIsIgnored(a: string, b: string)
    requires a != "" && a != b
    ensures CleanRun(Fresh(), Renamings([a, b]), Reader()) && CleanRun(Fresh(), Renamings([b]), Reader())
    ensures Carries(Run(Fresh(), Renamings([a, b]), Reader()).st.bindings, a, a)
    ensures Carries(Run(Fresh(), Renamings([b]), Reader()).st.bindings, b, b)
  {
    RenamingsAreClean(Fresh(), [a, b]);
    RenamingsAreClean(Fresh(), [b]);
    TwoNames(a, b);
    OneName(b);
    RunCarries(Renamings([a, b]), [Named(a), Named(b)]);
    RunCarries(Renamings([b]), [Named(b)]);
    KeptNames(a, b);
    KeptName(b);
  }

  lemma OneName(b: string)
    ensures History(SnapshotsOf(Renamings([b])), Reader(), "x") == [Named(b)]
  {
    HistoryAdvances([], Renaming(b).data, Reader(), "x");
    assert SnapshotsOf(Renamings([b])) == [] + [Renaming(b).data];
  }

  lemma TwoNames(a: string, b: string)
    requires a != b
    ensures History(SnapshotsOf(Renamings([a, b])), Reader(), "x") == [Named(a), Named(b)]
  {
    OneName(a);
    var first := SnapshotsOf(Renamings([a]));
    HistoryAdvances(first, Renaming(b).data, Reader(), "x");
    assert SnapshotsOf(Renamings([a, b])) == first + [Renaming(b).data];
    assert Latest(first)["x"] == a;
  }

  lemma RunCarries(events: seq<Event>, defs: seq<ServiceInterface>)
    requires CleanRun(Fresh(), events, Reader()) && History(SnapshotsOf(events), Reader(), "x") == defs && defs != []
    ensures var bindings := Run(Fresh(), events, Reader()).st.bindings;
            "x" in bindings && Shows(bindings["x"]).kept == KeptBy(defs)
  {
    RunMirrorsSnapshots(events, Reader());
    assert MirrorsAt(Run(Fresh(), events, Reader()).st, SnapshotsOf(events), Reader(), "x");
  }

  lemma KeptName(b: string)
    ensures var key, kept := Targets.TargetKey("app", ""), KeptBy([Named(b)]);
            kept.tlsCredentials == b && key in kept.targets && kept.targets[key].name == b
  {
    ToldFirst(Named(b));
    Targets.AddIsPointwise(Named(b).Asks(), Named(b).targets, Targets.TargetKey("app", ""));
  }

  lemma KeptNames(a: string, b: string)
    requires a != ""
    ensures var key, kept := Targets.TargetKey("app", ""), KeptBy([Named(a), Named(b)]);
            kept.tlsCredentials == a && key in kept.targets && kept.targets[key].name == a
  {
    var defs := [Named(a), Named(b)];
    assert defs == [Named(a)] + [Named(b)];
    KeptMore([Named(a)], Named(b));
    KeptName(a);
    assert AskedBy(defs) == [Named(a).Asks(), Named(b).Asks()];
    Targets.RenamedTargetKeepsItsName(Named(a).Asks(), Named(b).Asks(), Named(a).targets[0], Named(b).targets[0]);
  }
}
