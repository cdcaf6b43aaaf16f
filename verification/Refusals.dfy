/** What becomes of a definition that was refused by policy or got no ports:
    cmd/service-controller/controller.go.  The controller looks at entries that changed, so it is
    not tried again while its text is remembered, unless another entry names its address. */
module Refusals {
  import opened Prelude
  import opened Bindings
  import opened Controller

  // ---- An entry whose text stays -------------------------------------------------------------

  ghost predicate Remembers(c: Control, k: string, text: string) {
    c.started && c.previous.Some? && k in c.previous.value && c.previous.value[k] == text
  }

  /** The event leaves the memory of the entry: it keeps the text, or it is empty and finds nothing bound
      (the controller then does not look at it). */
  ghost predicate Keeps(c: Control, ev: Event, k: string, text: string) {
    (k in ev.data && ev.data[k] == text) || (ev.data == map[] && c.st.bindings == map[])
  }

  ghost predicate AllKeep(c: Control, events: seq<Event>, decode: Decoder, k: string, text: string)
    decreases events
  {
    events != [] ==>
        Keeps(c, events[0], k, text) && AllKeep(Process(c, events[0], decode), events[1..], decode, k, text)
  }

  ghost predicate RemembersThroughout(c: Control, events: seq<Event>, decode: Decoder, k: string, text: string)
    decreases events
  {
    && Remembers(c, k, text)
    && (events != [] ==> RemembersThroughout(Process(c, events[0], decode), events[1..], decode, k, text))
  }

  lemma OneEventKeepsExactlyWhen(c: Control, ev: Event, decode: Decoder, k: string, text: string)
    requires Remembers(c, k, text)
    ensures Remembers(Process(c, ev, decode), k, text) <==> Keeps(c, ev, k, text)
  {
  }

  /** The memory of an entry lasts if and only if every event keeps its text, or is empty and finds
      nothing bound. */
  lemma {:induction false} MemoryLastsExactlyWhen(c: Control, events: seq<Event>, decode: Decoder, k: string,
                                                  text: string)
    requires Remembers(c, k, text)
    ensures RemembersThroughout(c, events, decode, k, text) <==> AllKeep(c, events, decode, k, text)
    decreases events
  {
    if events != [] {
      OneEventKeepsExactlyWhen(c, events[0], decode, k, text);
      if Keeps(c, events[0], k, text) {
        MemoryLastsExactlyWhen(Process(c, events[0], decode), events[1..], decode, k, text);
      }
    }
  }

  /** The entry is never among those looked at. */
  ghost predicate NeverLookedAt(c: Control, events: seq<Event>, decode: Decoder, k: string)
    decreases events
  {
    events != [] ==>
        k !in Changed(c.previous, events[0].data)
            && NeverLookedAt(Process(c, events[0], decode), events[1..], decode, k)
  }

  /** As long as the memory lasts the entry is not looked at, however it fared: not even where it was
      deleted in between. */
  lemma {:induction false} KeptTextIsNeverLookedAt(c: Control, events: seq<Event>, decode: Decoder, k: string,
                                                   text: string)
    requires Remembers(c, k, text) && AllKeep(c, events, decode, k, text)
    ensures NeverLookedAt(c, events, decode, k) && Remembers(Run(c, events, decode), k, text)
    decreases events
  {
    if events != [] {
      OneEventKeepsExactlyWhen(c, events[0], decode, k, text);
      KeptTextIsNeverLookedAt(Process(c, events[0], decode), events[1..], decode, k, text);
    }
  }

  /** With nothing bound, an entry that an empty snapshot deletes and the next one brings back is not
      looked at. */
  lemma BroughtBackIsNotLookedAt(c: Control, empty: Event, again: Event, decode: Decoder, k: string, text: string)
    requires Remembers(c, k, text)
    requires c.st.bindings == map[] && empty.data == map[] && k in again.data && again.data[k] == text
    ensures NeverLookedAt(c, [empty, again], decode, k)
  {
    OneEventKeepsExactlyWhen(c, empty, decode, k, text);
    var next := Process(c, empty, decode);
    OneEventKeepsExactlyWhen(next, again, decode, k, text);
    assert [empty, again][1..] == [again] && [again][1..] == [];
    assert AllKeep(Process(next, again, decode), [], decode, k, text);
    assert AllKeep(next, [again], decode, k, text);
    KeptTextIsNeverLookedAt(c, [empty, again], decode, k, text);
  }

  // ---- When a binding appears ----------------------------------------------------------------

  /** The entry is for address `a`. */
  ghost predicate Addresses(entries: map<string, string>, k: string, decode: Decoder, a: string) {
    k in entries && decode(entries[k]).Some? && decode(entries[k]).value.address == a
  }

  /** The pool can serve the definition. */
  ghost predicate Served(st: State, si: ServiceInterface) {
    !si.RequiresIngressPortAllocations() || |si.ports| <= |st.free|
  }

  /** Some entry for `a` finds policy allowing it and ports enough when its turn comes. */
  ghost predicate Succeeds(st: State, entries: map<string, string>, order: seq<string>, decode: Decoder,
                           allowed: string -> bool, a: string)
    decreases order
  {
    order != [] &&
    var k := order[0];
    (Addresses(entries, k, decode, a) && allowed(a) && Served(st, decode(entries[k]).value))
    || Succeeds(ApplyOne(st, entries, k, decode, allowed, map[]).0, entries, order[1..], decode, allowed, a)
  }

  lemma UpdateElsewhere(st: State, si: ServiceInterface, allowed: bool, t: Taken, a: string)
    requires si.address != a
    ensures a in UpdateWith(st, si, allowed, map[], t).0.bindings <==> a in st.bindings
  {
  }

  lemma ChangeKeepsBinding(st: State, si: ServiceInterface, t: Taken)
    requires si.address in st.bindings
    ensures si.address in Change(st, st.bindings[si.address], si, t).0.bindings
  {
  }

  lemma CreateBindsExactlyWhen(st: State, si: ServiceInterface, t: Taken)
    requires si.address !in st.bindings
    ensures si.address in Create(st, si, map[], t).0.bindings <==> !si.RequiresIngressPortAllocations() || t.complete
  {
  }

  lemma UpdateHere(st: State, si: ServiceInterface, allowed: bool)
    ensures si.address in Update(st, si, allowed, map[]).0.bindings <==>
            allowed && (si.address in st.bindings || Served(st, si))
  {
    var t := Take(st.free, |si.ports|);
    TakeIsExact(st.free, |si.ports|);
    if si.address in st.bindings {
      ChangeKeepsBinding(st, si, t);
    } else {
      CreateBindsExactlyWhen(st, si, t);
    }
  }

  lemma ApplyOneAppears(st: State, entries: map<string, string>, k: string, decode: Decoder, allowed: string -> bool,
                        a: string)
    ensures a in ApplyOne(st, entries, k, decode, allowed, map[]).0.bindings <==>
            if Addresses(entries, k, decode, a)
            then allowed(a) && (a in st.bindings || Served(st, decode(entries[k]).value))
            else a in st.bindings
  {
    if k in entries && decode(entries[k]).Some? {
      var si := decode(entries[k]).value;
      if si.address == a {
        UpdateHere(st, si, allowed(a));
      } else {
        UpdateElsewhere(st, si, allowed(si.address), Take(st.free, |si.ports|), a);
      }
    }
  }

  lemma {:induction false} ApplyAppears(st: State, entries: map<string, string>, order: seq<string>, decode: Decoder,
                                        allowed: string -> bool, a: string)
    requires a in st.bindings ==> allowed(a)
    ensures a in Apply(st, entries, order, decode, allowed, map[]).bindings <==>
            a in st.bindings || Succeeds(st, entries, order, decode, allowed, a)
    decreases order
  {
    if order != [] {
      var st' := ApplyOne(st, entries, order[0], decode, allowed, map[]).0;
      ApplyOneAppears(st, entries, order[0], decode, allowed, a);
      ApplyAppears(st', entries, order[1..], decode, allowed, a);
    }
  }

  /** An address without a binding has one after an event if and only if the snapshot has the address as
      a key and, when its turn comes, some changed entry for the address is allowed and served. */
  lemma AppearsExactlyWhen(c: Control, ev: Event, decode: Decoder, a: string)
    requires c.started && a !in c.st.bindings
    ensures a in Process(c, ev, decode).st.bindings <==>
            a in ev.data && Succeeds(c.st, Changed(c.previous, ev.data), ev.order, decode, ev.allowed, a)
  {
    if ev.data != map[] {
      ApplyAppears(c.st, Changed(c.previous, ev.data), ev.order, decode, ev.allowed, a);
    }
  }

  /** No changed entry is for the address. */
  ghost predicate Unaddressed(c: Control, ev: Event, decode: Decoder, a: string) {
    forall k <- Changed(c.previous, ev.data) :: !Addresses(Changed(c.previous, ev.data), k, decode, a)
  }

  ghost predicate AlwaysUnaddressed(c: Control, events: seq<Event>, decode: Decoder, a: string)
    decreases events
  {
    events != [] ==>
        Unaddressed(c, events[0], decode, a) && AlwaysUnaddressed(Process(c, events[0], decode), events[1..], decode, a)
  }

  lemma {:induction false} UnaddressedFails(st: State, entries: map<string, string>, order: seq<string>,
                                            decode: Decoder, allowed: string -> bool, a: string)
    requires forall k <- entries :: !Addresses(entries, k, decode, a)
    ensures !Succeeds(st, entries, order, decode, allowed, a)
    decreases order
  {
    if order != [] {
      UnaddressedFails(ApplyOne(st, entries, order[0], decode, allowed, map[]).0, entries, order[1..], decode, allowed,
                       a);
    }
  }

  /** While no changed entry names it, an address without a binding stays without one, however policy and
      pool change. */
  lemma {:induction false} StaysWithoutBinding(c: Control, events: seq<Event>, decode: Decoder, a: string)
    requires c.started && a !in c.st.bindings && AlwaysUnaddressed(c, events, decode, a)
    ensures a !in Run(c, events, decode).st.bindings
    decreases events
  {
    if events != [] {
      UnaddressedFails(c.st, Changed(c.previous, events[0].data), events[0].order, decode, events[0].allowed, a);
      AppearsExactlyWhen(c, events[0], decode, a);
      StaysWithoutBinding(Process(c, events[0], decode), events[1..], decode, a);
    }
  }

  /** No entry of the events other than `k` is for the address. */
  ghost predicate OnlyEntry(events: seq<Event>, decode: Decoder, k: string, a: string) {
    forall i, x | 0 <= i < |events| && x in events[i].data && x != k :: !Addresses(events[i].data, x, decode, a)
  }

  /** So a refused entry that is the only one for its address is not tried again while the memory of it
      lasts: its binding stays absent. */
  lemma {:induction false} RefusedStaysRefused(c: Control, events: seq<Event>, decode: Decoder, k: string, text: string,
                                               a: string)
    requires Remembers(c, k, text) && AllKeep(c, events, decode, k, text) && OnlyEntry(events, decode, k, a)
    requires a !in c.st.bindings
    ensures a !in Run(c, events, decode).st.bindings
  {
    OnlyEntryIsUnaddressed(c, events, decode, k, text, a);
    StaysWithoutBinding(c, events, decode, a);
  }

  lemma {:induction false} OnlyEntryIsUnaddressed(c: Control, events: seq<Event>, decode: Decoder, k: string,
                                                  text: string, a: string)
    requires Remembers(c, k, text) && AllKeep(c, events, decode, k, text) && OnlyEntry(events, decode, k, a)
    ensures AlwaysUnaddressed(c, events, decode, a)
    decreases events
  {
    if events != [] {
      var ev := events[0];
      OneEventKeepsExactlyWhen(c, ev, decode, k, text);
      forall x <- Changed(c.previous, ev.data) ensures !Addresses(Changed(c.previous, ev.data), x, decode, a) {
        assert x in events[0].data && x != k;
        assert !Addresses(events[0].data, x, decode, a);
      }
      OnlyEntryIsUnaddressed(Process(c, ev, decode), events[1..], decode, k, text, a);
    }
  }

  // ---- A repeated snapshot -------------------------------------------------------------------

  lemma {:induction false} ApplyNothing(st: State, order: seq<string>, decode: Decoder, allowed: string -> bool,
                                        recovered: Recovered)
    ensures Apply(st, map[], order, decode, allowed, recovered) == st
    decreases order
  {
    if order != [] {
      ApplyNothing(st, order[1..], decode, allowed, recovered);
    }
  }

  /** Seeing a snapshot again changes nothing, whatever became of its entries the first time. */
  lemma SameSnapshotIsIgnored(c: Control, ev: Event, again: Event, decode: Decoder)
    requires c.started && again.data == ev.data
    ensures var once := Process(c, ev, decode); Process(once, again, decode) == once
  {
    var once := Process(c, ev, decode);
    var gone: set<string> := {};
    if ev.data != map[] {
      assert Changed(once.previous, again.data) == map[];
      ApplyNothing(once.st, again.order, decode, again.allowed, map[]);
      assert once.st.bindings.Keys - ev.data.Keys == gone;
      assert Unclaimed(once.st.bindings, map[]) == {};
      assert DeleteAll(once.st, gone) == once.st;
    } else {
      assert once.st.bindings == map[];
      assert Unclaimed(once.st.bindings, map[]) == {};
    }
  }
}
