/** The container informer: client/podman/informer.go.

    Each run lists the containers, inspects the new and changed ones, drops the vanished ones, and
    tells its observers.  An inspection may fail, and so may the listing. */
module Informer {
  import opened Prelude

  datatype Container = Container(name: string, id: string, startedAt: int, running: bool)

  /** What the list call says about a container. */
  datatype Listed = Listed(name: string, id: string, startedAt: int)

  datatype Change = Change(was: Container, now: Container)

  /** What the observers are told, in this order. */
  datatype Notes = Notes(added: seq<Container>, updated: seq<Change>, deleted: seq<Container>)

  type Cache = map<string, Container>

  /** One run: the listing, unless it fails, and what inspecting its i-th entry gives, unless that
      fails. */
  datatype Round = Round(listing: Option<seq<Listed>>, inspect: nat -> Option<Container>)
  {
    /** Inspecting a name gives a container of that name. */
    ghost predicate Honest() {
      listing.Some? ==>
        forall i | 0 <= i < |listing.value| :: inspect(i).Some? ==> inspect(i).value.name == listing.value[i].name
    }
  }

  ghost function Names(l: seq<Listed>): set<string> {
    set e | e in l :: e.name
  }

  // ---- What a run does -----------------------------------------------------------------------

  datatype Scanned = Scanned(cache: Cache, added: seq<Container>, updated: seq<Change>)

  predicate Stale(c: Container, e: Listed) {
    c.id != e.id || e.startedAt > c.startedAt
  }

  function ScanOne(s: Scanned, e: Listed, found: Option<Container>): Scanned {
    if e.name !in s.cache then
      if found.None? then s
      else Scanned(s.cache[e.name := found.value], s.added + [found.value], s.updated)
    else if Stale(s.cache[e.name], e) && found.Some? then
      Scanned(s.cache[e.name := found.value], s.added, s.updated + [Change(s.cache[e.name], found.value)])
    else s
  }

  /** The first loop over the first `n` entries of the listing. */
  function Scan(cache: Cache, l: seq<Listed>, inspect: nat -> Option<Container>, n: nat): Scanned
    requires n <= |l|
  {
    if n == 0 then Scanned(cache, [], [])
    else ScanOne(Scan(cache, l, inspect, n - 1), l[n - 1], inspect(n - 1))
  }

  function Ended(c: Container): Container {
    c.(running := false)
  }

  /** The containers under these keys. */
  ghost predicate Under(cache: Cache, keys: seq<string>, deleted: seq<Container>) {
    |deleted| == |keys| && forall i | 0 <= i < |keys| :: keys[i] in cache && deleted[i] == Ended(cache[keys[i]])
  }

  /** The containers under the keys of `gone`, each once, in some order. */
  ghost predicate Dropped(cache: Cache, gone: set<string>, deleted: seq<Container>) {
    exists keys :: Enumerates(keys, gone) && Under(cache, keys, deleted)
  }

  /** `cache'` and `notes` are what a run makes of `cache`. */
  ghost predicate IsRun(cache: Cache, r: Round, cache': Cache, notes: Notes) {
    if r.listing.None? then cache' == cache && notes == Notes([], [], [])
    else
      var s := Scan(cache, r.listing.value, r.inspect, |r.listing.value|);
      var gone := s.cache.Keys - Names(r.listing.value);
      && notes.added == s.added && notes.updated == s.updated
      && Dropped(s.cache, gone, notes.deleted)
      && cache' == s.cache - gone
  }

  class ContainerInformer {
    var containers: Cache

    constructor ()
      ensures containers == map[]
    {
      containers := map[];
    }

    /** New and changed containers. */
    method InspectListed(l: seq<Listed>, inspect: nat -> Option<Container>)
      returns (names: seq<string>, added: seq<Container>, updated: seq<Change>)
      modifies this
      ensures Scanned(containers, added, updated) == Scan(old(containers), l, inspect, |l|)
      ensures forall n :: n in names <==> n in Names(l)
    {
      names, added, updated := [], [], [];
      for i := 0 to |l|
        invariant SetOf(names) == Names(l[..i])
        invariant Scanned(containers, added, updated) == Scan(old(containers), l, inspect, i)
      {
        var ci := l[i];
        NamesSnoc(l, i, names);
        names := names + [ci.name];
        if ci.name !in containers {
          var cn := inspect(i);
          if cn.None? {
            continue;
          }
          containers := containers[ci.name := cn.value];
          added := added + [cn.value];
        } else if containers[ci.name].id != ci.id || ci.startedAt > containers[ci.name].startedAt {
          var cn := inspect(i);
          if cn.None? {
            continue;
          }
          updated := updated + [Change(containers[ci.name], cn.value)];
          containers := containers[ci.name := cn.value];
        }
      }
      assert l[..|l|] == l;
      assert forall n :: n in names <==> n in SetOf(names);
    }

    /** Vanished containers, in any order. */
    method DropUnlisted(names: seq<string>) returns (deleted: seq<Container>)
      modifies this
      ensures var gone := old(containers).Keys - SetOf(names);
              Dropped(old(containers), gone, deleted) && containers == old(containers) - gone
    {
      ghost var was := containers;
      ghost var gone := was.Keys - SetOf(names);
      ghost var keys: seq<string> := [];
      var todo := containers.Keys;
      deleted := [];
      while todo != {}
        invariant todo <= was.Keys && Enumerates(keys, gone - todo) && Under(was, keys, deleted)
        invariant containers == was - (gone - todo)
        decreases todo
      {
        var n :| n in todo;
        if n !in names {
          EnumeratesMore(keys, gone - todo, n);
          keys := keys + [n];
          deleted := deleted + [Ended(containers[n])];
          containers := containers - {n};
          assert gone - (todo - {n}) == (gone - todo) + {n};
        } else {
          assert gone - (todo - {n}) == gone - todo;
        }
        todo := todo - {n};
      }
      assert gone - todo == gone;
    }

    method Run(r: Round) returns (notes: Notes)
      modifies this
      ensures IsRun(old(containers), r, containers, notes)
    {
      if r.listing.None? {
        return Notes([], [], []);
      }
      var names, added, updated := InspectListed(r.listing.value, r.inspect);
      assert SetOf(names) == Names(r.listing.value);
      var deleted := DropUnlisted(names);
      notes := Notes(added, updated, deleted);
    }
  }

  lemma NamesSnoc(l: seq<Listed>, i: nat, names: seq<string>)
    requires i < |l| && SetOf(names) == Names(l[..i])
    ensures SetOf(names + [l[i].name]) == Names(l[..i + 1])
  {
    assert l[..i + 1] == l[..i] + [l[i]];
    assert Names(l[..i + 1]) == Names(l[..i]) + {l[i].name};
    assert SetOf(names + [l[i].name]) == SetOf(names) + {l[i].name};
  }

  ghost predicate KeyedByName(cache: Cache) {
    forall n <- cache :: cache[n].name == n
  }

  lemma EnumeratesMore(keys: seq<string>, gone: set<string>, n: string)
    requires Enumerates(keys, gone) && n !in gone
    ensures Enumerates(keys + [n], gone + {n})
  {
    assert forall i | 0 <= i < |keys| :: keys[i] in SetOf(keys);
    assert SetOf(keys + [n]) == SetOf(keys) + {n};
  }

  // ---- An observer ---------------------------------------------------------------------------

  function Adds(view: Cache, added: seq<Container>): Cache {
    if added == [] then view
    else
      var n := |added| - 1;
      Adds(view, added[..n])[added[n].name := added[n]]
  }

  function Updates(view: Cache, updated: seq<Change>): Cache {
    if updated == [] then view
    else
      var n := |updated| - 1;
      Updates(view, updated[..n])[updated[n].now.name := updated[n].now]
  }

  function Deletes(view: Cache, deleted: seq<Container>): Cache {
    if deleted == [] then view
    else
      var n := |deleted| - 1;
      Deletes(view, deleted[..n]) - {deleted[n].name}
  }

  /** An observer that keeps a map from names to containers by following the notifications. */
  function Follow(view: Cache, notes: Notes): Cache {
    Deletes(Updates(Adds(view, notes.added), notes.updated), notes.deleted)
  }

  /** Every change notification names, as the old container, the one the observer has. */
  ghost predicate Truthful(view: Cache, updated: seq<Change>) {
    forall i | 0 <= i < |updated| ::
      var before := Updates(view, updated[..i]);
      updated[i].now.name in before && before[updated[i].now.name] == updated[i].was
  }

  ghost function ChangedNames(updated: seq<Change>): set<string> {
    set c | c in updated :: c.now.name
  }

  /** An addition can be told before the changes of other containers. */
  lemma {:induction false} AddCommutes(view: Cache, updated: seq<Change>, c: Container)
    requires c.name !in ChangedNames(updated)
    ensures Updates(view[c.name := c], updated) == Updates(view, updated)[c.name := c]
  {
    if updated != [] {
      var n := |updated| - 1;
      assert updated[n] in updated;
      assert forall x | x in updated[..n] :: x in updated;
      AddCommutes(view, updated[..n], c);
    }
  }

  lemma TruthfulAfterAdd(view: Cache, updated: seq<Change>, c: Container)
    requires Truthful(view, updated) && c.name !in ChangedNames(updated)
    ensures Truthful(view[c.name := c], updated)
  {
    forall i | 0 <= i < |updated|
      ensures var before := Updates(view[c.name := c], updated[..i]);
              updated[i].now.name in before && before[updated[i].now.name] == updated[i].was
    {
      assert forall x | x in updated[..i] :: x in updated;
      assert updated[i] in updated;
      AddCommutes(view, updated[..i], c);
    }
  }

  lemma TruthfulSnoc(view: Cache, updated: seq<Change>, c: Change)
    requires Truthful(view, updated)
    requires c.now.name in Updates(view, updated) && Updates(view, updated)[c.now.name] == c.was
    ensures Truthful(view, updated + [c])
  {
    var more := updated + [c];
    forall i | 0 <= i < |more|
      ensures var before := Updates(view, more[..i]);
              more[i].now.name in before && before[more[i].now.name] == more[i].was
    {
      assert i < |updated| ==> more[..i] == updated[..i];
      assert more[..|updated|] == updated;
    }
  }

  /** The scan, as an observer sees it. */
  ghost predicate Seen(cache: Cache, s: Scanned) {
    && Updates(Adds(cache, s.added), s.updated) == s.cache
    && Truthful(Adds(cache, s.added), s.updated)
    && ChangedNames(s.updated) <= s.cache.Keys
  }

  lemma AddIsSeen(cache: Cache, s: Scanned, c: Container)
    requires Seen(cache, s) && c.name !in s.cache
    ensures Seen(cache, Scanned(s.cache[c.name := c], s.added + [c], s.updated))
  {
    var view := Adds(cache, s.added);
    assert (s.added + [c])[..|s.added|] == s.added;
    assert Adds(cache, s.added + [c]) == view[c.name := c];
    AddCommutes(view, s.updated, c);
    TruthfulAfterAdd(view, s.updated, c);
  }

  lemma UpdateIsSeen(cache: Cache, s: Scanned, c: Change)
    requires Seen(cache, s) && c.now.name in s.cache && c.was == s.cache[c.now.name]
    ensures Seen(cache, Scanned(s.cache[c.now.name := c.now], s.added, s.updated + [c]))
  {
    var view := Adds(cache, s.added);
    assert (s.updated + [c])[..|s.updated|] == s.updated;
    assert Updates(view, s.updated + [c]) == Updates(view, s.updated)[c.now.name := c.now];
    TruthfulSnoc(view, s.updated, c);
    assert ChangedNames(s.updated + [c]) == ChangedNames(s.updated) + {c.now.name} by {
      assert forall x :: x in s.updated + [c] <==> x in s.updated || x == c;
    }
  }

  lemma ScanOneIsSeen(cache: Cache, s: Scanned, e: Listed, found: Option<Container>)
    requires Seen(cache, s) && (found.Some? ==> found.value.name == e.name)
    ensures Seen(cache, ScanOne(s, e, found))
  {
    if found.Some? {
      if e.name !in s.cache {
        AddIsSeen(cache, s, found.value);
      } else if Stale(s.cache[e.name], e) {
        UpdateIsSeen(cache, s, Change(s.cache[e.name], found.value));
      }
    }
  }

  lemma {:induction false} ScanIsSeen(cache: Cache, r: Round, n: nat)
    requires r.Honest() && r.listing.Some? && n <= |r.listing.value|
    ensures Seen(cache, Scan(cache, r.listing.value, r.inspect, n))
  {
    if n == 0 {
      assert Updates(cache, []) == cache;
    } else {
      var before := Scan(cache, r.listing.value, r.inspect, n - 1);
      assert Seen(cache, before) by {
        ScanIsSeen(cache, r, n - 1);
      }
      ScanOneIsSeen(cache, before, r.listing.value[n - 1], r.inspect(n - 1));
    }
  }

  ghost function NamesOf(cs: seq<Container>): set<string> {
    set c | c in cs :: c.name
  }

  lemma {:induction false} DeletesAre(view: Cache, deleted: seq<Container>)
    ensures Deletes(view, deleted) == view - NamesOf(deleted)
  {
    if deleted != [] {
      var n := |deleted| - 1;
      DeletesAre(view, deleted[..n]);
      assert deleted == deleted[..n] + [deleted[n]];
      assert NamesOf(deleted) == NamesOf(deleted[..n]) + {deleted[n].name};
    }
  }

  lemma DroppedNames(cache: Cache, gone: set<string>, deleted: seq<Container>)
    requires KeyedByName(cache) && Dropped(cache, gone, deleted)
    ensures NamesOf(deleted) == gone
  {
    var keys :| Enumerates(keys, gone) && Under(cache, keys, deleted);
    forall n <- gone ensures n in NamesOf(deleted) {
      assert n in keys;
      var i :| 0 <= i < |keys| && keys[i] == n;
      assert deleted[i] in deleted;
    }
    forall c <- deleted ensures c.name in gone {
      var i :| 0 <= i < |deleted| && deleted[i] == c;
      assert keys[i] in SetOf(keys);
    }
  }

  lemma {:induction false} ScanKeepsKeys(cache: Cache, r: Round, n: nat)
    requires r.Honest() && KeyedByName(cache) && r.listing.Some? && n <= |r.listing.value|
    ensures KeyedByName(Scan(cache, r.listing.value, r.inspect, n).cache)
  {
    if n > 0 {
      ScanKeepsKeys(cache, r, n - 1);
    }
  }

  /** An observer that held the cache before a run, and follows its notifications, holds the cache
      after it; the containers it is told were changed are the ones it had. */
  lemma FollowerHoldsCache(cache: Cache, r: Round, cache': Cache, notes: Notes)
    requires r.Honest() && KeyedByName(cache) && IsRun(cache, r, cache', notes)
    ensures Follow(cache, notes) == cache' && KeyedByName(cache')
    ensures Truthful(Adds(cache, notes.added), notes.updated)
  {
    if r.listing.Some? {
      var l := r.listing.value;
      var s := Scan(cache, l, r.inspect, |l|);
      ScanIsSeen(cache, r, |l|);
      ScanKeepsKeys(cache, r, |l|);
      DroppedNames(s.cache, s.cache.Keys - Names(l), notes.deleted);
      DeletesAre(s.cache, notes.deleted);
    } else {
      assert Updates(cache, []) == cache && Deletes(cache, []) == cache;
    }
  }

  // ---- Whole series of runs ------------------------------------------------------------------

  /** A series of runs of a new informer: `caches` are its caches between the runs. */
  ghost predicate IsHistory(rounds: seq<Round>, caches: seq<Cache>, told: seq<Notes>) {
    && |caches| == |rounds| + 1 && |told| == |rounds| && caches[0] == map[]
    && (forall i | 0 <= i < |rounds| :: rounds[i].Honest())
    && forall i | 0 <= i < |rounds| :: IsRun(caches[i], rounds[i], caches[i + 1], told[i])
  }

  function FollowAll(told: seq<Notes>, n: nat): Cache
    requires n <= |told|
  {
    if n == 0 then map[] else Follow(FollowAll(told, n - 1), told[n - 1])
  }

  lemma HistoryStep(rounds: seq<Round>, caches: seq<Cache>, told: seq<Notes>, i: nat)
    requires IsHistory(rounds, caches, told) && i < |rounds| && KeyedByName(caches[i])
    ensures Follow(caches[i], told[i]) == caches[i + 1] && KeyedByName(caches[i + 1])
  {
    FollowerHoldsCache(caches[i], rounds[i], caches[i + 1], told[i]);
  }

  /** Whatever fails, an observer that follows all notifications always holds exactly the cache. */
  lemma {:induction false} FollowerAlwaysHoldsCache(rounds: seq<Round>, caches: seq<Cache>, told: seq<Notes>, n: nat)
    requires IsHistory(rounds, caches, told) && n <= |rounds|
    ensures FollowAll(told, n) == caches[n] && KeyedByName(caches[n])
  {
    if n > 0 {
      FollowerAlwaysHoldsCache(rounds, caches, told, n - 1);
      HistoryStep(rounds, caches, told, n - 1);
    }
  }

  /** The cached names are among those last listed. */
  lemma CacheWithinListing(cache: Cache, r: Round, cache': Cache, notes: Notes)
    requires IsRun(cache, r, cache', notes) && r.listing.Some?
    ensures cache'.Keys <= Names(r.listing.value)
  {
  }

  /** The last of the first `n` listings that succeeded. */
  function LastListing(rounds: seq<Round>, n: nat): Option<seq<Listed>>
    requires n <= |rounds|
  {
    if n == 0 then None
    else if rounds[n - 1].listing.Some? then rounds[n - 1].listing
    else LastListing(rounds, n - 1)
  }

  /** Over any series of runs, whatever fails, the cached names are among those of the last listing
      that succeeded; before the first one nothing is cached. */
  lemma {:induction false} AlwaysWithinLastListing(rounds: seq<Round>, caches: seq<Cache>, told: seq<Notes>, n: nat)
    requires IsHistory(rounds, caches, told) && n <= |rounds|
    ensures var last := LastListing(rounds, n);
            caches[n].Keys <= if last.Some? then Names(last.value) else {}
  {
    if n > 0 {
      AlwaysWithinLastListing(rounds, caches, told, n - 1);
      WithinOneMore(rounds, caches, told, n - 1);
    }
  }

  lemma WithinOneMore(rounds: seq<Round>, caches: seq<Cache>, told: seq<Notes>, i: nat)
    requires IsHistory(rounds, caches, told) && i < |rounds|
    ensures if rounds[i].listing.Some? then caches[i + 1].Keys <= Names(rounds[i].listing.value)
            else caches[i + 1] == caches[i]
  {
    if rounds[i].listing.Some? {
      CacheWithinListing(caches[i], rounds[i], caches[i + 1], told[i]);
    }
  }

  /** Inspections succeed and find the container that was listed. */
  ghost predicate Faultless(r: Round) {
    && r.listing.Some?
    && (forall i, j | 0 <= i < j < |r.listing.value| :: r.listing.value[i].name != r.listing.value[j].name)
    && forall i | 0 <= i < |r.listing.value| :: r.inspect(i).Some? && r.inspect(i).value.id == r.listing.value[i].id
  }

  ghost predicate Has(cache: Cache, e: Listed) {
    e.name in cache && cache[e.name].id == e.id
  }

  lemma {:induction false} ScanCovers(cache: Cache, r: Round, n: nat)
    requires r.Honest() && Faultless(r) && n <= |r.listing.value|
    ensures forall i | 0 <= i < n :: Has(Scan(cache, r.listing.value, r.inspect, n).cache, r.listing.value[i])
  {
    if n > 0 {
      var l := r.listing.value;
      ScanCovers(cache, r, n - 1);
      var s := Scan(cache, l, r.inspect, n - 1);
      assert Has(ScanOne(s, l[n - 1], r.inspect(n - 1)).cache, l[n - 1]);
    }
  }

  /** After a run without failures the cache has exactly the listed names, with the listed IDs. */
  lemma FaultlessRunIsExact(cache: Cache, r: Round, cache': Cache, notes: Notes)
    requires r.Honest() && IsRun(cache, r, cache', notes) && Faultless(r)
    ensures cache'.Keys == Names(r.listing.value)
    ensures forall e <- r.listing.value :: Has(cache', e)
  {
    var l := r.listing.value;
    ScanCovers(cache, r, |l|);
    forall e <- l ensures Has(cache', e) {
      var i :| 0 <= i < |l| && l[i] == e;
      assert l[i].name in Names(l);
    }
  }

  // ---- One name ------------------------------------------------------------------------------

  ghost predicate DistinctNames(l: seq<Listed>) {
    forall i, j | 0 <= i < j < |l| :: l[i].name != l[j].name
  }

  function Lookup(cache: Cache, name: string): Option<Container> {
    if name in cache then Some(cache[name]) else None
  }

  /** What becomes of a listed container: one that is new, has another ID or was started again since is
      what inspecting it gives, if that succeeds; otherwise all stays as it was. */
  ghost function Next(before: Option<Container>, e: Listed, found: Option<Container>): Option<Container> {
    if before.Some? && before.value.id == e.id && e.startedAt <= before.value.startedAt then before
    else if found.Some? then found
    else before
  }

  lemma {:induction false} ScanTells(cache: Cache, l: seq<Listed>, inspect: nat -> Option<Container>, n: nat, i: nat)
    requires DistinctNames(l) && n <= |l| && i < |l|
    ensures Lookup(Scan(cache, l, inspect, n).cache, l[i].name) ==
              if i < n then Next(Lookup(cache, l[i].name), l[i], inspect(i)) else Lookup(cache, l[i].name)
  {
    if n > 0 {
      ScanTells(cache, l, inspect, n - 1, i);
    }
  }

  /** After a run whose listing succeeds and names no container twice, each listed container is cached as it
      was, or as inspected where it is new or has changed, and no other is. */
  lemma RunTells(cache: Cache, r: Round, cache': Cache, notes: Notes)
    requires IsRun(cache, r, cache', notes) && r.listing.Some? && DistinctNames(r.listing.value)
    ensures forall i | 0 <= i < |r.listing.value| ::
              var e := r.listing.value[i]; Lookup(cache', e.name) == Next(Lookup(cache, e.name), e, r.inspect(i))
    ensures forall name | name !in Names(r.listing.value) :: name !in cache'
  {
    var l := r.listing.value;
    forall i | 0 <= i < |l| ensures Lookup(cache', l[i].name) == Next(Lookup(cache, l[i].name), l[i], r.inspect(i)) {
      ScanTells(cache, l, r.inspect, |l|, i);
      assert l[i] in l;
    }
  }

  lemma {:induction false} ScanKeepsUnlisted(cache: Cache, l: seq<Listed>, inspect: nat -> Option<Container>, n: nat,
                                             name: string)
    requires n <= |l| && name !in Names(l)
    ensures Lookup(Scan(cache, l, inspect, n).cache, name) == Lookup(cache, name)
  {
    if n > 0 {
      assert l[n - 1] in l;
      ScanKeepsUnlisted(cache, l, inspect, n - 1, name);
    }
  }

  /** The observers are told of each cached container that is no longer listed, as it was cached but for no
      longer running. */
  lemma DeletedAreStopped(cache: Cache, r: Round, cache': Cache, notes: Notes, name: string)
    requires r.Honest() && KeyedByName(cache) && IsRun(cache, r, cache', notes) && r.listing.Some?
    ensures name in cache && name !in Names(r.listing.value) <==> exists d <- notes.deleted :: d.name == name
    ensures forall d <- notes.deleted | d.name == name ::
              name in cache && !d.running && d.id == cache[name].id && d.startedAt == cache[name].startedAt
  {
    var l := r.listing.value;
    var s := Scan(cache, l, r.inspect, |l|);
    ScanKeepsKeys(cache, r, |l|);
    var gone := s.cache.Keys - Names(l);
    DroppedNames(s.cache, gone, notes.deleted);
    var keys :| Enumerates(keys, gone) && Under(s.cache, keys, notes.deleted);
    if name !in Names(l) {
      ScanKeepsUnlisted(cache, l, r.inspect, |l|, name);
    }
    assert name in NamesOf(notes.deleted) <==> name in gone;
    forall d <- notes.deleted | d.name == name
      ensures name in cache && !d.running && d.id == cache[name].id && d.startedAt == cache[name].startedAt
    {
      var i :| 0 <= i < |notes.deleted| && notes.deleted[i] == d;
      assert keys[i] in SetOf(keys);
    }
  }
}
