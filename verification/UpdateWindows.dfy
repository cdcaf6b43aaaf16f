/** Where an interrupted site update is not made up for by the runs that follow: client/router_update.go.

    (a) The renaming of 0.5.0 copies objects of the old names, and the end of the same run deletes them.
        A run stopped between the first deletion and the removal of the marker leaves a site on which
        every later run fails in the renaming.
    (b) The old cluster role is deleted by any run that finds it, and that run alone takes this as a
        reason to renew the cluster policy.  A run stopped between the two leaves no reason behind. */
module UpdateWindows {
  import opened Prelude
  import opened RouterUpdate

  // ---- Which runs complete -------------------------------------------------------------------

  /** The run is not stopped before its end. */
  predicate Unstopped(site: Site, t: Attempt) {
    |Plan(site, t.lib, t.kind)| <= t.stop
  }

  /** The renaming is still to be done, and what it would copy is gone. */
  predicate NamesGone(site: Site) {
    LessRecent(From(site), V050) && !site.oldNames
  }

  lemma FlagsOf(site: Site, lib: Version, edge: bool)
    ensures FlagsFor(site, lib, edge) == if Updating(site, lib) then ResumedFlags(From(site), edge) else NO_FLAGS
    ensures Blocked(site, FlagsFor(site, lib, edge)) <==> Updating(site, lib) && NamesGone(site)
  {
    ResumedEqualsFresh(From(site), edge);
  }

  lemma OpeningMarks(site: Site, lib: Version)
    requires Updating(site, lib)
    ensures PerformAll(site, Opening(site, lib)).marker == Some(From(site))
  {
    var o := Opening(site, lib);
    if |o| == 2 {
      assert o[1..] == [WriteVersion(lib)];
      assert PerformAll(site, o) == PerformAll(Perform(site, o[0]), o[1..]);
      QuietKeepsMarker(Perform(site, o[0]), o[1..]);
    } else {
      QuietKeepsMarker(site, o);
    }
  }

  /** An update that is not stopped removes the marker if and only if it does not start from below 0.5.0
      with the old names gone. */
  lemma UnstoppedRunCompletesExactlyWhen(site: Site, t: Attempt)
    requires !LessRecent(t.lib, site.version) && Updating(site, t.lib) && Unstopped(site, t)
    ensures Try(site, t).marker.None? <==> !NamesGone(site)
  {
    FlagsOf(site, t.lib, t.kind.edge);
    if NamesGone(site) {
      assert Doing(site, t) == Opening(site, t.lib);
      OpeningMarks(site, t.lib);
    } else {
      var done := Opening(site, t.lib) + Steps(FlagsFor(site, t.lib, t.kind.edge), t.kind, site.remains);
      assert Doing(site, t) == done + [RemoveMarker];
      PerformSnoc(site, done, RemoveMarker);
    }
  }

  /** A run that is not stopped installs its library, unless the site is newer, in which case it does
      nothing; and it begins an update if and only if none is under way and the two differ, be it in the
      text only. */
  lemma UnstoppedRunInstalls(site: Site, t: Attempt)
    requires Unstopped(site, t)
    ensures LessRecent(t.lib, site.version) ==> Try(site, t) == site
    ensures !LessRecent(t.lib, site.version) ==> Try(site, t).version == t.lib
    ensures WriteMarker(site.version) in Doing(site, t) <==>
              !LessRecent(t.lib, site.version) && site.marker.None? && t.lib != site.version
  {
    if !LessRecent(t.lib, site.version) {
      var flags := FlagsFor(site, t.lib, t.kind.edge);
      var ms := Steps(flags, t.kind, site.remains);
      StepsFollow(flags, t.kind, site.remains);
      CompletedVersion(site, t.lib, []);
      CompletedVersion(site, t.lib, ms);
      assert Opening(site, t.lib) + [] == Opening(site, t.lib);
      VersionsAreOrdered(t.lib, site.version, site.version);
      InstalledBy(site, t, ms);
    }
  }

  lemma InstalledBy(site: Site, t: Attempt, ms: seq<Action>)
    requires Unstopped(site, t) && !LessRecent(t.lib, site.version)
    requires forall a <- ms :: a.Do? || a.DropLeftover? || a.ClearOldNames?
    requires Plan(site, t.lib, t.kind) == Opening(site, t.lib)
               || Plan(site, t.lib, t.kind) == Opening(site, t.lib) + ms + Closing(site, t.lib)
    requires PerformAll(site, Opening(site, t.lib)).version == PerformAll(site, Opening(site, t.lib) + ms).version
    ensures Try(site, t).version == PerformAll(site, Opening(site, t.lib)).version
    ensures WriteMarker(site.version) in Doing(site, t) <==> WriteMarker(site.version) in Opening(site, t.lib)
  {
    var opening, closing := Opening(site, t.lib), Closing(site, t.lib);
    assert Doing(site, t) == Plan(site, t.lib, t.kind);
    if Plan(site, t.lib, t.kind) != opening {
      if closing == [] {
        assert opening + ms + closing == opening + ms;
      } else {
        PerformSnoc(site, opening + ms, RemoveMarker);
      }
    }
  }

  /** After any series of runs that are not stopped the site is not older than any of their libraries. */
  lemma {:induction false} SeriesInstallsTheNewest(site: Site, attempts: seq<Attempt>)
    requires AllUnstopped(site, attempts)
    ensures !LessRecent(TryAll(site, attempts).version, site.version)
    ensures forall t <- attempts :: !LessRecent(TryAll(site, attempts).version, t.lib)
    ensures var v := TryAll(site, attempts).version; v == site.version || exists t <- attempts :: v == t.lib
    decreases attempts
  {
    if attempts != [] {
      var t, rest, next, end := attempts[0], attempts[1..], Try(site, attempts[0]), TryAll(site, attempts);
      UnstoppedRunInstalls(site, t);
      SeriesInstallsTheNewest(next, rest);
      assert attempts == [t] + rest;
      VersionsAreOrdered(end.version, next.version, site.version);
      VersionsAreOrdered(end.version, site.version, t.lib);
      VersionsAreOrdered(site.version, next.version, end.version);
      VersionsAreOrdered(end.version, site.version, next.version);
      forall u <- attempts ensures !LessRecent(end.version, u.lib) {
        if u == t {
          VersionsAreOrdered(next.version, t.lib, end.version);
        } else {
          assert u in rest;
        }
      }
      if u :| u in rest && end.version == u.lib {
        assert u in attempts;
      } else {
        assert t in attempts;
      }
    }
  }

  ghost predicate AllUnstopped(site: Site, attempts: seq<Attempt>)
    decreases attempts
  {
    attempts != [] ==> Unstopped(site, attempts[0]) && AllUnstopped(Try(site, attempts[0]), attempts[1..])
  }

  // ---- (a) The old names ---------------------------------------------------------------------

  /** An update is under way that no run can bring to its end. */
  predicate Stuck(site: Site) {
    site.marker.Some? && NamesGone(site)
  }

  lemma StuckStep(site: Site, t: Attempt)
    requires Stuck(site)
    ensures Stuck(Try(site, t)) && Try(site, t).marker == site.marker
  {
    FlagsOf(site, t.lib, t.kind.edge);
    QuietKeepsMarker(site, Doing(site, t));
    PerformDrops(site, Doing(site, t));
  }

  /** Whatever runs follow, the marker stays. */
  lemma {:induction false} StuckStaysStuck(site: Site, attempts: seq<Attempt>)
    requires Stuck(site)
    ensures Stuck(TryAll(site, attempts)) && TryAll(site, attempts).marker == site.marker
    decreases attempts
  {
    if attempts != [] {
      StuckStep(site, attempts[0]);
      StuckStaysStuck(Try(site, attempts[0]), attempts[1..]);
    }
  }

  /** The run stops after the first of the old names is deleted and before the marker is removed. */
  predicate LosesNames(site: Site, t: Attempt) {
    ClearOldNames in Doing(site, t) && RemoveMarker !in Doing(site, t)
  }

  predicate SomeLosesNames(site: Site, attempts: seq<Attempt>)
    decreases attempts
  {
    attempts != [] && (LosesNames(site, attempts[0]) || SomeLosesNames(Try(site, attempts[0]), attempts[1..]))
  }

  /** A site that begins below 0.5.0 has the old names. */
  predicate Intact(site: Site) {
    site.marker.None? && LessRecent(site.version, V050) ==> site.oldNames
  }

  /** The marker of a run that has not come to its end. */
  lemma StoppedMarker(site: Site, k: Kind, start: seq<Action>, middle: seq<Action>, closing: seq<Action>, n: nat)
    requires Shape(site, k, start, middle, closing) && n <= |start + middle|
    ensures var end := PerformAll(site, (start + middle)[..n]);
            && end.marker == (if start != [] && n >= 1 then Some(site.version) else site.marker)
            && (end.marker.None? ==> end.version == site.version)
  {
    if start != [] && n >= 1 {
      var done := middle[..n - 1];
      assert (start + middle)[..n] == start + done;
      PerformConcat(site, start, done);
      assert forall a <- done :: a in middle;
      QuietKeepsMarker(PerformAll(site, start), done);
    } else {
      assert forall a <- (start + middle)[..n] :: a in middle;
      QuietKeepsMarker(site, (start + middle)[..n]);
    }
  }

  lemma CompletedVersion(site: Site, lib: Version, ms: seq<Action>)
    requires forall a <- ms :: a.Do? || a.DropLeftover? || a.ClearOldNames?
    ensures PerformAll(site, Opening(site, lib) + ms).version == if Outdated(site.version, lib) then lib
            else site.version
  {
    var o := Opening(site, lib);
    PerformConcat(site, o, ms);
    QuietKeepsMarker(PerformAll(site, o), ms);
    if |o| == 2 {
      assert o == [o[0]] + [o[1]];
      PerformSnoc(site, [o[0]], o[1]);
    } else if |o| == 1 {
      assert o == [] + [o[0]];
      PerformSnoc(site, [], o[0]);
    }
  }

  lemma NamesStep(site: Site, t: Attempt)
    requires Intact(site) && !Stuck(site) && !LessRecent(t.lib, V050)
    ensures Stuck(Try(site, t)) <==> LosesNames(site, t)
    ensures !Stuck(Try(site, t)) ==> Intact(Try(site, t))
  {
    if !LessRecent(t.lib, site.version) {
      FlagsOf(site, t.lib, t.kind.edge);
      var flags := FlagsFor(site, t.lib, t.kind.edge);
      var ms := Steps(flags, t.kind, site.remains);
      StepsFollow(flags, t.kind, site.remains);
      FollowingFits(site, t.lib, t.kind, ms);
      RunLosesNames(site, t.lib, t.kind, ms, t.stop);
    }
  }

  lemma RunLosesNames(site: Site, lib: Version, k: Kind, ms: seq<Action>, stop: nat)
    requires Intact(site) && !Stuck(site) && !LessRecent(lib, V050) && !LessRecent(lib, site.version)
    requires Fit(site, lib, k, ms) && (ClearOldNames in ms ==> Updating(site, lib) && LessRecent(From(site), V050))
    ensures var done := Prefix(Opening(site, lib) + ms + Closing(site, lib), stop);
            && (Stuck(PerformAll(site, done)) <==> ClearOldNames in done && RemoveMarker !in done)
            && (!Stuck(PerformAll(site, done)) ==> Intact(PerformAll(site, done)))
  {
    var start, middle, closing := ShapeOf(site, lib, k, ms);
    var whole := Opening(site, lib) + ms;
    PrefixOfPlan(start + middle, closing, stop);
    if stop > |start + middle| && closing != [] {
      assert start + middle + [RemoveMarker] == whole + [RemoveMarker];
      CompletedRunIsIntact(site, lib, ms);
    } else {
      var n := if stop <= |start + middle| then stop else |start + middle|;
      var done := (start + middle)[..n];
      StoppedMarker(site, k, start, middle, closing, n);
      PerformDrops(site, done);
      ClearedBySteps(site, lib, ms, start, middle, closing, done);
    }
  }

  lemma CompletedRunIsIntact(site: Site, lib: Version, ms: seq<Action>)
    requires forall a <- ms :: a.Do? || a.DropLeftover? || a.ClearOldNames?
    requires !LessRecent(lib, V050) && !LessRecent(lib, site.version)
    ensures var end := PerformAll(site, Opening(site, lib) + ms + [RemoveMarker]); !Stuck(end) && Intact(end)
    ensures RemoveMarker in Opening(site, lib) + ms + [RemoveMarker]
  {
    PerformSnoc(site, Opening(site, lib) + ms, RemoveMarker);
    CompletedVersion(site, lib, ms);
  }

  lemma ClearedBySteps(site: Site, lib: Version, ms: seq<Action>, start: seq<Action>, middle: seq<Action>,
                       closing: seq<Action>,
                       done: seq<Action>)
    requires Opening(site, lib) + ms + closing == start + middle + closing && done <= start + middle
    requires Quiet(middle) && (start == [] || start == [WriteMarker(site.version)])
    ensures ClearOldNames in done ==> ClearOldNames in ms
    ensures RemoveMarker !in done
  {
    assert forall a <- done :: a in start || a in middle;
    var all := Opening(site, lib) + ms + closing;
    assert all[..|start + middle|] == start + middle;
    assert |start + middle| == |Opening(site, lib) + ms|;
    assert all[..|start + middle|] == Opening(site, lib) + ms;
  }

  /** A site that has the old names where it needs them, updated by libraries not below 0.5.0, gets stuck
      if and only if some run stops after the first of the old names is deleted and before the marker is
      removed. */
  lemma {:induction false} StuckExactlyWhen(site: Site, attempts: seq<Attempt>)
    requires Intact(site) && !Stuck(site) && forall t <- attempts :: !LessRecent(t.lib, V050)
    ensures Stuck(TryAll(site, attempts)) <==> SomeLosesNames(site, attempts)
    decreases attempts
  {
    if attempts != [] {
      assert attempts[0] in attempts && forall t <- attempts[1..] :: t in attempts;
      NamesStep(site, attempts[0]);
      if Stuck(Try(site, attempts[0])) {
        StuckStaysStuck(Try(site, attempts[0]), attempts[1..]);
      } else {
        StuckExactlyWhen(Try(site, attempts[0]), attempts[1..]);
      }
    }
  }

  // ---- (b) The old cluster role --------------------------------------------------------------

  /** The run drops all that is left over and stops before it renews the cluster policy. */
  predicate LosesRenewal(site: Site, t: Attempt) {
    && site.remains != {}
    && (forall o <- site.remains :: DropLeftover(o) in Doing(site, t))
    && Do(AddClusterPolicy) !in Doing(site, t)
  }

  predicate Renews(site: Site, t: Attempt) {
    site.remains != {} && Do(AddClusterPolicy) in Doing(site, t)
  }

  predicate SomeLosesRenewal(site: Site, attempts: seq<Attempt>)
    decreases attempts
  {
    attempts != [] && (LosesRenewal(site, attempts[0]) || SomeLosesRenewal(Try(site, attempts[0]), attempts[1..]))
  }

  predicate SomeRenews(site: Site, attempts: seq<Attempt>)
    decreases attempts
  {
    attempts != [] && (Renews(site, attempts[0]) || SomeRenews(Try(site, attempts[0]), attempts[1..]))
  }

  /** What is left over after a run, and what the policy's renewal says about it. */
  lemma RemainsAfter(site: Site, t: Attempt)
    ensures Try(site, t).remains == {} <==> forall o <- site.remains :: DropLeftover(o) in Doing(site, t)
    ensures Do(AddClusterPolicy) in Doing(site, t) ==> Try(site, t).remains == {}
    ensures Try(site, t).log == site.log + Doing(site, t)
  {
    PerformDrops(site, Doing(site, t));
    PerformLogs(site, Doing(site, t));
    assert Try(site, t).remains == set o | o in site.remains && DropLeftover(o) !in Doing(site, t);
    assert forall o <- site.remains :: o in Try(site, t).remains <==> DropLeftover(o) !in Doing(site, t);
    forall o | o in site.remains && Do(AddClusterPolicy) in Doing(site, t) ensures DropLeftover(o) in Doing(site, t) {
      PolicyComesLast(site, t, o);
    }
  }

  lemma PolicyComesLast(site: Site, t: Attempt, o: Leftover)
    requires Do(AddClusterPolicy) in Doing(site, t) && o in site.remains
    ensures DropLeftover(o) in Doing(site, t)
  {
    var flags := FlagsFor(site, t.lib, t.kind.edge);
    var ms, opening := Steps(flags, t.kind, site.remains), Opening(site, t.lib);
    StepsFollow(flags, t.kind, site.remains);
    StepsDropFirst(flags, t.kind, site.remains);
    PrefixOfSteps(opening, ms, Closing(site, t.lib), t.stop, DropLeftover(o));
  }

  lemma PrefixOfSteps(opening: seq<Action>, ms: seq<Action>, closing: seq<Action>, stop: nat, x: Action)
    requires x in ms && DropsFirst(ms) && x.DropLeftover?
    requires Do(AddClusterPolicy) !in opening && Do(AddClusterPolicy) !in closing
    requires Do(AddClusterPolicy) in Prefix(opening + ms + closing, stop)
    ensures x in Prefix(opening + ms + closing, stop)
  {
    var done, all := Prefix(opening + ms + closing, stop), opening + ms + closing;
    var i :| 0 <= i < |done| && done[i] == Do(AddClusterPolicy);
    assert all[i] == done[i];
    assert |opening| <= i < |opening| + |ms|;
    var n := i + 1 - |opening|;
    assert ms[..n][n - 1] == Do(AddClusterPolicy);
    var j :| 0 <= j < n && ms[..n][j] == x;
    assert done[|opening| + j] == x;
  }

  /** If everything left over has gone, it was one run that dropped the last of it: that run either
      renewed the cluster policy or stopped before that. */
  lemma {:induction false} RenewedOrLost(site: Site, attempts: seq<Attempt>)
    ensures site.remains == {} ==> !SomeRenews(site, attempts) && !SomeLosesRenewal(site, attempts)
    ensures site.remains != {} && TryAll(site, attempts).remains == {} ==>
              (SomeRenews(site, attempts) <==> !SomeLosesRenewal(site, attempts))
    decreases attempts
  {
    if attempts != [] {
      RemainsAfter(site, attempts[0]);
      PerformDrops(site, Doing(site, attempts[0]));
      RenewedOrLost(Try(site, attempts[0]), attempts[1..]);
    }
  }

  /** A run whose version calls for the policy has begun an update from below 0.9.0. */
  lemma FlaggedPolicyBegins(v0: Version, site: Site, t: Attempt)
    requires Sound(v0, t.kind, site) && FlagsFor(site, t.lib, t.kind.edge).addClusterPolicy
    requires Doing(site, t) != []
    ensures LessRecent(v0, V090) && Begun(Try(site, t).log)
  {
    FlagsOf(site, t.lib, t.kind.edge);
    PerformLogs(site, Doing(site, t));
    if site.marker.None? {
      assert Doing(site, t)[0] == WriteMarker(site.version);
      assert WriteMarker(site.version) in Try(site, t).log;
    } else {
      var v :| WriteMarker(v) in site.log;
      assert WriteMarker(v) in Try(site, t).log;
    }
  }

  lemma StepOfPlan(site: Site, t: Attempt, m: Migration)
    requires Do(m) in Doing(site, t)
    ensures Chosen(FlagsFor(site, t.lib, t.kind.edge), t.kind, site.remains, m)
  {
    StepsFollow(FlagsFor(site, t.lib, t.kind.edge), t.kind, site.remains);
    assert Do(m) in Plan(site, t.lib, t.kind);
    assert Do(m) in Steps(FlagsFor(site, t.lib, t.kind.edge), t.kind, site.remains);
  }

  /** Within an update from 0.9.0 or above, only leftovers are a reason to renew the policy. */
  lemma OnlyLeftoversRenew(v0: Version, site: Site, t: Attempt)
    requires Sound(v0, t.kind, site) && Do(AddClusterPolicy) in Doing(site, t)
    requires !LessRecent(v0, V090) || !Begun(Try(site, t).log)
    ensures site.remains != {}
  {
    StepOfPlan(site, t, AddClusterPolicy);
    if site.remains == {} {
      FlaggedPolicyBegins(v0, site, t);
    }
  }

  lemma {:induction false} LogGrowsOverRuns(site: Site, attempts: seq<Attempt>)
    ensures site.log <= TryAll(site, attempts).log
    decreases attempts
  {
    if attempts != [] {
      PerformLogs(site, Doing(site, attempts[0]));
      LogGrowsOverRuns(Try(site, attempts[0]), attempts[1..]);
    }
  }

  lemma {:induction false} PolicyComesFromLeftovers(v0: Version, k: Kind, site: Site, attempts: seq<Attempt>)
    requires Sound(v0, k, site) && forall t <- attempts :: t.kind == k
    requires !LessRecent(v0, V090) || !Begun(TryAll(site, attempts).log)
    ensures Done(TryAll(site, attempts).log, AddClusterPolicy) <==>
              Done(site.log, AddClusterPolicy) || SomeRenews(site, attempts)
    decreases attempts
  {
    if attempts != [] {
      var t, next := attempts[0], Try(site, attempts[0]);
      assert t in attempts && forall u <- attempts[1..] :: u in attempts;
      TryKeepsSound(v0, site, t);
      LogGrowsOverRuns(next, attempts[1..]);
      if Begun(next.log) {
        var v :| WriteMarker(v) in next.log;
        assert WriteMarker(v) in TryAll(next, attempts[1..]).log;
      }
      PolicyComesFromLeftovers(v0, k, next, attempts[1..]);
      RemainsAfter(site, t);
      if Do(AddClusterPolicy) in Doing(site, t) {
        OnlyLeftoversRenew(v0, site, t);
      }
    }
  }

  /** On a site that began with leftovers and has none now, with no update under way: the cluster policy
      was renewed if and only if no run stopped between the last leftover and the renewal, or the site
      was updated from below 0.9.0. */
  lemma PolicyIsRenewedExactlyWhen(v0: Version, k: Kind, site: Site, attempts: seq<Attempt>)
    requires New(v0, site) && (forall t <- attempts :: t.kind == k) && site.remains != {}
    requires var end := TryAll(site, attempts); end.marker.None? && end.remains == {}
    ensures var end := TryAll(site, attempts);
            Done(end.log, AddClusterPolicy) <==>
              !SomeLosesRenewal(site, attempts) || (Begun(end.log) && LessRecent(v0, V090))
  {
    NewIsSound(v0, k, site);
    if Begun(TryAll(site, attempts).log) && LessRecent(v0, V090) {
      UpdatesOfANewSiteAreExact(v0, k, site, attempts, AddClusterPolicy);
    } else {
      PolicyComesFromLeftovers(v0, k, site, attempts);
      RenewedOrLost(site, attempts);
    }
  }

  // ---- What an updated site has --------------------------------------------------------------

  /** What an updated site should have: the migrations its first version needs, and a renewed policy if
      it had leftovers. */
  ghost predicate Complete(v0: Version, k: Kind, site: Site, end: Site) {
    && (forall m | Needs(v0, k, m) :: Done(end.log, m))
    && (site.remains != {} ==> Done(end.log, AddClusterPolicy))
  }

  /** An updated site is complete if and only if it is not one from 0.5.0 up to 0.7.0 that needs the route
      for claims, nor one from 0.9.0 on where a run stopped between the last leftover and the renewal. */
  lemma NeedsAreMetExactlyWhen(v0: Version, k: Kind, site: Site, attempts: seq<Attempt>)
    requires New(v0, site) && (forall t <- attempts :: t.kind == k) && Updated(TryAll(site, attempts))
    ensures Complete(v0, k, site, TryAll(site, attempts)) <==>
              && !(!LessRecent(v0, V050) && LessRecent(v0, V070) && !k.edge && k.routes)
              && !(!LessRecent(v0, V090) && SomeLosesRenewal(site, attempts))
  {
    var end := TryAll(site, attempts);
    forall m ensures Calls(v0, k, m) ==> Done(end.log, m) {
      UpdatesOfANewSiteAreExact(v0, k, site, attempts, m);
    }
    ClaimsRouteExactlyWhen(v0, k, site, attempts);
    assert Needs(v0, k, ClaimsRoute) <==> LessRecent(v0, V070) && !k.edge && k.routes;
    NewIsSound(v0, k, site);
    InterruptedUpdatesComplete(v0, k, site, attempts);
    if site.remains != {} {
      PolicyIsRenewedExactlyWhen(v0, k, site, attempts);
    } else {
      RenewedOrLost(site, attempts);
    }
  }

  // ---- Resuming ------------------------------------------------------------------------------

  /** A run that has not come to its end, taken apart. */
  lemma StoppedShape(site: Site, t: Attempt)
      returns (start: seq<Action>, middle: seq<Action>, closing: seq<Action>, n: nat)
    requires !LessRecent(t.lib, site.version) && RemoveMarker !in Doing(site, t)
    ensures Shape(site, t.kind, start, middle, closing) && closing == Closing(site, t.lib)
    ensures n <= |start + middle| && Doing(site, t) == (start + middle)[..n]
  {
    var flags := FlagsFor(site, t.lib, t.kind.edge);
    var ms := Steps(flags, t.kind, site.remains);
    StepsFollow(flags, t.kind, site.remains);
    FollowingFits(site, t.lib, t.kind, ms);
    start, middle, closing := ShapeOf(site, t.lib, t.kind, ms);
    n := |Doing(site, t)|;
    PrefixIsShort(Opening(site, t.lib), ms, closing, start + middle, Plan(site, t.lib, t.kind), t.stop);
  }

  lemma PrefixIsShort(opening: seq<Action>, ms: seq<Action>, closing: seq<Action>, body: seq<Action>, plan: seq<Action>,
                      stop: nat)
    requires opening + ms + closing == body + closing && |body| == |opening + ms|
    requires plan == opening || plan == opening + ms + closing
    requires (closing == [] || closing == [RemoveMarker]) && RemoveMarker !in Prefix(plan, stop)
    ensures |Prefix(plan, stop)| <= |body| && Prefix(plan, stop) == body[..|Prefix(plan, stop)|]
  {
    assert body == opening + ms by {
      assert (body + closing)[..|body|] == body;
      assert (opening + ms + closing)[..|body|] == opening + ms;
    }
    assert closing == [RemoveMarker] ==> (body + closing)[|body|] == RemoveMarker;
  }

  lemma MarkerOfStoppedRun(site: Site, t: Attempt)
    requires !LessRecent(t.lib, site.version) && Updating(site, t.lib)
    requires RemoveMarker !in Doing(site, t) && (Doing(site, t) != [] || site.marker.Some?)
    ensures Try(site, t).marker == Some(From(site))
  {
    var start, middle, closing, n := StoppedShape(site, t);
    StoppedMarker(site, t.kind, start, middle, closing, n);
  }

  /** A run that was stopped after it had the marker is resumed with the flags it had, whatever the
      library version. */
  lemma ResumeKeepsFlags(site: Site, t: Attempt, lib': Version)
    requires !LessRecent(t.lib, site.version) && Updating(site, t.lib)
    requires RemoveMarker !in Doing(site, t) && (Doing(site, t) != [] || site.marker.Some?)
    ensures FlagsFor(Try(site, t), lib', t.kind.edge) == FlagsFor(site, t.lib, t.kind.edge)
  {
    MarkerOfStoppedRun(site, t);
    FlagsOf(site, t.lib, t.kind.edge);
    FlagsOf(Try(site, t), lib', t.kind.edge);
  }

  /** Whatever the stopped run chose to do, it has done or the resumed run chooses again. */
  ghost predicate CarriedOver(site: Site, t: Attempt, lib': Version) {
    forall m | Chosen(FlagsFor(site, t.lib, t.kind.edge), t.kind, site.remains, m) ::
      Do(m) in Doing(site, t) || Chosen(FlagsFor(Try(site, t), lib', t.kind.edge), t.kind, Try(site, t).remains, m)
  }

  /** That the flags are the same is not enough: the choices carry over if and only if the run did not
      stop between the last leftover and the renewal, or started from below 0.9.0; and the resumed run
      can do the renaming if and only if no old name was deleted. */
  lemma ResumeCarriesOverExactlyWhen(site: Site, t: Attempt, lib': Version)
    requires !LessRecent(t.lib, site.version) && Updating(site, t.lib) && !NamesGone(site)
    requires RemoveMarker !in Doing(site, t) && (Doing(site, t) != [] || site.marker.Some?)
    ensures CarriedOver(site, t, lib') <==> !LosesRenewal(site, t) || LessRecent(From(site), V090)
    ensures NamesGone(Try(site, t)) <==> ClearOldNames in Doing(site, t)
  {
    ResumeKeepsFlags(site, t, lib');
    FlagsOf(site, t.lib, t.kind.edge);
    MarkerOfStoppedRun(site, t);
    RemainsAfter(site, t);
    PerformDrops(site, Doing(site, t));
    var flags := FlagsFor(site, t.lib, t.kind.edge);
    forall m ensures m != AddClusterPolicy ==>
                       (Chosen(flags, t.kind, site.remains, m) <==> Chosen(flags, t.kind, Try(site, t).remains, m)) {
      OnlyPolicyLooksAtLeftovers(flags, t.kind, site.remains, Try(site, t).remains, m);
    }
    OnlyPolicyLooksAtLeftovers(flags, t.kind, site.remains, Try(site, t).remains, AddClusterPolicy);
    if ClearOldNames in Doing(site, t) {
      ClearingIsChosen(site, t);
    }
  }

  lemma OnlyPolicyLooksAtLeftovers(f: Flags, k: Kind, r: set<Leftover>, r': set<Leftover>, m: Migration)
    ensures m != AddClusterPolicy ==> (Chosen(f, k, r, m) <==> Chosen(f, k, r', m))
    ensures m == AddClusterPolicy ==> (Chosen(f, k, r, m) <==> f.addClusterPolicy || r != {})
  {
  }

  lemma ClearingIsChosen(site: Site, t: Attempt)
    requires ClearOldNames in Doing(site, t)
    ensures FlagsFor(site, t.lib, t.kind.edge).renameFor050
  {
    StepsFollow(FlagsFor(site, t.lib, t.kind.edge), t.kind, site.remains);
    assert ClearOldNames in Plan(site, t.lib, t.kind);
  }

  // ---- Inputs --------------------------------------------------------------------------------

  lemma OneIsAll(site: Site, t: Attempt)
    ensures TryAll(site, [t]) == Try(site, t)
  {
    assert [t][1..] == [];
  }

  /** A run that is not stopped updates a new site that is not short of the old names. */
  lemma OneRunUpdates(v0: Version, site: Site, t: Attempt)
    requires New(v0, site) && LessRecent(v0, t.lib) && Intact(site) && Unstopped(site, t)
    ensures Updated(TryAll(site, [t]))
  {
    OneIsAll(site, t);
    UnstoppedRunCompletesExactlyWhen(site, t);
    PerformLogs(site, Doing(site, t));
    assert Doing(site, t)[0] == WriteMarker(v0);
    assert WriteMarker(v0) in Try(site, t).log;
  }

  /** A site of version 0.6.0 that uses routes, updated without interruption: the update is complete,
      and the route for claims, which it needs, is missing. */
  lemma Version060GetsNoClaimsRoute(site: Site, t: Attempt)
    requires New(Version("0.6.0", 0, 6, 0), site) && t.lib == V150 && t.kind == Kind(false, true) && Unstopped(site, t)
    ensures Updated(Try(site, t)) && Needs(site.version, t.kind, ClaimsRoute) && !Done(Try(site, t).log, ClaimsRoute)
  {
    OneRunUpdates(site.version, site, t);
    ClaimsRouteExactlyWhen(site.version, t.kind, site, [t]);
    OneIsAll(site, t);
  }

  /** A run that stops just before it removes the marker. */
  lemma StopBeforeTheMarkerGoes(site: Site, t: Attempt)
    requires !LessRecent(t.lib, site.version) && Updating(site, t.lib) && LessRecent(From(site), V050) && site.oldNames
    requires t.stop == |Plan(site, t.lib, t.kind)| - 1
    ensures LosesNames(site, t)
  {
    var flags := FlagsFor(site, t.lib, t.kind.edge);
    var ms := Steps(flags, t.kind, site.remains);
    FlagsOf(site, t.lib, t.kind.edge);
    StepsFollow(flags, t.kind, site.remains);
    assert Plan(site, t.lib, t.kind) == Opening(site, t.lib) + ms + [RemoveMarker];
    AllButTheLast(Opening(site, t.lib), ms, t.stop);
  }

  lemma AllButTheLast(opening: seq<Action>, ms: seq<Action>, stop: nat)
    requires ClearOldNames in ms && RemoveMarker !in ms && RemoveMarker !in opening && stop == |opening + ms|
    ensures var done := Prefix(opening + ms + [RemoveMarker], stop); ClearOldNames in done && RemoveMarker !in done
  {
    assert Prefix(opening + ms + [RemoveMarker], stop) == opening + ms;
  }

  /** A site of version 0.4.0 whose first run stops just before it removes the marker: no later run,
      however many there are and however far they get, removes it. */
  lemma Version040GetsStuck(site: Site, t: Attempt, attempts: seq<Attempt>)
    requires New(Version("0.4.0", 0, 4, 0), site) && site.oldNames && t.lib == V150
    requires t.stop == |Plan(site, t.lib, t.kind)| - 1
    ensures TryAll(Try(site, t), attempts).marker.Some?
  {
    StopBeforeTheMarkerGoes(site, t);
    NamesStep(site, t);
    StuckStaysStuck(Try(site, t), attempts);
  }

  /** A site of version 1.0.0 with the old cluster role, whose first run stops before it renews the
      cluster policy: whatever runs follow, the policy is never renewed. */
  lemma Version100KeepsItsPolicy(k: Kind, site: Site, t: Attempt, attempts: seq<Attempt>)
    requires New(Version("1.0.0", 1, 0, 0), site) && LosesRenewal(site, t)
    requires t.kind == k && forall u <- attempts :: u.kind == k
    ensures !Done(TryAll(Try(site, t), attempts).log, AddClusterPolicy)
  {
    var v0, next := site.version, Try(site, t);
    NewIsSound(v0, k, site);
    TryKeepsSound(v0, site, t);
    RemainsAfter(site, t);
    PolicyComesFromLeftovers(v0, k, next, attempts);
    RenewedOrLost(next, attempts);
  }

  /** Such a run exists. */
  lemma PolicyCanBeLost(site: Site, lib: Version, k: Kind) returns (t: Attempt)
    requires site.remains != {} && !LessRecent(lib, site.version) && !NamesGone(site)
    ensures t.lib == lib && t.kind == k && LosesRenewal(site, t)
  {
    var flags := FlagsFor(site, lib, k.edge);
    FlagsOf(site, lib, k.edge);
    var first, drops, rest := StepsApart(flags, k, site.remains);
    var opening, closing := Opening(site, lib), Closing(site, lib);
    t := Attempt(lib, k, |opening + first + drops|);
    assert Plan(site, lib, k) == opening + (first + drops + rest) + closing;
    FirstOf(opening, first, drops, rest, closing);
    forall o | o in site.remains ensures DropLeftover(o) in Doing(site, t) {
      assert DropLeftover(o) in drops;
    }
  }

  lemma StepsApart(f: Flags, k: Kind, remains: set<Leftover>)
      returns (first: seq<Action>, drops: seq<Action>, rest: seq<Action>)
    ensures Steps(f, k, remains) == first + drops + rest
    ensures Do(AddClusterPolicy) !in first && Do(AddClusterPolicy) !in drops
    ensures forall o <- remains :: DropLeftover(o) in drops
  {
    first, drops := Select(f, k, remains, FIRST), Drops(remains);
    rest := Renewal(f, remains) + (Select(f, k, remains, LAST) + Cleanup(f));
    Selected(f, k, remains, FIRST, AddClusterPolicy);
    ListedOnce(AddClusterPolicy);
    DropsAreLeftovers(remains, OldClusterRole);
    forall o | o in remains ensures DropLeftover(o) in drops {
      DropsAreLeftovers(remains, o);
    }
  }

  lemma FirstOf(opening: seq<Action>, first: seq<Action>, drops: seq<Action>, rest: seq<Action>, closing: seq<Action>)
    ensures Prefix(opening + (first + drops + rest) + closing, |opening + first + drops|) == opening + first + drops
  {
  }
}
