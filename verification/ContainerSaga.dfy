/** `ContainerUpdate` of client/podman/container.go.

    While the saga runs, the store is the initial one except for the original container and the new
    one.  `Phase` says where these two are; every call moves the store from one phase to another,
    which turns the reasoning about all failure schedules into a finite table. */
module ContainerSaga {
  import opened Prelude
  import opened Containers

  datatype OldPlace = AtName | AtBackup

  datatype NewPlace = AtNew | AtTarget | Gone

  datatype Phase = Phase(old': OldPlace, oldRuns: bool, new': NewPlace, newRuns: bool)

  /** The initial store, the index of the original container, and the names in play. */
  datatype Scene = Scene(
    s: seq<Container>,
    i: nat,
    name: string,
    newName: string,
    backup: string,
    id: string,
    spec: string)
  {
    ghost predicate Valid() {
      && Good(s) && i < |s| && s[i].name == name && !HasName(s, newName)
      && '-' in newName && '-' in backup && newName != backup && newName != name && backup != name
      && '-' !in id && id != name
      && (forall k | 0 <= k < |s| :: s[k].id != id && s[k].name != id)
    }

    ghost function Old(ph: Phase): Container
      requires i < |s|
    {
      s[i].(name := if ph.old' == AtName then name else backup, running := ph.oldRuns)
    }

    ghost function New(ph: Phase): Container {
      Container(id, if ph.new' == AtNew then newName else name, spec, ph.newRuns)
    }

    /** The store in a given phase. */
    ghost function Store(ph: Phase): seq<Container>
      requires i < |s|
    {
      s[i := Old(ph)] + (if ph.new' == Gone then [] else [New(ph)])
    }

    ghost predicate Legal(ph: Phase) {
      && (ph.old' == AtBackup ==> !HasName(s, backup))
      && !(ph.old' == AtName && ph.new' == AtTarget)
    }
  }

  // ---- Who answers to which name -------------------------------------------------------------

  lemma FindIs(s: seq<Container>, key: string, k: nat)
    requires k < |s| && Answers(s[k], key) && forall j | 0 <= j < k :: !Answers(s[j], key)
    ensures Find(s, key) == k
  {
  }

  lemma FindNone(s: seq<Container>, key: string)
    requires forall j | 0 <= j < |s| :: !Answers(s[j], key)
    ensures Find(s, key) == |s|
  {
  }

  lemma OthersAnswerTo(sc: Scene, ph: Phase, key: string, j: nat)
    requires sc.Valid() && sc.Legal(ph) && j < |sc.s| && j != sc.i
    requires key == sc.name || key == sc.newName || (key == sc.backup && ph.old' == AtBackup)
    ensures sc.Store(ph)[j] == sc.s[j] && !Answers(sc.s[j], key)
  {
    assert sc.s[j].name != key;
    assert sc.s[j].id != key by {
      if key == sc.name {
        assert sc.s[sc.i].name == key;
      } else {
        assert '-' in key;
      }
    }
  }

  lemma OldAnswersTo(sc: Scene, ph: Phase, key: string)
    requires sc.Valid() && (key == sc.name || key == sc.newName || key == sc.backup)
    ensures Answers(sc.Old(ph), key) <==> key == if ph.old' == AtName then sc.name else sc.backup
    ensures Answers(sc.New(ph), key) <==> key == if ph.new' == AtNew then sc.newName else sc.name
  {
    assert key != sc.name ==> '-' in key;
    assert sc.s[sc.i].id != sc.s[sc.i].name;
  }

  /** Each of the three names finds the container that the phase says has it, and nothing else. */
  lemma FindInPhase(sc: Scene, ph: Phase, key: string)
    requires sc.Valid() && sc.Legal(ph)
    requires key == sc.name || key == sc.newName || (key == sc.backup && ph.old' == AtBackup)
    ensures var t := sc.Store(ph);
            Find(t, key) ==
              if key == (if ph.old' == AtName then sc.name else sc.backup) then sc.i
              else if ph.new' != Gone && key == (if ph.new' == AtNew then sc.newName else sc.name) then |sc.s|
              else |t|
  {
    var t := sc.Store(ph);
    forall j: nat | j < |sc.s| && j != sc.i ensures t[j] == sc.s[j] && !Answers(t[j], key) {
      OthersAnswerTo(sc, ph, key, j);
    }
    OldAnswersTo(sc, ph, key);
    assert t[sc.i] == sc.Old(ph);
    if key == (if ph.old' == AtName then sc.name else sc.backup) {
      FindIs(t, key, sc.i);
    } else if ph.new' != Gone && key == (if ph.new' == AtNew then sc.newName else sc.name) {
      assert t[|sc.s|] == sc.New(ph);
      FindIs(t, key, |sc.s|);
    } else {
      FindNone(t, key);
    }
  }

  lemma NamesInPhase(sc: Scene, ph: Phase)
    requires sc.Valid() && sc.Legal(ph)
    ensures HasName(sc.Store(ph), sc.name) <==> ph.old' == AtName || ph.new' == AtTarget
    ensures HasName(sc.Store(ph), sc.newName) <==> ph.new' == AtNew
    ensures HasName(sc.Store(ph), sc.backup) <==> ph.old' == AtBackup || HasName(sc.s, sc.backup)
  {
    var t := sc.Store(ph);
    assert t[sc.i] == sc.Old(ph);
    assert ph.new' != Gone ==> t[|sc.s|] == sc.New(ph);
    assert forall j | 0 <= j < |sc.s| && j != sc.i :: t[j] == sc.s[j];
    if HasName(sc.s, sc.backup) {
      var j :| 0 <= j < |sc.s| && sc.s[j].name == sc.backup;
      assert t[j].name == sc.backup;
    }
  }

  // ---- Each call as a step between phases ----------------------------------------------------

  /** Starting or stopping the container called `key`. */
  ghost function Ran(sc: Scene, ph: Phase, key: string, running: bool): Phase {
    if key == sc.name && ph.old' == AtName then ph.(oldRuns := running)
    else if ph.new' == (if key == sc.name then AtTarget else AtNew) then ph.(newRuns := running)
    else ph
  }

  lemma StoreAt(sc: Scene, ph: Phase, running: bool)
    requires sc.i < |sc.s|
    ensures sc.Store(ph)[sc.i := sc.Store(ph)[sc.i].(running := running)] == sc.Store(ph.(oldRuns := running))
    ensures ph.new' != Gone ==>
              sc.Store(ph)[|sc.s| := sc.Store(ph)[|sc.s|].(running := running)] == sc.Store(ph.(newRuns := running))
  {
  }

  lemma RunInPhase(sc: Scene, ph: Phase, key: string, running: bool)
    requires sc.Valid() && sc.Legal(ph) && (key == sc.name || key == sc.newName)
    ensures WithRunning(sc.Store(ph), key, running) == sc.Store(Ran(sc, ph, key, running))
    ensures Find(sc.Store(ph), key) == |sc.Store(ph)| ==> Ran(sc, ph, key, running) == ph
  {
    FindInPhase(sc, ph, key);
    StoreAt(sc, ph, running);
  }

  lemma RemoveNewInPhase(sc: Scene, ph: Phase)
    requires sc.Valid() && sc.Legal(ph)
    ensures Without(sc.Store(ph), sc.newName) == sc.Store(if ph.new' == AtNew then ph.(new' := Gone) else ph)
    ensures Find(sc.Store(ph), sc.newName) == |sc.Store(ph)| <==> ph.new' != AtNew
  {
    FindInPhase(sc, ph, sc.newName);
  }

  lemma OnlyOneNamed(sc: Scene, ph: Phase, key: string, k: nat)
    requires sc.Valid() && sc.Legal(ph) && k < |sc.Store(ph)| && sc.Store(ph)[k].name == key
    requires key == sc.name || key == sc.newName || (key == sc.backup && ph.old' == AtBackup)
    ensures forall j | 0 <= j < |sc.Store(ph)| && j != k :: sc.Store(ph)[j].name != key
  {
    var t := sc.Store(ph);
    forall j: nat | j < |sc.s| && j != sc.i ensures t[j].name != key {
      OthersAnswerTo(sc, ph, key, j);
    }
    OldAnswersTo(sc, ph, key);
    assert t[sc.i] == sc.Old(ph);
    assert ph.new' != Gone ==> t[|sc.s|] == sc.New(ph);
  }

  // ---- Compensation on phases ----------------------------------------------------------------

  function Undo(ph: Phase, d: Deferred, faults: Faults): Phase {
    match d
    case DeferRenameNew => if faults(UndoRenameNew) || ph.new' != AtTarget then ph else ph.(new' := AtNew)
    case DeferRenameOld =>
      if faults(UndoRenameOld) || ph.old' == AtName || ph.new' == AtTarget then ph else ph.(old' := AtName)
    case DeferStop =>
      if faults(UndoStopOld) then ph
      else if ph.old' == AtName then ph.(oldRuns := true)
      else if ph.new' == AtTarget then ph.(newRuns := true)
      else ph
    case DeferCreate =>
      var stopped := if !faults(UndoCreateStop) && ph.new' == AtNew then ph.(newRuns := false) else ph;
      if !faults(UndoCreateRemove) && ph.new' == AtNew then stopped.(new' := Gone) else stopped
  }

  /** The deferred compensations, last first. */
  function Unwind(ph: Phase, pending: seq<Deferred>, faults: Faults): Phase
    decreases pending
  {
    if pending == [] then ph
    else Unwind(Undo(ph, pending[|pending| - 1], faults), pending[..|pending| - 1], faults)
  }

  const DEFERS: seq<Deferred> := [DeferCreate, DeferStop, DeferRenameOld, DeferRenameNew]

  /** The phase in which the saga fails after `n` successful steps. */
  function FailedAt(n: nat, ran: bool): Phase {
    if n <= 1 then Phase(AtName, ran, AtNew, false)
    else if n == 2 then Phase(AtName, false, AtNew, false)
    else if n == 3 then Phase(AtBackup, false, AtNew, false)
    else Phase(AtBackup, false, AtTarget, false)
  }

  /** The compensations that a failure after `n` steps relies on.  Stopping the new container is not
      among them: it never runs then. */
  function Needed(n: nat): set<Call> {
    if n == 0 then {}
    else if n == 1 then {UndoCreateRemove}
    else if n == 2 then {UndoCreateRemove, UndoStopOld}
    else if n == 3 then {UndoCreateRemove, UndoStopOld, UndoRenameOld}
    else {UndoCreateRemove, UndoStopOld, UndoRenameOld, UndoRenameNew}
  }

  /** The compensations bring the original back, and remove the new container, if and only if the ones
      needed succeed; and whatever fails, the two containers never both run. */
  lemma UnwindRestores(n: nat, ran: bool, faults: Faults)
    requires 1 <= n <= 4
    ensures var ph := Unwind(FailedAt(n, ran), DEFERS[..n], faults);
            && (ph.old' == AtName && ph.new' == Gone && (ph.oldRuns <==> ran || n >= 2) <==>
                forall c <- Needed(n) :: !faults(c))
            && !(ph.oldRuns && ph.new' != Gone && ph.newRuns)
  {
    UnwindSteps(n, FailedAt(n, ran), faults);
    if n == 1 {
      assert (forall c <- Needed(n) :: !faults(c)) <==> !faults(UndoCreateRemove);
    } else if n == 2 {
      assert (forall c <- Needed(n) :: !faults(c)) <==> !faults(UndoCreateRemove) && !faults(UndoStopOld);
    } else if n == 3 {
      assert (forall c <- Needed(n) :: !faults(c)) <==>
        !faults(UndoCreateRemove) && !faults(UndoStopOld) && !faults(UndoRenameOld);
    } else {
      assert (forall c <- Needed(n) :: !faults(c)) <==>
        !faults(UndoCreateRemove) && !faults(UndoStopOld) && !faults(UndoRenameOld) && !faults(UndoRenameNew);
    }
  }

  lemma UnwindSteps(n: nat, ph: Phase, faults: Faults)
    requires 1 <= n <= 4
    ensures var p4 := if n >= 4 then Undo(ph, DeferRenameNew, faults) else ph;
            var p3 := if n >= 3 then Undo(p4, DeferRenameOld, faults) else p4;
            var p2 := if n >= 2 then Undo(p3, DeferStop, faults) else p3;
            Unwind(ph, DEFERS[..n], faults) == Undo(p2, DeferCreate, faults)
  {
    var p4 := if n >= 4 then Undo(ph, DeferRenameNew, faults) else ph;
    var p3 := if n >= 3 then Undo(p4, DeferRenameOld, faults) else p4;
    var p2 := if n >= 2 then Undo(p3, DeferStop, faults) else p3;
    assert DEFERS[..4][..3] == DEFERS[..3];
    assert DEFERS[..3][..2] == DEFERS[..2];
    assert DEFERS[..2][..1] == DEFERS[..1];
    assert DEFERS[..1][..0] == [];
    assert Unwind(p2, DEFERS[..1], faults) == Undo(p2, DeferCreate, faults);
    assert n >= 2 ==> Unwind(p3, DEFERS[..2], faults) == Unwind(p2, DEFERS[..1], faults);
    assert n >= 3 ==> Unwind(p4, DEFERS[..3], faults) == Unwind(p3, DEFERS[..2], faults);
    assert n >= 4 ==> Unwind(ph, DEFERS[..4], faults) == Unwind(p4, DEFERS[..3], faults);
  }

  // ---- What holds after every single call ----------------------------------------------------

  ghost predicate Runs(t: seq<Container>, id: string) {
    exists k :: 0 <= k < |t| && t[k].id == id && t[k].running
  }

  /** The two containers do not both run, and all others are as they were. */
  ghost predicate Fine(s: seq<Container>, oldId: string, newId: string, t: seq<Container>) {
    && !(Runs(t, oldId) && Runs(t, newId))
    && forall c: Container | c.id != oldId && c.id != newId :: c in t <==> c in s
  }

  ghost predicate OneRuns(ph: Phase) {
    !(ph.oldRuns && ph.new' != Gone && ph.newRuns)
  }

  lemma PhaseIsFine(sc: Scene, ph: Phase)
    requires sc.Valid() && OneRuns(ph)
    ensures Fine(sc.s, sc.s[sc.i].id, sc.id, sc.Store(ph))
  {
    var t, oldId := sc.Store(ph), sc.s[sc.i].id;
    assert t[sc.i] == sc.Old(ph);
    assert ph.new' != Gone ==> t[|sc.s|] == sc.New(ph);
    assert forall j | 0 <= j < |sc.s| && j != sc.i :: t[j] == sc.s[j];
    forall k | 0 <= k < |t| ensures (t[k].id == oldId <==> k == sc.i) && (t[k].id == sc.id <==> k == |sc.s|) {
    }
    forall c: Container | c.id != oldId && c.id != sc.id ensures c in t <==> c in sc.s {
      if c in sc.s {
        var j :| 0 <= j < |sc.s| && sc.s[j] == c;
        assert t[j] == c;
      }
      if c in t {
        var j :| 0 <= j < |t| && t[j] == c;
        assert sc.s[j] == c;
      }
    }
  }

  /** Every state recorded from index `from` on is fine. */
  ghost predicate FineSince(sc: Scene, history: seq<seq<Container>>, from: nat)
    requires sc.i < |sc.s|
  {
    from <= |history| && forall k | from <= k < |history| :: Fine(sc.s, sc.s[sc.i].id, sc.id, history[k])
  }

  // ---- The saga ------------------------------------------------------------------------------

  /** The deferred function that renames the new container back. */
  method RenameNewBack(p: Podman, faults: Faults, sc: Scene, ghost ph: Phase)
    requires sc.Valid() && sc.Legal(ph) && p.containers == sc.Store(ph) && ph.new' == AtTarget
    modifies p
    ensures p.containers == sc.Store(Undo(ph, DeferRenameNew, faults)) && p.history == old(p.history) + [p.containers]
  {
    NamesInPhase(sc, ph);
    OnlyOneNamed(sc, ph, sc.name, |sc.s|);
    var _ := p.ContainerRename(sc.name, sc.newName, faults(UndoRenameNew), |sc.s|);
  }

  /** The deferred function that renames the original back. */
  method RenameOldBack(p: Podman, faults: Faults, sc: Scene, ghost ph: Phase)
    requires sc.Valid() && sc.Legal(ph) && p.containers == sc.Store(ph) && ph.old' == AtBackup
    modifies p
    ensures p.containers == sc.Store(Undo(ph, DeferRenameOld, faults)) && p.history == old(p.history) + [p.containers]
  {
    NamesInPhase(sc, ph);
    OnlyOneNamed(sc, ph, sc.backup, sc.i);
    var _ := p.ContainerRename(sc.backup, sc.name, faults(UndoRenameOld), sc.i);
  }

  /** The deferred function that starts the original again (or whatever has its name by then). */
  method StartOldAgain(p: Podman, faults: Faults, sc: Scene, ghost ph: Phase)
    requires sc.Valid() && sc.Legal(ph) && p.containers == sc.Store(ph)
    modifies p
    ensures p.containers == sc.Store(Undo(ph, DeferStop, faults)) && p.history == old(p.history) + [p.containers]
  {
    RunInPhase(sc, ph, sc.name, true);
    var _ := p.ContainerStart(sc.name, faults(UndoStopOld));
  }

  ghost function NewStopped(ph: Phase, faults: Faults): Phase {
    if !faults(UndoCreateStop) && ph.new' == AtNew then ph.(newRuns := false) else ph
  }

  /** The deferred function that stops and removes the new container. */
  method DropNew(p: Podman, faults: Faults, sc: Scene, ghost ph: Phase)
    requires sc.Valid() && sc.Legal(ph) && p.containers == sc.Store(ph)
    modifies p
    ensures p.containers == sc.Store(Undo(ph, DeferCreate, faults))
    ensures p.history == old(p.history) + [sc.Store(NewStopped(ph, faults))] + [p.containers]
  {
    RunInPhase(sc, ph, sc.newName, false);
    var _ := p.ContainerStop(sc.newName, faults(UndoCreateStop));
    ghost var stopped := NewStopped(ph, faults);
    RemoveNewInPhase(sc, stopped);
    var _ := p.ContainerRemove(sc.newName, faults(UndoCreateRemove));
  }

  /** Runs one deferred function. */
  method RunOne(p: Podman, d: Deferred, faults: Faults, sc: Scene, ghost ph: Phase, ghost from: nat)
    requires sc.Valid() && sc.Legal(ph) && p.containers == sc.Store(ph)
    requires OneRuns(ph) && OneRuns(Undo(ph, d, faults))
    requires d == DeferRenameNew ==> ph.new' == AtTarget
    requires d == DeferRenameOld ==> ph.old' == AtBackup
    requires FineSince(sc, p.history, from)
    modifies p
    ensures p.containers == sc.Store(Undo(ph, d, faults))
    ensures old(p.history) <= p.history && FineSince(sc, p.history, from)
  {
    PhaseIsFine(sc, Undo(ph, d, faults));
    PhaseIsFine(sc, NewStopped(ph, faults));
    match d {
      case DeferRenameNew => RenameNewBack(p, faults, sc, ph);
      case DeferRenameOld => RenameOldBack(p, faults, sc, ph);
      case DeferStop => StartOldAgain(p, faults, sc, ph);
      case DeferCreate => DropNew(p, faults, sc, ph);
    }
  }

  /** The deferred functions may be run in this phase. */
  ghost predicate Ready(ph: Phase, n: nat) {
    && n <= 4 && OneRuns(ph)
    && (n == 4 ==> ph.new' == AtTarget && ph.old' == AtBackup && !ph.oldRuns && !ph.newRuns)
    && (n == 3 ==> ph.old' == AtBackup && !ph.oldRuns && !ph.newRuns)
    && (n == 2 ==> !ph.oldRuns && !ph.newRuns)
  }

  /** The deferred functions of a run that failed after `n` steps, last first. */
  method RunDeferred(p: Podman, n: nat, faults: Faults, sc: Scene, ghost ph: Phase, ghost from: nat)
    requires sc.Valid() && sc.Legal(ph) && 1 <= n <= 4 && Ready(ph, n) && p.containers == sc.Store(ph)
    requires FineSince(sc, p.history, from)
    modifies p
    ensures p.containers == sc.Store(Unwind(ph, DEFERS[..n], faults))
    ensures old(p.history) <= p.history && FineSince(sc, p.history, from)
  {
    var k := n;
    ghost var at := ph;
    while k > 0
      invariant k <= n && Ready(at, k) && sc.Legal(at) && p.containers == sc.Store(at)
      invariant Unwind(at, DEFERS[..k], faults) == Unwind(ph, DEFERS[..n], faults)
      invariant old(p.history) <= p.history && FineSince(sc, p.history, from)
    {
      k := k - 1;
      assert DEFERS[..k + 1][..k] == DEFERS[..k];
      RunOne(p, DEFERS[k], faults, sc, at, from);
      at := Undo(at, DEFERS[k], faults);
    }
  }

  /** How many of the five forward steps (create, stop, rename, rename, start) succeed. */
  ghost function Progress(s: seq<Container>, name: string, fn: Option<Draft -> Draft>, datetime: string,
                          faults: Faults): nat
  {
    var newName, backup := name + "-new-" + datetime, name + "-" + datetime;
    var i := Find(s, name);
    if fn.None? || faults(Inspect) || i == |s| then 0
    else if fn.value(Draft(newName, s[i].spec)).name != newName || faults(Create) || HasName(s, newName) then 0
    else Steps(faults, HasName(s, backup))
  }

  function PhaseAfter(n: nat, ran: bool): Phase {
    if n == 5 then Phase(AtBackup, false, AtTarget, true) else FailedAt(n, ran)
  }

  method StopOriginal(p: Podman, faults: Faults, sc: Scene, ghost from: nat) returns (ok: bool)
    requires sc.Valid() && p.containers == sc.Store(FailedAt(1, sc.s[sc.i].running))
    requires FineSince(sc, p.history, from)
    modifies p
    ensures ok <==> !faults(StopOld)
    ensures p.containers == sc.Store(FailedAt(if ok then 2 else 1, sc.s[sc.i].running))
    ensures old(p.history) <= p.history && FineSince(sc, p.history, from)
  {
    ghost var ph := FailedAt(1, sc.s[sc.i].running);
    RunInPhase(sc, ph, sc.name, false);
    FindInPhase(sc, ph, sc.name);
    ok := p.ContainerStop(sc.name, faults(StopOld));
    PhaseIsFine(sc, FailedAt(if ok then 2 else 1, sc.s[sc.i].running));
  }

  method RenameOriginal(p: Podman, faults: Faults, sc: Scene, ghost from: nat) returns (ok: bool)
    requires sc.Valid() && p.containers == sc.Store(FailedAt(2, false))
    requires FineSince(sc, p.history, from)
    modifies p
    ensures ok <==> !faults(RenameOld) && !HasName(sc.s, sc.backup)
    ensures p.containers == sc.Store(FailedAt(if ok then 3 else 2, false))
    ensures old(p.history) <= p.history && FineSince(sc, p.history, from)
  {
    ghost var ph := FailedAt(2, false);
    NamesInPhase(sc, ph);
    OnlyOneNamed(sc, ph, sc.name, sc.i);
    ok := p.ContainerRename(sc.name, sc.backup, faults(RenameOld), sc.i);
    PhaseIsFine(sc, FailedAt(if ok then 3 else 2, false));
  }

  method RenameReplacement(p: Podman, faults: Faults, sc: Scene, ghost from: nat) returns (ok: bool)
    requires sc.Valid() && !HasName(sc.s, sc.backup) && p.containers == sc.Store(FailedAt(3, false))
    requires FineSince(sc, p.history, from)
    modifies p
    ensures ok <==> !faults(RenameNew)
    ensures p.containers == sc.Store(FailedAt(if ok then 4 else 3, false))
    ensures old(p.history) <= p.history && FineSince(sc, p.history, from)
  {
    ghost var ph := FailedAt(3, false);
    NamesInPhase(sc, ph);
    OnlyOneNamed(sc, ph, sc.newName, |sc.s|);
    ok := p.ContainerRename(sc.newName, sc.name, faults(RenameNew), |sc.s|);
    PhaseIsFine(sc, FailedAt(if ok then 4 else 3, false));
  }

  method StartReplacement(p: Podman, faults: Faults, sc: Scene, ghost from: nat) returns (ok: bool)
    requires sc.Valid() && !HasName(sc.s, sc.backup) && p.containers == sc.Store(FailedAt(4, false))
    requires FineSince(sc, p.history, from)
    modifies p
    ensures ok <==> !faults(StartNew)
    ensures p.containers == sc.Store(PhaseAfter(if ok then 5 else 4, false))
    ensures old(p.history) <= p.history && FineSince(sc, p.history, from)
  {
    ghost var ph := FailedAt(4, false);
    RunInPhase(sc, ph, sc.name, true);
    FindInPhase(sc, ph, sc.name);
    ok := p.ContainerStart(sc.name, faults(StartNew));
    PhaseIsFine(sc, PhaseAfter(if ok then 5 else 4, false));
  }

  ghost function Steps(faults: Faults, backupTaken: bool): nat {
    if faults(StopOld) then 1 else if faults(RenameOld) || backupTaken then 2
    else if faults(RenameNew) then 3 else if faults(StartNew) then 4 else 5
  }

  /** The steps after the creation: stop the original, rename it, rename the new one, start it. */
  method Replace(p: Podman, faults: Faults, sc: Scene, ghost from: nat) returns (n: nat)
    requires sc.Valid() && p.containers == sc.Store(FailedAt(1, sc.s[sc.i].running))
    requires FineSince(sc, p.history, from)
    modifies p
    ensures n == Steps(faults, HasName(sc.s, sc.backup))
    ensures p.containers == sc.Store(PhaseAfter(n, sc.s[sc.i].running))
    ensures old(p.history) <= p.history && FineSince(sc, p.history, from)
  {
    var ok := StopOriginal(p, faults, sc, from);
    if !ok {
      return 1;
    }
    ok := RenameOriginal(p, faults, sc, from);
    if !ok {
      return 2;
    }
    ok := RenameReplacement(p, faults, sc, from);
    if !ok {
      return 3;
    }
    ok := StartReplacement(p, faults, sc, from);
    n := if ok then 5 else 4;
  }

  lemma NamesDiffer(name: string, datetime: string)
    ensures var newName, backup := name + "-new-" + datetime, name + "-" + datetime;
            newName != backup && newName != name && backup != name && '-' in newName && '-' in backup
  {
    var newName, backup := name + "-new-" + datetime, name + "-" + datetime;
    assert |newName| == |name| + 5 + |datetime| && |backup| == |name| + 1 + |datetime|;
    assert newName[|name|] == '-' && backup[|name|] == '-';
  }

  /** The original back under its name, running if it had been stopped. */
  function Restored(s: seq<Container>, name: string, restarted: bool): seq<Container> {
    if restarted then WithRunning(s, name, true) else s
  }

  /** The new container has the original's name and runs; the original is gone, or, where removing it
      failed, stopped under the backup name. */
  function Outcome(s: seq<Container>, name: string, fn: Draft -> Draft, datetime: string, id: string,
                   kept: bool): seq<Container>
    requires Find(s, name) < |s|
  {
    var i := Find(s, name);
    var replacement := Container(id, name, fn(Draft(name + "-new-" + datetime, s[i].spec)).spec, true);
    if kept then s[i := s[i].(name := name + "-" + datetime, running := false)] + [replacement]
    else s[..i] + s[i + 1..] + [replacement]
  }

  lemma RestoredIsPhase(sc: Scene, ph: Phase, restarted: bool)
    requires sc.Valid()
    ensures sc.Store(ph) == Restored(sc.s, sc.name, restarted) <==>
              ph.old' == AtName && ph.new' == Gone && (ph.oldRuns <==> sc.s[sc.i].running || restarted)
  {
    var t := sc.Store(ph);
    FindIs(sc.s, sc.name, sc.i);
    assert t[sc.i] == sc.Old(ph);
    var r := Restored(sc.s, sc.name, restarted);
    assert r[sc.i] == sc.s[sc.i].(running := sc.s[sc.i].running || restarted);
    assert forall j | 0 <= j < |sc.s| && j != sc.i :: r[j] == sc.s[j] && t[j] == sc.s[j];
  }

  /** The store after a successful saga. */
  ghost function Swapped(sc: Scene, kept: bool): seq<Container>
    requires sc.i < |sc.s|
  {
    if kept then sc.Store(PhaseAfter(5, false))
    else sc.s[..sc.i] + sc.s[sc.i + 1..] + [sc.New(PhaseAfter(5, false))]
  }

  lemma CutStore(sc: Scene)
    requires sc.i < |sc.s|
    ensures var t := sc.Store(PhaseAfter(5, false)); t[..sc.i] + t[sc.i + 1..] == Swapped(sc, false)
  {
    var t := sc.Store(PhaseAfter(5, false));
    assert t[..sc.i] == sc.s[..sc.i];
    assert t[sc.i + 1..] == sc.s[sc.i + 1..] + [sc.New(PhaseAfter(5, false))];
  }

  lemma WithoutOriginal(sc: Scene)
    requires sc.Valid() && !HasName(sc.s, sc.backup)
    ensures var t := sc.Store(PhaseAfter(5, false));
            Find(t, sc.backup) < |t| && Without(t, sc.backup) == Swapped(sc, false)
  {
    FindInPhase(sc, PhaseAfter(5, false), sc.backup);
    CutStore(sc);
  }

  method RemoveOriginal(p: Podman, faults: Faults, sc: Scene)
    requires sc.Valid() && !HasName(sc.s, sc.backup) && p.containers == sc.Store(PhaseAfter(5, false))
    modifies p
    ensures p.containers == Swapped(sc, faults(RemoveBackup))
    ensures p.history == old(p.history) + [p.containers]
  {
    WithoutOriginal(sc);
    var _ := p.ContainerRemove(sc.backup, faults(RemoveBackup));
  }

  lemma SwappedIsFine(sc: Scene, kept: bool)
    requires sc.Valid()
    ensures Fine(sc.s, sc.s[sc.i].id, sc.id, Swapped(sc, kept))
  {
    if kept {
      PhaseIsFine(sc, PhaseAfter(5, false));
    } else {
      RemovedIsFine(sc, PhaseAfter(5, false));
      CutStore(sc);
    }
  }

  /** Everything after the creation, with the deferred functions on failure. */
  method Finish(p: Podman, faults: Faults, sc: Scene, ghost from: nat) returns (ok: bool)
    requires sc.Valid() && p.containers == sc.Store(FailedAt(1, sc.s[sc.i].running))
    requires FineSince(sc, p.history, from)
    modifies p
    ensures ok <==> Steps(faults, HasName(sc.s, sc.backup)) == 5
    ensures ok ==> p.containers == Swapped(sc, faults(RemoveBackup))
    ensures !ok ==> var n := Steps(faults, HasName(sc.s, sc.backup));
                    p.containers == Restored(sc.s, sc.name, n >= 2) <==> forall c <- Needed(n) :: !faults(c)
    ensures old(p.history) <= p.history && FineSince(sc, p.history, from)
  {
    ghost var ran := sc.s[sc.i].running;
    var n := Replace(p, faults, sc, from);
    if n < 5 {
      RunDeferred(p, n, faults, sc, FailedAt(n, ran), from);
      UnwindRestores(n, ran, faults);
      RestoredIsPhase(sc, Unwind(FailedAt(n, ran), DEFERS[..n], faults), n >= 2);
      ok := false;
    } else {
      RemoveOriginal(p, faults, sc);
      SwappedIsFine(sc, faults(RemoveBackup));
      ok := true;
    }
  }

  /** The forward steps that succeed once the new container's description has been accepted. */
  ghost function Forward(faults: Faults, sc: Scene): nat {
    if faults(Create) || HasName(sc.s, sc.newName) then 0 else Steps(faults, HasName(sc.s, sc.backup))
  }

  /** The scene of replacing the container at `sc.i`. */
  ghost predicate Sets(sc: Scene, s: seq<Container>, datetime: string) {
    && Good(s) && sc.s == s && sc.i < |s| && s[sc.i].name == sc.name
    && sc.newName == sc.name + "-new-" + datetime && sc.backup == sc.name + "-" + datetime
    && '-' !in sc.id && sc.id != sc.name && forall k | 0 <= k < |s| :: s[k].id != sc.id && s[k].name != sc.id
  }

  /** The creation and everything after it. */
  method CreateAndReplace(p: Podman, faults: Faults, sc: Scene, datetime: string) returns (ok: bool)
    requires Sets(sc, p.containers, datetime)
    modifies p
    ensures ok <==> Forward(faults, sc) == 5
    ensures ok ==> p.containers == Swapped(sc, faults(RemoveBackup))
    ensures !ok ==> var n := Forward(faults, sc);
                    p.containers == Restored(sc.s, sc.name, n >= 2) <==> forall c <- Needed(n) :: !faults(c)
    ensures old(p.history) <= p.history && FineSince(sc, p.history, |old(p.history)|)
  {
    var created := p.ContainerCreate(Draft(sc.newName, sc.spec), sc.id, faults(Create));
    if !created {
      UnchangedIsFine(sc.s, sc.s[sc.i].id, sc.id);
      return false;
    }
    SceneIsValid(sc.s, sc, datetime);
    assert p.containers == sc.Store(FailedAt(1, sc.s[sc.i].running));
    PhaseIsFine(sc, FailedAt(1, sc.s[sc.i].running));
    ok := Finish(p, faults, sc, |old(p.history)|);
  }

  lemma SwappedIsOutcome(sc: Scene, fn: Draft -> Draft, datetime: string, kept: bool)
    requires Sets(sc, sc.s, datetime) && Find(sc.s, sc.name) == sc.i
    requires sc.spec == fn(Draft(sc.newName, sc.s[sc.i].spec)).spec
    ensures Swapped(sc, kept) == Outcome(sc.s, sc.name, fn, datetime, sc.id, kept)
  {
  }

  /** `ContainerUpdate`.  `name` must be a name, not an ID; `id` is the ID the new container gets. */
  method ContainerUpdate(p: Podman, name: string, fn: Option<Draft -> Draft>, datetime: string, id: string,
                         faults: Faults)
    returns (ok: bool)
    requires Good(p.containers) && forall k | 0 <= k < |p.containers| :: p.containers[k].id != name
    requires '-' !in id && id != name
    requires forall k | 0 <= k < |p.containers| :: p.containers[k].id != id && p.containers[k].name != id
    modifies p
    // it succeeds exactly when all five forward steps do
    ensures ok <==> Progress(old(p.containers), name, fn, datetime, faults) == 5
    // on success the name is the running new container's, everything else is as before
    ensures ok ==> p.containers == Outcome(old(p.containers), name, fn.value, datetime, id, faults(RemoveBackup))
    // on failure the store is restored exactly when the compensations relied on succeed
    ensures !ok ==> var n := Progress(old(p.containers), name, fn, datetime, faults);
                    p.containers == Restored(old(p.containers), name, n >= 2) <==> forall c <- Needed(n) :: !faults(c)
    // whatever fails, after every call: never both running, unrelated containers untouched
    ensures old(p.history) <= p.history
    ensures forall i, k | 0 <= i < |old(p.containers)| && old(p.containers)[i].name == name
              && |old(p.history)| <= k < |p.history| ::
              Fine(old(p.containers), old(p.containers)[i].id, id, p.history[k])
  {
    ghost var s := p.containers;
    if fn.None? || faults(Inspect) {
      return false;
    }
    var i := p.Locate(name);
    if i == |p.containers| {
      return false;
    }
    var newName, backupName := p.containers[i].name + "-new-" + datetime, name + "-" + datetime;
    var draft := fn.value(Draft(newName, p.containers[i].spec));
    if draft.name != newName {
      return false;
    }
    var sc := Scene(p.containers, i, name, newName, backupName, id, draft.spec);
    ok := CreateAndReplace(p, faults, sc, datetime);
    NameIsUnique(s, i);
    SwappedIsOutcome(sc, fn.value, datetime, faults(RemoveBackup));
  }

  lemma NameIsUnique(s: seq<Container>, i: nat)
    requires Good(s) && i < |s|
    ensures forall k | 0 <= k < |s| && s[k].name == s[i].name :: k == i
  {
  }

  lemma SceneIsValid(s: seq<Container>, sc: Scene, datetime: string)
    requires Good(s) && sc.i < |s| && sc.s == s && s[sc.i].name == sc.name
    requires sc.newName == sc.name + "-new-" + datetime && sc.backup == sc.name + "-" + datetime
    requires !HasName(s, sc.newName) && '-' !in sc.id && sc.id != sc.name
    requires forall k | 0 <= k < |s| :: s[k].id != sc.id && s[k].name != sc.id
    ensures sc.Valid()
  {
    NamesDiffer(sc.name, datetime);
  }

  lemma UnchangedIsFine(s: seq<Container>, oldId: string, newId: string)
    requires forall k | 0 <= k < |s| :: s[k].id != newId
    ensures Fine(s, oldId, newId, s)
  {
  }

  lemma RunsOfSubset(u: seq<Container>, t: seq<Container>, id: string)
    requires (forall c <- u :: c in t) && Runs(u, id)
    ensures Runs(t, id)
  {
    var k :| 0 <= k < |u| && u[k].id == id && u[k].running;
    assert u[k] in t;
  }

  lemma RemovedIsFine(sc: Scene, ph: Phase)
    requires sc.Valid() && OneRuns(ph)
    ensures var t := sc.Store(ph);
            Fine(sc.s, sc.s[sc.i].id, sc.id, t[..sc.i] + t[sc.i + 1..])
  {
    PhaseIsFine(sc, ph);
    var t := sc.Store(ph);
    var u := t[..sc.i] + t[sc.i + 1..];
    assert t == t[..sc.i] + [t[sc.i]] + t[sc.i + 1..];
    assert forall c :: c in t <==> c in u || c == t[sc.i];
    assert t[sc.i].id == sc.s[sc.i].id;
    if Runs(u, sc.s[sc.i].id) {
      RunsOfSubset(u, t, sc.s[sc.i].id);
    }
    if Runs(u, sc.id) {
      RunsOfSubset(u, t, sc.id);
    }
  }
}
