/** Concurrent edits of the `skupper-services` configmap: client/serviceinterface_update.go and
    client/serviceinterface_remove.go.

    Every operation reads the configmap, edits the copy and writes it back; the API server refuses
    the write if the configmap changed since the read, and some operations then start again.  The
    module models any number of such operations as one state machine and proves that, however their
    steps interleave, the outcome is that of running the committed operations one after another. */
module ServiceConfig {
  import opened Prelude

  type Data = map<string, string>

  datatype Target = Target(name: string, selector: string, service: string, namespace: string)

  datatype Definition = Definition(origin: string, targets: seq<Target>, rest: string)

  /** The JSON encoding of a definition. */
  datatype Codec = Codec(decode: string -> Option<Definition>, encode: Definition -> string)

  // ---- One operation on one map --------------------------------------------------------------

  /** `diverted`: the original service was modified, so that an annotated definition is not edited
      here but through the service's annotations. */
  datatype Op =
    | Put(address: string, encoded: string, overwrite: bool)
    | Remove(address: string, diverted: bool)
    | Unbind(address: string, target: string, namespace: string, deleteIfNoTargets: bool, diverted: bool)

  datatype Effect = Write(data: Data) | Refuse | Divert

  predicate Defined(data: Data, a: string) {
    a in data && data[a] != ""
  }

  predicate Matches(t: Target, name: string, namespace: string) {
    (t.name == name && t.service == "" && t.namespace == namespace) || (t.service == name && t.namespace == "")
  }

  function Kept(targets: seq<Target>, name: string, namespace: string): seq<Target> {
    if targets == [] then []
    else
      var n := |targets| - 1;
      Kept(targets[..n], name, namespace) + (if Matches(targets[n], name, namespace) then [] else [targets[n]])
  }

  /** The target loop of `removeServiceInterfaceTarget`. */
  method RemoveTargets(targets: seq<Target>, name: string, namespace: string)
      returns (kept: seq<Target>, modified: bool)
    ensures kept == Kept(targets, name, namespace)
    ensures modified <==> exists t :: t in targets && Matches(t, name, namespace)
    ensures modified <==> kept != targets
  {
    kept, modified := [], false;
    for i := 0 to |targets|
      invariant kept == Kept(targets[..i], name, namespace) && |kept| <= i
      invariant modified <==> exists t :: t in targets[..i] && Matches(t, name, namespace)
      invariant if modified then |kept| < i else kept == targets[..i]
    {
      assert targets[..i + 1][..i] == targets[..i];
      assert targets[..i + 1] == targets[..i] + [targets[i]];
      if Matches(targets[i], name, namespace) {
        modified := true;
      } else {
        kept := kept + [targets[i]];
      }
    }
    assert targets[..|targets|] == targets;
  }

  function Annotated(data: Data, a: string, codec: Codec): bool {
    a in data && codec.decode(data[a]).Some? && codec.decode(data[a]).value.origin == "annotation"
  }

  function EffectOf(op: Op, data: Data, codec: Codec): Effect {
    match op
    case Put(a, encoded, overwrite) =>
      if overwrite || !Defined(data, a) then Write(data[a := encoded]) else Refuse
    case Remove(a, diverted) =>
      if !Defined(data, a) then Refuse
      else if diverted && Annotated(data, a, codec) then Divert
      else Write(data - {a})
    case Unbind(a, target, namespace, deleteIfNoTargets, diverted) =>
      if !Defined(data, a) || codec.decode(data[a]).None? then Refuse
      else if diverted && Annotated(data, a, codec) then Divert
      else
        var def := codec.decode(data[a]).value;
        var kept := Kept(def.targets, target, namespace);
        if kept == def.targets then Refuse
        else if kept == [] && deleteIfNoTargets then Write(data - {a})
        else Write(data[a := codec.encode(def.(targets := kept))])
  }

  /** The edit `removeServiceInterfaceTarget` makes on the copy it read. */
  method UnbindCopy(data: Data, op: Op, codec: Codec) returns (effect: Effect)
    requires op.Unbind?
    ensures effect == EffectOf(op, data, codec)
  {
    if op.address !in data || data[op.address] == "" {
      return Refuse;
    }
    var decoded := codec.decode(data[op.address]);
    if decoded.None? {
      return Refuse;
    }
    if decoded.value.origin == "annotation" && op.diverted {
      return Divert;
    }
    var kept, modified := RemoveTargets(decoded.value.targets, op.target, op.namespace);
    if !modified {
      return Refuse;
    }
    if |kept| == 0 && op.deleteIfNoTargets {
      return Write(data - {op.address});
    }
    return Write(data[op.address := codec.encode(decoded.value.(targets := kept))]);
  }

  /** Only `ServiceInterfaceUnbind` does not start again on a conflict. */
  predicate Retries(op: Op) {
    !op.Unbind?
  }

  const MAX_ATTEMPTS := 100

  // ---- The protocol --------------------------------------------------------------------------

  datatype Entry = Entry(id: int, op: Op)

  datatype Object = Object(data: Data, version: nat)

  /** Where an operation is: about to read; holding a copy read when `seen` operations had committed;
      or having found no configmap. */
  datatype Phase = Start | Fetched(data: Data, version: nat, seen: nat) | Missing

  /** How an operation ends: committed; successful without touching the configmap, on what it read when
      `seen` operations had committed; refused or failed for a reason other than a conflict; or given
      up, with how many operations had committed when it began and when it ended, and how many of its
      conflicts were over the annotated service instead. */
  datatype Result =
    | Committed(position: nat)
    | Diverted(seen: nat)
    | NotApplied
    | Conflicted(before: nat, after: nat, outside: nat)

  datatype Client =
    | Running(op: Op, began: nat, attempts: nat, outside: nat, phase: Phase)
    | Finished(op: Op, result: Result)

  /** The configmap, the operations begun so far, and those committed, in order. */
  datatype World = World(cm: Option<Object>, clients: map<int, Client>, log: seq<Entry>)

  ghost predicate Initial(w: World) {
    w.clients == map[] && w.log == []
  }

  ghost function At(w: World, id: int, c: Client): World {
    w.(clients := w.clients[id := c])
  }

  /** The operation begins. */
  ghost predicate Begin(w: World, w': World, id: int, op: Op) {
    id !in w.clients && w' == At(w, id, Running(op, |w.log|, 0, 0, Start))
  }

  /** It fails for a reason other than a conflict. */
  ghost predicate Fail(w: World, w': World, id: int) {
    && id in w.clients && w.clients[id].Running?
    && w' == At(w, id, Finished(w.clients[id].op, NotApplied))
  }

  /** It reads the configmap. */
  ghost predicate Get(w: World, w': World, id: int) {
    && id in w.clients && w.clients[id].Running? && w.clients[id].phase == Start
    && var c := w.clients[id];
       w' == At(w, id,
         if w.cm.Some? then c.(phase := Fetched(w.cm.value.data, w.cm.value.version, |w.log|))
         else if c.op.Put? then c.(phase := Missing)
         else Finished(c.op, NotApplied))
  }

  ghost predicate Holding(w: World, id: int) {
    id in w.clients && w.clients[id].Running? && w.clients[id].phase.Fetched?
  }

  /** Its edit of the copy is refused; or it removes the annotation of the service instead. */
  ghost predicate Decline(w: World, w': World, id: int, codec: Codec) {
    && Holding(w, id)
    && var c := w.clients[id];
       && !EffectOf(c.op, c.phase.data, codec).Write?
       && w' == At(w, id,
                   Finished(c.op,
                            if EffectOf(c.op, c.phase.data, codec).Divert? then Diverted(c.phase.seen) else NotApplied))
  }

  /** The client after a conflict; `outside` tells whether it was over the annotated service. */
  function Again(c: Client, committed: nat, outside: bool): Client
    requires c.Running?
  {
    var more := c.outside + if outside then 1 else 0;
    if Retries(c.op) && c.attempts + 1 < MAX_ATTEMPTS
    then c.(attempts := c.attempts + 1, outside := more, phase := Start)
    else Finished(c.op, Conflicted(c.began, committed, more))
  }

  /** Removing the annotation meets a conflict over the service; an unbind that does so fails. */
  ghost predicate DivertedConflict(w: World, w': World, id: int, codec: Codec) {
    && Holding(w, id)
    && var c := w.clients[id];
       && EffectOf(c.op, c.phase.data, codec).Divert? && Retries(c.op)
       && w' == At(w, id, Again(c, |w.log|, true))
  }

  ghost predicate UpToDate(w: World, id: int)
    requires Holding(w, id)
  {
    w.cm.Some? && w.cm.value.version == w.clients[id].phase.version
  }

  /** The API server accepts its write and gives the configmap a later version. */
  ghost predicate Commit(w: World, w': World, id: int, version: nat, codec: Codec) {
    && Holding(w, id) && UpToDate(w, id)
    && var c := w.clients[id];
       var effect := EffectOf(c.op, c.phase.data, codec);
       && effect.Write? && version > w.cm.value.version
       && w' == World(Some(Object(effect.data, version)),
                      w.clients[id := Finished(c.op, Committed(|w.log|))],
                      w.log + [Entry(id, c.op)])
  }

  /** The API server reports a conflict. */
  ghost predicate Conflict(w: World, w': World, id: int, codec: Codec) {
    && Holding(w, id) && !UpToDate(w, id)
    && var c := w.clients[id];
       && EffectOf(c.op, c.phase.data, codec).Write?
       && w' == At(w, id, Again(c, |w.log|, false))
  }

  /** It creates the configmap it found missing, unless another operation did so first. */
  ghost predicate CreateMap(w: World, w': World, id: int, version: nat) {
    && id in w.clients && w.clients[id].Running? && w.clients[id].phase == Missing && w.clients[id].op.Put?
    && var c := w.clients[id];
       w' == if w.cm.Some? then At(w, id, Finished(c.op, NotApplied))
             else World(Some(Object(map[c.op.address := c.op.encoded], version)),
                        w.clients[id := Finished(c.op, Committed(|w.log|))],
                        w.log + [Entry(id, c.op)])
  }

  /** Who moves; the operation it begins, or the version its write is given, where that applies. */
  datatype Move = Move(id: int, op: Op, version: nat)

  ghost predicate Step(w: World, w': World, m: Move, codec: Codec) {
    || Begin(w, w', m.id, m.op) || Fail(w, w', m.id) || Get(w, w', m.id) || Decline(w, w', m.id, codec)
    || Commit(w, w', m.id, m.version, codec) || Conflict(w, w', m.id, codec) || DivertedConflict(w, w', m.id, codec)
    || CreateMap(w, w', m.id, m.version)
  }

  /** A run: any operations, any interleaving of their steps. */
  ghost predicate IsRun(ws: seq<World>, moves: seq<Move>, codec: Codec) {
    && |ws| == |moves| + 1 && Initial(ws[0])
    && forall i | 0 <= i < |moves| :: Step(ws[i], ws[i + 1], moves[i], codec)
  }

  // ---- The reference: one after another ------------------------------------------------------

  ghost function Contents(cm: Option<Object>): Data {
    if cm.None? then map[] else cm.value.data
  }

  ghost function Applied(data: Data, op: Op, codec: Codec): Data {
    var effect := EffectOf(op, data, codec);
    if effect.Write? then effect.data else data
  }

  /** The operations of `log`, run one after another on `start`. */
  ghost function Replay(start: Data, log: seq<Entry>, codec: Codec): Data {
    if log == [] then start
    else Applied(Replay(start, log[..|log| - 1], codec), log[|log| - 1].op, codec)
  }

  lemma ReplaySnoc(start: Data, log: seq<Entry>, e: Entry, codec: Codec)
    ensures Replay(start, log + [e], codec) == Applied(Replay(start, log, codec), e.op, codec)
  {
    assert (log + [e])[..|log|] == log;
  }

  // ---- The invariant -------------------------------------------------------------------------

  ghost predicate OthersCommitted(log: seq<Entry>, from: nat, id: int) {
    from <= |log| && forall i | from <= i < |log| :: log[i].id != id
  }

  ghost predicate ClientOk(start: Data, w: World, id: int, codec: Codec)
    requires id in w.clients
  {
    match w.clients[id]
    case Running(op, began, attempts, outside, phase) =>
      && OthersCommitted(w.log, began, id)
      && outside <= attempts < MAX_ATTEMPTS
      && began + attempts <= |w.log| + outside
      && (phase.Fetched? ==>
            && began + attempts <= phase.seen + outside && began <= phase.seen <= |w.log|
            && w.cm.Some? && phase.version <= w.cm.value.version
            && (phase.version == w.cm.value.version <==> phase.seen == |w.log|)
            && phase.data == Replay(start, w.log[..phase.seen], codec))
      && (phase == Missing ==> start == map[])
    case Finished(op, Committed(i)) => i < |w.log| && w.log[i] == Entry(id, op)
    case Finished(op, Diverted(seen)) =>
      && seen <= |w.log| && EffectOf(op, Replay(start, w.log[..seen], codec), codec).Divert?
      && forall i | 0 <= i < |w.log| :: w.log[i].id != id
    case Finished(op, Conflicted(before, after, outside)) =>
      && before <= after <= |w.log| && (Retries(op) ==> after - before + outside >= MAX_ATTEMPTS)
           && (!Retries(op) ==> before < after)
      && forall i | before <= i < after :: w.log[i].id != id
    case Finished(op, NotApplied) => forall i | 0 <= i < |w.log| :: w.log[i].id != id
  }

  /** Committed operations really wrote, when run one after another. */
  ghost predicate Serial(start: Data, log: seq<Entry>, codec: Codec) {
    forall i | 0 <= i < |log| :: EffectOf(log[i].op, Replay(start, log[..i], codec), codec).Write?
  }

  ghost predicate Inv(start: Data, w: World, codec: Codec) {
    && Contents(w.cm) == Replay(start, w.log, codec)
    && (w.cm.None? ==> w.log == [] && start == map[])
    && Serial(start, w.log, codec)
    && (forall id <- w.clients :: ClientOk(start, w, id, codec))
    && (forall i | 0 <= i < |w.log| ::
          w.log[i].id in w.clients && w.clients[w.log[i].id] == Finished(w.log[i].op, Committed(i)))
  }

  /** A step that commits nothing concerns its own operation only. */
  lemma QuietStepKeepsInv(start: Data, w: World, id: int, c: Client, codec: Codec)
    requires Inv(start, w, codec)
    requires id in w.clients ==> w.clients[id].Running?
    requires id !in w.clients ==> forall i | 0 <= i < |w.log| :: w.log[i].id != id
    requires ClientOk(start, At(w, id, c), id, codec)
    ensures Inv(start, At(w, id, c), codec)
  {
    var w' := At(w, id, c);
    forall x <- w'.clients ensures ClientOk(start, w', x, codec) {
      if x != id {
        assert ClientOk(start, w, x, codec);
      }
    }
    forall i | 0 <= i < |w'.log|
      ensures w'.log[i].id in w'.clients && w'.clients[w'.log[i].id] == Finished(w'.log[i].op, Committed(i))
    {
      assert w.clients[w.log[i].id] == Finished(w.log[i].op, Committed(i));
    }
  }

  /** What the others hold stays valid when an operation commits: their copies are now out of date. */
  lemma CommitKeepsOther(start: Data, w: World, w': World, id: int, x: int, codec: Codec)
    requires x in w.clients && x != id && ClientOk(start, w, x, codec)
    requires x in w'.clients && w'.clients[x] == w.clients[x]
    requires |w'.log| == |w.log| + 1 && w'.log[..|w.log|] == w.log && w'.log[|w.log|].id == id
    requires w'.cm.Some? && (w.cm.Some? ==> w.cm.value.version < w'.cm.value.version)
    ensures ClientOk(start, w', x, codec)
  {
    assert forall i | 0 <= i < |w.log| :: w'.log[i] == w.log[i];
    var c := w.clients[x];
    if c.Running? && c.phase.Fetched? {
      assert w'.log[..c.phase.seen] == w.log[..c.phase.seen];
    }
    if c.Finished? && c.result.Diverted? {
      assert w'.log[..c.result.seen] == w.log[..c.result.seen];
    }
  }

  lemma CommittingStepKeepsInv(start: Data, w: World, w': World, id: int, codec: Codec)
    requires Inv(start, w, codec) && id in w.clients && w.clients[id].Running?
    requires w'.log == w.log + [Entry(id, w.clients[id].op)]
    requires w'.clients == w.clients[id := Finished(w.clients[id].op, Committed(|w.log|))]
    requires EffectOf(w.clients[id].op, Contents(w.cm), codec) == Write(Contents(w'.cm))
    requires w'.cm.Some? && (w.cm.Some? ==> w.cm.value.version < w'.cm.value.version)
    ensures Inv(start, w', codec)
  {
    var e := Entry(id, w.clients[id].op);
    ReplaySnoc(start, w.log, e, codec);
    forall i | 0 <= i < |w'.log| ensures EffectOf(w'.log[i].op, Replay(start, w'.log[..i], codec), codec).Write? {
      assert w'.log[..i] == w.log[..i];
      assert w.log[..|w.log|] == w.log;
    }
    forall x <- w'.clients ensures ClientOk(start, w', x, codec) {
      if x != id {
        CommitKeepsOther(start, w, w', id, x, codec);
      }
    }
    forall i | 0 <= i < |w'.log|
      ensures w'.log[i].id in w'.clients && w'.clients[w'.log[i].id] == Finished(w'.log[i].op, Committed(i))
    {
      if i < |w.log| {
        assert w'.log[i] == w.log[i] && w.clients[w.log[i].id] == Finished(w.log[i].op, Committed(i));
      }
    }
  }

  lemma NotYetCommitted(start: Data, w: World, id: int, codec: Codec)
    requires Inv(start, w, codec) && (id in w.clients ==> w.clients[id].Running?)
    ensures forall i | 0 <= i < |w.log| :: w.log[i].id != id
  {
    forall i | 0 <= i < |w.log| ensures w.log[i].id != id {
      assert w.clients[w.log[i].id] == Finished(w.log[i].op, Committed(i));
    }
  }

  lemma BeginKeepsInv(start: Data, w: World, w': World, id: int, op: Op, codec: Codec)
    requires Inv(start, w, codec) && Begin(w, w', id, op)
    ensures Inv(start, w', codec)
  {
    NotYetCommitted(start, w, id, codec);
    QuietStepKeepsInv(start, w, id, Running(op, |w.log|, 0, 0, Start), codec);
  }

  lemma FinishKeepsInv(start: Data, w: World, id: int, codec: Codec)
    requires Inv(start, w, codec) && id in w.clients && w.clients[id].Running?
    ensures Inv(start, At(w, id, Finished(w.clients[id].op, NotApplied)), codec)
  {
    NotYetCommitted(start, w, id, codec);
    QuietStepKeepsInv(start, w, id, Finished(w.clients[id].op, NotApplied), codec);
  }

  lemma GetKeepsInv(start: Data, w: World, w': World, id: int, codec: Codec)
    requires Inv(start, w, codec) && Get(w, w', id)
    ensures Inv(start, w', codec)
  {
    assert ClientOk(start, w, id, codec);
    var c := w.clients[id];
    if w.cm.None? && !c.op.Put? {
      FinishKeepsInv(start, w, id, codec);
    } else {
      assert w.log[..|w.log|] == w.log;
      QuietStepKeepsInv(start, w, id, w'.clients[id], codec);
    }
  }

  lemma ConflictKeepsInv(start: Data, w: World, w': World, id: int, codec: Codec)
    requires Inv(start, w, codec) && Conflict(w, w', id, codec)
    ensures Inv(start, w', codec)
  {
    assert ClientOk(start, w, id, codec);
    QuietStepKeepsInv(start, w, id, w'.clients[id], codec);
  }

  lemma DivertedConflictKeepsInv(start: Data, w: World, w': World, id: int, codec: Codec)
    requires Inv(start, w, codec) && DivertedConflict(w, w', id, codec)
    ensures Inv(start, w', codec)
  {
    assert ClientOk(start, w, id, codec);
    QuietStepKeepsInv(start, w, id, w'.clients[id], codec);
  }

  lemma DeclineKeepsInv(start: Data, w: World, w': World, id: int, codec: Codec)
    requires Inv(start, w, codec) && Decline(w, w', id, codec)
    ensures Inv(start, w', codec)
  {
    NotYetCommitted(start, w, id, codec);
    assert ClientOk(start, w, id, codec);
    QuietStepKeepsInv(start, w, id, w'.clients[id], codec);
  }

  lemma CommitKeepsInv(start: Data, w: World, w': World, id: int, version: nat, codec: Codec)
    requires Inv(start, w, codec) && Commit(w, w', id, version, codec)
    ensures Inv(start, w', codec)
  {
    assert ClientOk(start, w, id, codec);
    assert w.log[..|w.log|] == w.log;
    CommittingStepKeepsInv(start, w, w', id, codec);
  }

  lemma CreateKeepsInv(start: Data, w: World, w': World, id: int, version: nat, codec: Codec)
    requires Inv(start, w, codec) && CreateMap(w, w', id, version)
    ensures Inv(start, w', codec)
  {
    if w.cm.Some? {
      FinishKeepsInv(start, w, id, codec);
    } else {
      CommittingStepKeepsInv(start, w, w', id, codec);
    }
  }

  lemma StepKeepsInv(start: Data, w: World, w': World, m: Move, codec: Codec)
    requires Inv(start, w, codec) && Step(w, w', m, codec)
    ensures Inv(start, w', codec)
  {
    if Begin(w, w', m.id, m.op) {
      BeginKeepsInv(start, w, w', m.id, m.op, codec);
    } else if Fail(w, w', m.id) {
      FinishKeepsInv(start, w, m.id, codec);
    } else if Decline(w, w', m.id, codec) {
      DeclineKeepsInv(start, w, w', m.id, codec);
    } else if Get(w, w', m.id) {
      GetKeepsInv(start, w, w', m.id, codec);
    } else if Commit(w, w', m.id, m.version, codec) {
      CommitKeepsInv(start, w, w', m.id, m.version, codec);
    } else if Conflict(w, w', m.id, codec) {
      ConflictKeepsInv(start, w, w', m.id, codec);
    } else if DivertedConflict(w, w', m.id, codec) {
      DivertedConflictKeepsInv(start, w, w', m.id, codec);
    } else {
      CreateKeepsInv(start, w, w', m.id, m.version, codec);
    }
  }

  lemma {:induction false} RunKeepsInv(ws: seq<World>, moves: seq<Move>, codec: Codec, n: nat)
    requires IsRun(ws, moves, codec) && n < |ws|
    ensures Inv(Contents(ws[0].cm), ws[n], codec)
  {
    if n == 0 {
      assert Replay(Contents(ws[0].cm), [], codec) == Contents(ws[0].cm);
    } else {
      RunKeepsInv(ws, moves, codec, n - 1);
      assert Step(ws[n - 1], ws[n - 1 + 1], moves[n - 1], codec);
      StepKeepsInv(Contents(ws[0].cm), ws[n - 1], ws[n], moves[n - 1], codec);
    }
  }

  // ---- The theorems --------------------------------------------------------------------------

  /** The operation reported success. */
  predicate Succeeded(c: Client) {
    c.Finished? && (c.result.Committed? || c.result.Diverted?)
  }

  /** After any run the configmap is what the committed operations leave when run one after another in
      the order in which they committed, and each of them really writes there.  An operation that
      reports success either is one of them, or found its definition annotated, at some point of that
      order, and left it to the annotation. */
  lemma RunIsSerial(ws: seq<World>, moves: seq<Move>, codec: Codec)
    requires IsRun(ws, moves, codec)
    ensures var start, w := Contents(ws[0].cm), ws[|ws| - 1];
            && Contents(w.cm) == Replay(start, w.log, codec)
            && Serial(start, w.log, codec)
            && (forall i | 0 <= i < |w.log| ::
                  w.log[i].id in w.clients && w.clients[w.log[i].id] == Finished(w.log[i].op, Committed(i)))
            && (forall id <- w.clients | Succeeded(w.clients[id]) :: Accounted(start, w, id, codec))
  {
    RunKeepsInv(ws, moves, codec, |ws| - 1);
    var start, w := Contents(ws[0].cm), ws[|ws| - 1];
    forall id <- w.clients | Succeeded(w.clients[id]) ensures Accounted(start, w, id, codec) {
      assert ClientOk(start, w, id, codec);
    }
  }

  ghost predicate Accounted(start: Data, w: World, id: int, codec: Codec)
    requires id in w.clients && Succeeded(w.clients[id])
  {
    var op, result := w.clients[id].op, w.clients[id].result;
    match result
    case Committed(i) => i < |w.log| && w.log[i] == Entry(id, op)
    case Diverted(seen) =>
      && seen <= |w.log| && EffectOf(op, Replay(start, w.log[..seen], codec), codec).Divert?
      && forall e <- w.log :: e.id != id
  }

  /** A create that must not overwrite never replaces a definition. */
  lemma CreateNeverReplaces(ws: seq<World>, moves: seq<Move>, codec: Codec, i: nat)
    requires IsRun(ws, moves, codec) && i < |ws[|ws| - 1].log|
    requires var op := ws[|ws| - 1].log[i].op; op.Put? && !op.overwrite
    ensures var log := ws[|ws| - 1].log;
            !Defined(Replay(Contents(ws[0].cm), log[..i], codec), log[i].op.address)
  {
    RunIsSerial(ws, moves, codec);
  }

  /** A conflict means that another operation committed between the read and the write. */
  lemma ConflictMeansAnotherCommitted(ws: seq<World>, moves: seq<Move>, codec: Codec, n: nat)
    requires IsRun(ws, moves, codec) && n < |moves| && Conflict(ws[n], ws[n + 1], moves[n].id, codec)
    ensures var w, id := ws[n], moves[n].id;
            var seen := w.clients[id].phase.seen;
            seen < |w.log| && forall i | seen <= i < |w.log| :: w.log[i].id != id
  {
    RunKeepsInv(ws, moves, codec, n);
    assert ClientOk(Contents(ws[0].cm), ws[n], moves[n].id, codec);
  }

  /** An operation that gives up after its 100 attempts was overtaken at least 100 times: by commits of
      others, except where it met with a conflict over the annotated service. */
  lemma GivingUpMeansOvertaken(ws: seq<World>, moves: seq<Move>, codec: Codec, id: int)
    requires IsRun(ws, moves, codec)
    requires var w := ws[|ws| - 1];
             id in w.clients && w.clients[id].Finished? && w.clients[id].result.Conflicted? && Retries(w.clients[id].op)
    ensures var w := ws[|ws| - 1];
            var r := w.clients[id].result;
            && r.after - r.before + r.outside >= MAX_ATTEMPTS && r.before <= r.after <= |w.log|
            && forall i | r.before <= i < r.after :: w.log[i].id != id
  {
    RunKeepsInv(ws, moves, codec, |ws| - 1);
    assert ClientOk(Contents(ws[0].cm), ws[|ws| - 1], id, codec);
  }

  // ---- Operations on different addresses -----------------------------------------------------

  ghost function OnAddress(log: seq<Entry>, a: string): seq<Entry> {
    if log == [] then []
    else
      var n := |log| - 1;
      OnAddress(log[..n], a) + (if log[n].op.address == a then [log[n]] else [])
  }

  ghost function Lookup(data: Data, a: string): Option<string> {
    if a in data then Some(data[a]) else None
  }

  /** What an operation does to its own address depends on that address only; it leaves the others. */
  lemma EffectIsLocal(op: Op, d: Data, d': Data, a: string, codec: Codec)
    ensures op.address != a ==> Lookup(Applied(d, op, codec), a) == Lookup(d, a)
    ensures op.address == a && Lookup(d, a) == Lookup(d', a) ==>
              Lookup(Applied(d, op, codec), a) == Lookup(Applied(d', op, codec), a)
  {
  }

  lemma {:induction false} ReplayIsPerAddress(start: Data, log: seq<Entry>, a: string, codec: Codec)
    ensures Lookup(Replay(start, log, codec), a) == Lookup(Replay(start, OnAddress(log, a), codec), a)
  {
    if log != [] {
      var n := |log| - 1;
      var mine := OnAddress(log[..n], a);
      ReplayIsPerAddress(start, log[..n], a, codec);
      EffectIsLocal(log[n].op, Replay(start, log[..n], codec), Replay(start, mine, codec), a, codec);
      if log[n].op.address == a {
        ReplaySnoc(start, mine, log[n], codec);
      } else {
        assert OnAddress(log, a) == mine;
      }
    }
  }

  /** No update is lost: after any run, what an address holds is what the committed operations on that
      address alone leave; those on other addresses, however interleaved, make no difference. */
  lemma NoUpdateIsLost(ws: seq<World>, moves: seq<Move>, codec: Codec, a: string)
    requires IsRun(ws, moves, codec)
    ensures var w := ws[|ws| - 1];
            Lookup(Contents(w.cm), a) == Lookup(Replay(Contents(ws[0].cm), OnAddress(w.log, a), codec), a)
  {
    RunIsSerial(ws, moves, codec);
    ReplayIsPerAddress(Contents(ws[0].cm), ws[|ws| - 1].log, a, codec);
  }

  // ---- What the operations leave -------------------------------------------------------------

  /** A target that unbinding `name` in `namespace` is about: a workload of that name in that namespace,
      or a service of that name. */
  ghost predicate About(t: Target, name: string, namespace: string) {
    if t.service == "" && t.name == name && t.namespace == namespace then true
    else t.service == name && t.namespace == ""
  }

  /** `kept` is what is left of `targets` without those that the unbinding is about, in order: `from` says
      where each comes from. */
  ghost predicate Without(kept: seq<Target>, targets: seq<Target>, name: string, namespace: string, from: seq<int>) {
    && |from| == |kept| && (forall i, j | 0 <= i < j < |from| :: from[i] < from[j])
    && (forall j | 0 <= j < |from| :: 0 <= from[j] < |targets| && kept[j] == targets[from[j]])
    && (forall i | 0 <= i < |targets| :: i in from <==> !About(targets[i], name, namespace))
  }

  lemma {:induction false} KeptIsWithout(targets: seq<Target>, name: string, namespace: string) returns (from: seq<int>)
    ensures Without(Kept(targets, name, namespace), targets, name, namespace, from)
  {
    from := [];
    if targets != [] {
      var n := |targets| - 1;
      var before := KeptIsWithout(targets[..n], name, namespace);
      from := before + if About(targets[n], name, namespace) then [] else [n];
      WithoutOneMore(Kept(targets[..n], name, namespace), targets, name, namespace, before, from);
    }
  }

  lemma WithoutOneMore(kept: seq<Target>, targets: seq<Target>, name: string, namespace: string, before: seq<int>,
                       from: seq<int>)
    requires targets != [] && Without(kept, targets[..|targets| - 1], name, namespace, before)
    requires from == before + if About(targets[|targets| - 1], name, namespace) then [] else [|targets| - 1]
    ensures var t := targets[|targets| - 1];
            Without(kept + (if About(t, name, namespace) then [] else [t]), targets, name, namespace, from)
  {
    var n := |targets| - 1;
    assert forall i | 0 <= i < n :: targets[..n][i] == targets[i];
    assert n !in before;
    forall i | 0 <= i < |targets| ensures i in from <==> !About(targets[i], name, namespace) {
      assert i in from <==> i in before || (i == n && !About(targets[n], name, namespace));
    }
  }

  /** What a committed operation makes of the text at its address: an added or updated definition is
      there, a removed one is not, and an unbound one is as it was but for the targets the unbinding is
      about, of which there was one, or has gone if it has no target left and that was asked for. */
  ghost predicate Leaves(op: Op, before: Option<string>, after: Option<string>, codec: Codec) {
    match op
    case Put(_, encoded, _) => after == Some(encoded)
    case Remove(_, _) => after == None
    case Unbind(_, name, namespace, deleteIfNoTargets, _) =>
      && before.Some? && codec.decode(before.value).Some?
      && exists kept, from ::
           var def := codec.decode(before.value).value;
           && Without(kept, def.targets, name, namespace, from) && |kept| < |def.targets|
           && after == if kept == [] && deleteIfNoTargets then None else Some(codec.encode(def.(targets := kept)))
  }

  lemma WrittenLeaves(op: Op, data: Data, codec: Codec)
    requires EffectOf(op, data, codec).Write?
    ensures Leaves(op, Lookup(data, op.address), Lookup(Applied(data, op, codec), op.address), codec)
  {
    if op.Unbind? {
      var def := codec.decode(data[op.address]).value;
      var from := KeptIsWithout(def.targets, op.target, op.namespace);
      var kept := Kept(def.targets, op.target, op.namespace);
      ShorterOrSame(def.targets, op.target, op.namespace);
      assert Without(kept, def.targets, op.target, op.namespace, from) && |kept| < |def.targets|;
    }
  }

  lemma {:induction false} ShorterOrSame(targets: seq<Target>, name: string, namespace: string)
    ensures |Kept(targets, name, namespace)| <= |targets|
    ensures |Kept(targets, name, namespace)| < |targets| <==> Kept(targets, name, namespace) != targets
    ensures Kept(targets, name, namespace) == targets <==> forall t <- targets :: !About(t, name, namespace)
  {
    if targets != [] {
      var n := |targets| - 1;
      var before, kept := targets[..n], Kept(targets, name, namespace);
      ShorterOrSame(before, name, namespace);
      assert targets == before + [targets[n]];
      assert forall t :: t in targets <==> t in before || t == targets[n];
      if !About(targets[n], name, namespace) {
        assert kept[..|kept| - 1] == Kept(before, name, namespace);
        assert targets[..n] == before;
      }
    }
  }

  /** When an operation writes: adding, unless there is a definition that must not be overwritten;
      removing, where there is one that is not left to the annotation; unbinding, where there is one that
      can be read, is not left to the annotation and has a target that the unbinding is about. */
  lemma WritesExactlyWhen(op: Op, data: Data, codec: Codec)
    ensures var a := op.address;
            var def := if a in data then codec.decode(data[a]) else None;
            var present := a in data && data[a] != "";
            var elsewhere := !op.Put? && op.diverted && def.Some? && def.value.origin == "annotation";
            && (EffectOf(op, data, codec).Write? <==>
                match op
                case Put(_, _, overwrite) => overwrite || !present
                case Remove(_, _) => present && !elsewhere
                case Unbind(_, name, namespace, _, _) =>
                  present && !elsewhere && def.Some? && exists t <- def.value.targets :: About(t, name, namespace))
            && (EffectOf(op, data, codec).Divert? <==> present && elsewhere)
  {
    if op.Unbind? && op.address in data && codec.decode(data[op.address]).Some? {
      ShorterOrSame(codec.decode(data[op.address]).value.targets, op.target, op.namespace);
    }
  }

  /** After any run each committed operation has left at its address what it is for. */
  lemma CommittedLeaves(ws: seq<World>, moves: seq<Move>, codec: Codec, i: nat)
    requires IsRun(ws, moves, codec) && i < |ws[|ws| - 1].log|
    ensures var start, log := Contents(ws[0].cm), ws[|ws| - 1].log;
            var a := log[i].op.address;
            Leaves(log[i].op, Lookup(Replay(start, log[..i], codec), a), Lookup(Replay(start, log[..i + 1], codec), a),
                   codec)
  {
    RunIsSerial(ws, moves, codec);
    SerialLeaves(Contents(ws[0].cm), ws[|ws| - 1].log, codec, i);
  }

  lemma SerialLeaves(start: Data, log: seq<Entry>, codec: Codec, i: nat)
    requires Serial(start, log, codec) && i < |log|
    ensures var a := log[i].op.address;
            Leaves(log[i].op, Lookup(Replay(start, log[..i], codec), a), Lookup(Replay(start, log[..i + 1], codec), a),
                   codec)
  {
    var op, data := log[i].op, Replay(start, log[..i], codec);
    assert log[..i + 1] == log[..i] + [log[i]];
    ReplaySnoc(start, log[..i], log[i], codec);
    assert EffectOf(op, data, codec).Write?;
    WrittenLeaves(op, data, codec);
  }

  lemma {:induction false} ReplayElsewhere(start: Data, log: seq<Entry>, n: nat, a: string, codec: Codec)
    requires n <= |log| && forall j | n <= j < |log| :: log[j].op.address != a
    ensures Lookup(Replay(start, log, codec), a) == Lookup(Replay(start, log[..n], codec), a)
  {
    if n == |log| {
      assert log[..n] == log;
    } else {
      var m := |log| - 1;
      ReplayElsewhere(start, log[..m], n, a, codec);
      assert log[..m][..n] == log[..n];
      EffectIsLocal(log[m].op, Replay(start, log[..m], codec), map[], a, codec);
    }
  }

  /** So after any run the configmap has at an address what the last operation that committed there left:
      nothing after a removal, the text given after an addition. */
  lemma LastCommittedTells(ws: seq<World>, moves: seq<Move>, codec: Codec, i: nat)
    requires IsRun(ws, moves, codec) && i < |ws[|ws| - 1].log|
    requires var log := ws[|ws| - 1].log; forall j | i < j < |log| :: log[j].op.address != log[i].op.address
    ensures var start, w := Contents(ws[0].cm), ws[|ws| - 1];
            var a := w.log[i].op.address;
            Leaves(w.log[i].op, Lookup(Replay(start, w.log[..i], codec), a), Lookup(Contents(w.cm), a), codec)
  {
    CommittedLeaves(ws, moves, codec, i);
    RunIsSerial(ws, moves, codec);
    var log := ws[|ws| - 1].log;
    ReplayElsewhere(Contents(ws[0].cm), log, i + 1, log[i].op.address, codec);
  }

  /** After a conflict an addition or a removal starts again, up to 100 times in all; an unbinding fails. */
  lemma ConflictTells(c: Client, committed: nat, outside: bool)
    requires c.Running?
    ensures var c' := Again(c, committed, outside);
            && c'.op == c.op
            && (c'.Running? <==> !c.op.Unbind? && c.attempts < 99)
            && (c'.Running? ==> c'.phase == Start && c'.attempts == c.attempts + 1)
            && (c'.Finished? ==> c'.result.Conflicted?)
  {
  }
}
