/** Replacing a podman container: client/podman/container.go (`ContainerUpdate`) over the container
    store of client/podman/container_mock.go.

    `ContainerUpdate` is a saga: each step that succeeds defers a compensation, and on an error the
    deferred compensations run last-in first-out.  Every call may be made to fail before it has any
    effect, the compensations too. */
module Containers {
  import opened Prelude

  datatype Container = Container(id: string, name: string, spec: string, running: bool)

  /** What a caller may customise: the name (which it must not) and the rest. */
  datatype Draft = Draft(name: string, spec: string)

  // ---- The store, on values ------------------------------------------------------------------

  predicate Answers(c: Container, key: string) {
    c.name == key || c.id == key
  }

  /** Index of the first container with this name or ID, or the length if there is none. */
  function Find(s: seq<Container>, key: string): (k: nat)
    ensures k <= |s|
    ensures forall j | 0 <= j < k :: !Answers(s[j], key)
    ensures k < |s| ==> Answers(s[k], key)
  {
    if s == [] || Answers(s[0], key) then 0 else 1 + Find(s[1..], key)
  }

  ghost predicate HasName(s: seq<Container>, name: string) {
    exists k :: 0 <= k < |s| && s[k].name == name
  }

  function WithRunning(s: seq<Container>, key: string, running: bool): seq<Container> {
    var k := Find(s, key);
    if k < |s| then s[k := s[k].(running := running)] else s
  }

  function Without(s: seq<Container>, key: string): seq<Container> {
    var k := Find(s, key);
    if k < |s| then s[..k] + s[k + 1..] else s
  }

  /** Names are unique; IDs are unique, hold no dash, and are nobody's name. */
  ghost predicate Good(s: seq<Container>) {
    && (forall j, k | 0 <= j < k < |s| :: s[j].name != s[k].name && s[j].id != s[k].id)
    && (forall j, k | 0 <= j < |s| && 0 <= k < |s| :: s[j].id != s[k].name)
    && (forall j | 0 <= j < |s| :: '-' !in s[j].id)
  }

  /** A container is found by its name and by its ID. */
  lemma FoundByNameAndId(s: seq<Container>, k: nat)
    requires Good(s) && k < |s|
    ensures Find(s, s[k].name) == Find(s, s[k].id) == k
  {
    var byName, byId := Find(s, s[k].name), Find(s, s[k].id);
    assert Answers(s[k], s[k].name) && Answers(s[k], s[k].id);
  }

  // ---- The calls that ContainerUpdate makes --------------------------------------------------

  datatype Call =
    | Inspect | Create | StopOld | RenameOld | RenameNew | StartNew | RemoveBackup
    | UndoRenameNew | UndoRenameOld | UndoStopOld | UndoCreateStop | UndoCreateRemove

  /** Which calls are made to fail. */
  type Faults = Call -> bool

  /** A deferred compensation. */
  datatype Deferred = DeferCreate | DeferStop | DeferRenameOld | DeferRenameNew

  class Podman {
    var containers: seq<Container>
    /** The store after every call, oldest first. */
    ghost var history: seq<seq<Container>>

    constructor (initial: seq<Container>)
      ensures containers == initial && history == []
    {
      containers := initial;
      history := [];
    }

    method ContainerCreate(draft: Draft, id: string, fail: bool) returns (ok: bool)
      modifies this
      ensures ok <==> !fail && !HasName(old(containers), draft.name)
      ensures containers == old(containers) + (if ok then [Container(id, draft.name, draft.spec, false)] else [])
      ensures history == old(history) + [containers]
    {
      ok := !fail;
      if ok {
        for k := 0 to |containers|
          invariant ok && containers == old(containers) && history == old(history)
          invariant forall j | 0 <= j < k :: containers[j].name != draft.name
        {
          if containers[k].name == draft.name {
            history := history + [containers];
            return false;
          }
        }
        containers := containers + [Container(id, draft.name, draft.spec, false)];
      }
      history := history + [containers];
    }

    /** The current name must exist: the source dereferences what it found. */
    method ContainerRename(currentName: string, newName: string, fail: bool, ghost k: nat) returns (ok: bool)
      requires k < |containers| && containers[k].name == currentName
      requires forall j | 0 <= j < |containers| && j != k :: containers[j].name != currentName
      modifies this
      ensures ok <==> !fail && !HasName(old(containers), newName)
      ensures containers == if ok then old(containers)[k := old(containers)[k].(name := newName)] else old(containers)
      ensures history == old(history) + [containers]
    {
      ok := !fail;
      if ok {
        var found := |containers|;
        for j := 0 to |containers|
          invariant ok && containers == old(containers) && history == old(history)
          invariant forall i | 0 <= i < j :: containers[i].name != newName
          invariant found == if k < j then k else |containers|
        {
          if containers[j].name == newName {
            history := history + [containers];
            return false;
          } else if containers[j].name == currentName {
            found := j;
          }
        }
        containers := containers[found := containers[found].(name := newName)];
      }
      history := history + [containers];
    }

    method Locate(key: string) returns (k: nat)
      ensures k == Find(containers, key)
    {
      k := 0;
      while k < |containers|
        invariant k <= |containers|
        invariant k + Find(containers[k..], key) == Find(containers, key)
      {
        assert containers[k..][1..] == containers[k + 1..];
        if containers[k].name == key || containers[k].id == key {
          return;
        }
        k := k + 1;
      }
    }

    method ContainerStart(key: string, fail: bool) returns (ok: bool)
      modifies this
      ensures ok <==> !fail && Find(old(containers), key) < |old(containers)|
      ensures containers == if ok then WithRunning(old(containers), key, true) else old(containers)
      ensures history == old(history) + [containers]
    {
      ok := false;
      if !fail {
        var k := Locate(key);
        if k < |containers| {
          if !containers[k].running {
            containers := containers[k := containers[k].(running := true)];
          }
          ok := true;
        }
      }
      history := history + [containers];
    }

    method ContainerStop(key: string, fail: bool) returns (ok: bool)
      modifies this
      ensures ok <==> !fail && Find(old(containers), key) < |old(containers)|
      ensures containers == if ok then WithRunning(old(containers), key, false) else old(containers)
      ensures history == old(history) + [containers]
    {
      ok := false;
      if !fail {
        var k := Locate(key);
        if k < |containers| {
          if containers[k].running {
            containers := containers[k := containers[k].(running := false)];
          }
          ok := true;
        }
      }
      history := history + [containers];
    }

    method ContainerRemove(key: string, fail: bool) returns (ok: bool)
      modifies this
      ensures ok <==> !fail && Find(old(containers), key) < |old(containers)|
      ensures containers == if ok then Without(old(containers), key) else old(containers)
      ensures history == old(history) + [containers]
    {
      ok := false;
      if !fail {
        var k := Locate(key);
        if k < |containers| {
          containers := containers[..k] + containers[k + 1..];
          ok := true;
        }
      }
      history := history + [containers];
    }
  }
}
