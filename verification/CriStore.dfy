/** Persistent CRI state (src/cri/src/persistent_store.rs, state.rs, container.rs, sandbox.rs).

    Mutations run one at a time.  A file is either a complete serialized state or torn. */
module CriStore {
  import opened Common

  datatype ContainerState = Created | Running | Exited

  datatype SandboxState = Ready | NotReady | Removed

  /** `about` stands for the fields that no operation here reads or writes. */
  datatype Container = Container(id: string, sandboxId: string, state: ContainerState, startedAt: int,
                                 finishedAt: int, exitCode: int, oomKilled: bool, about: string)

  datatype Sandbox = Sandbox(id: string, state: SandboxState, about: string)

  datatype Memory = Memory(sandboxes: map<string, Sandbox>, containers: map<string, Container>)

  const EMPTY_MEMORY := Memory(map[], map[])

  /** Every record is stored under its own identifier. */
  ghost predicate Keyed(m: Memory) {
    && (forall k :: k in m.sandboxes ==> m.sandboxes[k].id == k)
    && (forall k :: k in m.containers ==> m.containers[k].id == k)
  }

  // ---------------------------------------------------------------- mutations

  datatype Op =
    | AddSandbox(sandbox: Sandbox)
    | UpdateSandboxState(id: string, sandboxState: SandboxState)
    | RemoveSandbox(id: string)
    | AddContainer(container: Container)
    | MarkStarted(id: string, at: int)
    | MarkStartedIfCreated(id: string, at: int)
    | MarkExited(id: string, at: int, code: int)
    | MarkExitedIfRunning(id: string, at: int, code: int, oom: bool)
    | RemoveContainer(id: string)
    | RemoveBySandbox(id: string)

  function Doomed(m: Memory, sandboxId: string): set<string> {
    set k | k in m.containers && m.containers[k].sandboxId == sandboxId :: m.containers[k].id
  }

  /** Whether the operation changes the stores, and so is persisted. */
  predicate Changes(m: Memory, op: Op) {
    match op
    case AddSandbox(_) => true
    case UpdateSandboxState(id, _) => id in m.sandboxes
    case RemoveSandbox(id) => id in m.sandboxes
    case AddContainer(_) => true
    case MarkStarted(id, _) => id in m.containers
    case MarkStartedIfCreated(id, _) => id in m.containers && m.containers[id].state == Created
    case MarkExited(id, _, _) => id in m.containers
    case MarkExitedIfRunning(id, _, _, _) => id in m.containers && m.containers[id].state == Running
    case RemoveContainer(id) => id in m.containers
    case RemoveBySandbox(id) => Doomed(m, id) != {}
  }

  function Put(m: Memory, c: Container, id: string): Memory {
    m.(containers := m.containers[id := c])
  }

  function Apply(m: Memory, op: Op): Memory {
    if !Changes(m, op) then m
    else match op
      case AddSandbox(sb) => m.(sandboxes := m.sandboxes[sb.id := sb])
      case UpdateSandboxState(id, st) => m.(sandboxes := m.sandboxes[id := m.sandboxes[id].(state := st)])
      case RemoveSandbox(id) => m.(sandboxes := m.sandboxes - {id})
      case AddContainer(c) => Put(m, c, c.id)
      case MarkStarted(id, at) => Put(m, m.containers[id].(state := Running, startedAt := at), id)
      case MarkStartedIfCreated(id, at) => Put(m, m.containers[id].(state := Running, startedAt := at), id)
      case MarkExited(id, at, code) =>
        Put(m, m.containers[id].(state := Exited, finishedAt := at, exitCode := code), id)
      case MarkExitedIfRunning(id, at, code, oom) =>
        Put(m, m.containers[id].(state := Exited, finishedAt := at, exitCode := code, oomKilled := oom), id)
      case RemoveContainer(id) => m.(containers := m.containers - {id})
      case RemoveBySandbox(id) => m.(containers := m.containers - Doomed(m, id))
  }

  lemma ApplyKeepsKeys(m: Memory, op: Op)
    requires Keyed(m)
    ensures Keyed(Apply(m, op))
  {}

  // ---------------------------------------------------------------- what each mutation does to a record

  /** Nothing changed but the container with this identifier. */
  ghost predicate OnlyContainer(m: Memory, after: Memory, id: string) {
    && after.sandboxes == m.sandboxes
    && forall k :: k != id ==>
      && (k in after.containers <==> k in m.containers)
      && (k in m.containers ==> after.containers[k] == m.containers[k])
  }

  /** Nothing changed but the sandbox with this identifier. */
  ghost predicate OnlySandbox(m: Memory, after: Memory, id: string) {
    && after.containers == m.containers
    && forall k :: k != id ==>
      && (k in after.sandboxes <==> k in m.sandboxes)
      && (k in m.sandboxes ==> after.sandboxes[k] == m.sandboxes[k])
  }

  /** The fields that no transition touches. */
  predicate SameContainer(a: Container, b: Container) {
    a.id == b.id && a.sandboxId == b.sandboxId && a.about == b.about
  }

  /** A start puts the container in the running state with its start time and keeps the rest; the
      guarded one does so from the created state only. */
  lemma StartEffect(m: Memory, id: string, at: int, guarded: bool)
    ensures var after := Apply(m, if guarded then MarkStartedIfCreated(id, at) else MarkStarted(id, at));
            if id in m.containers && (guarded ==> m.containers[id].state == Created) then
              && OnlyContainer(m, after, id) && id in after.containers
              && var c, d := m.containers[id], after.containers[id];
              && d.state == Running && d.startedAt == at && SameContainer(c, d)
              && d.finishedAt == c.finishedAt && d.exitCode == c.exitCode && d.oomKilled == c.oomKilled
            else after == m
  {}

  /** An exit puts the container in the exited state with its finish time and exit code and keeps
      the start; the guarded one does so from the running state only and records the OOM flag. */
  lemma ExitEffect(m: Memory, id: string, at: int, code: int, oom: bool, guarded: bool)
    ensures var after := Apply(m, if guarded then MarkExitedIfRunning(id, at, code, oom) else MarkExited(id, at, code));
            if id in m.containers && (guarded ==> m.containers[id].state == Running) then
              && OnlyContainer(m, after, id) && id in after.containers
              && var c, d := m.containers[id], after.containers[id];
              && d.state == Exited && d.finishedAt == at && d.exitCode == code && SameContainer(c, d)
              && d.startedAt == c.startedAt && d.oomKilled == if guarded then oom else c.oomKilled
            else after == m
  {}

  /** Adding stores exactly the given record, and removing removes exactly the named one. */
  lemma AddAndRemoveEffect(m: Memory, c: Container, sb: Sandbox, id: string)
    ensures var after := Apply(m, AddContainer(c));
            OnlyContainer(m, after, c.id) && c.id in after.containers && after.containers[c.id] == c
    ensures var after := Apply(m, AddSandbox(sb));
            OnlySandbox(m, after, sb.id) && sb.id in after.sandboxes && after.sandboxes[sb.id] == sb
    ensures var after := Apply(m, RemoveContainer(id)); OnlyContainer(m, after, id) && id !in after.containers
    ensures var after := Apply(m, RemoveSandbox(id)); OnlySandbox(m, after, id) && id !in after.sandboxes
  {}

  /** A sandbox that is there gets the new state and keeps the rest; another one does not appear. */
  lemma UpdateEffect(m: Memory, id: string, st: SandboxState)
    ensures var after := Apply(m, UpdateSandboxState(id, st));
            && OnlySandbox(m, after, id) && (id in after.sandboxes <==> id in m.sandboxes)
            && (id in m.sandboxes ==>
                  && after.sandboxes[id].state == st && after.sandboxes[id].id == m.sandboxes[id].id
                  && after.sandboxes[id].about == m.sandboxes[id].about)
  {}

  /** Every container of the sandbox goes, and no other. */
  lemma SandboxEffect(m: Memory, id: string)
    requires Keyed(m)
    ensures var after := Apply(m, RemoveBySandbox(id));
            && after.sandboxes == m.sandboxes
            && (forall k :: k in after.containers <==> k in m.containers && m.containers[k].sandboxId != id)
            && (forall k :: k in after.containers ==> after.containers[k] == m.containers[k])
  {
    forall k | k in m.containers && m.containers[k].sandboxId == id ensures k in Doomed(m, id) {
      assert m.containers[k].id == k;
    }
  }

  // ---------------------------------------------------------------- snapshots

  datatype PersistedState = PersistedState(sandboxes: seq<Sandbox>, containers: seq<Container>)

  function SandboxMap(s: seq<Sandbox>): map<string, Sandbox> {
    if s == [] then map[] else SandboxMap(s[..|s| - 1])[s[|s| - 1].id := s[|s| - 1]]
  }

  function ContainerMap(s: seq<Container>): map<string, Container> {
    if s == [] then map[] else ContainerMap(s[..|s| - 1])[s[|s| - 1].id := s[|s| - 1]]
  }

  /** `load` adds the persisted records one after the other to empty stores. */
  function Restored(p: PersistedState): Memory {
    Memory(SandboxMap(p.sandboxes), ContainerMap(p.containers))
  }

  /** The lists hold exactly the records of the stores, in any order. */
  ghost predicate IsSnapshot(p: PersistedState, m: Memory) {
    && (forall x :: x in p.sandboxes <==> x.id in m.sandboxes && m.sandboxes[x.id] == x)
    && (forall x :: x in p.containers <==> x.id in m.containers && m.containers[x.id] == x)
  }

  lemma {:induction false} SandboxMapHas(s: seq<Sandbox>, m: map<string, Sandbox>)
    requires forall x :: x in s ==> x.id in m && m[x.id] == x
    ensures forall k :: k in SandboxMap(s) <==> k in m && m[k] in s && m[k].id == k
    ensures forall k :: k in SandboxMap(s) ==> SandboxMap(s)[k] == m[k]
  {
    if s != [] {
      var before, x := s[..|s| - 1], s[|s| - 1];
      assert s == before + [x];
      SandboxMapHas(before, m);
    }
  }

  lemma {:induction false} ContainerMapHas(s: seq<Container>, m: map<string, Container>)
    requires forall x :: x in s ==> x.id in m && m[x.id] == x
    ensures forall k :: k in ContainerMap(s) <==> k in m && m[k] in s && m[k].id == k
    ensures forall k :: k in ContainerMap(s) ==> ContainerMap(s)[k] == m[k]
  {
    if s != [] {
      var before, x := s[..|s| - 1], s[|s| - 1];
      assert s == before + [x];
      ContainerMapHas(before, m);
    }
  }

  /** Whatever the order of the lists, loading a snapshot gives back the stores. */
  lemma SnapshotRoundTrip(p: PersistedState, m: Memory)
    requires Keyed(m) && IsSnapshot(p, m)
    ensures Restored(p) == m
  {
    SandboxMapHas(p.sandboxes, m.sandboxes);
    ContainerMapHas(p.containers, m.containers);
    assert SandboxMap(p.sandboxes) == m.sandboxes;
    assert ContainerMap(p.containers) == m.containers;
  }

  // ---------------------------------------------------------------- the state file

  datatype File = Complete(state: PersistedState) | Torn

  datatype Disk = Disk(current: Option<File>, tmp: Option<File>)

  /** `JsonStateStore::load`; `None` is a file that does not parse. */
  function LoadDisk(d: Disk): Option<Memory> {
    match d.current
    case None => Some(EMPTY_MEMORY)
    case Some(Torn) => None
    case Some(Complete(p)) => Some(Restored(p))
  }

  /** The records a mutator returns because it removed them. */
  datatype Gone = Gone(sandboxes: seq<Sandbox>, containers: seq<Container>)

  /** Exactly the records that were stored before and whose identifier is no longer, each once. */
  ghost predicate IsGone(r: Gone, before: Memory, after: Memory) {
    && NoDuplicates(r.sandboxes) && NoDuplicates(r.containers)
    && (forall x :: x in r.sandboxes <==>
          x.id in before.sandboxes && before.sandboxes[x.id] == x && x.id !in after.sandboxes)
    && (forall x :: x in r.containers <==>
          x.id in before.containers && before.containers[x.id] == x && x.id !in after.containers)
  }

  class PersistentCriStore {
    var memory: Memory
    var disk: Disk

    /** The file holds what is in memory. */
    ghost predicate Synced()
      reads this
    {
      Keyed(memory) && LoadDisk(disk) == Some(memory)
    }

    constructor (disk: Disk)
      ensures memory == EMPTY_MEMORY && this.disk == disk
    {
      memory, this.disk := EMPTY_MEMORY, disk;
    }

    /** After a restart: the records of the file are added to the empty stores, one by one. */
    method Load() returns (ok: bool)
      requires memory == EMPTY_MEMORY
      modifies this`memory
      ensures ok <==> LoadDisk(disk).Some?
      ensures ok ==> Some(memory) == LoadDisk(disk)
      ensures ok <==> disk.current != Some(Torn)
      ensures disk.current.None? ==> memory == EMPTY_MEMORY
    {
      if disk.current.None? {
        return true;
      }
      if disk.current.value.Torn? {
        return false;
      }
      var p := disk.current.value.state;
      for i := 0 to |p.sandboxes|
        invariant memory == Memory(SandboxMap(p.sandboxes[..i]), map[])
      {
        assert p.sandboxes[..i + 1][..i] == p.sandboxes[..i];
        memory := memory.(sandboxes := memory.sandboxes[p.sandboxes[i].id := p.sandboxes[i]]);
      }
      assert p.sandboxes[..|p.sandboxes|] == p.sandboxes;
      for i := 0 to |p.containers|
        invariant memory == Memory(SandboxMap(p.sandboxes), ContainerMap(p.containers[..i]))
      {
        assert p.containers[..i + 1][..i] == p.containers[..i];
        memory := memory.(containers := memory.containers[p.containers[i].id := p.containers[i]]);
      }
      assert p.containers[..|p.containers|] == p.containers;
      ok := true;
    }

    /** `list(None)` on both stores, in whatever order the maps yield their values. */
    method Snapshot() returns (p: PersistedState)
      requires Keyed(memory)
      ensures IsSnapshot(p, memory)
    {
      var sandboxes: seq<Sandbox>, containers: seq<Container> := [], [];
      var rest := memory.sandboxes.Keys;
      while rest != {}
        invariant rest <= memory.sandboxes.Keys
        invariant forall x :: x in sandboxes <==>
          x.id in memory.sandboxes && memory.sandboxes[x.id] == x && x.id !in rest
      {
        var k :| k in rest;
        sandboxes, rest := sandboxes + [memory.sandboxes[k]], rest - {k};
      }
      rest := memory.containers.Keys;
      while rest != {}
        invariant rest <= memory.containers.Keys
        invariant forall x :: x in containers <==>
          x.id in memory.containers && memory.containers[x.id] == x && x.id !in rest
      {
        var k :| k in rest;
        containers, rest := containers + [memory.containers[k]], rest - {k};
      }
      p := PersistedState(sandboxes, containers);
    }

    method WriteTmp(p: PersistedState)
      modifies this`disk
      ensures disk == DiskAfter(old(disk), p, BeforeRename)
    {
      disk := disk.(tmp := Some(Complete(p)));
    }

    method Rename(ghost was: Disk, ghost p: PersistedState)
      requires disk == DiskAfter(was, p, BeforeRename)
      modifies this`disk
      ensures disk == DiskAfter(was, p, AfterRename)
    {
      disk := Disk(disk.tmp, None);
    }

    /** Write the temporary file, then rename it into place. */
    method Persist() returns (p: PersistedState)
      requires Keyed(memory)
      modifies this`disk
      ensures IsSnapshot(p, memory) && disk == DiskAfter(old(disk), p, NoCrash)
      ensures Synced()
    {
      p := Snapshot();
      WriteTmp(p);
      Rename(old(disk), p);
      SnapshotRoundTrip(p, memory);
    }

    /** Every mutator: change the stores, and persist if anything changed.  This is the step of a
        run without a crash; `removed` is what disappeared. */
    method Mutate(op: Op) returns (changed: bool, removed: Gone, ghost p: PersistedState)
      requires Synced()
      modifies this
      ensures Synced() && changed == Changes(old(memory), op)
      ensures IsSnapshot(p, Apply(old(memory), op))
      ensures Step(System(old(memory), old(disk)), Event(op, p, NoCrash), System(memory, disk))
      ensures IsGone(removed, old(memory), memory)
    {
      ApplyKeepsKeys(memory, op);
      changed, removed := Change(op);
      if changed {
        p := Persist();
      } else {
        p := Snapshot();
      }
    }

    /** The change that `SandboxStore` and `ContainerStore` make. */
    method Change(op: Op) returns (changed: bool, removed: Gone)
      requires Keyed(memory)
      modifies this`memory
      ensures memory == Apply(old(memory), op) && changed == Changes(old(memory), op)
      ensures IsGone(removed, old(memory), memory)
    {
      changed, removed := true, Gone([], []);
      match op {
        case AddSandbox(sb) =>
          memory := memory.(sandboxes := memory.sandboxes[sb.id := sb]);
        case UpdateSandboxState(id, st) =>
          if id in memory.sandboxes {
            var sb := memory.sandboxes[id];
            memory := memory.(sandboxes := memory.sandboxes[id := sb.(state := st)]);
          } else {
            changed := false;
          }
        case RemoveSandbox(id) =>
          if id in memory.sandboxes {
            removed := Gone([memory.sandboxes[id]], []);
            memory := memory.(sandboxes := memory.sandboxes - {id});
          } else {
            changed := false;
          }
        case AddContainer(c) =>
          memory := memory.(containers := memory.containers[c.id := c]);
        case RemoveContainer(id) =>
          if id in memory.containers {
            removed := Gone([], [memory.containers[id]]);
            memory := memory.(containers := memory.containers - {id});
          } else {
            changed := false;
          }
        case RemoveBySandbox(id) =>
          var gone := RemoveAllOf(id);
          changed, removed := gone != [], Gone([], gone);
        case _ =>
          changed := Mark(op);
      }
    }

    /** The four transitions of a container. */
    method Mark(op: Op) returns (changed: bool)
      requires op.MarkStarted? || op.MarkStartedIfCreated? || op.MarkExited? || op.MarkExitedIfRunning?
      modifies this`memory
      ensures memory == Apply(old(memory), op) && changed == Changes(old(memory), op)
    {
      if op.id !in memory.containers {
        return false;
      }
      var c := memory.containers[op.id];
      if op.MarkStartedIfCreated? && c.state != Created {
        return false;
      }
      if op.MarkExitedIfRunning? && c.state != Running {
        return false;
      }
      if op.MarkStarted? || op.MarkStartedIfCreated? {
        c := c.(state := Running, startedAt := op.at);
      } else {
        c := c.(state := Exited, finishedAt := op.at, exitCode := op.code);
        if op.MarkExitedIfRunning? {
          c := c.(oomKilled := op.oom);
        }
      }
      memory := memory.(containers := memory.containers[op.id := c]);
      changed := true;
    }

    /** `remove_by_sandbox`: collect the identifiers first, then remove them one by one. */
    method RemoveAllOf(sandboxId: string) returns (gone: seq<Container>)
      requires Keyed(memory)
      modifies this`memory
      ensures gone != [] <==> Doomed(old(memory), sandboxId) != {}
      ensures forall k :: k in memory.containers <==>
        k in old(memory).containers && old(memory).containers[k].sandboxId != sandboxId
      ensures memory == old(memory).(containers := old(memory).containers - Doomed(old(memory), sandboxId))
      ensures IsGone(Gone([], gone), old(memory), memory)
      ensures forall c :: c in gone ==> c.sandboxId == sandboxId
    {
      var ids := Doomed(memory, sandboxId);
      var left;
      left, gone := RemoveAll(memory.containers, ids);
      memory := memory.(containers := left);
    }
  }

  method RemoveAll(containers: map<string, Container>, ids: set<string>)
    returns (left: map<string, Container>, gone: seq<Container>)
    requires ids <= containers.Keys && forall k :: k in containers ==> containers[k].id == k
    ensures left == containers - ids
    ensures forall c :: c in gone <==> c.id in ids && containers[c.id] == c
    ensures NoDuplicates(gone) && (gone == [] <==> ids == {})
  {
    left, gone := containers, [];
    var todo, done := ids, {};
    while todo != {}
      invariant done !! todo && done + todo == ids
      invariant left == containers - done
      invariant forall c :: c in gone <==> c.id in done && containers[c.id] == c
      invariant NoDuplicates(gone) && (gone == [] <==> done == {})
    {
      var id :| id in todo;
      gone := gone + [left[id]];
      left, todo, done := left - {id}, todo - {id}, done + {id};
    }
    assert done == ids;
  }

  // ---------------------------------------------------------------- crashes

  /** Where in a mutation the process dies, if it does. */
  datatype Crash = NoCrash | BeforeWrite | DuringWrite | BeforeRename | AfterRename

  /** The new state counts once the rename has happened. */
  predicate Survives(c: Crash) {
    c == NoCrash || c == AfterRename
  }

  function DiskAfter(d: Disk, p: PersistedState, c: Crash): Disk {
    match c
    case BeforeWrite => d
    case DuringWrite => d.(tmp := Some(Torn))
    case BeforeRename => d.(tmp := Some(Complete(p)))
    case NoCrash => Disk(Some(Complete(p)), None)
    case AfterRename => Disk(Some(Complete(p)), None)
  }

  datatype System = System(memory: Memory, disk: Disk)

  /** A mutation, the snapshot it takes, and its crash; a crash is followed by a restart. */
  datatype Event = Event(op: Op, snapshot: PersistedState, crash: Crash)

  ghost predicate Possible(s: System, e: Event) {
    IsSnapshot(e.snapshot, Apply(s.memory, e.op))
  }

  ghost predicate Step(s: System, e: Event, s': System) {
    && s'.disk == (if Changes(s.memory, e.op) then DiskAfter(s.disk, e.snapshot, e.crash) else s.disk)
    && if e.crash == NoCrash then s'.memory == Apply(s.memory, e.op) else Some(s'.memory) == LoadDisk(s'.disk)
  }

  ghost predicate Consistent(s: System) {
    Keyed(s.memory) && LoadDisk(s.disk) == Some(s.memory)
  }

  /** A crash at any point, followed by `load`, gives exactly the stores before the mutation or
      after it, depending only on whether the rename happened; the restart never fails. */
  lemma CrashIsAtomic(s: System, e: Event, s': System)
    requires Consistent(s) && Possible(s, e) && Step(s, e, s')
    ensures Consistent(s')
    ensures s'.memory == if Survives(e.crash) then Apply(s.memory, e.op) else s.memory
  {
    ApplyKeepsKeys(s.memory, e.op);
    SnapshotRoundTrip(e.snapshot, Apply(s.memory, e.op));
  }

  ghost predicate IsRun(states: seq<System>, events: seq<Event>) {
    && |states| == |events| + 1 && states[0] == System(EMPTY_MEMORY, Disk(None, None))
    && forall i :: 0 <= i < |events| ==> Possible(states[i], events[i]) && Step(states[i], events[i], states[i + 1])
  }

  /** The stores that the surviving mutations among the first `k` make. */
  function Surviving(events: seq<Event>, k: nat): Memory
    requires k <= |events|
  {
    if k == 0 then EMPTY_MEMORY
    else if Survives(events[k - 1].crash) then Apply(Surviving(events, k - 1), events[k - 1].op)
    else Surviving(events, k - 1)
  }

  /** Over any run of mutations, crashes and restarts, the stores and the file are exactly what
      the mutations that reached their rename make of an empty state. */
  lemma {:induction false} RunIsSurviving(states: seq<System>, events: seq<Event>, k: nat)
    requires IsRun(states, events) && k < |states|
    ensures Consistent(states[k]) && states[k].memory == Surviving(events, k)
  {
    if k > 0 {
      RunIsSurviving(states, events, k - 1);
      CrashIsAtomic(states[k - 1], events[k - 1], states[k]);
    }
  }

  // ---------------------------------------------------------------- the container life cycle

  /** Only the guarded transitions, and no new container under this identifier. */
  predicate Guarded(op: Op, id: string) {
    && !op.MarkStarted? && !op.MarkExited?
    && (op.AddContainer? ==> op.container.id != id)
  }

  function Rank(s: ContainerState): nat {
    match s
    case Created => 0
    case Running => 1
    case Exited => 2
  }

  /** The container is gone, or has only moved forward, and if it had exited nothing changed. */
  ghost predicate MovedForward(before: Memory, after: Memory, id: string)
    requires id in before.containers
  {
    id in after.containers ==>
      && Rank(before.containers[id].state) <= Rank(after.containers[id].state)
      && (before.containers[id].state == Exited ==> after.containers[id] == before.containers[id])
  }

  lemma GuardedMovesForward(m: Memory, op: Op, id: string)
    requires id in m.containers && Guarded(op, id)
    ensures MovedForward(m, Apply(m, op), id)
    ensures id in Apply(m, op).containers && m.containers[id].state == Created ==>
      Apply(m, op).containers[id].state != Exited
  {}

  /** Once gone, it stays gone. */
  lemma GuardedStaysGone(m: Memory, op: Op, id: string)
    requires id !in m.containers && Guarded(op, id)
    ensures id !in Apply(m, op).containers
  {}

  /** In a run with only guarded transitions, through crashes and restarts, a container never moves
      back, and its first recorded exit is never changed ... */
  lemma {:induction false} FirstExitIsKept(states: seq<System>, events: seq<Event>, j: nat, k: nat, id: string)
    requires IsRun(states, events) && j <= k < |states|
    requires forall i :: j <= i < k ==> Guarded(events[i].op, id)
    requires id in states[j].memory.containers
    ensures MovedForward(states[j].memory, states[k].memory, id)
  {
    if j < k {
      FirstExitIsKept(states, events, j, k - 1, id);
      RunIsSurviving(states, events, k - 1);
      CrashIsAtomic(states[k - 1], events[k - 1], states[k]);
      var m := states[k - 1].memory;
      if id in m.containers {
        GuardedMovesForward(m, events[k - 1].op, id);
      } else {
        GuardedStaysGone(m, events[k - 1].op, id);
      }
    }
  }

  /** One event of a run, crash or not, takes no created container straight to exited. */
  lemma NoShortcut(states: seq<System>, events: seq<Event>, k: nat, id: string)
    requires IsRun(states, events) && k < |events| && Guarded(events[k].op, id)
    requires id in states[k].memory.containers && states[k].memory.containers[id].state == Created
    requires id in states[k + 1].memory.containers
    ensures states[k + 1].memory.containers[id].state != Exited
  {
    RunIsSurviving(states, events, k);
    CrashIsAtomic(states[k], events[k], states[k + 1]);
    GuardedMovesForward(states[k].memory, events[k].op, id);
  }

  ghost predicate RunningAt(states: seq<System>, i: nat, id: string) {
    i < |states| && id in states[i].memory.containers && states[i].memory.containers[id].state == Running
  }

  /** Present now, so present at every earlier moment since it was there. */
  lemma WasThere(states: seq<System>, events: seq<Event>, k: nat, id: string)
    requires IsRun(states, events) && k < |events| && Guarded(events[k].op, id)
    requires id in states[k + 1].memory.containers
    ensures id in states[k].memory.containers
  {
    RunIsSurviving(states, events, k);
    CrashIsAtomic(states[k], events[k], states[k + 1]);
    if id !in states[k].memory.containers {
      GuardedStaysGone(states[k].memory, events[k].op, id);
    }
  }

  /** ... and between created and exited it was running. */
  lemma {:induction false} RunsBeforeItExits(states: seq<System>, events: seq<Event>, j: nat, k: nat, id: string)
    requires IsRun(states, events) && j <= k < |states|
    requires forall i :: j <= i < k ==> Guarded(events[i].op, id)
    requires id in states[j].memory.containers && states[j].memory.containers[id].state == Created
    requires id in states[k].memory.containers && states[k].memory.containers[id].state == Exited
    ensures exists i :: j < i < k && RunningAt(states, i, id)
  {
    WasThere(states, events, k - 1, id);
    var before := states[k - 1].memory.containers[id].state;
    if before == Created {
      NoShortcut(states, events, k - 1, id);
    } else if before == Running {
      assert RunningAt(states, k - 1, id);
    } else {
      RunsBeforeItExits(states, events, j, k - 1, id);
    }
  }

  /** The state after a surviving mutation. */
  lemma SurvivingStep(states: seq<System>, events: seq<Event>, k: nat)
    requires IsRun(states, events) && k < |events| && Survives(events[k].crash)
    ensures states[k + 1].memory == Apply(states[k].memory, events[k].op)
  {
    RunIsSurviving(states, events, k);
    CrashIsAtomic(states[k], events[k], states[k + 1]);
  }

  /** A recorded exit is the one that was reported: in every later state of a run with only guarded
      transitions, through crashes and restarts, the container has that finish time, exit code and
      OOM flag, and its other fields from before. */
  lemma ExitIsRecorded(states: seq<System>, events: seq<Event>, j: nat, k: nat,
                       id: string, at: int, code: int, oom: bool)
    requires IsRun(states, events) && j < k < |states|
    requires events[j].op == MarkExitedIfRunning(id, at, code, oom) && Survives(events[j].crash)
    requires RunningAt(states, j, id)
    requires forall i :: j < i < k ==> Guarded(events[i].op, id)
    requires id in states[k].memory.containers
    ensures var c, d := states[j].memory.containers[id], states[k].memory.containers[id];
            && d.state == Exited && d.finishedAt == at && d.exitCode == code && d.oomKilled == oom
            && d.startedAt == c.startedAt && SameContainer(c, d)
  {
    SurvivingStep(states, events, j);
    ExitEffect(states[j].memory, id, at, code, oom, true);
    FirstExitIsKept(states, events, j + 1, k, id);
  }

  lemma GuardedKeepsStart(m: Memory, op: Op, id: string)
    requires id in m.containers && m.containers[id].state != Created && Guarded(op, id)
    ensures id in Apply(m, op).containers ==>
      && Apply(m, op).containers[id].state != Created
      && Apply(m, op).containers[id].startedAt == m.containers[id].startedAt
      && SameContainer(m.containers[id], Apply(m, op).containers[id])
  {}

  /** Once a container has started, its start is not changed by guarded transitions. */
  lemma {:induction false} StartIsKept(states: seq<System>, events: seq<Event>, j: nat, k: nat, id: string)
    requires IsRun(states, events) && j <= k < |states|
    requires forall i :: j <= i < k ==> Guarded(events[i].op, id)
    requires id in states[j].memory.containers && states[j].memory.containers[id].state != Created
    requires id in states[k].memory.containers
    ensures var c, d := states[j].memory.containers[id], states[k].memory.containers[id];
            d.state != Created && d.startedAt == c.startedAt && SameContainer(c, d)
  {
    if j < k {
      WasThere(states, events, k - 1, id);
      StartIsKept(states, events, j, k - 1, id);
      RunIsSurviving(states, events, k - 1);
      CrashIsAtomic(states[k - 1], events[k - 1], states[k]);
      GuardedKeepsStart(states[k - 1].memory, events[k - 1].op, id);
    }
  }

  /** A recorded start is the one that was reported. */
  lemma StartIsRecorded(states: seq<System>, events: seq<Event>, j: nat, k: nat, id: string, at: int)
    requires IsRun(states, events) && j < k < |states|
    requires events[j].op == MarkStartedIfCreated(id, at) && Survives(events[j].crash)
    requires id in states[j].memory.containers && states[j].memory.containers[id].state == Created
    requires forall i :: j < i < k ==> Guarded(events[i].op, id)
    requires id in states[k].memory.containers
    ensures var c, d := states[j].memory.containers[id], states[k].memory.containers[id];
            d.state != Created && d.startedAt == at && SameContainer(c, d)
  {
    SurvivingStep(states, events, j);
    StartEffect(states[j].memory, id, at, true);
    StartIsKept(states, events, j + 1, k, id);
  }
}
