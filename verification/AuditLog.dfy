/** The persistent audit log (src/runtime/src/audit.rs). */
module AuditLog {
  import opened Common
  import opened Rotation

  datatype Config = Config(enabled: bool, maxSize: nat, maxFiles: nat)

  /** `base` is the active file, if it exists. */
  datatype Log = Log(archives: Archives, base: Option<File>, currentSize: nat)

  const EMPTY := Log(map[], None, 0)

  /** How many rotated files survive; slot 1 is always written. */
  function Keep(c: Config): nat {
    if c.maxFiles == 0 then 1 else c.maxFiles
  }

  /** Slot `k` after a rotation: slot `maxFiles` is removed first, then all move up. */
  function RotatedAt(c: Config, a: Archives, base: Option<File>, k: nat): Option<File> {
    if k == 1 && base.Some? then base
    else if k == 1 && c.maxFiles > 0 then None
    else if k == 0 && c.maxFiles == 0 then None
    else if 2 <= k <= c.maxFiles then Get(a, k - 1)
    else Get(a, k)
  }

  ghost function Rotated(c: Config, a: Archives, base: Option<File>): (b: Archives)
    ensures forall k :: Get(b, k) == RotatedAt(c, a, base, k)
  {
    Tabulated(a, (k: nat) => RotatedAt(c, a, base, k))
  }

  function Content(base: Option<File>): File {
    if base.Some? then base.value else []
  }

  predicate Rotates(c: Config, s: Log) {
    s.currentSize >= c.maxSize
  }

  ghost function AfterRotate(c: Config, s: Log): Log {
    Log(Rotated(c, s.archives, s.base), None, 0)
  }

  ghost function Append(s: Log, line: Line): Log {
    s.(base := Some(Content(s.base) + [line]), currentSize := s.currentSize + |line|)
  }

  /** What can happen to the log: an event is logged, or the process restarts and takes the size
      from the file again. */
  datatype Op = Event(line: Line) | Reopen

  ghost function Next(c: Config, s: Log, op: Op): Log {
    match op
    case Reopen => s.(currentSize := Size(Content(s.base)))
    case Event(line) =>
      if !c.enabled then s
      else if Rotates(c, s) then Append(AfterRotate(c, s), line)
      else Append(s, line)
  }

  class Audit {
    const config: Config
    var archives: Archives
    var base: Option<File>
    var currentSize: nat
    var fileOpen: bool

    ghost function State(): Log
      reads this
    {
      Log(archives, base, currentSize)
    }

    /** Opened on what is in the directory; the size is taken from the file. */
    constructor (config: Config, archives: Archives, base: Option<File>)
      ensures this.config == config
      ensures State() == Next(config, Log(archives, base, 0), Reopen)
    {
      this.config, this.archives, this.base, fileOpen := config, archives, base, false;
      currentSize := Size(Content(base));
    }

    method LogEvent(line: Line)
      modifies this
      ensures State() == Next(config, old(State()), Event(line))
    {
      if !config.enabled {
        return;
      }
      if currentSize >= config.maxSize {
        Rotate();
      }
      if !fileOpen {
        base := Some(if base.Some? then base.value else []);
        fileOpen := true;
      }
      base := Some((if base.Some? then base.value else []) + [line]);
      currentSize := currentSize + |line|;
    }

    method Rotate()
      modifies this
      ensures State() == AfterRotate(config, old(State())) && !fileOpen
    {
      fileOpen := false;
      var m := config.maxFiles;
      var trimmed := archives - {m};
      var shifted := ShiftUp(trimmed, m);
      ghost var was := archives;
      archives := if base.Some? then shifted[1 := base.value] else shifted;
      forall k: nat ensures Get(archives, k) == RotatedAt(config, was, base, k) {
        if m > 0 {
          assert Get(shifted, k) == Shifted(trimmed, m, 0, k);
        }
      }
      SameSlots(archives, Rotated(config, was, base));
      base, currentSize := None, 0;
    }
  }

  // ---------------------------------------------------------------- every run

  ghost predicate IsRun(c: Config, states: seq<Log>, ops: seq<Op>) {
    && |states| == |ops| + 1 && states[0] == EMPTY
    && forall i :: 0 <= i < |ops| ==> states[i + 1] == Next(c, states[i], ops[i])
  }

  /** The events logged by the first `k` operations. */
  function History(c: Config, ops: seq<Op>, k: nat): seq<Line>
    requires k <= |ops|
  {
    if k == 0 then []
    else if c.enabled && ops[k - 1].Event? then History(c, ops, k - 1) + [ops[k - 1].line]
    else History(c, ops, k - 1)
  }

  /** This operation moves an existing file aside. */
  predicate MovesAside(c: Config, s: Log, op: Op) {
    c.enabled && op.Event? && Rotates(c, s) && s.base.Some?
  }

  function Rotations(c: Config, states: seq<Log>, ops: seq<Op>, k: nat): nat
    requires k <= |ops| && k <= |states|
  {
    if k == 0 then 0
    else if MovesAside(c, states[k - 1], ops[k - 1]) then Rotations(c, states, ops, k - 1) + 1
    else Rotations(c, states, ops, k - 1)
  }

  ghost predicate Inv(s: Log, n: nat, history: seq<Line>) {
    && Contiguous(s.archives, n)
    && (s.base.None? ==> n == 0)
    && s.currentSize == Size(Content(s.base))
    && IsSuffix(Archived(s.archives, n) + Content(s.base), history)
  }

  lemma AppendKeeps(s: Log, n: nat, history: seq<Line>, line: Line)
    requires Contiguous(s.archives, n) && s.currentSize == Size(Content(s.base))
    requires IsSuffix(Archived(s.archives, n) + Content(s.base), history)
    ensures Inv(Append(s, line), n, history + [line])
  {
    SizeSnoc(Content(s.base), line);
    AppendAssociates(Archived(s.archives, n), Content(s.base), [line]);
    SuffixSnoc(Archived(s.archives, n) + Content(s.base), history, line);
  }

  lemma RotateKeeps(c: Config, s: Log, n: nat, history: seq<Line>)
    requires Inv(s, n, history) && n <= Keep(c)
    ensures var r, n' := AfterRotate(c, s), if s.base.Some? then Min(n + 1, Keep(c)) else 0;
            Contiguous(r.archives, n') && IsSuffix(Archived(r.archives, n'), history)
  {
    var b := Rotated(c, s.archives, s.base);
    forall k: nat ensures Get(b, k) == RotatedAt(c, s.archives, s.base, k) {}
    if s.base.Some? {
      RotatedShifts(c, s.archives, n, s.base.value);
      RotateContiguous(s.archives, b, n, Keep(c), s.base.value);
      SuffixTransitive(Archived(b, Min(n + 1, Keep(c))), Archived(s.archives, n) + s.base.value, history);
    } else {
      forall k ensures k !in b {
        if k >= 0 {
          assert Get(b, k) == RotatedAt(c, s.archives, s.base, k);
        }
      }
    }
  }

  lemma RotatedShifts(c: Config, a: Archives, n: nat, base: File)
    requires Contiguous(a, n) && n <= Keep(c)
    ensures Shifts(a, Rotated(c, a, Some(base)), base, Keep(c))
  {
    var b := Rotated(c, a, Some(base));
    forall k: nat ensures Get(b, k) == ShiftedAt(a, base, Keep(c), k) {
      assert Get(b, k) == RotatedAt(c, a, Some(base), k);
    }
  }

  lemma {:induction false} RunKeepsInv(c: Config, states: seq<Log>, ops: seq<Op>, k: nat)
    requires IsRun(c, states, ops) && k <= |ops|
    ensures Inv(states[k], Min(Rotations(c, states, ops, k), Keep(c)), History(c, ops, k))
  {
    if k > 0 {
      RunKeepsInv(c, states, ops, k - 1);
      var n := Min(Rotations(c, states, ops, k - 1), Keep(c));
      StepKeepsInv(c, states[k - 1], n, History(c, ops, k - 1), ops[k - 1]);
    }
  }

  lemma StepKeepsInv(c: Config, s: Log, n: nat, history: seq<Line>, op: Op)
    requires Inv(s, n, history) && n <= Keep(c)
    ensures var n' := if MovesAside(c, s, op) then Min(n + 1, Keep(c)) else n;
            Inv(Next(c, s, op), n', if c.enabled && op.Event? then history + [op.line] else history)
  {
    if c.enabled && op.Event? {
      EventKeeps(c, s, n, history, op.line);
    }
  }

  /** After any sequence of events and restarts from an empty directory: exactly as many rotated
      files exist as files were moved aside, up to the limit; the rotated files oldest first and
      then the active file are the end of the event history; the tracked size is the real one. */
  lemma KeepsTheEnd(c: Config, states: seq<Log>, ops: seq<Op>, k: nat)
    requires IsRun(c, states, ops) && k <= |ops|
    ensures var limit := if c.maxFiles == 0 then 1 else c.maxFiles;
            Inv(states[k], Min(Rotations(c, states, ops, k), limit), History(c, ops, k))
  {
    RunKeepsInv(c, states, ops, k);
  }

  lemma EventKeeps(c: Config, s: Log, n: nat, history: seq<Line>, line: Line)
    requires Inv(s, n, history) && n <= Keep(c) && c.enabled
    ensures var n' := if MovesAside(c, s, Event(line)) then Min(n + 1, Keep(c)) else n;
            Inv(Next(c, s, Event(line)), n', history + [line])
  {
    if Rotates(c, s) {
      RotateKeeps(c, s, n, history);
      var r, n' := AfterRotate(c, s), if s.base.Some? then Min(n + 1, Keep(c)) else 0;
      assert Archived(r.archives, n') + [] == Archived(r.archives, n');
      AppendKeeps(r, n', history, line);
    } else {
      AppendKeeps(s, n, history, line);
    }
  }

  /** The active file outgrows the limit by less than its last event. */
  lemma SizeIsBounded(c: Config, states: seq<Log>, ops: seq<Op>, k: nat)
    requires IsRun(c, states, ops) && k < |ops| && c.enabled && ops[k].Event?
    ensures states[k + 1].currentSize < (if c.maxSize == 0 then 1 else c.maxSize) + |ops[k].line|
  {
    assert states[k + 1] == Next(c, states[k], ops[k]);
  }

  lemma StepKeepsFull(c: Config, s: Log, n: nat, history: seq<Line>, op: Op)
    requires Inv(s, n, history) && n <= Keep(c) && AllFull(s.archives, c.maxSize)
    ensures AllFull(Next(c, s, op).archives, c.maxSize)
  {
    if MovesAside(c, s, op) {
      RotatedShifts(c, s.archives, n, s.base.value);
      ShiftKeepsFull(s.archives, AfterRotate(c, s).archives, s.base.value, Keep(c), c.maxSize);
    } else if c.enabled && op.Event? && Rotates(c, s) {
      RotateKeeps(c, s, n, history);
    }
  }

  /** A file is moved aside only when it is full. */
  lemma {:induction false} ArchivesAreFull(c: Config, states: seq<Log>, ops: seq<Op>, k: nat)
    requires IsRun(c, states, ops) && k <= |ops|
    ensures AllFull(states[k].archives, c.maxSize)
  {
    if k > 0 {
      ArchivesAreFull(c, states, ops, k - 1);
      RunKeepsInv(c, states, ops, k - 1);
      var n := Min(Rotations(c, states, ops, k - 1), Keep(c));
      StepKeepsFull(c, states[k - 1], n, History(c, ops, k - 1), ops[k - 1]);
    }
  }

  /** Every event of the history is in one of the `n` rotated files or in the active one. */
  ghost predicate Whole(s: Log, n: nat, history: seq<Line>) {
    Contiguous(s.archives, n) && Archived(s.archives, n) + Content(s.base) == history
  }

  lemma StepLosesNothing(c: Config, s: Log, n: nat, history: seq<Line>, op: Op)
    requires Inv(s, n, history) && Whole(s, n, history) && n <= Keep(c) && (MovesAside(c, s, op) ==> n < Keep(c))
    ensures var n' := if MovesAside(c, s, op) then n + 1 else n;
            Whole(Next(c, s, op), n', if c.enabled && op.Event? then history + [op.line] else history)
  {
    if c.enabled && op.Event? {
      EventLosesNothing(c, s, n, history, op.line);
    }
  }

  lemma {:induction false} AllKept(c: Config, states: seq<Log>, ops: seq<Op>, k: nat)
    requires IsRun(c, states, ops) && k <= |ops| && Rotations(c, states, ops, k) <= Keep(c)
    ensures Whole(states[k], Rotations(c, states, ops, k), History(c, ops, k))
  {
    if k > 0 {
      AllKept(c, states, ops, k - 1);
      RunKeepsInv(c, states, ops, k - 1);
      StepLosesNothing(c, states[k - 1], Rotations(c, states, ops, k - 1), History(c, ops, k - 1), ops[k - 1]);
    }
  }

  /** Until more files were moved aside than are kept, no event is missing. */
  lemma NothingLostYet(c: Config, states: seq<Log>, ops: seq<Op>, k: nat)
    requires IsRun(c, states, ops) && k <= |ops|
    requires Rotations(c, states, ops, k) <= if c.maxFiles == 0 then 1 else c.maxFiles
    ensures Whole(states[k], Rotations(c, states, ops, k), History(c, ops, k))
  {
    AllKept(c, states, ops, k);
  }

  lemma EventLosesNothing(c: Config, s: Log, n: nat, history: seq<Line>, line: Line)
    requires c.enabled && Inv(s, n, history) && n <= Keep(c)
    requires MovesAside(c, s, Event(line)) ==> n < Keep(c)
    requires Whole(s, n, history)
    ensures Whole(Next(c, s, Event(line)), if MovesAside(c, s, Event(line)) then n + 1 else n, history + [line])
  {
    if MovesAside(c, s, Event(line)) {
      var b, base := AfterRotate(c, s).archives, s.base.value;
      RotatedShifts(c, s.archives, n, base);
      RotateContiguous(s.archives, b, n, Keep(c), base);
      assert [] + [line] == [line];
    } else if Rotates(c, s) {
      RotateKeeps(c, s, n, history);
      assert Archived(s.archives, n) == [] && Content(s.base) == [];
    } else {
      AppendAssociates(Archived(s.archives, n), Content(s.base), [line]);
    }
  }
}
