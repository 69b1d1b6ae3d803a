/** The size-limited JSON log writer (src/core/src/log.rs).  Archives are compressed; here an
    archive is its content. */
module RotatingWriter {
  import opened Common
  import opened Bytes
  import opened Rotation

  datatype Config = Config(maxSize: nat, maxFile: nat)

  datatype Log = Log(archives: Archives, active: File, written: nat)

  const EMPTY := Log(map[], [], 0)

  /** How many archives survive.  The shift runs before the removal of slot `maxFile`, so that is
      one fewer than `maxFile`; slot 1 is always written. */
  function Keep(c: Config): nat {
    if c.maxFile <= 2 then 1 else c.maxFile - 1
  }

  /** Slot `k` after a rotation. */
  function RotatedAt(c: Config, a: Archives, active: File, k: nat): Option<File> {
    if k == 1 then Some(active)
    else if k == c.maxFile then None
    else if 2 <= k < c.maxFile then Get(a, k - 1)
    else Get(a, k)
  }

  ghost function Rotated(c: Config, a: Archives, active: File): (b: Archives)
    ensures forall k :: Get(b, k) == RotatedAt(c, a, active, k)
  {
    Tabulated(a, (k: nat) => RotatedAt(c, a, active, k))
  }

  predicate Rotates(c: Config, s: Log, line: Line) {
    s.written + |line| >= c.maxSize
  }

  ghost function Next(c: Config, s: Log, line: Line): Log {
    var active := s.active + [line];
    if Rotates(c, s, line) then Log(Rotated(c, s.archives, active), [], 0)
    else Log(s.archives, active, s.written + |line|)
  }

  class Writer {
    const config: Config
    var archives: Archives
    var active: File
    var written: nat

    ghost function State(): Log
      reads this
    {
      Log(archives, active, written)
    }

    /** Opened on what is in the directory; the size is taken from the file. */
    constructor (config: Config, archives: Archives, active: File)
      ensures this.config == config && State() == Log(archives, active, Size(active))
    {
      this.config, this.archives, this.active, written := config, archives, active, Size(active);
    }

    method WriteLine(text: Wire)
      modifies this
      ensures State() == Next(config, old(State()), text + [10])
    {
      var line := text + [10];
      active := active + [line];
      written := written + |line|;
      if written >= config.maxSize {
        Rotate();
      }
    }

    method Rotate()
      modifies this
      ensures State() == Log(Rotated(config, old(archives), old(active)), [], 0)
    {
      var m := config.maxFile;
      var shifted := ShiftUp(archives, m);
      var trimmed := shifted - {m};
      ghost var was := archives;
      archives := trimmed[1 := active];
      forall k: nat ensures Get(archives, k) == RotatedAt(config, was, active, k) {
        if m > 0 {
          assert Get(shifted, k) == Shifted(was, m, 0, k);
        }
      }
      SameSlots(archives, Rotated(config, was, active));
      active, written := [], 0;
    }
  }

  // ---------------------------------------------------------------- every run

  ghost predicate IsRun(c: Config, states: seq<Log>, lines: seq<Line>) {
    && |states| == |lines| + 1 && states[0] == EMPTY
    && forall i :: 0 <= i < |lines| ==> states[i + 1] == Next(c, states[i], lines[i])
  }

  function Rotations(c: Config, states: seq<Log>, lines: seq<Line>, k: nat): nat
    requires k <= |lines| && k <= |states|
  {
    if k == 0 then 0
    else if Rotates(c, states[k - 1], lines[k - 1]) then Rotations(c, states, lines, k - 1) + 1
    else Rotations(c, states, lines, k - 1)
  }

  /** `n` archives; they and the active file are the end of everything written. */
  ghost predicate Inv(s: Log, n: nat, history: seq<Line>) {
    && Contiguous(s.archives, n)
    && s.written == Size(s.active)
    && IsSuffix(Archived(s.archives, n) + s.active, history)
  }

  lemma AppendKeeps(s: Log, n: nat, history: seq<Line>, line: Line)
    requires Inv(s, n, history)
    ensures Inv(Log(s.archives, s.active + [line], s.written + |line|), n, history + [line])
  {
    SizeSnoc(s.active, line);
    AppendAssociates(Archived(s.archives, n), s.active, [line]);
    SuffixSnoc(Archived(s.archives, n) + s.active, history, line);
  }

  lemma RotatedSuffix(c: Config, a: Archives, n: nat, active: File, history: seq<Line>)
    requires Contiguous(a, n) && n <= Keep(c) && IsSuffix(Archived(a, n) + active, history)
    ensures var b, n' := Rotated(c, a, active), Min(n + 1, Keep(c));
            Contiguous(b, n') && IsSuffix(Archived(b, n'), history)
  {
    var b, n' := Rotated(c, a, active), Min(n + 1, Keep(c));
    RotatedShifts(c, a, n, active);
    RotateContiguous(a, b, n, Keep(c), active);
    SuffixTransitive(Archived(b, n'), Archived(a, n) + active, history);
  }

  lemma RotateKeeps(c: Config, s: Log, n: nat, history: seq<Line>)
    requires Inv(s, n, history) && n <= Keep(c)
    ensures Inv(Log(Rotated(c, s.archives, s.active), [], 0), Min(n + 1, Keep(c)), history)
  {
    RotatedSuffix(c, s.archives, n, s.active, history);
    var kept := Archived(Rotated(c, s.archives, s.active), Min(n + 1, Keep(c)));
    assert kept + [] == kept;
  }

  lemma WriteKeeps(c: Config, s: Log, n: nat, history: seq<Line>, line: Line)
    requires Inv(s, n, history) && n <= Keep(c)
    ensures Inv(Next(c, s, line), if Rotates(c, s, line) then Min(n + 1, Keep(c)) else n, history + [line])
  {
    AppendKeeps(s, n, history, line);
    if Rotates(c, s, line) {
      RotateKeeps(c, Log(s.archives, s.active + [line], s.written + |line|), n, history + [line]);
    }
  }

  lemma RotatedShifts(c: Config, a: Archives, n: nat, active: File)
    requires Contiguous(a, n) && n <= Keep(c)
    ensures Shifts(a, Rotated(c, a, active), active, Keep(c))
  {
    forall k: nat ensures Get(Rotated(c, a, active), k) == ShiftedAt(a, active, Keep(c), k) {
      assert Get(Rotated(c, a, active), k) == RotatedAt(c, a, active, k);
    }
  }

  lemma {:induction false} RunKeepsInv(c: Config, states: seq<Log>, lines: seq<Line>, k: nat)
    requires IsRun(c, states, lines) && k <= |lines|
    ensures Inv(states[k], Min(Rotations(c, states, lines, k), Keep(c)), lines[..k])
  {
    if k > 0 {
      assert lines[..k] == lines[..k - 1] + [lines[k - 1]];
      RunKeepsInv(c, states, lines, k - 1);
      WriteKeeps(c, states[k - 1], Min(Rotations(c, states, lines, k - 1), Keep(c)), lines[..k - 1], lines[k - 1]);
    }
  }

  /** After any sequence of writes from an empty directory: exactly as many archives exist as
      rotations happened, up to the limit; the archives oldest first and then the active file
      are the end of everything written, nothing missing in between and nothing twice; the
      tracked size is the real one. */
  lemma KeepsTheEnd(c: Config, states: seq<Log>, lines: seq<Line>, k: nat)
    requires IsRun(c, states, lines) && k <= |lines|
    ensures var limit := if c.maxFile <= 2 then 1 else c.maxFile - 1;
            Inv(states[k], Min(Rotations(c, states, lines, k), limit), lines[..k])
  {
    assert Keep(c) == if c.maxFile <= 2 then 1 else c.maxFile - 1;
    RunKeepsInv(c, states, lines, k);
  }

  /** After every write the active file is below the limit, if the limit is not zero. */
  lemma StaysBelowLimit(c: Config, states: seq<Log>, lines: seq<Line>, k: nat)
    requires IsRun(c, states, lines) && k <= |lines| && c.maxSize >= 1
    ensures Size(states[k].active) < c.maxSize
  {
    RunKeepsInv(c, states, lines, k);
    if k > 0 {
      assert states[k] == Next(c, states[k - 1], lines[k - 1]);
    }
  }

  /** A file is archived only when it is full. */
  lemma {:induction false} ArchivesAreFull(c: Config, states: seq<Log>, lines: seq<Line>, k: nat)
    requires IsRun(c, states, lines) && k <= |lines|
    ensures AllFull(states[k].archives, c.maxSize)
  {
    if k > 0 {
      ArchivesAreFull(c, states, lines, k - 1);
      RunKeepsInv(c, states, lines, k - 1);
      var s, line := states[k - 1], lines[k - 1];
      if Rotates(c, s, line) {
        var active := s.active + [line];
        SizeSnoc(s.active, line);
        RotatedShifts(c, s.archives, Min(Rotations(c, states, lines, k - 1), Keep(c)), active);
        ShiftKeepsFull(s.archives, Rotated(c, s.archives, active), active, Keep(c), c.maxSize);
      }
    }
  }

  /** Every line of the history is in one of the `n` archives or in the active file. */
  ghost predicate Whole(s: Log, n: nat, history: seq<Line>) {
    Contiguous(s.archives, n) && Archived(s.archives, n) + s.active == history
  }

  lemma {:induction false} AllKept(c: Config, states: seq<Log>, lines: seq<Line>, k: nat)
    requires IsRun(c, states, lines) && k <= |lines| && Rotations(c, states, lines, k) <= Keep(c)
    ensures Whole(states[k], Rotations(c, states, lines, k), lines[..k])
  {
    if k > 0 {
      AllKept(c, states, lines, k - 1);
      assert lines[..k] == lines[..k - 1] + [lines[k - 1]];
      WriteLosesNothing(c, states[k - 1], Rotations(c, states, lines, k - 1), lines[..k - 1], lines[k - 1]);
    }
  }

  /** Until more files were archived than are kept, nothing that was written is missing. */
  lemma NothingLostYet(c: Config, states: seq<Log>, lines: seq<Line>, k: nat)
    requires IsRun(c, states, lines) && k <= |lines|
    requires Rotations(c, states, lines, k) <= if c.maxFile <= 2 then 1 else c.maxFile - 1
    ensures Whole(states[k], Rotations(c, states, lines, k), lines[..k])
  {
    AllKept(c, states, lines, k);
  }

  lemma WriteLosesNothing(c: Config, s: Log, n: nat, history: seq<Line>, line: Line)
    requires Whole(s, n, history) && n <= Keep(c) && (Rotates(c, s, line) ==> n < Keep(c))
    ensures Whole(Next(c, s, line), if Rotates(c, s, line) then n + 1 else n, history + [line])
  {
    var active := s.active + [line];
    AppendAssociates(Archived(s.archives, n), s.active, [line]);
    if Rotates(c, s, line) {
      var b := Rotated(c, s.archives, active);
      RotatedShifts(c, s.archives, n, active);
      RotateContiguous(s.archives, b, n, Keep(c), active);
      assert Archived(b, n + 1) + [] == Archived(b, n + 1);
    }
  }
}
