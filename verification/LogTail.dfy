/** Tailing a console log that is still being written (src/core/src/log.rs).

    The VM appends while the log processor reads, so the loop of `tail_next_line` is modelled as
    the steps it takes: the file can grow, and the stop flag can be set, between any two of them. */
module LogTail {
  import opened Common

  // ---------------------------------------------------------------- what the lines of a text are

  /** Strip trailing carriage returns and newlines. */
  function Trim(s: string): string {
    if s != "" && (s[|s| - 1] == '\n' || s[|s| - 1] == '\r') then Trim(s[..|s| - 1]) else s
  }

  /** The text after the last newline. */
  function Rest(t: string): string {
    if t == "" then ""
    else if t[|t| - 1] == '\n' then ""
    else Rest(t[..|t| - 1]) + [t[|t| - 1]]
  }

  /** The newline-terminated pieces, with their newlines. */
  function Raw(t: string): seq<string> {
    if t == "" then []
    else if t[|t| - 1] == '\n' then Raw(t[..|t| - 1]) + [Rest(t[..|t| - 1]) + "\n"]
    else Raw(t[..|t| - 1])
  }

  /** Only line-end characters go, and all that are last. */
  lemma {:induction false} TrimStripsLineEnds(s: string)
    ensures Trim(s) <= s
    ensures forall i :: |Trim(s)| <= i < |s| ==> s[i] == '\n' || s[i] == '\r'
    ensures Trim(s) != "" ==> Trim(s)[|Trim(s)| - 1] != '\n' && Trim(s)[|Trim(s)| - 1] != '\r'
  {
    if s != "" && (s[|s| - 1] == '\n' || s[|s| - 1] == '\r') {
      TrimStripsLineEnds(s[..|s| - 1]);
    }
  }

  function Trimmed(ss: seq<string>): seq<string> {
    if ss == [] then [] else Trimmed(ss[..|ss| - 1]) + [Trim(ss[|ss| - 1])]
  }

  /** All pieces: the terminated ones, and a last one if it is not empty. */
  function Pieces(t: string): seq<string> {
    if Rest(t) == "" then Raw(t) else Raw(t) + [Rest(t)]
  }

  /** The lines of a whole text. */
  function Lines(t: string): seq<string> {
    Trimmed(Pieces(t))
  }

  lemma Grow(t: string, c: char)
    ensures Rest(t + [c]) == if c == '\n' then "" else Rest(t) + [c]
    ensures Raw(t + [c]) == if c == '\n' then Raw(t) + [Rest(t) + "\n"] else Raw(t)
  {
    assert (t + [c])[..|t|] == t;
  }

  /** The pieces are a partition of the text, and each ends at its only newline. */
  lemma {:induction false} PiecesPartition(t: string)
    ensures Flatten(Raw(t)) + Rest(t) == t
    ensures '\n' !in Rest(t)
    ensures forall p :: p in Raw(t) ==> OneLine(p)
  {
    if t != "" {
      var c, before := t[|t| - 1], t[..|t| - 1];
      assert t == before + [c];
      PiecesPartition(before);
      Grow(before, c);
      if c == '\n' {
        FlattenSnoc(Raw(before), Rest(before) + "\n");
        assert Flatten(Raw(before)) + (Rest(before) + "\n") == Flatten(Raw(before)) + Rest(before) + "\n";
        assert (Rest(before) + "\n")[..|Rest(before)|] == Rest(before);
      } else {
        assert Flatten(Raw(before)) + (Rest(before) + [c]) == Flatten(Raw(before)) + Rest(before) + [c];
      }
    }
  }

  predicate OneLine(p: string) {
    |p| > 0 && p[|p| - 1] == '\n' && '\n' !in p[..|p| - 1]
  }

  /** A stretch without newlines extends the unfinished line and completes nothing. */
  lemma {:induction false} GrowWithin(t: string, u: string)
    requires '\n' !in u
    ensures Rest(t + u) == Rest(t) + u && Raw(t + u) == Raw(t)
  {
    if u == "" {
      assert t + u == t && Rest(t) + u == Rest(t);
    } else {
      var c, before := u[|u| - 1], u[..|u| - 1];
      assert t + u == (t + before) + [c] && u == before + [c];
      GrowWithin(t, before);
      Grow(t + before, c);
      assert Rest(t) + u == Rest(t) + before + [c];
    }
  }

  /** Cutting a text in the middle of a line makes one line too many; cutting it elsewhere does
      not change the count. */
  lemma {:induction false} CutCount(a: string, b: string)
    ensures |Raw(a + b)| == |Raw(a)| + |Raw(b)|
    ensures Rest(a + b) == "" <==> if |Raw(b)| > 0 then Rest(b) == "" else Rest(a) == "" && Rest(b) == ""
    ensures b != "" ==> |Raw(b)| > 0 || Rest(b) != ""
  {
    if b == "" {
      assert a + b == a;
    } else {
      var c, before := b[|b| - 1], b[..|b| - 1];
      assert a + b == (a + before) + [c] && b == before + [c];
      CutCount(a, before);
      Grow(a + before, c);
      Grow(before, c);
    }
  }

  // ---------------------------------------------------------------- the reader

  /** Where the reader is: inside `read_line`, with or without bytes read by this call; between
      an empty read and the look at the stop flag; or done. */
  datatype Pc = Reading(got: bool) | Checking | Finished

  /** `pos` is how much of the file was read, `buf` the partial line, `lines` what was taken out of
      it; each is returned trimmed.  The last three only record the past: `seen` is the read
      position of the first look at the stop flag that found it set, and `base` and `head` are the
      position and the lines of the last time a partial line was given up on. */
  datatype Tail = Tail(content: string, stop: bool, pos: nat, buf: string, pc: Pc, lines: seq<string>,
                       seen: Option<nat>, base: nat, head: seq<string>)

  datatype Step = Append(text: string) | SetStop | Fill(n: nat) | AtEof | CheckStop

  const START := Tail("", false, 0, "", Reading(false), [], None, 0, [])

  /** The VM stops writing before the flag is set.  A read takes what is available, up to and
      including the first newline. */
  predicate Enabled(s: Tail, step: Step) {
    match step
    case Append(_) => !s.stop
    case SetStop => !s.stop
    case Fill(n) => s.pc.Reading? && 0 < n && s.pos + n <= |s.content| && '\n' !in s.content[s.pos..s.pos + n - 1]
    case AtEof => s.pc.Reading? && s.pos == |s.content|
    case CheckStop => s.pc.Checking?
  }

  function Return(s: Tail, line: string): Tail {
    s.(buf := "", pc := Reading(false), lines := s.lines + [line])
  }

  function Next(s: Tail, step: Step): Tail
    requires Enabled(s, step)
  {
    match step
    case Append(text) => s.(content := s.content + text)
    case SetStop => s.(stop := true)
    case Fill(n) =>
      var last := s.pos + n - 1;
      var buf := s.buf + s.content[s.pos..last] + [s.content[last]];
      if s.content[last] == '\n' then Return(s.(pos := s.pos + n), buf)
      else s.(pos := s.pos + n, buf := buf, pc := Reading(true))
    case AtEof =>
      if s.pc.got then s.(pc := Reading(false)) else s.(pc := Checking)
    case CheckStop =>
      if !s.stop then s.(pc := Reading(false))
      else
        var s' := if s.seen.None? then s.(seen := Some(s.pos)) else s;
        if s.buf == "" then s'.(pc := Finished)
        else Return(s'.(base := s.pos, head := s.lines + [s.buf]), s.buf)
  }

  ghost predicate IsRun(states: seq<Tail>, steps: seq<Step>) {
    && |states| == |steps| + 1 && states[0] == START
    && forall i :: 0 <= i < |steps| ==> Enabled(states[i], steps[i]) && states[i + 1] == Next(states[i], steps[i])
  }

  // ---------------------------------------------------------------- what holds at every moment

  /** The text read since the last partial line was given up on. */
  function Segment(s: Tail): string
    requires s.base <= s.pos <= |s.content|
  {
    s.content[s.base..s.pos]
  }

  /** From `text`, exactly the completed lines were returned and the rest is in the buffer. */
  ghost predicate Caught(text: string, buf: string, head: seq<string>, lines: seq<string>) {
    lines == head + Raw(text) && buf == Rest(text)
  }

  /** What was returned before `base`: nothing; or the lines of the text up to where the flag was
      seen; or those and the lines of all that came after. */
  ghost predicate HeadInv(content: string, seen: Option<nat>, base: nat, head: seq<string>) {
    || (base == 0 && head == [])
    || (seen == Some(base) && base <= |content|
        && Rest(content[..base]) != "" && head == Pieces(content[..base]))
    || (seen.Some? && seen.value <= base == |content|
        && Rest(content[..seen.value]) != ""
        && head == Pieces(content[..seen.value]) + Pieces(content[seen.value..]))
  }

  /** Once the flag was seen the file no longer grows, so an empty read is at its end. */
  ghost predicate PcInv(s: Tail) {
    && (s.seen.None? ==> s.base == 0 && !s.pc.Finished?)
    && (s.seen.Some? ==> s.stop && (s.base > 0 || s.pc.Finished?))
    && (s.seen.Some? && s.pc.Checking? ==> s.pos == |s.content|)
    && (s.pc.Finished? ==> s.buf == "" && if s.base == 0 then s.seen == Some(s.pos) else s.pos == |s.content|)
  }

  ghost predicate Inv(s: Tail) {
    && s.base <= s.pos <= |s.content|
    && Caught(Segment(s), s.buf, s.head, s.lines)
    && PcInv(s)
  }

  lemma AppendKeeps(s: Tail, text: string)
    requires Inv(s) && Enabled(s, Append(text))
    ensures Inv(Next(s, Append(text)))
  {
    var s' := Next(s, Append(text));
    assert Segment(s') == Segment(s);
  }

  /** One more read, up to the character `c`, in terms of the texts alone. */
  lemma ReadMore(was: string, chunk: string, c: char, head: seq<string>, lines: seq<string>)
    requires '\n' !in chunk && Caught(was, Rest(was), head, lines)
    ensures var buf := Rest(was) + chunk + [c];
            if c == '\n' then Caught(was + chunk + [c], "", head, lines + [buf])
            else Caught(was + chunk + [c], buf, head, lines)
  {
    GrowWithin(was, chunk);
    Grow(was + chunk, c);
    if c == '\n' {
      AppendAssociates(head, Raw(was), [Rest(was) + chunk + "\n"]);
    }
  }

  lemma FillCaught(content: string, base: nat, pos: nat, last: nat, buf: string, head: seq<string>, lines: seq<string>)
    requires base <= pos <= last < |content| && '\n' !in content[pos..last]
    requires Caught(content[base..pos], buf, head, lines)
    ensures var buf' := buf + content[pos..last] + [content[last]];
            if content[last] == '\n' then Caught(content[base..last + 1], "", head, lines + [buf'])
            else Caught(content[base..last + 1], buf', head, lines)
  {
    SliceGrows(content, base, pos, last);
    ReadMore(content[base..pos], content[pos..last], content[last], head, lines);
  }

  lemma FillKeeps(s: Tail, n: nat)
    requires Inv(s) && Enabled(s, Fill(n))
    ensures Inv(Next(s, Fill(n)))
  {
    FillCaught(s.content, s.base, s.pos, s.pos + n - 1, s.buf, s.head, s.lines);
  }

  lemma SliceGrows(t: string, a: nat, b: nat, c: nat)
    requires a <= b <= c < |t|
    ensures t[a..c + 1] == t[a..b] + t[b..c] + [t[c]]
  {}

  lemma StepKeepsInv(s: Tail, step: Step)
    requires Inv(s) && Enabled(s, step)
    ensures Inv(Next(s, step))
  {
    match step
    case Append(text) => AppendKeeps(s, text);
    case Fill(n) => FillKeeps(s, n);
    case CheckStop =>
      if s.stop && s.buf != "" {
        assert Segment(Next(s, CheckStop)) == "";
      }
    case _ =>
  }

  /** Giving up on a partial line: the text so far is treated as a whole text. */
  lemma FlushKeepsHead(s: Tail)
    requires Inv(s) && s.pc.Checking? && s.stop && s.buf != ""
    requires HeadInv(s.content, s.seen, s.base, s.head)
    ensures var s' := Next(s, CheckStop); HeadInv(s'.content, s'.seen, s'.base, s'.head)
  {
    var t := Segment(s);
    AppendAssociates(s.head, Raw(t), [Rest(t)]);
    assert s.lines + [s.buf] == s.head + Pieces(t);
    if s.base == 0 {
      assert t == s.content[..s.pos];
      assert s.head + Pieces(t) == Pieces(t);
    } else {
      assert t == s.content[s.base..];
    }
  }

  lemma StepKeepsHead(s: Tail, step: Step)
    requires Inv(s) && Enabled(s, step) && HeadInv(s.content, s.seen, s.base, s.head)
    ensures var s' := Next(s, step); HeadInv(s'.content, s'.seen, s'.base, s'.head)
  {
    if step.CheckStop? && s.stop && s.buf != "" {
      FlushKeepsHead(s);
    }
  }

  lemma {:induction false} RunKeepsInv(states: seq<Tail>, steps: seq<Step>, k: nat)
    requires IsRun(states, steps) && k < |states|
    ensures Inv(states[k])
  {
    if k > 0 {
      RunKeepsInv(states, steps, k - 1);
      StepKeepsInv(states[k - 1], steps[k - 1]);
    }
  }

  lemma {:induction false} RunKeepsHead(states: seq<Tail>, steps: seq<Step>, k: nat)
    requires IsRun(states, steps) && k < |states|
    ensures HeadInv(states[k].content, states[k].seen, states[k].base, states[k].head)
  {
    if k > 0 {
      RunKeepsHead(states, steps, k - 1);
      RunKeepsInv(states, steps, k - 1);
      StepKeepsHead(states[k - 1], steps[k - 1]);
    }
  }

  // ---------------------------------------------------------------- what a finished run returned

  function Returned(s: Tail): seq<string> {
    Trimmed(s.lines)
  }

  /** Each line is trimmed by itself, in place. */
  lemma {:induction false} TrimmedAt(ss: seq<string>)
    ensures |Trimmed(ss)| == |ss| && forall i :: 0 <= i < |ss| ==> Trimmed(ss)[i] == Trim(ss[i])
  {
    if ss != [] {
      TrimmedAt(ss[..|ss| - 1]);
    }
  }

  lemma PiecesCount(t: string)
    ensures |Pieces(t)| == if Rest(t) == "" then |Raw(t)| else |Raw(t)| + 1
  {}

  /** Losing the lines after a cut, or cutting a line in two, always shows in the line count. */
  lemma CutShows(a: string, b: string, taken: seq<string>)
    requires taken == if Rest(a) == "" then Pieces(a) else Pieces(a) + Pieces(b)
    ensures b == "" ==> taken == Pieces(a)
    ensures b != "" ==> |taken| != |Pieces(a + b)|
  {
    CutCount(a, b);
    PiecesCount(a);
    PiecesCount(b);
    PiecesCount(a + b);
    if b == "" {
      assert Pieces(a) + Pieces(b) == Pieces(a);
    }
  }

  lemma FinishedPieces(s: Tail)
    requires Inv(s) && s.pc.Finished? && HeadInv(s.content, s.seen, s.base, s.head)
    ensures s.seen.Some? && s.seen.value <= |s.content|
    ensures var t, p := s.content, s.seen.value;
            s.lines == if Rest(t[..p]) == "" then Pieces(t[..p]) else Pieces(t[..p]) + Pieces(t[p..])
  {
    var t, p := s.content, s.seen.value;
    if s.base == 0 {
      assert Segment(s) == t[..p];
      assert s.head + Raw(t[..p]) == Raw(t[..p]);
    } else if s.seen == Some(s.base) {
      assert Segment(s) == t[p..];
    } else {
      assert Segment(s) == "";
      assert s.head + [] == s.head;
    }
  }

  lemma CutAt(t: string, p: nat, taken: seq<string>)
    requires p <= |t|
    requires taken == if Rest(t[..p]) == "" then Pieces(t[..p]) else Pieces(t[..p]) + Pieces(t[p..])
    ensures p == |t| ==> taken == Pieces(t)
    ensures p < |t| ==> |taken| != |Pieces(t)|
  {
    assert t == t[..p] + t[p..];
    CutShows(t[..p], t[p..], taken);
    assert p == |t| ==> t[..p] == t;
  }

  lemma ExactIfSeenAtEnd(s: Tail)
    requires Inv(s) && s.pc.Finished? && HeadInv(s.content, s.seen, s.base, s.head)
    ensures s.seen.Some?
    ensures Returned(s) == Lines(s.content) <==> s.seen.value == |s.content|
  {
    FinishedPieces(s);
    CutAt(s.content, s.seen.value, s.lines);
    TrimmedAt(s.lines);
    TrimmedAt(Pieces(s.content));
  }

  lemma StaysSeen(s: Tail, step: Step)
    requires Enabled(s, step) && s.seen.Some? && s.stop
    ensures Next(s, step).seen == s.seen && Next(s, step).content == s.content && Next(s, step).stop
  {}

  lemma JustSeen(s: Tail, step: Step)
    requires Enabled(s, step) && s.seen.None? && Next(s, step).seen.Some?
    ensures step.CheckStop? && s.pc.Checking? && s.stop && Next(s, step).stop
    ensures Next(s, step).seen == Some(s.pos) && Next(s, step).content == s.content
  {}

  /** The look at the flag that first found it set, after which the file no longer changed. */
  lemma {:induction false} FirstSight(states: seq<Tail>, steps: seq<Step>, k: nat) returns (j: nat)
    requires IsRun(states, steps) && k < |states| && states[k].seen.Some?
    ensures j < k && steps[j].CheckStop? && states[j].pc.Checking? && states[j].stop && states[j].seen.None?
    ensures states[k].stop && states[k].seen == Some(states[j].pos) && states[k].content == states[j].content
  {
    if states[k - 1].seen.Some? {
      j := FirstSight(states, steps, k - 1);
      StaysSeen(states[k - 1], steps[k - 1]);
    } else {
      j := k - 1;
      JustSeen(states[j], steps[j]);
    }
  }

  lemma {:induction false} NotSeenBefore(states: seq<Tail>, steps: seq<Step>, j: nat)
    requires IsRun(states, steps) && j < |states| && states[j].seen.None?
    ensures forall i :: 0 <= i <= j ==> states[i].seen.None?
  {
    if j > 0 {
      NotSeenBefore(states, steps, j - 1);
    }
  }

  /** The empty read that led to a look at the flag; only the VM acted in between. */
  lemma {:induction false} EmptyRead(states: seq<Tail>, steps: seq<Step>, j: nat) returns (i: nat)
    requires IsRun(states, steps) && j < |states| && states[j].pc.Checking?
    ensures i < j && steps[i].AtEof? && states[i].pos == |states[i].content| == states[j].pos
    ensures forall m :: i < m < j ==> steps[m].Append? || steps[m].SetStop?
  {
    if steps[j - 1].AtEof? {
      i := j - 1;
    } else {
      i := EmptyRead(states, steps, j - 1);
    }
  }

  /** Nothing was appended by the steps strictly between `i` and `j`. */
  ghost predicate Quiet(steps: seq<Step>, i: nat, j: nat)
    requires j <= |steps|
  {
    forall m :: i < m < j && steps[m].Append? ==> steps[m].text == ""
  }

  lemma {:induction false} QuietMeansSameLength(states: seq<Tail>, steps: seq<Step>, i: nat, j: nat)
    requires IsRun(states, steps) && i < j <= |steps|
    ensures |states[i + 1].content| <= |states[j].content|
    ensures Quiet(steps, i, j) <==> |states[i + 1].content| == |states[j].content|
  {
    if i + 1 < j {
      QuietMeansSameLength(states, steps, i, j - 1);
      assert Quiet(steps, i, j) <==> Quiet(steps, i, j - 1) && (steps[j - 1].Append? ==> steps[j - 1].text == "");
    }
  }

  /** For every way the file grows and every schedule of reads, a run that has finished ends with
      an empty read at `i` and a look at the stop flag at `j`, the first that found it set, with
      only the VM acting in between; and the run returned exactly the lines of the final content
      if and only if nothing was appended between the two. */
  lemma TailIsExact(states: seq<Tail>, steps: seq<Step>, k: nat) returns (i: nat, j: nat)
    requires IsRun(states, steps) && k < |states| && states[k].pc.Finished?
    ensures i < j < k && steps[i].AtEof? && steps[j].CheckStop? && states[j].stop
    ensures forall m :: 0 <= m <= j ==> states[m].seen.None?
    ensures forall m :: i < m < j ==> steps[m].Append? || steps[m].SetStop?
    ensures Returned(states[k]) == Lines(states[k].content) <==> Quiet(steps, i, j)
  {
    RunKeepsInv(states, steps, k);
    RunKeepsHead(states, steps, k);
    ExactIfSeenAtEnd(states[k]);
    j := FirstSight(states, steps, k);
    NotSeenBefore(states, steps, j);
    i := EmptyRead(states, steps, j);
    QuietMeansSameLength(states, steps, i, j);
  }

  /** The race is real: a line written just before the VM exits is lost. */
  lemma LastLineLost() returns (states: seq<Tail>, steps: seq<Step>)
    ensures IsRun(states, steps) && states[|steps|].pc.Finished?
    ensures states[|steps|].content == "bye\n" && Returned(states[|steps|]) == []
  {
    steps := [AtEof, Append("bye\n"), SetStop, CheckStop];
    var s1 := Next(START, AtEof);
    var s2 := Next(s1, Append("bye\n"));
    var s3 := Next(s2, SetStop);
    var s4 := Next(s3, CheckStop);
    states := [START, s1, s2, s3, s4];
  }

  // ---------------------------------------------------------------- the reader goes on

  /** The steps the reader takes; the others are the VM's. */
  predicate IsReader(step: Step) {
    step.Fill? || step.AtEof? || step.CheckStop?
  }

  /** Until it has finished, the reader always has a step to take, whatever the VM does. */
  lemma ReaderNeverWaits(s: Tail) returns (step: Step)
    requires Inv(s) && !s.pc.Finished?
    ensures IsReader(step) && Enabled(s, step)
  {
    if s.pc.Checking? {
      step := CheckStop;
    } else if s.pos == |s.content| {
      step := AtEof;
    } else {
      assert s.content[s.pos..s.pos] == "";
      step := Fill(1);
    }
  }

  function Effort(s: Tail): nat
    requires s.pos <= |s.content|
  {
    8 * (|s.content| - s.pos) + (if s.buf != "" then 4 else 0)
    + match s.pc
      case Reading(got) => if got then 3 else 2
      case Checking => 1
      case Finished => 0
  }

  /** Once the flag is set, every step brings the reader closer to the end. */
  lemma ReaderProgresses(s: Tail, step: Step)
    requires Inv(s) && s.stop && Enabled(s, step)
    ensures Effort(Next(s, step)) < Effort(s)
  {}

  /** How far the reader is behind the file. */
  function Behind(s: Tail): nat
    requires s.pos <= |s.content|
  {
    2 * (|s.content| - s.pos) + if s.pc.Checking? then 1 else 0
  }

  /** Until then, whenever it is behind, every step it takes brings it closer to the file, and it
      does not change the file. */
  lemma ReaderCatchesUp(s: Tail, step: Step)
    requires Inv(s) && !s.stop && s.pos < |s.content| && IsReader(step) && Enabled(s, step)
    ensures Behind(Next(s, step)) < Behind(s)
    ensures Next(s, step).content == s.content && !Next(s, step).stop && !Next(s, step).pc.Finished?
  {}

  /** A reader that has caught up has returned every completed line of the file and holds the rest. */
  lemma CaughtUp(s: Tail)
    requires Inv(s) && HeadInv(s.content, s.seen, s.base, s.head) && s.seen.None? && s.pos == |s.content|
    ensures s.lines == Raw(s.content) && s.buf == Rest(s.content)
  {
    assert Segment(s) == s.content;
    assert [] + Raw(s.content) == Raw(s.content);
  }

  /** A sequence of states in which only the reader acts. */
  ghost predicate ReaderRun(states: seq<Tail>, steps: seq<Step>) {
    && |states| == |steps| + 1
    && forall i :: 0 <= i < |steps| ==>
      IsReader(steps[i]) && Enabled(states[i], steps[i]) && states[i + 1] == Next(states[i], steps[i])
  }

  lemma {:induction false} ReachesTheEnd(s: Tail) returns (states: seq<Tail>, steps: seq<Step>)
    requires Inv(s) && HeadInv(s.content, s.seen, s.base, s.head) && !s.stop
    ensures ReaderRun(states, steps) && states[0] == s
    ensures var last := states[|steps|];
            && last.content == s.content && last.pos == |s.content| && !last.stop
            && Inv(last) && HeadInv(last.content, last.seen, last.base, last.head)
    decreases Behind(s)
  {
    if s.pos == |s.content| {
      states, steps := [s], [];
    } else {
      var step := ReaderNeverWaits(s);
      ReaderCatchesUp(s, step);
      StepKeepsInv(s, step);
      StepKeepsHead(s, step);
      var more, rest := ReachesTheEnd(Next(s, step));
      states, steps := [s] + more, [step] + rest;
    }
  }

  /** From every state of every run before the stop, however long the file was quiet, the reader
      alone gets to where every completed line of the file is returned and the rest is held. */
  lemma LinesArriveBeforeTheStop(states: seq<Tail>, steps: seq<Step>, k: nat)
    returns (more: seq<Tail>, own: seq<Step>)
    requires IsRun(states, steps) && k < |states| && !states[k].stop
    ensures ReaderRun(more, own) && more[0] == states[k]
    ensures more[|own|].lines == Raw(states[k].content) && more[|own|].buf == Rest(states[k].content)
  {
    RunKeepsInv(states, steps, k);
    RunKeepsHead(states, steps, k);
    more, own := ReachesTheEnd(states[k]);
    CaughtUp(more[|own|]);
  }

  /** A look at a flag that is not set changes nothing: the reader reads again. */
  lemma LooksAgain(s: Tail)
    requires s.pc.Checking? && !s.stop
    ensures Enabled(s, CheckStop) && Next(s, CheckStop) == s.(pc := Reading(false))
  {}
}
