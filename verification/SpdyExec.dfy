/** The non-TTY exec relay (src/cri/src/spdy.rs): a task that relays guest output to the client
    and a task that relays client frames to the guest, sharing one writer.

    The writer's lock is held for one whole frame, and for the whole closing sequence, so a run
    is any interleaving of the steps below.  A step that writes is the moment the lock is had: a
    PING still waiting for it when the other task ends is not part of the run.  The call returns
    as soon as either task ends. */
module SpdyExec {
  import opened Common
  import opened Bytes
  import opened SpdyClient
  import opened SpdyFrames
  import opened SpdyStreams
  import opened SpdyWire

  /** The stream each channel got, if the client opened it. */
  datatype Ids = Ids(stdin: Option<u32>, stdout: Option<u32>, stderr: Option<u32>, error: Option<u32>)

  datatype Event = Chunk(stderr: bool, data: Wire) | Exit(code: int) | FlushAck

  /** One thing one of the tasks does: the guest's event stream yields an event or ends, the
      client's frame stream yields a frame or ends. */
  datatype Step = Guest(event: Event) | GuestEnd | Client(frame: Frame) | ClientEnd

  datatype StdinOp = Write(data: Wire) | Close

  datatype Relay = Relay(wire: seq<Out>, stdin: seq<StdinOp>, stdinClosed: bool, writerDone: bool, readerDone: bool) {
    predicate Live() {
      !writerDone && !readerDone
    }

    function Send(f: Out): Relay {
      this.(wire := wire + [f])
    }
  }

  function SendFin(wire: seq<Out>, id: Option<u32>): seq<Out> {
    if id.Some? then wire + [OutData(id.value, true, [])] else wire
  }

  /** The exit status goes out for a nonzero code only; `body` is the serialized status object. */
  function SendStatus(wire: seq<Out>, id: Option<u32>, body: int -> Wire, code: int): seq<Out> {
    if id.Some? && code != 0 then wire + [OutData(id.value, false, body(code))] else wire
  }

  /** The exit status and then a FIN on every stream the client opened. */
  function Finish(wire: seq<Out>, ids: Ids, body: int -> Wire, code: int): seq<Out> {
    SendFin(SendFin(SendFin(SendStatus(wire, ids.error, body, code), ids.error), ids.stdout), ids.stderr)
  }

  function Output(ids: Ids, stderr: bool): Option<u32> {
    if stderr then ids.stderr else ids.stdout
  }

  function Feed(ops: seq<StdinOp>, data: Wire): seq<StdinOp> {
    if data == [] then ops else ops + [Write(data)]
  }

  function CloseOnce(ops: seq<StdinOp>, closed: bool): seq<StdinOp> {
    if closed then ops else ops + [Close]
  }

  function Next(s: Relay, ids: Ids, body: int -> Wire, step: Step): Relay {
    if !s.Live() then s
    else match step
      case Guest(Chunk(err, data)) =>
        if Output(ids, err).Some? then s.Send(OutData(Output(ids, err).value, false, data)) else s
      case Guest(Exit(code)) => s.(wire := Finish(s.wire, ids, body, code), writerDone := true)
      case Guest(FlushAck) => s
      case GuestEnd => s.(wire := Finish(s.wire, ids, body, 0), writerDone := true)
      case Client(Data(id, fin, data)) =>
        if Some(id) != ids.stdin then s
        else
          var fed := Feed(s.stdin, data);
          if fin then s.(stdin := CloseOnce(fed, s.stdinClosed), stdinClosed := true) else s.(stdin := fed)
      case Client(Ping(id)) => s.Send(OutPing(id))
      case Client(_) => s
      case ClientEnd =>
        s.(stdin := CloseOnce(s.stdin, s.stdinClosed), readerDone := true)
  }

  function After(ids: Ids, body: int -> Wire, steps: seq<Step>, k: nat): Relay
    requires k <= |steps|
  {
    if k == 0 then Relay([], [], false, false, false)
    else Next(After(ids, body, steps, k - 1), ids, body, steps[k - 1])
  }

  // ---------------------------------------------------------------- what happened, from the steps alone

  function Chunks(steps: seq<Step>, k: nat, err: bool): seq<Wire>
    requires k <= |steps|
  {
    if k == 0 then []
    else match steps[k - 1]
      case Guest(Chunk(e, data)) => if e == err then Chunks(steps, k - 1, err) + [data] else Chunks(steps, k - 1, err)
      case _ => Chunks(steps, k - 1, err)
  }

  function Pings(steps: seq<Step>, k: nat): seq<u32>
    requires k <= |steps|
  {
    if k == 0 then []
    else match steps[k - 1]
      case Client(Ping(id)) => Pings(steps, k - 1) + [id]
      case _ => Pings(steps, k - 1)
  }

  function StdinBytes(steps: seq<Step>, k: nat, id: Option<u32>): Wire
    requires k <= |steps|
  {
    if k == 0 then []
    else match steps[k - 1]
      case Client(Data(i, _, data)) =>
        if Some(i) == id then StdinBytes(steps, k - 1, id) + data else StdinBytes(steps, k - 1, id)
      case _ => StdinBytes(steps, k - 1, id)
  }

  /** The step that completes the writer task, and the exit code it reports. */
  predicate Completes(step: Step) {
    step.GuestEnd? || (step.Guest? && step.event.Exit?)
  }

  function ExitCode(step: Step): int
    requires Completes(step)
  {
    if step.GuestEnd? then 0 else step.event.code
  }

  // ---------------------------------------------------------------- chunks as frames

  function DataFrames(id: u32, chunks: seq<Wire>): seq<Out> {
    if chunks == [] then []
    else DataFrames(id, chunks[..|chunks| - 1]) + [OutData(id, false, chunks[|chunks| - 1])]
  }

  /** No two of the server's streams share an identifier. */
  ghost predicate Distinct(ids: Ids) {
    && (ids.stdout.Some? ==> ids.stdout != ids.stderr && ids.stdout != ids.error)
    && (ids.stderr.Some? ==> ids.stderr != ids.error)
  }

  // ---------------------------------------------------------------- while both tasks run

  /** The frame a step writes while both tasks run. */
  function Written(ids: Ids, step: Step): Option<Out> {
    match step
    case Guest(Chunk(err, data)) =>
      if Output(ids, err).Some? then Some(OutData(Output(ids, err).value, false, data)) else None
    case Client(Ping(id)) => Some(OutPing(id))
    case _ => None
  }

  /** The frames written by the first `k` steps, as long as both tasks run. */
  function Sent(ids: Ids, steps: seq<Step>, k: nat): seq<Out>
    requires k <= |steps|
  {
    if k == 0 then []
    else match Written(ids, steps[k - 1])
      case Some(f) => Sent(ids, steps, k - 1) + [f]
      case None => Sent(ids, steps, k - 1)
  }

  lemma {:induction false} LiveWire(ids: Ids, body: int -> Wire, steps: seq<Step>, k: nat)
    requires k <= |steps| && After(ids, body, steps, k).Live()
    ensures After(ids, body, steps, k).wire == Sent(ids, steps, k)
  {
    if k > 0 {
      LiveWire(ids, body, steps, k - 1);
    }
  }

  lemma DataFramesSnoc(id: u32, chunks: seq<Wire>, data: Wire)
    ensures DataFrames(id, chunks + [data]) == DataFrames(id, chunks) + [OutData(id, false, data)]
  {
    assert (chunks + [data])[..|chunks|] == chunks;
  }

  predicate ChunkOf(step: Step, err: bool) {
    step.Guest? && step.event.Chunk? && step.event.stderr == err
  }

  /** With distinct identifiers a step writes on an output stream exactly for a chunk of it. */
  lemma WrittenOn(ids: Ids, step: Step, err: bool, id: u32)
    requires Distinct(ids) && Output(ids, err) == Some(id)
    ensures var f := Written(ids, step);
            if ChunkOf(step, err)
            then f == Some(OutData(id, false, step.event.data))
            else f.Some? && f.value.OutData? ==> f.value.id != id
  {}

  lemma SentChunk(sent: seq<Out>, id: u32, chunks: seq<Wire>, data: Wire)
    requires On(sent, id) == DataFrames(id, chunks)
    ensures On(sent + [OutData(id, false, data)], id) == DataFrames(id, chunks + [data])
  {
    Snoc(sent, OutData(id, false, data), id);
    DataFramesSnoc(id, chunks, data);
  }

  /** Until a task ends, an output stream carries exactly the guest's chunks for it, in order, ... */
  lemma {:induction false} SentOutput(ids: Ids, steps: seq<Step>, k: nat, err: bool, id: u32)
    requires Distinct(ids) && k <= |steps| && Output(ids, err) == Some(id)
    ensures On(Sent(ids, steps, k), id) == DataFrames(id, Chunks(steps, k, err))
  {
    if k > 0 {
      SentOutput(ids, steps, k - 1, err, id);
      var step, sent := steps[k - 1], Sent(ids, steps, k - 1);
      WrittenOn(ids, step, err, id);
      if ChunkOf(step, err) {
        SentChunk(sent, id, Chunks(steps, k - 1, err), step.event.data);
      } else {
        assert Chunks(steps, k, err) == Chunks(steps, k - 1, err);
        if Written(ids, step).Some? {
          OtherStream(sent, id, Written(ids, step).value);
        }
      }
    }
  }

  /** ... nothing is on the error stream, ... */
  lemma {:induction false} SentError(ids: Ids, steps: seq<Step>, k: nat, id: u32)
    requires Distinct(ids) && k <= |steps| && ids.error == Some(id)
    ensures On(Sent(ids, steps, k), id) == []
  {
    if k > 0 {
      SentError(ids, steps, k - 1, id);
      if Written(ids, steps[k - 1]).Some? {
        OtherStream(Sent(ids, steps, k - 1), id, Written(ids, steps[k - 1]).value);
      }
    }
  }

  /** ... every PING handled has been echoed ... */
  lemma {:induction false} SentEchoes(ids: Ids, steps: seq<Step>, k: nat)
    requires k <= |steps|
    ensures Echoes(Sent(ids, steps, k)) == Pings(steps, k)
  {
    if k > 0 {
      SentEchoes(ids, steps, k - 1);
      if Written(ids, steps[k - 1]).Some? {
        Snoc(Sent(ids, steps, k - 1), Written(ids, steps[k - 1]).value, 0);
      }
    }
  }

  /** ... and no stream has been closed. */
  lemma {:induction false} SentNoFin(ids: Ids, steps: seq<Step>, k: nat, id: u32)
    requires k <= |steps|
    ensures Fins(Sent(ids, steps, k), id) == 0
  {
    if k > 0 {
      SentNoFin(ids, steps, k - 1, id);
      if Written(ids, steps[k - 1]).Some? {
        Snoc(Sent(ids, steps, k - 1), Written(ids, steps[k - 1]).value, id);
      }
    }
  }

  lemma AfterFin(wire: seq<Out>, id: Option<u32>, at: u32)
    ensures On(SendFin(wire, id), at) == if id == Some(at) then On(wire, at) + [OutData(at, true, [])] else On(wire, at)
    ensures Echoes(SendFin(wire, id)) == Echoes(wire)
    ensures Fins(SendFin(wire, id), at) == if id == Some(at) then Fins(wire, at) + 1 else Fins(wire, at)
  {
    if id.Some? {
      Snoc(wire, OutData(id.value, true, []), at);
    }
  }

  lemma AfterStatus(wire: seq<Out>, id: Option<u32>, body: int -> Wire, code: int, at: u32)
    ensures On(SendStatus(wire, id, body, code), at) ==
            if id == Some(at) && code != 0 then On(wire, at) + [OutData(at, false, body(code))] else On(wire, at)
    ensures Echoes(SendStatus(wire, id, body, code)) == Echoes(wire)
    ensures Fins(SendStatus(wire, id, body, code), at) == Fins(wire, at)
  {
    if id.Some? && code != 0 {
      Snoc(wire, OutData(id.value, false, body(code)), at);
    }
  }

  /** How many of the server's three streams use this identifier. */
  function Users(ids: Ids, id: u32): nat {
    (if ids.error == Some(id) then 1 else 0)
    + (if ids.stdout == Some(id) then 1 else 0)
    + (if ids.stderr == Some(id) then 1 else 0)
  }

  lemma AfterFinish(wire: seq<Out>, ids: Ids, body: int -> Wire, code: int, at: u32)
    ensures Echoes(Finish(wire, ids, body, code)) == Echoes(wire)
    ensures Fins(Finish(wire, ids, body, code), at) == Fins(wire, at) + Users(ids, at)
    ensures Distinct(ids) && (ids.stdout == Some(at) || ids.stderr == Some(at)) ==>
      On(Finish(wire, ids, body, code), at) == On(wire, at) + [OutData(at, true, [])]
    ensures Distinct(ids) && ids.error == Some(at) ==>
      On(Finish(wire, ids, body, code), at) ==
      (if code != 0 then On(wire, at) + [OutData(at, false, body(code))] else On(wire, at)) + [OutData(at, true, [])]
  {
    var w1 := SendStatus(wire, ids.error, body, code);
    var w2 := SendFin(w1, ids.error);
    var w3 := SendFin(w2, ids.stdout);
    AfterStatus(wire, ids.error, body, code, at);
    AfterFin(w1, ids.error, at);
    AfterFin(w2, ids.stdout, at);
    AfterFin(w3, ids.stderr, at);
  }

  /** The closing sequence: the status if the exit is nonzero and a FIN on the error stream, then a
      FIN on stdout, then one on stderr, each only if the client opened it. */
  lemma FinishInOrder(wire: seq<Out>, ids: Ids, body: int -> Wire, code: int)
    ensures var status := if ids.error.Some? && code != 0 then [OutData(ids.error.value, false, body(code))] else [];
            var first := if ids.error.Some? then [OutData(ids.error.value, true, [])] else [];
            var second := if ids.stdout.Some? then [OutData(ids.stdout.value, true, [])] else [];
            var third := if ids.stderr.Some? then [OutData(ids.stderr.value, true, [])] else [];
            Finish(wire, ids, body, code) == wire + status + first + second + third
  {}

  // ---------------------------------------------------------------- completed runs

  /** The guest's events end after `k` steps, with both tasks still running. */
  ghost predicate Completed(ids: Ids, body: int -> Wire, steps: seq<Step>, k: nat) {
    k < |steps| && After(ids, body, steps, k).Live() && Completes(steps[k])
  }

  lemma CompletedWire(ids: Ids, body: int -> Wire, steps: seq<Step>, k: nat)
    requires Completed(ids, body, steps, k)
    ensures After(ids, body, steps, k + 1).wire == Finish(Sent(ids, steps, k), ids, body, ExitCode(steps[k]))
    ensures !After(ids, body, steps, k + 1).Live()
  {
    LiveWire(ids, body, steps, k);
  }

  /** In every run whose writer task completes, whatever the interleaving with client frames, an
      opened output stream carries the guest's chunks for it, in order, and then one FIN ... */
  lemma CompletedOutput(ids: Ids, body: int -> Wire, steps: seq<Step>, k: nat, err: bool, id: u32)
    requires Distinct(ids) && Completed(ids, body, steps, k) && (if err then ids.stderr else ids.stdout) == Some(id)
    ensures On(After(ids, body, steps, k + 1).wire, id) ==
            DataFrames(id, Chunks(steps, k, err)) + [OutData(id, true, [])]
  {
    CompletedWire(ids, body, steps, k);
    SentOutput(ids, steps, k, err, id);
    AfterFinish(Sent(ids, steps, k), ids, body, ExitCode(steps[k]), id);
  }

  /** ... the error stream carries the status body exactly when a nonzero exit was seen, and then
      one FIN ... */
  lemma CompletedError(ids: Ids, body: int -> Wire, steps: seq<Step>, k: nat, id: u32)
    requires Distinct(ids) && Completed(ids, body, steps, k) && ids.error == Some(id)
    ensures var code := ExitCode(steps[k]);
            On(After(ids, body, steps, k + 1).wire, id) ==
            (if code != 0 then [OutData(id, false, body(code))] else []) + [OutData(id, true, [])]
  {
    CompletedWire(ids, body, steps, k);
    SentError(ids, steps, k, id);
    AfterFinish(Sent(ids, steps, k), ids, body, ExitCode(steps[k]), id);
  }

  /** The code is that of the exit event, and zero if the events just end. */
  lemma ReportedCode(step: Step, code: int)
    requires Completes(step)
    ensures step == GuestEnd ==> ExitCode(step) == 0
    ensures step == Guest(Exit(code)) ==> ExitCode(step) == code
  {}

  /** ... and every PING handled by then has been echoed once, in order. */
  lemma CompletedEchoes(ids: Ids, body: int -> Wire, steps: seq<Step>, k: nat)
    requires Completed(ids, body, steps, k)
    ensures Echoes(After(ids, body, steps, k + 1).wire) == Pings(steps, k)
  {
    CompletedWire(ids, body, steps, k);
    SentEchoes(ids, steps, k);
    AfterFinish(Sent(ids, steps, k), ids, body, ExitCode(steps[k]), 0);
  }

  /** A stream is closed as often as it is used, so every opened stream gets exactly one FIN if
      and only if no two of them share an identifier. */
  lemma OneFinEach(ids: Ids, body: int -> Wire, steps: seq<Step>, k: nat)
    requires Completed(ids, body, steps, k)
    ensures Distinct(ids) <==>
      forall id: u32 :: Users(ids, id) > 0 ==> Fins(After(ids, body, steps, k + 1).wire, id) == 1
  {
    CompletedWire(ids, body, steps, k);
    var w := After(ids, body, steps, k + 1).wire;
    forall id: u32 ensures Fins(w, id) == Users(ids, id) {
      SentNoFin(ids, steps, k, id);
      AfterFinish(Sent(ids, steps, k), ids, body, ExitCode(steps[k]), id);
    }
    SharedMeansTwice(ids);
  }

  /** One identifier for the error and the output stream: it is closed twice. */
  lemma ClosedTwice(body: int -> Wire) returns (ids: Ids, steps: seq<Step>)
    ensures ids.stdout == ids.error == Some(1)
    ensures Completed(ids, body, steps, 0) && Fins(After(ids, body, steps, 1).wire, 1) == 2
  {
    ids, steps := Ids(None, Some(1), None, Some(1)), [GuestEnd];
    CompletedWire(ids, body, steps, 0);
    AfterFinish([], ids, body, 0, 1);
  }

  lemma SharedMeansTwice(ids: Ids)
    ensures Distinct(ids) <==> forall id: u32 :: Users(ids, id) <= 1
  {
    if !Distinct(ids) {
      var id := if ids.stdout.Some? && (ids.stdout == ids.stderr || ids.stdout == ids.error) then ids.stdout.value
                else ids.stderr.value;
      assert Users(ids, id) > 1;
    }
  }

  /** Nothing is written once a task has ended. */
  lemma {:induction false} NothingAfterwards(ids: Ids, body: int -> Wire, steps: seq<Step>, j: nat, k: nat)
    requires j <= k <= |steps| && !After(ids, body, steps, j).Live()
    ensures After(ids, body, steps, k) == After(ids, body, steps, j)
  {
    if j < k {
      NothingAfterwards(ids, body, steps, j, k - 1);
    }
  }

  // ---------------------------------------------------------------- client to guest

  function WrittenBytes(ops: seq<StdinOp>): Wire {
    if ops == [] then [] else
      var op, before := ops[|ops| - 1], ops[..|ops| - 1];
      if op.Write? then WrittenBytes(before) + op.data else WrittenBytes(before)
  }

  function Closes(ops: seq<StdinOp>): nat {
    if ops == [] then 0 else Closes(ops[..|ops| - 1]) + if ops[|ops| - 1].Close? then 1 else 0
  }

  lemma AfterFeed(ops: seq<StdinOp>, data: Wire)
    ensures WrittenBytes(Feed(ops, data)) == WrittenBytes(ops) + data
    ensures Closes(Feed(ops, data)) == Closes(ops)
  {
    assert (ops + [Write(data)])[..|ops|] == ops;
  }

  lemma AfterClose(ops: seq<StdinOp>, closed: bool)
    ensures WrittenBytes(CloseOnce(ops, closed)) == WrittenBytes(ops)
    ensures Closes(CloseOnce(ops, closed)) == if closed then Closes(ops) else Closes(ops) + 1
  {
    assert (ops + [Close])[..|ops|] == ops;
  }

  /** A frame by which the client half-closes the stream. */
  predicate HalfCloses(step: Step, id: Option<u32>) {
    step.Client? && step.frame.Data? && step.frame.fin && Some(step.frame.id) == id
  }

  ghost predicate HalfClosed(steps: seq<Step>, k: nat, id: Option<u32>)
    requires k <= |steps|
  {
    exists i :: 0 <= i < k && HalfCloses(steps[i], id)
  }

  lemma HalfClosedNext(steps: seq<Step>, k: nat, id: Option<u32>)
    requires k < |steps|
    ensures HalfClosed(steps, k + 1, id) <==> HalfClosed(steps, k, id) || HalfCloses(steps[k], id)
  {}

  /** While the relay runs, the guest's standard input is exactly what the client sent on the
      stdin stream, and it has been closed once if the client half-closed it, else not at all. */
  lemma {:induction false} StdinWhileLive(ids: Ids, body: int -> Wire, steps: seq<Step>, k: nat)
    requires k <= |steps| && After(ids, body, steps, k).Live()
    ensures var s := After(ids, body, steps, k);
            && WrittenBytes(s.stdin) == StdinBytes(steps, k, ids.stdin)
            && (s.stdinClosed <==> HalfClosed(steps, k, ids.stdin))
            && Closes(s.stdin) == if HalfClosed(steps, k, ids.stdin) then 1 else 0
  {
    if k > 0 {
      HalfClosedNext(steps, k - 1, ids.stdin);
      StdinWhileLive(ids, body, steps, k - 1);
      var s := After(ids, body, steps, k - 1);
      match steps[k - 1]
      case Client(Data(id, fin, data)) =>
        AfterFeed(s.stdin, data);
        AfterClose(Feed(s.stdin, data), s.stdinClosed);
      case _ =>
    }
  }

  /** What the guest was given is never taken back, and no write is empty. */
  lemma {:induction false} StdinGrows(ids: Ids, body: int -> Wire, steps: seq<Step>, j: nat, k: nat)
    requires j <= k <= |steps|
    ensures After(ids, body, steps, j).stdin <= After(ids, body, steps, k).stdin
    ensures forall op :: op in After(ids, body, steps, k).stdin && op.Write? ==> op.data != []
    decreases k
  {
    if k > 0 {
      StdinGrows(ids, body, steps, if j < k then j else k - 1, k - 1);
    }
  }

  /** The close comes right after all that was sent up to and with the first frame that
      half-closes the stream. */
  lemma ClosedAfterTheLastByte(ids: Ids, body: int -> Wire, steps: seq<Step>, k: nat) returns (before: seq<StdinOp>)
    requires k < |steps| && After(ids, body, steps, k).Live()
    requires HalfCloses(steps[k], ids.stdin) && !HalfClosed(steps, k, ids.stdin)
    ensures After(ids, body, steps, k + 1).stdin == before + [Close]
    ensures WrittenBytes(before) == StdinBytes(steps, k + 1, ids.stdin) && Closes(before) == 0
  {
    StdinWhileLive(ids, body, steps, k);
    var s := After(ids, body, steps, k);
    before := Feed(s.stdin, steps[k].frame.data);
    AfterFeed(s.stdin, steps[k].frame.data);
  }

  /** When the client goes away, the guest has received everything and sees exactly one close. */
  lemma ClientGone(ids: Ids, body: int -> Wire, steps: seq<Step>, k: nat)
    requires k < |steps| && After(ids, body, steps, k).Live() && steps[k].ClientEnd?
    ensures var s := After(ids, body, steps, k + 1);
            WrittenBytes(s.stdin) == StdinBytes(steps, k, ids.stdin) && Closes(s.stdin) == 1
  {
    StdinWhileLive(ids, body, steps, k);
    AfterClose(After(ids, body, steps, k).stdin, After(ids, body, steps, k).stdinClosed);
  }

  // ---------------------------------------------------------------- what the client reads

  lemma {:induction false} CarriedChunks(id: u32, chunks: seq<Wire>)
    ensures Carried(DataFrames(id, chunks)) == Flatten(chunks)
  {
    if chunks != [] {
      var last, before := chunks[|chunks| - 1], chunks[..|chunks| - 1];
      CarriedChunks(id, before);
      CarriedSnoc(DataFrames(id, before), OutData(id, false, last));
      FlattenSnoc(before, last);
      assert chunks == before + [last];
    }
  }

  /** Identifiers that were read from SYN_STREAM frames have 31 bits. */
  predicate NarrowIds(ids: Ids) {
    && (ids.stdout.Some? ==> ids.stdout.value < U31)
    && (ids.stderr.Some? ==> ids.stderr.value < U31)
    && (ids.error.Some? ==> ids.error.value < U31)
  }

  /** Every chunk among the first `k` steps fits in one DATA frame. */
  ghost predicate ChunksFit(steps: seq<Step>, k: nat)
    requires k <= |steps|
  {
    forall i :: 0 <= i < k && steps[i].Guest? && steps[i].event.Chunk? ==> |steps[i].event.data| < U24
  }

  lemma {:induction false} SentIsPlain(ids: Ids, steps: seq<Step>, k: nat)
    requires k <= |steps| && NarrowIds(ids) && ChunksFit(steps, k)
    ensures Narrow(Sent(ids, steps, k)) && AllFit(Sent(ids, steps, k))
  {
    if k > 0 {
      SentIsPlain(ids, steps, k - 1);
    }
  }

  lemma FinishIsPlain(wire: seq<Out>, ids: Ids, body: int -> Wire, code: int)
    requires Narrow(wire) && AllFit(wire) && NarrowIds(ids) && (code != 0 ==> |body(code)| < U24)
    ensures Narrow(Finish(wire, ids, body, code)) && AllFit(Finish(wire, ids, body, code))
  {}

  // ---------------------------------------------------------------- a whole session

  function Lookup(m: map<Channel, u32>, c: Channel): Option<u32> {
    if c in m then Some(m[c]) else None
  }

  /** The streams of the relay, from the map that `CollectStreams` returns. */
  function IdsOf(m: map<Channel, u32>): Ids {
    Ids(Lookup(m, Stdin), Lookup(m, Stdout), Lookup(m, Stderr), Lookup(m, Channel.Error))
  }

  lemma MapNarrow(m: map<Channel, u32>)
    requires forall c :: c in m ==> m[c] < U31
    ensures NarrowIds(IdsOf(m))
  {}

  lemma MapDistinct(m: map<Channel, u32>)
    requires Injective(m)
    ensures Distinct(IdsOf(m))
  {}

  /** Streams opened by any bytes have 31-bit identifiers, and distinct ones if the client chose
      distinct ones. */
  lemma CollectedIds(w: Wire, expected: seq<Channel>, used: nat)
    requires NoDuplicates(expected) && StopsAt(Frames(w).frames, |expected|, used)
    ensures var syns := SynIds(Frames(w).frames, used);
            var ids := IdsOf(Assigned(expected, syns));
            NarrowIds(ids) && (NoDuplicates(syns) ==> Distinct(ids))
  {
    var syns := SynIds(Frames(w).frames, used);
    AllReadable(w);
    SynIdsAreNarrow(Frames(w).frames, used);
    AssignedAreNarrow(expected, syns);
    MapNarrow(Assigned(expected, syns));
    if NoDuplicates(syns) {
      AssignedIsInjective(expected, syns);
      MapDistinct(Assigned(expected, syns));
    }
  }

  /** The relay writes a channel's bytes on the stream the client opened for it, which is the one at
      the channel's place in the open order. */
  lemma StreamOf(expected: seq<Channel>, syns: seq<u32>, i: nat)
    requires NoDuplicates(expected) && i < |syns| <= |expected|
    ensures var ids := IdsOf(Assigned(expected, syns));
            match expected[i]
            case Error => ids.error == Some(syns[i])
            case Stdin => ids.stdin == Some(syns[i])
            case Stdout => ids.stdout == Some(syns[i])
            case Stderr => ids.stderr == Some(syns[i])
            case Resize => true
  {
    AssignedAt(expected, syns);
  }

  /** Everything the server writes in a session whose streams were opened by the bytes `w`. */
  ghost function SessionWire(w: Wire, expected: seq<Channel>, block: nat -> HeaderBlock, used: nat,
                             body: int -> Wire, steps: seq<Step>, k: nat): seq<Out>
    requires StopsAt(Frames(w).frames, |expected|, used) && k <= |steps|
  {
    var fs := Frames(w).frames;
    Answers(fs, block, used) + After(IdsOf(Assigned(expected, SynIds(fs, used))), body, steps, k).wire
  }

  /** A session in which the client opened streams with distinct identifiers, the guest's events end
      after `k` steps, and every chunk and the status body fit in a DATA frame. */
  ghost predicate GoodSession(w: Wire, expected: seq<Channel>, used: nat, body: int -> Wire, steps: seq<Step>, k: nat) {
    && NoDuplicates(expected) && StopsAt(Frames(w).frames, |expected|, used)
    && NoDuplicates(SynIds(Frames(w).frames, used))
    && Completed(IdsOf(Assigned(expected, SynIds(Frames(w).frames, used))), body, steps, k)
    && ChunksFit(steps, k) && (ExitCode(steps[k]) != 0 ==> |body(ExitCode(steps[k]))| < U24)
  }

  /** On the stream at place `i` of the open order a client that decodes all bytes of the session,
      from the first SYN_REPLY to the last FIN, gets what the relay put there. */
  lemma SessionReadsBack(w: Wire, expected: seq<Channel>, block: nat -> HeaderBlock, used: nat,
                         body: int -> Wire, steps: seq<Step>, k: nat, id: u32)
    requires GoodSession(w, expected, used, body, steps, k)
    ensures var ids := IdsOf(Assigned(expected, SynIds(Frames(w).frames, used)));
            var all := SessionWire(w, expected, block, used, body, steps, k + 1);
            Gets(SeenStream(EncodeAll(all)).frames, id) == Carried(On(After(ids, body, steps, k + 1).wire, id))
  {
    var fs := Frames(w).frames;
    var ids := IdsOf(Assigned(expected, SynIds(fs, used)));
    var answers, wire := Answers(fs, block, used), After(ids, body, steps, k + 1).wire;
    CollectedIds(w, expected, used);
    AnswersHaveNoData(fs, block, used);
    RelayIsPlain(ids, body, steps, k);
    GetsIsCarried(answers + wire, id);
    OnAfterOthers(answers, wire, id);
  }

  lemma RelayIsPlain(ids: Ids, body: int -> Wire, steps: seq<Step>, k: nat)
    requires NarrowIds(ids) && Completed(ids, body, steps, k) && ChunksFit(steps, k)
    requires ExitCode(steps[k]) != 0 ==> |body(ExitCode(steps[k]))| < U24
    ensures Narrow(After(ids, body, steps, k + 1).wire) && AllFit(After(ids, body, steps, k + 1).wire)
  {
    CompletedWire(ids, body, steps, k);
    SentIsPlain(ids, steps, k);
    FinishIsPlain(Sent(ids, steps, k), ids, body, ExitCode(steps[k]));
  }

  /** End to end: on the stream it opened for stdout or stderr the client gets exactly the bytes the
      guest wrote there ... */
  lemma ClientReadsOutput(w: Wire, expected: seq<Channel>, block: nat -> HeaderBlock, used: nat,
                          body: int -> Wire, steps: seq<Step>, k: nat, err: bool, i: nat)
    requires GoodSession(w, expected, used, body, steps, k)
    requires i < |SynIds(Frames(w).frames, used)| && expected[i] == if err then Stderr else Stdout
    ensures var all := SessionWire(w, expected, block, used, body, steps, k + 1);
            Gets(SeenStream(EncodeAll(all)).frames, SynIds(Frames(w).frames, used)[i]) == Flatten(Chunks(steps, k, err))
  {
    var syns := SynIds(Frames(w).frames, used);
    var ids, id := IdsOf(Assigned(expected, syns)), syns[i];
    StreamOf(expected, syns, i);
    CollectedIds(w, expected, used);
    SessionReadsBack(w, expected, block, used, body, steps, k, id);
    CompletedOutput(ids, body, steps, k, err, id);
    CarriedSnoc(DataFrames(id, Chunks(steps, k, err)), OutData(id, true, []));
    CarriedChunks(id, Chunks(steps, k, err));
  }

  lemma CarriedStatus(id: u32, body: int -> Wire, code: int)
    ensures Carried((if code != 0 then [OutData(id, false, body(code))] else []) + [OutData(id, true, [])]) ==
            if code != 0 then body(code) else []
  {
    var before: seq<Out> := if code != 0 then [OutData(id, false, body(code))] else [];
    CarriedSnoc(before, OutData(id, true, []));
    if code != 0 {
      CarriedSnoc([], OutData(id, false, body(code)));
      assert [] + [OutData(id, false, body(code))] == [OutData(id, false, body(code))];
    }
  }

  /** ... on the one it opened for errors the status of a nonzero exit, or nothing ... */
  lemma ClientReadsStatus(w: Wire, expected: seq<Channel>, block: nat -> HeaderBlock, used: nat,
                          body: int -> Wire, steps: seq<Step>, k: nat, i: nat)
    requires GoodSession(w, expected, used, body, steps, k)
    requires i < |SynIds(Frames(w).frames, used)| && expected[i] == Channel.Error
    ensures var all := SessionWire(w, expected, block, used, body, steps, k + 1);
            var code := ExitCode(steps[k]);
            Gets(SeenStream(EncodeAll(all)).frames, SynIds(Frames(w).frames, used)[i]) ==
            if code != 0 then body(code) else []
  {
    var syns := SynIds(Frames(w).frames, used);
    var ids, id := IdsOf(Assigned(expected, syns)), syns[i];
    StreamOf(expected, syns, i);
    CollectedIds(w, expected, used);
    SessionReadsBack(w, expected, block, used, body, steps, k, id);
    CompletedError(ids, body, steps, k, id);
    CarriedStatus(id, body, ExitCode(steps[k]));
  }

  /** ... and the guest gets what the client wrote on the stream it opened for stdin. */
  lemma GuestReadsInput(w: Wire, expected: seq<Channel>, used: nat, body: int -> Wire, steps: seq<Step>, k: nat, i: nat)
    requires NoDuplicates(expected) && StopsAt(Frames(w).frames, |expected|, used)
    requires i < |SynIds(Frames(w).frames, used)| && expected[i] == Stdin
    requires k <= |steps| && After(IdsOf(Assigned(expected, SynIds(Frames(w).frames, used))), body, steps, k).Live()
    ensures var id := Some(SynIds(Frames(w).frames, used)[i]);
            var s := After(IdsOf(Assigned(expected, SynIds(Frames(w).frames, used))), body, steps, k);
            && WrittenBytes(s.stdin) == StdinBytes(steps, k, id)
            && Closes(s.stdin) == if HalfClosed(steps, k, id) then 1 else 0
  {
    StreamOf(expected, SynIds(Frames(w).frames, used), i);
    StdinWhileLive(IdsOf(Assigned(expected, SynIds(Frames(w).frames, used))), body, steps, k);
  }
}
