/** Port forwarding over SPDY (src/cri/src/spdy.rs): the client's data stream is decoded and put
    into control frames for the guest, and the guest's control frames into DATA frames for the
    client, while PINGs are echoed in between. */
module SpdyForward {
  import opened Common
  import opened Bytes
  import opened Framing
  import opened SpdyClient
  import opened SpdyFrames
  import opened SpdyStreams
  import opened SpdyWire
  import Control = PortForward

  type Ctl = Control.PfFrame

  // ---------------------------------------------------------------- opening the two streams

  datatype Opened = Pair(error: u32, data: u32) | ClosedEarly | Broken

  /** The loop that waits for the error stream and the data stream, whatever comes in between. */
  method CollectPair(input: Stream<Frame>, block: nat -> HeaderBlock)
    returns (r: Opened, output: seq<Out>, used: nat)
    ensures StopsAt(input.frames, 2, used)
    ensures output == Answers(input.frames, block, used)
    ensures var ids := SynIds(input.frames, used);
            if |ids| == 2 then r == Pair(ids[0], ids[1]) else r == if input.truncated then Broken else ClosedEarly
  {
    var fs := input.frames;
    output, used := [], 0;
    var ids: seq<u32> := [];
    while |ids| < 2 && used < |fs|
      invariant used <= |fs| && |ids| <= 2
      invariant ids == SynIds(fs, used)
      invariant used > 0 ==> |SynIds(fs, used - 1)| < 2
      invariant output == Answers(fs, block, used)
    {
      match fs[used] {
        case SynStream(id) =>
          output := output + [OutSynReply(id, block(|ids|))];
          ids := ids + [id];
        case Ping(id) =>
          output := output + [OutPing(id)];
        case Data(_, _, _) =>
        case Ignored =>
      }
      used := used + 1;
    }
    if |ids| == 2 {
      r := Pair(ids[0], ids[1]);
    } else {
      r := if input.truncated then Broken else ClosedEarly;
    }
  }

  // ---------------------------------------------------------------- the two tasks

  /** `client` are the frames taken from the client and `written` the control frames they were put
      into; of the bytes of these, `sent` have reached the guest and `pending` not yet.  `guest` are
      the control frames taken from the guest.  `out` are the frames written to the client; of their
      bytes `outSent` are out and `outPending` not yet, and while any are, the writer is locked, by
      the client's task if `byClient` and by the guest's otherwise. */
  datatype Forward = Forward(client: seq<Frame>, written: seq<Ctl>, sent: Wire, pending: Wire, clientDone: bool,
                             guest: seq<Ctl>, guestDone: bool,
                             out: seq<Out>, outSent: Wire, outPending: Wire, byClient: bool) {

    predicate ClientWrites() {
      outPending != [] && byClient
    }

    predicate GuestWrites() {
      outPending != [] && !byClient
    }

    /** The call returns when the guest's task is done, whatever the client's is in the middle of. */
    predicate Ended() {
      guestDone && !GuestWrites()
    }

    function Write(f: Out, mine: bool): Forward {
      this.(out := out + [f], outPending := Encode(f), byClient := mine)
    }

    function Relay(fs: seq<Ctl>): Forward {
      this.(written := written + fs, pending := Flatten(Control.Pieces(fs)))
    }
  }

  const START := Forward([], [], [], [], false, [], false, [], [], [], false)

  /** The control frame that ends the stream. */
  const CLOSING := Control.PfFrame(Control.CLOSE, Control.STREAM_ID, [])

  datatype Step = FromClient(frame: Frame) | ClientEnd | ToGuest(n: nat)
                | FromGuest(ctl: Ctl) | GuestEnd | ToClient(n: nat)

  predicate OnStream(f: Ctl, kind: byte) {
    f.id == Control.STREAM_ID && f.kind == kind
  }

  /** A task goes on once what it writes is out.  A step that writes to the client is the moment
      the lock is had. */
  predicate Enabled(s: Forward, step: Step) {
    !s.Ended() &&
    match step
    case FromClient(f) =>
      !s.clientDone && s.pending == [] && !s.ClientWrites() && Readable(f) && (f.Ping? ==> s.outPending == [])
    case ClientEnd => !s.clientDone && s.pending == [] && !s.ClientWrites()
    case ToGuest(n) => n <= |s.pending|
    case FromGuest(f) =>
      && !s.guestDone && !s.GuestWrites() && Control.Fits(f)
      && (OnStream(f, Control.DATA) || OnStream(f, Control.CLOSE) ==> s.outPending == [])
    case GuestEnd => !s.guestDone && !s.GuestWrites()
    case ToClient(n) => n <= |s.outPending|
  }

  /** The control frames for a frame of the client: its data, if any, and the end, if it is one. */
  function Relayed(f: Frame, id: u32): seq<Ctl> {
    if !f.Data? || f.id != id then []
    else
      (if f.data == [] then [] else [Control.PfFrame(Control.DATA, Control.STREAM_ID, f.data)])
      + (if f.fin then [CLOSING] else [])
  }

  function Next(s: Forward, id: u32, step: Step): Forward
    requires Enabled(s, step)
  {
    match step
    case FromClient(f) =>
      var s' := s.(client := s.client + [f]);
      if f.Ping? then s'.Write(OutPing(f.id), true)
      else if f.Data? && f.id == id then s'.Relay(Relayed(f, id)).(clientDone := f.fin)
      else s'
    case ClientEnd => s.Relay([CLOSING]).(clientDone := true)
    case ToGuest(n) => s.(sent := s.sent + s.pending[..n], pending := s.pending[n..])
    case FromGuest(f) =>
      var s' := s.(guest := s.guest + [f]);
      if OnStream(f, Control.DATA) then s'.Write(OutData(id, false, f.payload), false)
      else if OnStream(f, Control.CLOSE) then s'.Write(OutData(id, true, []), false).(guestDone := true)
      else s'
    case GuestEnd => s.(guestDone := true)
    case ToClient(n) => s.(outSent := s.outSent + s.outPending[..n], outPending := s.outPending[n..])
  }

  ghost predicate IsRun(id: u32, states: seq<Forward>, steps: seq<Step>) {
    && |states| == |steps| + 1 && states[0] == START
    && forall i :: 0 <= i < |steps| ==> Enabled(states[i], steps[i]) && states[i + 1] == Next(states[i], id, steps[i])
  }

  // ---------------------------------------------------------------- what holds after every step

  /** The control frames carry exactly what the client put on the data stream. */
  ghost predicate ControlInv(s: Forward, id: u32) {
    && Control.FramesInv(s.written, Received(s.client, id), s.clientDone)
    && s.sent + s.pending == Flatten(Control.Pieces(s.written))
  }

  /** Everything the guest sent on the stream fits in a DATA frame. */
  ghost predicate GuestFits(guest: seq<Ctl>) {
    forall f :: f in guest && OnStream(f, Control.DATA) ==> |f.payload| < U24
  }

  /** On the data stream are the guest's DATA up to its first CLOSE, and a FIN for that. */
  ghost predicate StreamInv(out: seq<Out>, id: u32, guest: seq<Ctl>) {
    && Carried(On(out, id)) == Control.ToClient(guest)
    && Fins(out, id) == (if Control.Closed(guest) then 1 else 0)
    && (Control.Closed(guest) ==> EndsWithFin(On(out, id), id))
  }

  /** No other stream is written to, and a payload fits if the guest's did. */
  ghost predicate PlainInv(out: seq<Out>, id: u32, guest: seq<Ctl>) {
    && (forall f :: f in out && f.OutData? ==> f.id == id)
    && (AllFit(out) <==> GuestFits(guest))
  }

  predicate EndsWithFin(fs: seq<Out>, id: u32) {
    fs != [] && fs[|fs| - 1] == OutData(id, true, [])
  }

  ghost predicate LockInv(s: Forward) {
    && s.outSent + s.outPending == EncodeAll(s.out)
    && (Control.Closed(s.guest) ==> s.guestDone && !s.ClientWrites())
  }

  ghost predicate Inv(s: Forward, id: u32) {
    && ControlInv(s, id)
    && StreamInv(s.out, id, s.guest) && PlainInv(s.out, id, s.guest)
    && Echoes(s.out) == PingIds(s.client, |s.client|)
    && LockInv(s)
  }

  // ---------------------------------------------------------------- client to guest

  lemma RelayBytes(written: seq<Ctl>, sent: Wire, fs: seq<Ctl>)
    requires sent == Flatten(Control.Pieces(written))
    ensures sent + Flatten(Control.Pieces(fs)) == Flatten(Control.Pieces(written + fs))
  {
    Control.PiecesAppend(written, fs);
    FlattenAppend(Control.Pieces(written), Control.Pieces(fs));
  }

  lemma RelayedKeeps(written: seq<Ctl>, client: seq<Frame>, f: Frame, id: u32)
    requires Control.FramesInv(written, Received(client, id), false) && Readable(f)
    ensures Control.FramesInv(written + Relayed(f, id), Received(client + [f], id), f.Data? && f.id == id && f.fin)
  {
    ReceivedSnoc(client, f, id);
    var bytes := Received(client, id);
    if f.Data? && f.id == id {
      var data := if f.data == [] then [] else [Control.PfFrame(Control.DATA, Control.STREAM_ID, f.data)];
      if f.data != [] {
        Control.DataKeeps(written, bytes, f.data);
      } else {
        assert bytes + f.data == bytes && written + data == written;
      }
      if f.fin {
        Control.CloseKeeps(written + data, bytes + f.data);
        AppendAssociates(written, data, [CLOSING]);
      } else {
        assert data + [] == data;
      }
    } else {
      assert written + [] == written;
    }
  }

  lemma ClientKeepsControl(s: Forward, id: u32, f: Frame)
    requires ControlInv(s, id) && Enabled(s, FromClient(f))
    ensures ControlInv(Next(s, id, FromClient(f)), id)
  {
    assert s.sent + [] == s.sent;
    RelayedKeeps(s.written, s.client, f, id);
    if f.Data? && f.id == id {
      RelayBytes(s.written, s.sent, Relayed(f, id));
    } else {
      assert s.written + [] == s.written;
    }
  }

  lemma EndKeepsControl(s: Forward, id: u32)
    requires ControlInv(s, id) && Enabled(s, ClientEnd)
    ensures ControlInv(Next(s, id, ClientEnd), id)
  {
    assert s.sent + [] == s.sent;
    RelayBytes(s.written, s.sent, [CLOSING]);
    Control.CloseKeeps(s.written, Received(s.client, id));
  }

  lemma StepKeepsControl(s: Forward, id: u32, step: Step)
    requires ControlInv(s, id) && Enabled(s, step)
    ensures ControlInv(Next(s, id, step), id)
  {
    match step
    case FromClient(f) => ClientKeepsControl(s, id, f);
    case ClientEnd => EndKeepsControl(s, id);
    case ToGuest(n) =>
      assert s.pending == s.pending[..n] + s.pending[n..];
      AppendAssociates(s.sent, s.pending[..n], s.pending[n..]);
    case _ =>
  }

  // ---------------------------------------------------------------- guest to client

  lemma FitSnoc(out: seq<Out>, f: Out)
    ensures AllFit(out + [f]) <==> AllFit(out) && Fits(f)
  {
    assert f in out + [f];
    forall g | g in out ensures g in out + [f] {}
  }

  lemma GuestFitsSnoc(guest: seq<Ctl>, f: Ctl)
    ensures GuestFits(guest + [f]) <==> GuestFits(guest) && (OnStream(f, Control.DATA) ==> |f.payload| < U24)
  {
    assert f in guest + [f];
    forall g | g in guest ensures g in guest + [f] {}
  }

  lemma DataKeepsStream(out: seq<Out>, id: u32, guest: seq<Ctl>, f: Ctl)
    requires StreamInv(out, id, guest) && OnStream(f, Control.DATA) && !Control.Closed(guest)
    ensures StreamInv(out + [OutData(id, false, f.payload)], id, guest + [f])
  {
    Snoc(out, OutData(id, false, f.payload), id);
    CarriedSnoc(On(out, id), OutData(id, false, f.payload));
    Control.ToClientSnoc(guest, f);
    Control.ClosedSnoc(guest, f);
  }

  lemma CloseKeepsStream(out: seq<Out>, id: u32, guest: seq<Ctl>, f: Ctl)
    requires StreamInv(out, id, guest) && OnStream(f, Control.CLOSE) && !Control.Closed(guest)
    ensures StreamInv(out + [OutData(id, true, [])], id, guest + [f])
  {
    Snoc(out, OutData(id, true, []), id);
    CarriedSnoc(On(out, id), OutData(id, true, []));
    assert Carried(On(out, id)) + [] == Carried(On(out, id));
    Control.ToClientSnoc(guest, f);
    Control.ClosedSnoc(guest, f);
  }

  lemma OtherKeepsStream(out: seq<Out>, id: u32, guest: seq<Ctl>, f: Ctl)
    requires StreamInv(out, id, guest) && !OnStream(f, Control.DATA) && !OnStream(f, Control.CLOSE)
    ensures StreamInv(out, id, guest + [f])
  {
    Control.ToClientSnoc(guest, f);
    Control.ClosedSnoc(guest, f);
  }

  lemma GuestKeepsStream(s: Forward, id: u32, f: Ctl)
    requires StreamInv(s.out, id, s.guest) && LockInv(s) && Enabled(s, FromGuest(f))
    ensures var s' := Next(s, id, FromGuest(f)); StreamInv(s'.out, id, s'.guest)
  {
    if OnStream(f, Control.DATA) {
      DataKeepsStream(s.out, id, s.guest, f);
    } else if OnStream(f, Control.CLOSE) {
      CloseKeepsStream(s.out, id, s.guest, f);
    } else {
      OtherKeepsStream(s.out, id, s.guest, f);
    }
  }

  lemma StepKeepsStream(s: Forward, id: u32, step: Step)
    requires StreamInv(s.out, id, s.guest) && LockInv(s) && Enabled(s, step)
    ensures var s' := Next(s, id, step); StreamInv(s'.out, id, s'.guest)
  {
    match step
    case FromClient(f) =>
      if f.Ping? {
        Snoc(s.out, OutPing(f.id), id);
      }
    case FromGuest(f) => GuestKeepsStream(s, id, f);
    case _ =>
  }

  lemma GuestKeepsPlain(s: Forward, id: u32, f: Ctl)
    requires PlainInv(s.out, id, s.guest) && Enabled(s, FromGuest(f))
    ensures var s' := Next(s, id, FromGuest(f)); PlainInv(s'.out, id, s'.guest)
  {
    GuestFitsSnoc(s.guest, f);
    if OnStream(f, Control.DATA) {
      FitSnoc(s.out, OutData(id, false, f.payload));
    } else if OnStream(f, Control.CLOSE) {
      FitSnoc(s.out, OutData(id, true, []));
    }
  }

  lemma StepKeepsPlain(s: Forward, id: u32, step: Step)
    requires PlainInv(s.out, id, s.guest) && Enabled(s, step)
    ensures var s' := Next(s, id, step); PlainInv(s'.out, id, s'.guest)
  {
    match step
    case FromClient(f) =>
      if f.Ping? {
        FitSnoc(s.out, OutPing(f.id));
      }
    case FromGuest(f) => GuestKeepsPlain(s, id, f);
    case _ =>
  }

  lemma PingsNext(client: seq<Frame>, f: Frame)
    ensures PingIds(client + [f], |client| + 1) ==
            if f.Ping? then PingIds(client, |client|) + [f.id] else PingIds(client, |client|)
  {
    PingIdsBefore(client, f, |client|);
  }

  lemma StepKeepsEchoes(s: Forward, id: u32, step: Step)
    requires Echoes(s.out) == PingIds(s.client, |s.client|) && Enabled(s, step)
    ensures var s' := Next(s, id, step); Echoes(s'.out) == PingIds(s'.client, |s'.client|)
  {
    match step
    case FromClient(f) =>
      PingsNext(s.client, f);
      if f.Ping? {
        Snoc(s.out, OutPing(f.id), id);
      }
    case FromGuest(f) =>
      Snoc(s.out, OutData(id, false, f.payload), id);
      Snoc(s.out, OutData(id, true, []), id);
    case _ =>
  }

  lemma WriteKeepsLock(s: Forward, f: Out, mine: bool)
    requires s.outSent + s.outPending == EncodeAll(s.out) && s.outPending == []
    ensures var s' := s.Write(f, mine); s'.outSent + s'.outPending == EncodeAll(s'.out)
  {
    EncodeAllAppend(s.out, [f]);
    OneFrame(f);
    assert s.outSent + [] == s.outSent;
  }

  lemma StepKeepsLock(s: Forward, id: u32, step: Step)
    requires LockInv(s) && Enabled(s, step)
    ensures LockInv(Next(s, id, step))
  {
    match step
    case FromClient(f) =>
      if f.Ping? {
        WriteKeepsLock(s, OutPing(f.id), true);
      }
    case FromGuest(f) =>
      Control.ClosedSnoc(s.guest, f);
      if OnStream(f, Control.DATA) {
        WriteKeepsLock(s, OutData(id, false, f.payload), false);
      } else if OnStream(f, Control.CLOSE) {
        WriteKeepsLock(s, OutData(id, true, []), false);
      }
    case ToClient(n) =>
      assert s.outPending == s.outPending[..n] + s.outPending[n..];
      AppendAssociates(s.outSent, s.outPending[..n], s.outPending[n..]);
    case _ =>
  }

  lemma {:induction false} RunKeepsInv(id: u32, states: seq<Forward>, steps: seq<Step>, k: nat)
    requires IsRun(id, states, steps) && k < |states|
    ensures Inv(states[k], id)
  {
    if k > 0 {
      RunKeepsInv(id, states, steps, k - 1);
      StepKeepsControl(states[k - 1], id, steps[k - 1]);
      StepKeepsStream(states[k - 1], id, steps[k - 1]);
      StepKeepsPlain(states[k - 1], id, steps[k - 1]);
      StepKeepsEchoes(states[k - 1], id, steps[k - 1]);
      StepKeepsLock(states[k - 1], id, steps[k - 1]);
    }
  }

  // ---------------------------------------------------------------- what each side gets

  /** What the guest decodes of the bytes that reached it. */
  ghost function GuestGot(s: Forward): seq<Ctl> {
    ReadAll(Control.ReadPf, s.sent).frames
  }

  /** At every moment what the guest has is a leading part of what the client put on the data
      stream ... */
  lemma GuestSeesPrefix(id: u32, states: seq<Forward>, steps: seq<Step>, k: nat)
    requires IsRun(id, states, steps) && k < |states|
    ensures GuestGot(states[k]) <= states[k].written
    ensures Control.Payloads(GuestGot(states[k])) <= Received(states[k].client, id)
  {
    RunKeepsInv(id, states, steps, k);
    var s := states[k];
    Control.PiecesAt(s.written);
    assert s.sent <= Flatten(Control.Pieces(s.written));
    CutAnywhere(Control.ReadPf, Control.Pieces(s.written), s.written, s.sent);
    Control.PayloadsOfPrefix(GuestGot(s), s.written);
  }

  /** ... and once the client has ended the stream or gone away, the guest has seen a CLOSE if and
      only if everything is out, and then it has all of it and exactly one CLOSE, last. */
  lemma GuestSeesAll(id: u32, states: seq<Forward>, steps: seq<Step>, k: nat)
    requires IsRun(id, states, steps) && k < |states| && states[k].clientDone
    ensures Control.Closed(GuestGot(states[k])) <==> states[k].pending == []
    ensures Control.Closed(GuestGot(states[k])) ==>
      && Control.Payloads(GuestGot(states[k])) == Received(states[k].client, id)
      && GuestGot(states[k])[|GuestGot(states[k])| - 1] == CLOSING
      && forall i :: 0 <= i < |GuestGot(states[k])| - 1 ==> GuestGot(states[k])[i].kind == Control.DATA
  {
    RunKeepsInv(id, states, steps, k);
    var s := states[k];
    Control.Delivered(s.written, Received(s.client, id), s.sent, s.pending);
  }

  /** From the client's own frames: what the guest has is a leading part of what the client wrote
      on the data stream, if its payloads fit. */
  lemma GuestSeesClientBytes(id: u32, states: seq<Forward>, steps: seq<Step>, k: nat, sent: seq<Out>)
    requires IsRun(id, states, steps) && k < |states|
    requires AllFit(sent) && Narrow(sent) && states[k].client <= Frames(EncodeAll(sent)).frames
    ensures Control.Payloads(GuestGot(states[k])) <= Carried(On(sent, id))
  {
    GuestSeesPrefix(id, states, steps, k);
    StreamRoundTrip(sent);
    ReceivedOfPrefix(states[k].client, Views(sent), id);
    ReceivedIsCarried(sent, id);
  }

  /** At every moment what the client can decode are whole frames of the server, and on the data
      stream a leading part of the guest's DATA up to its first CLOSE, if these fit. */
  lemma ClientSeesPrefix(id: u32, states: seq<Forward>, steps: seq<Step>, k: nat)
    requires IsRun(id, states, steps) && k < |states| && id < U31 && GuestFits(states[k].guest)
    ensures SeenStream(states[k].outSent).frames <= AllSeen(states[k].out)
    ensures Gets(SeenStream(states[k].outSent).frames, id) <= Control.ToClient(states[k].guest)
  {
    RunKeepsInv(id, states, steps, k);
    var s := states[k];
    assert s.outSent <= EncodeAll(s.out);
    CutSeen(s.out, s.outSent);
    SeenExactly(s.out);
    GetsOfPrefix(SeenStream(s.outSent).frames, AllSeen(s.out), id);
    GetsIsCarried(s.out, id);
  }

  /** Whenever the writer is idle, the client can decode exactly what was written if and only if
      everything the guest sent fits in a DATA frame. */
  lemma ClientDecodesExactlyWhen(id: u32, states: seq<Forward>, steps: seq<Step>, k: nat)
    requires IsRun(id, states, steps) && k < |states| && states[k].outPending == []
    ensures SeenStream(states[k].outSent) == Stream(AllSeen(states[k].out), false) <==> GuestFits(states[k].guest)
  {
    RunKeepsInv(id, states, steps, k);
    assert states[k].outSent + [] == states[k].outSent;
    SeenExactly(states[k].out);
  }

  lemma AllSeenAtEnd(s: Forward, id: u32)
    requires PlainInv(s.out, id, s.guest) && LockInv(s) && Carried(On(s.out, id)) == Control.ToClient(s.guest)
    requires id < U31 && GuestFits(s.guest) && s.Ended() && Control.Closed(s.guest)
    ensures SeenStream(s.outSent) == Stream(AllSeen(s.out), false)
    ensures Gets(SeenStream(s.outSent).frames, id) == Control.ToClient(s.guest)
  {
    assert s.outPending == [] && s.outSent + [] == s.outSent;
    SeenExactly(s.out);
    GetsIsCarried(s.out, id);
  }

  /** A run that the guest's CLOSE ended: the client has decoded all of the guest's DATA before it,
      exactly one FIN, after all data on the stream, and an echo of every PING handled. */
  lemma ClientSeesAll(id: u32, states: seq<Forward>, steps: seq<Step>, k: nat)
    requires IsRun(id, states, steps) && k < |states| && id < U31 && GuestFits(states[k].guest)
    requires states[k].Ended() && Control.Closed(states[k].guest)
    ensures SeenStream(states[k].outSent) == Stream(AllSeen(states[k].out), false)
    ensures Gets(SeenStream(states[k].outSent).frames, id) == Control.ToClient(states[k].guest)
    ensures Fins(states[k].out, id) == 1 && EndsWithFin(On(states[k].out, id), id)
    ensures Echoes(states[k].out) == PingIds(states[k].client, |states[k].client|)
  {
    RunKeepsInv(id, states, steps, k);
    AllSeenAtEnd(states[k], id);
  }

  // ---------------------------------------------------------------- neither side waits for nothing

  /** Until the run has ended, anything the guest sends can be taken as soon as the writer is idle,
      and the writer can always be made idle. */
  lemma GuestNeverWaits(s: Forward, id: u32, f: Ctl)
    requires !s.guestDone && Control.Fits(f)
    ensures Enabled(s, ToClient(|s.outPending|))
    ensures var idle := Next(s, id, ToClient(|s.outPending|));
            idle.outPending == [] && Enabled(idle, FromGuest(f)) && Enabled(idle, GuestEnd)
  {}

  /** Likewise for the client, once what it sent before is out on both sides. */
  lemma ClientNeverWaits(s: Forward, id: u32, f: Frame)
    requires !s.guestDone && !s.clientDone && Readable(f)
    ensures Enabled(s, ToClient(|s.outPending|))
    ensures var s1 := Next(s, id, ToClient(|s.outPending|));
            && Enabled(s1, ToGuest(|s1.pending|))
            && var s2 := Next(s1, id, ToGuest(|s1.pending|));
            s2.pending == [] && s2.outPending == [] && Enabled(s2, FromClient(f)) && Enabled(s2, ClientEnd)
  {}
}
