/** The port-forward control protocol and the bridge between a client connection and the guest
    (src/cri/src/streaming.rs). */
module PortForward {
  import opened Common
  import opened Bytes
  import opened Framing

  const STREAM_ID: u32 := 1
  const DATA: byte := 3
  const CLOSE: byte := 4

  datatype PfFrame = PfFrame(kind: byte, id: u32, payload: Wire)

  // ---------------------------------------------------------------- framing

  predicate Fits(f: PfFrame) {
    |f.payload| < 0x1_0000_0000
  }

  /** Kind, stream and payload length, as `write_port_forward_frame` writes them. */
  function Header(f: PfFrame): Wire {
    [f.kind] + Be32(f.id) + Be32(|f.payload| % 0x1_0000_0000)
  }

  function Encode(f: PfFrame): Wire {
    Header(f) + f.payload
  }

  /** `read_port_forward_frame`. */
  function ReadPf(w: Wire): (r: Read<PfFrame>)
    ensures r.Got? ==> |r.rest| + 9 <= |w| && Fits(r.frame)
    ensures r.EndOfStream? <==> |w| < 9
  {
    if |w| < 9 then EndOfStream
    else
      var len := FromBe32(w[5], w[6], w[7], w[8]);
      if |w| < 9 + len then Truncated
      else Got(PfFrame(w[0], FromBe32(w[1], w[2], w[3], w[4]), w[9..9 + len]), w[9 + len..])
  }

  lemma SplitHeader(h: Wire, kind: byte, id: Wire, len: Wire)
    requires |id| == 4 && |len| == 4 && h == [kind] + id + len
    ensures |h| == 9 && h[0] == kind
    ensures FromBe32(h[1], h[2], h[3], h[4]) == FromBe32(id[0], id[1], id[2], id[3])
    ensures FromBe32(h[5], h[6], h[7], h[8]) == FromBe32(len[0], len[1], len[2], len[3])
  {}

  lemma HeaderFields(f: PfFrame)
    requires Fits(f)
    ensures var h := Header(f);
            && |h| == 9 && h[0] == f.kind
            && FromBe32(h[1], h[2], h[3], h[4]) == f.id
            && FromBe32(h[5], h[6], h[7], h[8]) == |f.payload|
  {
    var n: u32 := |f.payload|;
    assert |f.payload| % 0x1_0000_0000 == n;
    SplitHeader(Header(f), f.kind, Be32(f.id), Be32(n));
    assert FromBe32(Be32(f.id)[0], Be32(f.id)[1], Be32(f.id)[2], Be32(f.id)[3]) == f.id by { Be32RoundTrip(f.id); }
    assert FromBe32(Be32(n)[0], Be32(n)[1], Be32(n)[2], Be32(n)[3]) == n by { Be32RoundTrip(n); }
  }

  lemma ReadBody(w: Wire, h: Wire, payload: Wire, rest: Wire)
    requires |h| == 9 && FromBe32(h[5], h[6], h[7], h[8]) == |payload|
    requires w == h + payload + rest
    ensures ReadPf(w) == Got(PfFrame(h[0], FromBe32(h[1], h[2], h[3], h[4]), payload), rest)
  {
    AppendAssociates(h, payload, rest);
    assert w[9..] == payload + rest;
    assert w[9..9 + |payload|] == payload && w[9 + |payload|..] == rest;
  }

  /** A frame is read back, whatever follows it ... */
  lemma FrameRoundTrip(f: PfFrame)
    requires Fits(f)
    ensures ReadsAs(ReadPf, Encode(f), f)
  {
    HeaderFields(f);
    forall rest ensures ReadPf(Encode(f) + rest) == Got(f, rest) {
      ReadBody(Encode(f) + rest, Header(f), f.payload, rest);
    }
  }

  lemma HeaderBack(h: Wire)
    requires |h| == 9
    ensures h == [h[0]] + Be32(FromBe32(h[1], h[2], h[3], h[4])) + Be32(FromBe32(h[5], h[6], h[7], h[8]))
  {
    Be32Inverse(h[1], h[2], h[3], h[4]);
    Be32Inverse(h[5], h[6], h[7], h[8]);
  }

  lemma HeaderIs(f: PfFrame, h: Wire)
    requires |h| == 9 && h[0] == f.kind && Fits(f)
    requires FromBe32(h[1], h[2], h[3], h[4]) == f.id && FromBe32(h[5], h[6], h[7], h[8]) == |f.payload|
    ensures Header(f) == h
  {
    var n: u32 := |f.payload|;
    assert |f.payload| % 0x1_0000_0000 == n;
    HeaderBack(h);
  }

  lemma SplitFrame(w: Wire, n: nat)
    requires |w| >= 9 + n
    ensures w == w[..9] + w[9..9 + n] + w[9 + n..]
  {}

  /** ... nothing but its encoding is read as it ... */
  lemma ReadIsEncoding(w: Wire)
    requires ReadPf(w).Got?
    ensures w == Encode(ReadPf(w).frame) + ReadPf(w).rest
  {
    var f, h := ReadPf(w).frame, w[..9];
    assert forall i :: 0 <= i < 9 ==> h[i] == w[i];
    HeaderIs(f, h);
    SplitFrame(w, |f.payload|);
  }

  /** ... and not before its last byte has arrived. */
  lemma FrameNeedsAll(f: PfFrame)
    requires Fits(f)
    ensures NeedsAll(ReadPf, Encode(f))
  {
    HeaderFields(f);
    forall part | part < Encode(f) ensures !ReadPf(part).Got? {
      if |part| >= 9 {
        assert forall i :: 0 <= i < 9 ==> part[i] == Encode(f)[i] == Header(f)[i];
      }
    }
  }

  // ---------------------------------------------------------------- the bridge

  /** Both directions of the bridge.  `client` is what was read from the client so far and
      `written` the frames it was put into; of their bytes, `sent` have reached the control
      socket and `pending` not yet.  `guest` are the frames read from the guest so far and
      `received` what the client was sent.  When the guest side ends, the whole bridge ends, in
      the middle of a frame if need be. */
  datatype Bridge = Bridge(client: Wire, written: seq<PfFrame>, sent: Wire, pending: Wire, clientEof: bool,
                           guest: seq<PfFrame>, received: Wire, ended: bool)

  datatype Step = ClientRead(data: Wire) | ClientEof | WriteSome(n: nat) | GuestFrame(frame: PfFrame) | GuestEnd

  const START := Bridge([], [], [], [], false, [], [], false)

  /** The client side starts its next frame once the last one is out; a read returns between 1
      and 4096 bytes. */
  predicate Enabled(s: Bridge, step: Step) {
    !s.ended &&
    match step
    case ClientRead(data) => s.pending == [] && !s.clientEof && 0 < |data| <= 4096
    case ClientEof => s.pending == [] && !s.clientEof
    case WriteSome(n) => n <= |s.pending|
    case GuestFrame(_) => true
    case GuestEnd => true
  }

  function Put(s: Bridge, f: PfFrame): Bridge {
    s.(written := s.written + [f], pending := Encode(f))
  }

  function Next(s: Bridge, step: Step): Bridge
    requires Enabled(s, step)
  {
    match step
    case ClientRead(data) => Put(s, PfFrame(DATA, STREAM_ID, data)).(client := s.client + data)
    case ClientEof => Put(s, PfFrame(CLOSE, STREAM_ID, [])).(clientEof := true)
    case WriteSome(n) => s.(sent := s.sent + s.pending[..n], pending := s.pending[n..])
    case GuestFrame(f) =>
      var s' := s.(guest := s.guest + [f]);
      if f.id != STREAM_ID then s'
      else if f.kind == DATA then s'.(received := s.received + f.payload)
      else if f.kind == CLOSE then s'.(ended := true)
      else s'
    case GuestEnd => s.(ended := true)
  }

  /** The states of a run: each step is enabled where it is taken. */
  ghost predicate IsRun(states: seq<Bridge>, steps: seq<Step>) {
    && |states| == |steps| + 1 && states[0] == START
    && forall i :: 0 <= i < |steps| ==> Enabled(states[i], steps[i]) && states[i + 1] == Next(states[i], steps[i])
  }

  // ---------------------------------------------------------------- client to guest

  function Pieces(fs: seq<PfFrame>): seq<Wire> {
    if fs == [] then [] else Pieces(fs[..|fs| - 1]) + [Encode(fs[|fs| - 1])]
  }

  /** What the guest's service gets out of control frames: the DATA payloads, joined. */
  function Payloads(fs: seq<PfFrame>): Wire {
    if fs == [] then [] else
      var f, before := fs[|fs| - 1], fs[..|fs| - 1];
      if f.kind == DATA && f.id == STREAM_ID then Payloads(before) + f.payload else Payloads(before)
  }

  lemma Snoc(fs: seq<PfFrame>, f: PfFrame)
    ensures Pieces(fs + [f]) == Pieces(fs) + [Encode(f)]
    ensures Payloads(fs + [f]) == if f.kind == DATA && f.id == STREAM_ID then Payloads(fs) + f.payload else Payloads(fs)
  {
    assert (fs + [f])[..|fs|] == fs;
  }

  lemma {:induction false} PiecesAppend(a: seq<PfFrame>, b: seq<PfFrame>)
    ensures Pieces(a + b) == Pieces(a) + Pieces(b)
  {
    if b == [] {
      assert a + b == a && Pieces(a) + [] == Pieces(a);
    } else {
      var f, before := b[|b| - 1], b[..|b| - 1];
      assert a + b == (a + before) + [f] && b == before + [f];
      PiecesAppend(a, before);
      Snoc(a + before, f);
      Snoc(before, f);
      AppendAssociates(Pieces(a), Pieces(before), [Encode(f)]);
    }
  }

  lemma {:induction false} PieceAt(fs: seq<PfFrame>)
    ensures |Pieces(fs)| == |fs| && forall i :: 0 <= i < |fs| ==> Pieces(fs)[i] == Encode(fs[i])
  {
    if fs != [] {
      PieceAt(fs[..|fs| - 1]);
    }
  }

  lemma PiecesAt(fs: seq<PfFrame>)
    requires forall f :: f in fs ==> Fits(f)
    ensures AllReadAs(ReadPf, Pieces(fs), fs)
    ensures forall i :: 0 <= i < |Pieces(fs)| ==> NeedsAll(ReadPf, Pieces(fs)[i])
  {
    PieceAt(fs);
    forall i | 0 <= i < |fs| ensures ReadsAs(ReadPf, Pieces(fs)[i], fs[i]) && NeedsAll(ReadPf, Pieces(fs)[i]) {
      FrameRoundTrip(fs[i]);
      FrameNeedsAll(fs[i]);
    }
  }

  /** The first frame that closes the stream ends what the client is sent. */
  predicate Closed(fs: seq<PfFrame>) {
    exists i :: 0 <= i < |fs| && fs[i].id == STREAM_ID && fs[i].kind == CLOSE
  }

  function ToClient(fs: seq<PfFrame>): Wire {
    if fs == [] then [] else
      var f, before := fs[|fs| - 1], fs[..|fs| - 1];
      if f.kind == DATA && f.id == STREAM_ID && !Closed(before) then ToClient(before) + f.payload else ToClient(before)
  }

  lemma ToClientSnoc(fs: seq<PfFrame>, f: PfFrame)
    ensures ToClient(fs + [f]) ==
      if f.kind == DATA && f.id == STREAM_ID && !Closed(fs) then ToClient(fs) + f.payload else ToClient(fs)
  {
    assert (fs + [f])[..|fs|] == fs;
  }

  /** The frames carry exactly what the client sent; a CLOSE comes last and only at its end. */
  ghost predicate FramesInv(written: seq<PfFrame>, client: Wire, eof: bool) {
    && (forall f :: f in written ==> Fits(f))
    && Payloads(written) == client
    && (eof ==> |written| > 0 && written[|written| - 1] == PfFrame(CLOSE, STREAM_ID, []))
    && (forall i :: 0 <= i < (if eof then |written| - 1 else |written|) ==> written[i].kind == DATA)
  }

  /** What holds after every step: the bytes handed over are those of the frames, and the client
      gets the guest's DATA up to the first CLOSE, which ends the bridge. */
  ghost predicate Inv(s: Bridge) {
    && FramesInv(s.written, s.client, s.clientEof)
    && s.sent + s.pending == Flatten(Pieces(s.written))
    && s.received == ToClient(s.guest)
    && (Closed(s.guest) ==> s.ended)
  }

  lemma PutBytes(s: Bridge, f: PfFrame)
    requires s.sent + s.pending == Flatten(Pieces(s.written)) && s.pending == []
    ensures Put(s, f).sent + Put(s, f).pending == Flatten(Pieces(Put(s, f).written))
  {
    Snoc(s.written, f);
    FlattenSnoc(Pieces(s.written), Encode(f));
    assert s.sent + [] == s.sent;
  }

  lemma DataKeeps(written: seq<PfFrame>, client: Wire, data: Wire)
    requires FramesInv(written, client, false) && Fits(PfFrame(DATA, STREAM_ID, data))
    ensures FramesInv(written + [PfFrame(DATA, STREAM_ID, data)], client + data, false)
  {
    Snoc(written, PfFrame(DATA, STREAM_ID, data));
  }

  lemma CloseKeeps(written: seq<PfFrame>, client: Wire)
    requires FramesInv(written, client, false)
    ensures FramesInv(written + [PfFrame(CLOSE, STREAM_ID, [])], client, true)
  {
    Snoc(written, PfFrame(CLOSE, STREAM_ID, []));
  }

  lemma StepKeepsInv(s: Bridge, step: Step)
    requires Inv(s) && Enabled(s, step)
    ensures Inv(Next(s, step))
  {
    match step
    case ClientRead(data) =>
      PutBytes(s, PfFrame(DATA, STREAM_ID, data));
      DataKeeps(s.written, s.client, data);
    case ClientEof =>
      PutBytes(s, PfFrame(CLOSE, STREAM_ID, []));
      CloseKeeps(s.written, s.client);
    case WriteSome(n) =>
      assert s.pending == s.pending[..n] + s.pending[n..];
      AppendAssociates(s.sent, s.pending[..n], s.pending[n..]);
    case GuestFrame(f) =>
      ToClientSnoc(s.guest, f);
      ClosedSnoc(s.guest, f);
    case GuestEnd =>
  }

  lemma ClosedSnoc(fs: seq<PfFrame>, f: PfFrame)
    ensures Closed(fs + [f]) <==> Closed(fs) || (f.id == STREAM_ID && f.kind == CLOSE)
  {
    if Closed(fs) {
      var i :| 0 <= i < |fs| && fs[i].id == STREAM_ID && fs[i].kind == CLOSE;
      assert (fs + [f])[i] == fs[i];
    }
    if f.id == STREAM_ID && f.kind == CLOSE {
      assert (fs + [f])[|fs|] == f;
    }
  }

  lemma {:induction false} RunKeepsInv(states: seq<Bridge>, steps: seq<Step>, k: nat)
    requires IsRun(states, steps) && k < |states|
    ensures Inv(states[k])
  {
    if k > 0 {
      RunKeepsInv(states, steps, k - 1);
      StepKeepsInv(states[k - 1], steps[k - 1]);
    }
  }

  lemma {:induction false} PayloadsOfPrefix(part: seq<PfFrame>, fs: seq<PfFrame>)
    requires part <= fs
    ensures Payloads(part) <= Payloads(fs)
    decreases |fs|
  {
    if part != fs {
      assert part <= fs[..|fs| - 1];
      PayloadsOfPrefix(part, fs[..|fs| - 1]);
    }
  }

  /** After every step of every run, for every way the client's bytes were read and the control
      socket took them: what the guest can decode is a leading part of the frames, and the bytes
      in them a leading part of what the client sent. */
  lemma GuestSeesPrefix(states: seq<Bridge>, steps: seq<Step>, k: nat)
    requires IsRun(states, steps) && k < |states|
    ensures var got := ReadAll(ReadPf, states[k].sent).frames;
            got <= states[k].written && Payloads(got) <= states[k].client
  {
    RunKeepsInv(states, steps, k);
    var s := states[k];
    PiecesAt(s.written);
    assert s.sent <= Flatten(Pieces(s.written));
    CutAnywhere(ReadPf, Pieces(s.written), s.written, s.sent);
    PayloadsOfPrefix(ReadAll(ReadPf, s.sent).frames, s.written);
  }

  /** Once the client's stream has ended: the guest has seen a CLOSE if and only if all of the
      bytes have gone out, and then it has all of the client's bytes and exactly one CLOSE, last. */
  lemma GuestSeesAll(states: seq<Bridge>, steps: seq<Step>, k: nat)
    requires IsRun(states, steps) && k < |states| && states[k].clientEof
    ensures var got := ReadAll(ReadPf, states[k].sent).frames;
            && (Closed(got) <==> states[k].pending == [])
            && (Closed(got) ==>
                  && Payloads(got) == states[k].client
                  && got[|got| - 1] == PfFrame(CLOSE, STREAM_ID, [])
                  && forall i :: 0 <= i < |got| - 1 ==> got[i].kind == DATA)
  {
    RunKeepsInv(states, steps, k);
    Delivered(states[k].written, states[k].client, states[k].sent, states[k].pending);
  }

  /** What a reader of `sent` has, of closed frames of which `pending` is still missing. */
  lemma Delivered(written: seq<PfFrame>, client: Wire, sent: Wire, pending: Wire)
    requires FramesInv(written, client, true) && sent + pending == Flatten(Pieces(written))
    ensures var got := ReadAll(ReadPf, sent).frames;
            && got <= written
            && (Closed(got) <==> pending == [])
            && (pending == [] ==> got == written)
  {
    var got, last := ReadAll(ReadPf, sent).frames, |written| - 1;
    PiecesAt(written);
    assert sent <= Flatten(Pieces(written));
    CutAnywhere(ReadPf, Pieces(written), written, sent);
    if pending == [] {
      WholePieces(ReadPf, Pieces(written), written, []);
      assert sent + [] == sent && Flatten(Pieces(written)) + [] == sent;
      assert got[last].id == STREAM_ID && got[last].kind == CLOSE;
    }
  }

  /** After every step, the client has exactly the guest's DATA payloads up to its first CLOSE. */
  lemma ClientSeesGuest(states: seq<Bridge>, steps: seq<Step>, k: nat)
    requires IsRun(states, steps) && k < |states|
    ensures states[k].received == ToClient(states[k].guest)
    ensures Closed(states[k].guest) ==> k + 1 == |states|
  {
    RunKeepsInv(states, steps, k);
    if k + 1 < |states| {
      assert Enabled(states[k], steps[k]);
    }
  }

  /** Until the bridge has ended, whatever the guest sends can be taken at once ... */
  lemma GuestNeverWaits(s: Bridge, f: PfFrame)
    requires !s.ended
    ensures Enabled(s, GuestFrame(f)) && Enabled(s, GuestEnd)
  {}

  /** ... and whatever the client sends once the frame before it is out, which it can always be. */
  lemma ClientNeverWaits(s: Bridge, data: Wire)
    requires !s.ended && !s.clientEof && 0 < |data| <= 4096
    ensures Enabled(s, WriteSome(|s.pending|))
    ensures var s' := Next(s, WriteSome(|s.pending|));
            s'.pending == [] && Enabled(s', ClientRead(data)) && Enabled(s', ClientEof)
  {}

  /** The control frames of the bridge, byte by byte. */
  lemma ControlBytes(data: Wire)
    requires |data| < 0x1_0000_0000
    ensures Encode(PfFrame(DATA, STREAM_ID, data)) == [3, 0, 0, 0, 1] + Be32(|data|) + data
    ensures Encode(PfFrame(CLOSE, STREAM_ID, [])) == [4, 0, 0, 0, 1, 0, 0, 0, 0]
  {
    assert |data| % 0x1_0000_0000 == |data|;
    assert Be32(1) == [0, 0, 0, 1];
    assert Be32(0) == [0, 0, 0, 0];
    assert [DATA] + [0, 0, 0, 1] == [3, 0, 0, 0, 1];
  }
}
