/** The client's end of the connection: what a SPDY/3 peer makes of the bytes the server writes,
    by sections 2.2, 2.6.2 and 2.6.5 of SPDY Protocol Draft 3.1.  It tells a SYN_REPLY from every
    other control frame, which the server's own reader does not. */
module SpdyClient {
  import opened Common
  import opened Bytes
  import opened Framing
  import opened SpdyFrames
  import opened SpdyStreams
  import opened SpdyWire

  datatype Seen = Reply(id: u32, fin: bool, block: Wire)
                | Pong(id: u32)
                | Payload(id: u32, fin: bool, data: Wire)
                | Other

  function ReadSeen(w: Wire): (r: Read<Seen>)
    ensures r.Got? ==> |r.rest| + 8 <= |w|
  {
    if |w| < 8 then EndOfStream
    else
      var len := FromBe24(w[5], w[6], w[7]);
      if |w| < 8 + len then Truncated
      else Got(Recognise(w[..8], w[8..8 + len]), w[8 + len..])
  }

  /** A data frame has a clear first bit; a control frame is of version 3, a SYN_REPLY of type 2
      and a PING of type 6.  The lowest flag is FIN. */
  function Recognise(hdr: Wire, data: Wire): Seen
    requires |hdr| == 8
  {
    var fin := hdr[4] % 2 == 1;
    if hdr[0] < 0x80 then Payload(FromBe32(hdr[0], hdr[1], hdr[2], hdr[3]), fin, data)
    else if hdr[..4] == [0x80, 3, 0, 2] && |data| >= 4 then
      Reply(FromBe32(data[0] % 0x80, data[1], data[2], data[3]), fin, data[4..])
    else if hdr[..4] == [0x80, 3, 0, 6] && |data| == 4 then Pong(FromBe32(data[0], data[1], data[2], data[3]))
    else Other
  }

  ghost function SeenStream(w: Wire): Stream<Seen> {
    ReadAll(ReadSeen, w)
  }

  // ---------------------------------------------------------------- one frame

  /** What the client should see of a written frame. */
  function SeenOf(f: Out): Seen {
    match f
    case OutData(id, fin, payload) => Payload(id % U31, fin, payload)
    case OutPing(id) => Pong(id)
    case OutSynReply(id, block) => Reply(id % U31, false, block)
  }

  function AllSeen(fs: seq<Out>): seq<Seen> {
    seq(|fs|, i requires 0 <= i < |fs| => SeenOf(fs[i]))
  }

  lemma SeenHeader(hdr: Wire, payload: Wire, rest: Wire)
    requires |hdr| == 8 && FromBe24(hdr[5], hdr[6], hdr[7]) == |payload|
    ensures ReadSeen(hdr + payload + rest) == Got(Recognise(hdr, payload), rest)
  {
    var w := hdr + payload + rest;
    AppendAssociates(hdr, payload, rest);
    assert w[..8] == hdr && w[8..8 + |payload|] == payload && w[8 + |payload|..] == rest;
  }

  lemma ReplyRecognised(hdr: Wire, id: u32, block: Wire)
    requires |hdr| == 8 && hdr[..4] == [0x80, 3, 0, 2] && hdr[4] == 0 && id < U31
    ensures Recognise(hdr, Be32(id) + block) == Reply(id, false, block)
  {
    var data := Be32(id) + block;
    assert hdr[0] == hdr[..4][0];
    assert data[0] == Be32(id)[0] && data[1] == Be32(id)[1] && data[2] == Be32(id)[2] && data[3] == Be32(id)[3];
    assert data[4..] == block;
    TopBitMasked(id);
  }

  lemma ReplyBytes(id: u32, block: HeaderBlock, rest: Wire)
    requires id < U31
    ensures ReadSeen([0x80, 3, 0, 2] + FlagsAndLength(0, 4 + |block|) + (Be32(id) + block) + rest) ==
            Got(Reply(id, false, block), rest)
  {
    var payload := Be32(id) + block;
    var hdr := LengthField([0x80, 3, 0, 2], 0, |payload|);
    ReplyRecognised(hdr, id, block);
    SeenHeader(hdr, payload, rest);
  }

  lemma ReplySeen(id: u32, block: HeaderBlock, rest: Wire)
    ensures ReadSeen(Encode(OutSynReply(id, block)) + rest) == Got(Reply(id % U31, false, block), rest)
  {
    ReplyBytes(id % U31, block, rest);
  }

  lemma PongSeen(id: u32, rest: Wire)
    ensures ReadSeen(Encode(OutPing(id)) + rest) == Got(Pong(id), rest)
  {
    var hdr := LengthField([0x80, 3, 0, 6], 0, 4);
    Be32RoundTrip(id);
    SeenHeader(hdr, Be32(id), rest);
  }

  /** The two readers cut the bytes the same way and agree on the data. */
  ghost predicate Agree(s: Seen, f: Frame) {
    && (s.Payload? <==> f.Data?)
    && (s.Payload? ==> f == Data(s.id, s.fin, s.data))
    && (s.Pong? ==> f == Ping(s.id))
    && (s.Reply? ==> f == Ignored)
  }

  lemma DecodersAgree(hdr: Wire, data: Wire)
    requires |hdr| == 8
    ensures Agree(Recognise(hdr, data), Decode(hdr, data))
  {
    if hdr[..4] == [0x80, 3, 0, 2] || hdr[..4] == [0x80, 3, 0, 6] {
      assert hdr[0] == hdr[..4][0] && hdr[2] == hdr[..4][2] && hdr[3] == hdr[..4][3];
    }
  }

  lemma ReadersAgree(w: Wire)
    ensures ReadSeen(w).Got? <==> ReadFrame(w).Got?
    ensures ReadSeen(w).Truncated? <==> ReadFrame(w).Truncated?
    ensures ReadSeen(w).Got? ==>
      ReadSeen(w).rest == ReadFrame(w).rest && Agree(ReadSeen(w).frame, ReadFrame(w).frame)
  {
    if ReadSeen(w).Got? {
      DecodersAgree(w[..8], w[8..8 + FromBe24(w[5], w[6], w[7])]);
    }
  }

  lemma DataSeen(f: Out, rest: Wire)
    requires f.OutData? && Fits(f)
    ensures ReadSeen(Encode(f) + rest) == Got(SeenOf(f), rest)
  {
    FrameRoundTrip(f, rest);
    ReadersAgree(Encode(f) + rest);
  }

  /** The client sees a written frame that fits, and what follows it is left untouched ... */
  lemma SeenRoundTrip(f: Out)
    requires Fits(f)
    ensures ReadsAs(ReadSeen, Encode(f), SeenOf(f))
  {
    forall rest ensures ReadSeen(Encode(f) + rest) == Got(SeenOf(f), rest) {
      match f
      case OutData(_, _, _) => DataSeen(f, rest);
      case OutPing(id) => PongSeen(id, rest);
      case OutSynReply(id, block) => ReplySeen(id, block, rest);
    }
  }

  /** ... and not before its last byte has arrived. */
  lemma SeenNeedsAll(f: Out)
    requires Fits(f)
    ensures NeedsAll(ReadSeen, Encode(f))
  {
    FrameNeedsAll(f);
    forall part | part < Encode(f) ensures !ReadSeen(part).Got? {
      ReadersAgree(part);
    }
  }

  // ---------------------------------------------------------------- a stream of frames

  lemma SeenPieces(fs: seq<Out>)
    requires AllFit(fs)
    ensures AllReadAs(ReadSeen, Pieces(fs), AllSeen(fs))
    ensures forall i :: 0 <= i < |fs| ==> NeedsAll(ReadSeen, Pieces(fs)[i])
  {
    forall i | 0 <= i < |fs|
      ensures ReadsAs(ReadSeen, Pieces(fs)[i], AllSeen(fs)[i]) && NeedsAll(ReadSeen, Pieces(fs)[i])
    {
      SeenRoundTrip(fs[i]);
      SeenNeedsAll(fs[i]);
    }
  }

  lemma FittingSeen(fs: seq<Out>, rest: Wire)
    requires AllFit(fs)
    ensures SeenStream(EncodeAll(fs) + rest) ==
            Stream(AllSeen(fs) + SeenStream(rest).frames, SeenStream(rest).truncated)
  {
    SeenPieces(fs);
    WholePieces(ReadSeen, Pieces(fs), AllSeen(fs), rest);
  }

  /** However the bytes are cut, the client sees a leading part of the frames. */
  lemma CutSeen(fs: seq<Out>, part: Wire)
    requires AllFit(fs) && part <= EncodeAll(fs)
    ensures SeenStream(part).frames <= AllSeen(fs)
  {
    SeenPieces(fs);
    CutAnywhere(ReadSeen, Pieces(fs), AllSeen(fs), part);
  }

  ghost predicate AllAgree(seen: seq<Seen>, fs: seq<Frame>) {
    |seen| == |fs| && forall i :: 0 <= i < |fs| ==> Agree(seen[i], fs[i])
  }

  lemma {:induction false} StreamsAgree(w: Wire)
    ensures AllAgree(SeenStream(w).frames, Frames(w).frames)
    ensures SeenStream(w).truncated == Frames(w).truncated
    decreases |w|
  {
    ReadersAgree(w);
    if ReadSeen(w).Got? {
      StreamsAgree(ReadSeen(w).rest);
    }
  }

  /** The client sees exactly the frames that were written, with identifiers, FINs, payloads and
      header blocks, if and only if every payload fits. */
  lemma SeenExactly(fs: seq<Out>)
    ensures SeenStream(EncodeAll(fs)) == Stream(AllSeen(fs), false) <==> AllFit(fs)
  {
    if AllFit(fs) {
      FittingSeen(fs, []);
      assert EncodeAll(fs) + [] == EncodeAll(fs);
    } else if SeenStream(EncodeAll(fs)) == Stream(AllSeen(fs), false) {
      StreamsAgree(EncodeAll(fs));
      SeenAsViews(fs, Frames(EncodeAll(fs)).frames);
      StreamRoundTrip(fs);
    }
  }

  lemma SeenAsViews(fs: seq<Out>, frames: seq<Frame>)
    requires AllAgree(AllSeen(fs), frames)
    ensures frames == Views(fs)
  {
    forall i | 0 <= i < |fs| ensures frames[i] == Views(fs)[i] {
      assert Agree(AllSeen(fs)[i], frames[i]);
    }
  }

  // ---------------------------------------------------------------- what the client gets

  /** The bytes the client gets on one stream. */
  function Gets(fs: seq<Seen>, id: u32): Wire {
    if fs == [] then [] else
      var f, before := fs[|fs| - 1], fs[..|fs| - 1];
      if f.Payload? && f.id == id then Gets(before, id) + f.data else Gets(before, id)
  }

  lemma {:induction false} GetsIsReceived(seen: seq<Seen>, fs: seq<Frame>, id: u32)
    requires AllAgree(seen, fs)
    ensures Gets(seen, id) == Received(fs, id)
  {
    if fs != [] {
      assert Agree(seen[|fs| - 1], fs[|fs| - 1]);
      GetsIsReceived(seen[..|fs| - 1], fs[..|fs| - 1], id);
    }
  }

  /** On a stream the client gets what the frames of that stream carry. */
  lemma GetsIsCarried(wire: seq<Out>, id: u32)
    requires Narrow(wire) && AllFit(wire)
    ensures Gets(SeenStream(EncodeAll(wire)).frames, id) == Carried(On(wire, id))
  {
    StreamRoundTrip(wire);
    StreamsAgree(EncodeAll(wire));
    GetsIsReceived(SeenStream(EncodeAll(wire)).frames, Views(wire), id);
    ReceivedIsCarried(wire, id);
  }

  lemma {:induction false} GetsOfPrefix(part: seq<Seen>, fs: seq<Seen>, id: u32)
    requires part <= fs
    ensures Gets(part, id) <= Gets(fs, id)
    decreases |fs|
  {
    if part != fs {
      assert part <= fs[..|fs| - 1];
      GetsOfPrefix(part, fs[..|fs| - 1], id);
    }
  }

  // ---------------------------------------------------------------- replies and echoes

  function Replies(fs: seq<Seen>): seq<Seen> {
    if fs == [] then [] else
      var f, before := fs[|fs| - 1], fs[..|fs| - 1];
      if f.Reply? then Replies(before) + [f] else Replies(before)
  }

  function Pongs(fs: seq<Seen>): seq<u32> {
    if fs == [] then [] else
      var f, before := fs[|fs| - 1], fs[..|fs| - 1];
      if f.Pong? then Pongs(before) + [f.id] else Pongs(before)
  }

  lemma SeenSnoc(outs: seq<Out>, o: Out)
    ensures Replies(AllSeen(outs + [o])) ==
            if o.OutSynReply? then Replies(AllSeen(outs)) + [SeenOf(o)] else Replies(AllSeen(outs))
    ensures Pongs(AllSeen(outs + [o])) == if o.OutPing? then Pongs(AllSeen(outs)) + [o.id] else Pongs(AllSeen(outs))
  {
    assert AllSeen(outs + [o]) == AllSeen(outs) + [SeenOf(o)];
    assert (AllSeen(outs) + [SeenOf(o)])[..|AllSeen(outs)|] == AllSeen(outs);
  }

  /** The i-th reply accepts the i-th of these streams, without closing it, and carries the
      compressor's i-th block. */
  ghost predicate Accepts(replies: seq<Seen>, ids: seq<u32>, block: nat -> HeaderBlock) {
    |replies| == |ids| && forall i :: 0 <= i < |ids| ==> replies[i] == Reply(ids[i], false, block(i))
  }

  lemma OneMoreAccepted(outs: seq<Out>, ids: seq<u32>, block: nat -> HeaderBlock, id: u32)
    requires Accepts(Replies(AllSeen(outs)), ids, block) && id < U31
    ensures Accepts(Replies(AllSeen(outs + [OutSynReply(id, block(|ids|))])), ids + [id], block)
  {
    SeenSnoc(outs, OutSynReply(id, block(|ids|)));
    assert id % U31 == id;
  }

  lemma {:induction false} AnswersAccept(fs: seq<Frame>, block: nat -> HeaderBlock, k: nat)
    requires k <= |fs| && forall f :: f in fs ==> Readable(f)
    ensures Accepts(Replies(AllSeen(Answers(fs, block, k))), SynIds(fs, k), block)
  {
    if k > 0 {
      AnswersAccept(fs, block, k - 1);
      assert Readable(fs[k - 1]);
      var outs := Answers(fs, block, k - 1);
      if fs[k - 1].SynStream? {
        OneMoreAccepted(outs, SynIds(fs, k - 1), block, fs[k - 1].id);
      } else if fs[k - 1].Ping? {
        SeenSnoc(outs, OutPing(fs[k - 1].id));
      }
    }
  }

  lemma {:induction false} AnswersEcho(fs: seq<Frame>, block: nat -> HeaderBlock, k: nat)
    requires k <= |fs|
    ensures Pongs(AllSeen(Answers(fs, block, k))) == PingIds(fs, k)
  {
    if k > 0 {
      AnswersEcho(fs, block, k - 1);
      var outs := Answers(fs, block, k - 1);
      match fs[k - 1]
      case SynStream(id) => SeenSnoc(outs, OutSynReply(id, block(|SynIds(fs, k - 1)|)));
      case Ping(id) => SeenSnoc(outs, OutPing(id));
      case _ =>
    }
  }

  /** End to end: whatever bytes `w` opened the streams and whatever the server writes afterwards,
      the client finds in the bytes of the answers one SYN_REPLY per stream it opened, in order,
      and one echo per PING. */
  lemma ClientSeesAnswers(w: Wire, block: nat -> HeaderBlock, used: nat, rest: Wire)
    requires used <= |Frames(w).frames|
    ensures var fs := Frames(w).frames;
            var n := |Answers(fs, block, used)|;
            var all := SeenStream(EncodeAll(Answers(fs, block, used)) + rest).frames;
            && n <= |all|
            && Accepts(Replies(all[..n]), SynIds(fs, used), block)
            && Pongs(all[..n]) == PingIds(fs, used)
  {
    var fs := Frames(w).frames;
    var outs := Answers(fs, block, used);
    AllReadable(w);
    AnswersHaveNoData(fs, block, used);
    FittingSeen(outs, rest);
    AnswersAccept(fs, block, used);
    AnswersEcho(fs, block, used);
    assert (AllSeen(outs) + SeenStream(rest).frames)[..|outs|] == AllSeen(outs);
  }
}
