/** SPDY/3.1 framing as the CRI streaming server writes and reads it (src/cri/src/spdy.rs). */
module SpdyFrames {
  import opened Common
  import opened Bytes
  import opened Framing

  const U24 := 0x100_0000
  const U31 := 0x8000_0000

  /** A decoded frame: only the parts the server acts on. */
  datatype Frame = SynStream(id: u32) | Data(id: u32, fin: bool, data: Wire) | Ping(id: u32) | Ignored

  /** Identifiers of streams have 31 bits, and a payload is shorter than 2^24 bytes. */
  predicate Readable(f: Frame) {
    && (f.SynStream? || f.Data? ==> f.id < U31)
    && (f.Data? ==> |f.data| < U24)
  }

  function ReadFrame(w: Wire): (r: Read<Frame>)
    ensures r.Got? ==> |r.rest| + 8 <= |w| && Readable(r.frame)
    ensures r.EndOfStream? <==> |w| < 8
  {
    if |w| < 8 then EndOfStream
    else
      var len := FromBe24(w[5], w[6], w[7]);
      if |w| < 8 + len then Truncated
      else Got(Decode(w[..8], w[8..8 + len]), w[8 + len..])
  }

  function Decode(hdr: Wire, data: Wire): Frame
    requires |hdr| == 8
  {
    if hdr[0] >= 0x80 then
      var kind := FromBe16(hdr[2], hdr[3]);
      if kind == 1 && |data| >= 4 then SynStream(FromBe32(data[0] % 0x80, data[1], data[2], data[3]))
      else if kind == 6 && |data| >= 4 then Ping(FromBe32(data[0], data[1], data[2], data[3]))
      else Ignored
    else
      Data(FromBe32(hdr[0], hdr[1], hdr[2], hdr[3]), hdr[4] % 2 == 1, data)
  }

  // ---------------------------------------------------------------- what the server writes

  /** The compressed header block of a SYN_REPLY is whatever the zlib stream produced for an
      empty header list; it is short. */
  type HeaderBlock = w: Wire | 4 + |w| < U24

  /** A frame to write. */
  datatype Out = OutData(id: u32, fin: bool, payload: Wire)
               | OutPing(id: u32)
               | OutSynReply(id: u32, block: HeaderBlock)

  /** Flags and the low 24 bits of a length; a longer payload loses the high bits. */
  function FlagsAndLength(flags: byte, len: nat): (w: Wire)
    ensures |w| == 4
  {
    [flags] + Be24(len)
  }

  function Encode(f: Out): Wire {
    match f
    case OutData(id, fin, payload) =>
      Be32(id % U31) + FlagsAndLength(if fin then 1 else 0, |payload|) + payload
    case OutPing(id) =>
      [0x80, 3, 0, 6] + FlagsAndLength(0, 4) + Be32(id)
    case OutSynReply(id, block) =>
      [0x80, 3, 0, 2] + FlagsAndLength(0, 4 + |block|) + (Be32(id % U31) + block)
  }

  /** What the peer should see of a written frame. */
  function View(f: Out): Frame {
    match f
    case OutData(id, fin, payload) => Data(id % U31, fin, payload)
    case OutPing(id) => Ping(id)
    case OutSynReply(_, _) => Ignored
  }

  /** A 24-bit length field can carry the payload. */
  predicate Fits(f: Out) {
    f.OutData? ==> |f.payload| < U24
  }

  function Views(fs: seq<Out>): seq<Frame> {
    seq(|fs|, i requires 0 <= i < |fs| => View(fs[i]))
  }

  function Pieces(fs: seq<Out>): seq<Wire> {
    seq(|fs|, i requires 0 <= i < |fs| => Encode(fs[i]))
  }

  function EncodeAll(fs: seq<Out>): Wire {
    Flatten(Pieces(fs))
  }

  lemma EncodeAllAppend(a: seq<Out>, b: seq<Out>)
    ensures EncodeAll(a + b) == EncodeAll(a) + EncodeAll(b)
  {
    assert Pieces(a + b) == Pieces(a) + Pieces(b);
    FlattenAppend(Pieces(a), Pieces(b));
  }

  // ---------------------------------------------------------------- reading back

  ghost function Frames(w: Wire): Stream<Frame> {
    ReadAll(ReadFrame, w)
  }

  lemma ReadHeader(hdr: Wire, payload: Wire, rest: Wire, counted: Wire, after: Wire)
    requires |hdr| == 8 && FromBe24(hdr[5], hdr[6], hdr[7]) == |counted| <= |payload|
    requires payload + rest == counted + after
    ensures ReadFrame(hdr + payload + rest) == Got(Decode(hdr, counted), after)
  {
    var w := hdr + payload + rest;
    assert w == hdr + (payload + rest);
    assert w == hdr + (counted + after);
    assert w[..8] == hdr && w[8..8 + |counted|] == counted && w[8 + |counted|..] == after;
  }

  lemma LengthField(head: Wire, flags: byte, len: nat) returns (hdr: Wire)
    requires |head| == 4
    ensures hdr == head + FlagsAndLength(flags, len) && |hdr| == 8 && hdr[..4] == head && hdr[4] == flags
    ensures FromBe24(hdr[5], hdr[6], hdr[7]) == len % U24
  {
    hdr := head + FlagsAndLength(flags, len);
    Be24RoundTrip(len);
  }

  /** A DATA frame is read back with the part of its payload that the length field counts. */
  lemma DataRead(id: u32, fin: bool, payload: Wire, rest: Wire, counted: Wire, after: Wire)
    requires |counted| == |payload| % U24 && payload + rest == counted + after
    ensures ReadFrame(Encode(OutData(id, fin, payload)) + rest) == Got(Data(id % U31, fin, counted), after)
  {
    var head := Be32(id % U31);
    var hdr := LengthField(head, if fin then 1 else 0, |payload|);
    assert hdr[0] == head[0] && hdr[1] == head[1] && hdr[2] == head[2] && hdr[3] == head[3];
    TopBitClear(id % U31);
    Be32RoundTrip(id % U31);
    ReadHeader(hdr, payload, rest, counted, after);
  }

  lemma TopBitClear(id: u32)
    requires id < U31
    ensures Be32(id)[0] < 0x80
  {}

  lemma PingRead(id: u32, rest: Wire)
    ensures ReadFrame(Encode(OutPing(id)) + rest) == Got(Ping(id), rest)
  {
    var hdr := LengthField([0x80, 3, 0, 6], 0, 4);
    Be32RoundTrip(id);
    ReadHeader(hdr, Be32(id), rest, Be32(id), rest);
  }

  lemma SynReplyRead(id: u32, block: HeaderBlock, rest: Wire)
    ensures ReadFrame(Encode(OutSynReply(id, block)) + rest) == Got(Ignored, rest)
  {
    var payload := Be32(id % U31) + block;
    var hdr := LengthField([0x80, 3, 0, 2], 0, |payload|);
    ReadHeader(hdr, payload, rest, payload, rest);
  }

  /** A SYN_STREAM is read with its 31-bit identifier; flags and header block are skipped. */
  lemma SynStreamRead(id: u32, flags: byte, block: HeaderBlock, rest: Wire)
    ensures ReadFrame([0x80, 3, 0, 1] + FlagsAndLength(flags, 4 + |block|) + (Be32(id) + block) + rest) ==
            Got(SynStream(id % U31), rest)
  {
    var payload := Be32(id) + block;
    var hdr := LengthField([0x80, 3, 0, 1], flags, |payload|);
    Be32RoundTrip(id);
    TopBitMasked(id);
    assert payload[0] == Be32(id)[0] && payload[1] == Be32(id)[1];
    assert payload[2] == Be32(id)[2] && payload[3] == Be32(id)[3];
    ReadHeader(hdr, payload, rest, payload, rest);
  }

  /** A PING of the client, byte by byte. */
  lemma ClientPingRead(id: u32, rest: Wire)
    ensures ReadFrame([0x80, 3, 0, 6, 0, 0, 0, 4] + Be32(id) + rest) == Got(Ping(id), rest)
  {
    Be32RoundTrip(id);
    ReadHeader([0x80, 3, 0, 6, 0, 0, 0, 4], Be32(id), rest, Be32(id), rest);
  }

  lemma TopBitMasked(id: u32)
    ensures var b := Be32(id); FromBe32(b[0] % 0x80, b[1], b[2], b[3]) == id % U31
  {
    var b := Be32(id);
    Be32RoundTrip(id);
    assert b[0] % 0x80 == if b[0] >= 0x80 then b[0] - 0x80 else b[0];
  }

  lemma SplitHeader(w: Wire, n: nat)
    requires |w| >= 8 + n
    ensures w == w[..8] + w[8..8 + n] + w[8 + n..]
  {}

  lemma DataHeaderIs(h: Wire, id: u32, fin: bool, n: nat)
    requires |h| == 8 && h[0] < 0x80 && h[4] == if fin then 1 else 0
    requires FromBe32(h[0], h[1], h[2], h[3]) == id && FromBe24(h[5], h[6], h[7]) == n
    ensures h == Be32(id % U31) + FlagsAndLength(if fin then 1 else 0, n)
  {
    Be32Inverse(h[0], h[1], h[2], h[3]);
    Be24Inverse(h[5], h[6], h[7]);
    assert id < U31;
  }

  /** Nothing but its encoding is read as a DATA frame, if no flag but FIN is set. */
  lemma DataReadBack(w: Wire)
    requires ReadFrame(w).Got? && ReadFrame(w).frame.Data? && w[4] <= 1
    ensures var f := ReadFrame(w).frame; w == Encode(OutData(f.id, f.fin, f.data)) + ReadFrame(w).rest
  {
    var f, h := ReadFrame(w).frame, w[..8];
    assert forall i :: 0 <= i < 8 ==> h[i] == w[i];
    DataHeaderIs(h, f.id, f.fin, |f.data|);
    SplitHeader(w, |f.data|);
  }

  /** One written frame whose payload fits is read back, and what follows it is left untouched. */
  lemma FrameRoundTrip(f: Out, rest: Wire)
    requires Fits(f)
    ensures ReadFrame(Encode(f) + rest) == Got(View(f), rest)
  {
    match f
    case OutData(id, fin, payload) =>
      DataRead(id, fin, payload, rest, payload, rest);
    case OutPing(id) => PingRead(id, rest);
    case OutSynReply(id, block) => SynReplyRead(id, block, rest);
  }

  lemma PartOfFrame(hdr: Wire, payload: Wire)
    requires |hdr| == 8 && FromBe24(hdr[5], hdr[6], hdr[7]) == |payload|
    ensures NeedsAll(ReadFrame, hdr + payload)
  {
    forall part | part < hdr + payload ensures !ReadFrame(part).Got? {
      if |part| >= 8 {
        assert forall i :: 0 <= i < 8 ==> part[i] == (hdr + payload)[i] == hdr[i];
      }
    }
  }

  lemma PartOfEncoding(head: Wire, flags: byte, payload: Wire)
    requires |head| == 4 && |payload| < U24
    ensures NeedsAll(ReadFrame, head + FlagsAndLength(flags, |payload|) + payload)
  {
    var hdr := LengthField(head, flags, |payload|);
    PartOfFrame(hdr, payload);
  }

  /** No proper part of a frame is read as a frame. */
  lemma FrameNeedsAll(f: Out)
    requires Fits(f)
    ensures NeedsAll(ReadFrame, Encode(f))
  {
    match f
    case OutData(id, fin, payload) => PartOfEncoding(Be32(id % U31), if fin then 1 else 0, payload);
    case OutPing(id) => PartOfEncoding([0x80, 3, 0, 6], 0, Be32(id));
    case OutSynReply(id, block) => PartOfEncoding([0x80, 3, 0, 2], 0, Be32(id % U31) + block);
  }

  /** A payload that does not fit is silently cut short. */
  lemma OverlongRead(f: Out, rest: Wire)
    requires !Fits(f)
    ensures ReadFrame(Encode(f) + rest).Got? && ReadFrame(Encode(f) + rest).frame != View(f)
  {
    var n := |f.payload| % U24;
    var counted, after := f.payload[..n], f.payload[n..] + rest;
    assert f.payload + rest == counted + after;
    DataRead(f.id, f.fin, f.payload, rest, counted, after);
  }

  predicate AllFit(fs: seq<Out>) {
    forall f :: f in fs ==> Fits(f)
  }

  lemma FitsReadsAs(f: Out)
    requires Fits(f)
    ensures ReadsAs(ReadFrame, Encode(f), View(f))
  {
    forall rest ensures ReadFrame(Encode(f) + rest) == Got(View(f), rest) {
      FrameRoundTrip(f, rest);
    }
  }

  lemma FittingStream(fs: seq<Out>, rest: Wire)
    requires AllFit(fs)
    ensures Frames(EncodeAll(fs) + rest) == Stream(Views(fs) + Frames(rest).frames, Frames(rest).truncated)
  {
    forall i | 0 <= i < |fs| ensures ReadsAs(ReadFrame, Pieces(fs)[i], Views(fs)[i]) {
      FitsReadsAs(fs[i]);
    }
    WholePieces(ReadFrame, Pieces(fs), Views(fs), rest);
  }

  lemma OverlongFirst(f: Out, more: Wire)
    requires !Fits(f)
    ensures |Frames(Encode(f) + more).frames| > 0 && Frames(Encode(f) + more).frames[0] != View(f)
  {
    OverlongRead(f, more);
  }

  lemma OverlongStream(fs: seq<Out>, k: nat)
    requires k < |fs| && AllFit(fs[..k]) && !Fits(fs[k])
    ensures Frames(EncodeAll(fs)).frames != Views(fs)
  {
    var more := EncodeAll(fs[k + 1..]);
    assert fs == fs[..k] + fs[k..] && fs[k..] == [fs[k]] + fs[k + 1..];
    EncodeAllAppend(fs[..k], fs[k..]);
    EncodeAllAppend([fs[k]], fs[k + 1..]);
    OneFrame(fs[k]);
    FittingStream(fs[..k], Encode(fs[k]) + more);
    OverlongFirst(fs[k], more);
    assert Frames(EncodeAll(fs)).frames[k] != Views(fs)[k];
  }

  lemma OneFrame(f: Out)
    ensures EncodeAll([f]) == Encode(f)
  {
    assert Pieces([f]) == [Encode(f)];
    FlattenSnoc([], Encode(f));
    assert [] + [Encode(f)] == [Encode(f)];
  }

  /** The bytes of any list of frames, in any interleaving of whole frames, are read back as
      exactly that list if and only if every payload fits. */
  lemma StreamRoundTrip(fs: seq<Out>)
    ensures Frames(EncodeAll(fs)) == Stream(Views(fs), false) <==> AllFit(fs)
  {
    if AllFit(fs) {
      FittingStream(fs, []);
      assert EncodeAll(fs) + [] == EncodeAll(fs);
    } else {
      var k := FirstOverlong(fs);
      OverlongStream(fs, k);
    }
  }

  lemma FirstOverlong(fs: seq<Out>) returns (k: nat)
    requires !AllFit(fs)
    ensures k < |fs| && AllFit(fs[..k]) && !Fits(fs[k])
  {
    k := 0;
    while k < |fs| && Fits(fs[k])
      invariant k <= |fs| && AllFit(fs[..k])
    {
      assert fs[..k + 1] == fs[..k] + [fs[k]];
      k := k + 1;
    }
    assert fs[..|fs|] == fs;
  }

  /** A payload of exactly 2^24 bytes is read as an empty frame followed by its own bytes. */
  lemma MisreadPayload() returns (payload: Wire)
    ensures |payload| == U24
    ensures ReadFrame(Encode(OutData(1, false, payload))) == Got(Data(1, false, []), payload)
  {
    payload := seq(U24, _ => 0);
    assert payload + [] == [] + payload;
    DataRead(1, false, payload, [], [], payload);
    assert Encode(OutData(1, false, payload)) + [] == Encode(OutData(1, false, payload));
    assert payload + [] == payload;
  }

  /** A writer cut off after any byte delivers a leading part of the frames, and not all of them
      unless all bytes are there. */
  lemma CutStream(fs: seq<Out>, part: Wire)
    requires AllFit(fs) && part <= EncodeAll(fs)
    ensures Frames(part).frames <= Views(fs)
    ensures part != EncodeAll(fs) ==> |Frames(part).frames| < |fs|
  {
    forall i | 0 <= i < |fs|
      ensures ReadsAs(ReadFrame, Pieces(fs)[i], Views(fs)[i]) && NeedsAll(ReadFrame, Pieces(fs)[i])
    {
      FitsReadsAs(fs[i]);
      FrameNeedsAll(fs[i]);
    }
    CutAnywhere(ReadFrame, Pieces(fs), Views(fs), part);
  }

  /** Whatever is read from any bytes is readable. */
  lemma {:induction false} AllReadable(w: Wire)
    ensures forall f :: f in Frames(w).frames ==> Readable(f)
    decreases |w|
  {
    if ReadFrame(w).Got? {
      AllReadable(ReadFrame(w).rest);
    }
  }
}
