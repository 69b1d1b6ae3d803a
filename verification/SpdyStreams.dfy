/** Mapping the client's SYN_STREAM frames to remotecommand channels by open order
    (src/cri/src/spdy.rs). */
module SpdyStreams {
  import opened Common
  import opened Bytes
  import opened Framing
  import opened SpdyFrames
  import opened SpdyWire

  datatype Channel = Error | Stdin | Stdout | Stderr | Resize

  datatype Session = Session(tty: bool, stdin: bool, stdout: bool, stderr: bool)

  /** The channels a client opens for a session. */
  predicate Wanted(s: Session, c: Channel) {
    match c
    case Error => true
    case Stdin => s.stdin
    case Stdout => s.stdout
    case Stderr => s.stderr && !s.tty
    case Resize => s.tty
  }

  function OneIf(b: bool, c: Channel): seq<Channel> {
    if b then [c] else []
  }

  /** The wanted channels, each once, in the fixed order of the protocol. */
  method ExpectedChannels(s: Session) returns (cs: seq<Channel>)
    ensures cs == [Error] + OneIf(s.stdin, Stdin) + OneIf(s.stdout, Stdout) + OneIf(s.stderr && !s.tty, Stderr)
                  + OneIf(s.tty, Resize)
    ensures forall c :: c in cs <==> Wanted(s, c)
    ensures NoDuplicates(cs)
  {
    cs := [Error];
    if s.stdin {
      cs := cs + [Stdin];
    }
    if s.stdout {
      cs := cs + [Stdout];
    }
    if s.stderr && !s.tty {
      cs := cs + [Stderr];
    }
    if s.tty {
      cs := cs + [Resize];
    }
  }

  // ---------------------------------------------------------------- what a frame sequence says

  /** The identifiers of the SYN_STREAM frames among the first `k`. */
  function SynIds(fs: seq<Frame>, k: nat): seq<u32>
    requires k <= |fs|
  {
    if k == 0 then []
    else if fs[k - 1].SynStream? then SynIds(fs, k - 1) + [fs[k - 1].id]
    else SynIds(fs, k - 1)
  }

  function PingIds(fs: seq<Frame>, k: nat): seq<u32>
    requires k <= |fs|
  {
    if k == 0 then []
    else if fs[k - 1].Ping? then PingIds(fs, k - 1) + [fs[k - 1].id]
    else PingIds(fs, k - 1)
  }

  /** The answers to the first `k` frames: a SYN_REPLY to each SYN_STREAM, carrying the
      compressor's next block, and an echo of each PING. */
  function Answers(fs: seq<Frame>, block: nat -> HeaderBlock, k: nat): seq<Out>
    requires k <= |fs|
  {
    if k == 0 then []
    else match fs[k - 1]
      case SynStream(id) => Answers(fs, block, k - 1) + [OutSynReply(id, block(|SynIds(fs, k - 1)|))]
      case Ping(id) => Answers(fs, block, k - 1) + [OutPing(id)]
      case Data(_, _, _) => Answers(fs, block, k - 1)
      case Ignored => Answers(fs, block, k - 1)
  }

  /** The first `k` channels with the identifiers that arrived for them. */
  function Assigned(expected: seq<Channel>, ids: seq<u32>): map<Channel, u32>
    requires |ids| <= |expected|
  {
    if ids == [] then map[] else
      var k := |ids| - 1;
      Assigned(expected, ids[..k])[expected[k] := ids[k]]
  }

  lemma AssignNext(expected: seq<Channel>, ids: seq<u32>, id: u32)
    requires |ids| < |expected|
    ensures Assigned(expected, ids + [id]) == Assigned(expected, ids)[expected[|ids|] := id]
  {
    assert (ids + [id])[..|ids|] == ids;
  }

  /** Reading on never changes the identifiers already seen. */
  lemma {:induction false} SynIdsGrow(fs: seq<Frame>, j: nat, k: nat)
    requires j <= k <= |fs|
    ensures SynIds(fs, j) <= SynIds(fs, k)
  {
    if j < k {
      SynIdsGrow(fs, j, k - 1);
    }
  }

  // ---------------------------------------------------------------- the loop

  datatype Collected = Streams(ids: map<Channel, u32>) | IoError

  /** `used` is the point where `n` streams are open, or the end if they never are. */
  ghost predicate StopsAt(fs: seq<Frame>, n: nat, used: nat) {
    && used <= |fs|
    && |SynIds(fs, used)| <= n
    && (used < |fs| ==> |SynIds(fs, used)| == n)
    && (used > 0 ==> |SynIds(fs, used - 1)| < n)
  }

  /** `collect_streams`, on the frames read from the client: whatever PING, DATA and other frames
      come between them, the i-th expected channel gets the i-th SYN_STREAM identifier; frames
      are consumed and answered up to the last needed SYN_STREAM and no further; an error is an
      end inside a payload before the last stream opened. */
  method CollectStreams(input: Stream<Frame>, expected: seq<Channel>, block: nat -> HeaderBlock)
    returns (r: Collected, output: seq<Out>, used: nat)
    ensures StopsAt(input.frames, |expected|, used)
    ensures r.IoError? <==> input.truncated && |SynIds(input.frames, |input.frames|)| < |expected|
    ensures r.Streams? ==> r.ids == Assigned(expected, SynIds(input.frames, used))
    ensures output == Answers(input.frames, block, used)
  {
    var fs := input.frames;
    output, used := [], 0;
    var ids: map<Channel, u32> := map[];
    var open := 0;
    while open < |expected| && used < |fs|
      invariant used <= |fs| && open <= |expected|
      invariant open == |SynIds(fs, used)|
      invariant used > 0 ==> |SynIds(fs, used - 1)| < |expected|
      invariant ids == Assigned(expected, SynIds(fs, used))
      invariant output == Answers(fs, block, used)
    {
      match fs[used] {
        case SynStream(id) =>
          AssignNext(expected, SynIds(fs, used), id);
          output := output + [OutSynReply(id, block(open))];
          ids := ids[expected[open] := id];
          open := open + 1;
        case Ping(id) =>
          output := output + [OutPing(id)];
        case Data(_, _, _) =>
        case Ignored =>
      }
      used := used + 1;
    }
    SynIdsGrow(fs, used, |fs|);
    r := if open < |expected| && input.truncated then IoError else Streams(ids);
  }

  // ---------------------------------------------------------------- what the answers and the map mean

  function RepliedIds(outs: seq<Out>): seq<u32> {
    if outs == [] then [] else
      var o, before := outs[|outs| - 1], outs[..|outs| - 1];
      if o.OutSynReply? then RepliedIds(before) + [o.id] else RepliedIds(before)
  }

  /** One reply per consumed SYN_STREAM and one echo per consumed PING, each in order, and no
      other frame. */
  lemma {:induction false} AnswersMirrorFrames(fs: seq<Frame>, block: nat -> HeaderBlock, k: nat)
    requires k <= |fs|
    ensures RepliedIds(Answers(fs, block, k)) == SynIds(fs, k)
    ensures Echoes(Answers(fs, block, k)) == PingIds(fs, k)
    ensures |Answers(fs, block, k)| == |SynIds(fs, k)| + |PingIds(fs, k)|
  {
    if k > 0 {
      AnswersMirrorFrames(fs, block, k - 1);
      var outs := Answers(fs, block, k);
      if outs != [] {
        assert outs != Answers(fs, block, k - 1) ==> outs[..|outs| - 1] == Answers(fs, block, k - 1);
      }
    }
  }

  lemma {:induction false} AssignedAt(expected: seq<Channel>, ids: seq<u32>)
    requires |ids| <= |expected|
    requires NoDuplicates(expected)
    ensures forall c :: c in Assigned(expected, ids) ==> c in expected[..|ids|]
    ensures forall i :: 0 <= i < |ids| ==>
      expected[i] in Assigned(expected, ids) && Assigned(expected, ids)[expected[i]] == ids[i]
  {
    if ids != [] {
      var k := |ids| - 1;
      AssignedAt(expected, ids[..k]);
      assert expected[..k + 1] == expected[..k] + [expected[k]];
    }
  }

  /** Distinct client identifiers give every channel its own stream. */
  lemma DistinctIdsDistinctStreams(expected: seq<Channel>, ids: seq<u32>, a: Channel, b: Channel)
    requires |ids| <= |expected|
    requires NoDuplicates(expected)
    requires NoDuplicates(ids)
    requires a in Assigned(expected, ids) && b in Assigned(expected, ids) && a != b
    ensures Assigned(expected, ids)[a] != Assigned(expected, ids)[b]
  {
    AssignedAt(expected, ids);
    var i :| 0 <= i < |ids| && expected[i] == a;
    var j :| 0 <= j < |ids| && expected[j] == b;
  }

  lemma {:induction false} AnswersHaveNoData(fs: seq<Frame>, block: nat -> HeaderBlock, k: nat)
    requires k <= |fs|
    ensures NoData(Answers(fs, block, k))
  {
    if k > 0 {
      AnswersHaveNoData(fs, block, k - 1);
    }
  }

  /** The identifiers of streams opened by any bytes have 31 bits. */
  lemma {:induction false} SynIdsAreNarrow(fs: seq<Frame>, k: nat)
    requires k <= |fs| && forall f :: f in fs ==> Readable(f)
    ensures forall i :: 0 <= i < |SynIds(fs, k)| ==> SynIds(fs, k)[i] < U31
  {
    if k > 0 {
      SynIdsAreNarrow(fs, k - 1);
      assert fs[k - 1] in fs;
    }
  }

  lemma {:induction false} AssignedAreNarrow(expected: seq<Channel>, ids: seq<u32>)
    requires |ids| <= |expected| && forall i :: 0 <= i < |ids| ==> ids[i] < U31
    ensures forall c :: c in Assigned(expected, ids) ==> Assigned(expected, ids)[c] < U31
  {
    if ids != [] {
      AssignedAreNarrow(expected, ids[..|ids| - 1]);
    }
  }

  ghost predicate Injective(m: map<Channel, u32>) {
    forall a, b :: a in m && b in m && a != b ==> m[a] != m[b]
  }

  lemma AssignedIsInjective(expected: seq<Channel>, ids: seq<u32>)
    requires |ids| <= |expected| && NoDuplicates(expected) && NoDuplicates(ids)
    ensures Injective(Assigned(expected, ids))
  {
    var m := Assigned(expected, ids);
    forall a, b | a in m && b in m && a != b ensures m[a] != m[b] {
      DistinctIdsDistinctStreams(expected, ids, a, b);
    }
  }

  lemma {:induction false} PingIdsBefore(fs: seq<Frame>, f: Frame, k: nat)
    requires k <= |fs|
    ensures PingIds(fs + [f], k) == PingIds(fs, k)
  {
    if k > 0 {
      PingIdsBefore(fs, f, k - 1);
    }
  }
}
