/** Reading a byte stream frame by frame, for any frame format.

    Both wire formats of the streaming server are length-prefixed; what is true of every such
    format is proved once here, for an arbitrary `read` function. */
module Framing {
  import opened Common
  import opened Bytes

  /** What one read finds: a frame and the bytes after it, an end of stream (also in the middle
      of a header), or an end of stream inside a payload, which is an I/O error. */
  datatype Read<+F> = Got(frame: F, rest: Wire) | EndOfStream | Truncated

  /** The frames of a byte stream, and whether it ended inside a payload. */
  datatype Stream<+F> = Stream(frames: seq<F>, truncated: bool)

  ghost predicate Progresses<F(!new)>(read: Wire -> Read<F>) {
    forall w :: read(w).Got? ==> |read(w).rest| < |w|
  }

  ghost function ReadAll<F(!new)>(read: Wire -> Read<F>, w: Wire): Stream<F>
    requires Progresses(read)
    decreases |w|
  {
    match read(w)
    case EndOfStream => Stream([], false)
    case Truncated => Stream([], true)
    case Got(f, rest) =>
      var s := ReadAll(read, rest);
      Stream([f] + s.frames, s.truncated)
  }

  /** `piece` is read as `f`, whatever follows it. */
  ghost predicate ReadsAs<F(!new)>(read: Wire -> Read<F>, piece: Wire, f: F) {
    forall rest {:trigger read(piece + rest)} :: read(piece + rest) == Got(f, rest)
  }

  /** No part of `piece` short of the whole is read as a frame. */
  ghost predicate NeedsAll<F(!new)>(read: Wire -> Read<F>, piece: Wire) {
    forall part :: part < piece ==> !read(part).Got?
  }

  ghost predicate AllReadAs<F(!new)>(read: Wire -> Read<F>, pieces: seq<Wire>, fs: seq<F>) {
    |pieces| == |fs| && forall i :: 0 <= i < |fs| ==> ReadsAs(read, pieces[i], fs[i])
  }

  /** Whole frames written one after another are read back in order, up to what follows them. */
  lemma {:induction false} WholePieces<F(!new)>(read: Wire -> Read<F>, pieces: seq<Wire>, fs: seq<F>, rest: Wire)
    requires Progresses(read) && AllReadAs(read, pieces, fs)
    ensures ReadAll(read, Flatten(pieces) + rest).frames == fs + ReadAll(read, rest).frames
    ensures ReadAll(read, Flatten(pieces) + rest).truncated == ReadAll(read, rest).truncated
  {
    if pieces == [] {
      assert Flatten(pieces) + rest == rest;
    } else {
      var more := Flatten(pieces[1..]) + rest;
      assert Flatten(pieces) + rest == pieces[0] + more by {
        AppendAssociates(pieces[0], Flatten(pieces[1..]), rest);
      }
      WholePieces(read, pieces[1..], fs[1..], rest);
      FirstPiece(read, pieces, fs, more);
      AppendAssociates([fs[0]], fs[1..], ReadAll(read, rest).frames);
      assert fs == [fs[0]] + fs[1..];
    }
  }

  lemma FirstPiece<F(!new)>(read: Wire -> Read<F>, pieces: seq<Wire>, fs: seq<F>, more: Wire)
    requires Progresses(read) && AllReadAs(read, pieces, fs) && pieces != []
    ensures ReadAll(read, pieces[0] + more).frames == [fs[0]] + ReadAll(read, more).frames
    ensures ReadAll(read, pieces[0] + more).truncated == ReadAll(read, more).truncated
  {
    assert ReadsAs(read, pieces[0], fs[0]);
    assert read(pieces[0] + more) == Got(fs[0], more);
  }

  /** A writer cut off after any number of bytes still delivers only whole, correct frames: what
      is read from any part of the bytes is a leading part of the frames, and not all of them
      unless all the bytes are there. */
  lemma {:induction false} CutAnywhere<F(!new)>(read: Wire -> Read<F>, pieces: seq<Wire>, fs: seq<F>, part: Wire)
    requires Progresses(read) && AllReadAs(read, pieces, fs)
    requires forall i :: 0 <= i < |pieces| ==> NeedsAll(read, pieces[i])
    requires !read([]).Got?
    requires part <= Flatten(pieces)
    ensures ReadAll(read, part).frames <= fs
    ensures part != Flatten(pieces) ==> |ReadAll(read, part).frames| < |fs|
  {
    if pieces == [] {
    } else if |part| < |pieces[0]| {
      assert NeedsAll(read, pieces[0]);
      assert part == pieces[0][..|part|];
      assert part < pieces[0];
    } else {
      var left := part[|pieces[0]|..];
      assert part == pieces[0] + left;
      assert ReadsAs(read, pieces[0], fs[0]);
      assert Flatten(pieces)[|pieces[0]|..] == Flatten(pieces[1..]);
      CutAnywhere(read, pieces[1..], fs[1..], left);
    }
  }
}
