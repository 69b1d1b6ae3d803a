/** What a list of written frames means for each stream, and what a reader gets out of it. */
module SpdyWire {
  import opened Bytes
  import opened SpdyFrames

  // ---------------------------------------------------------------- what is on the wire, per stream

  /** The DATA frames of one stream. */
  function On(wire: seq<Out>, id: u32): seq<Out> {
    if wire == [] then [] else
      var f, before := wire[|wire| - 1], wire[..|wire| - 1];
      if f.OutData? && f.id == id then On(before, id) + [f] else On(before, id)
  }

  function Echoes(wire: seq<Out>): seq<u32> {
    if wire == [] then [] else
      var f, before := wire[|wire| - 1], wire[..|wire| - 1];
      if f.OutPing? then Echoes(before) + [f.id] else Echoes(before)
  }

  /** How many FINs a stream got. */
  function Fins(wire: seq<Out>, id: u32): nat {
    if wire == [] then 0 else
      var f, before := wire[|wire| - 1], wire[..|wire| - 1];
      if f.OutData? && f.id == id && f.fin then Fins(before, id) + 1 else Fins(before, id)
  }

  lemma Snoc(wire: seq<Out>, f: Out, id: u32)
    ensures On(wire + [f], id) == if f.OutData? && f.id == id then On(wire, id) + [f] else On(wire, id)
    ensures Echoes(wire + [f]) == if f.OutPing? then Echoes(wire) + [f.id] else Echoes(wire)
    ensures Fins(wire + [f], id) == if f.OutData? && f.id == id && f.fin then Fins(wire, id) + 1 else Fins(wire, id)
  {
    assert (wire + [f])[..|wire|] == wire;
  }

  lemma OtherStream(sent: seq<Out>, id: u32, f: Out)
    requires f.OutData? ==> f.id != id
    ensures On(sent + [f], id) == On(sent, id)
  {
    Snoc(sent, f, id);
  }

  /** Frames that carry no data are not on any stream. */
  predicate NoData(wire: seq<Out>) {
    forall f :: f in wire ==> !f.OutData?
  }

  lemma {:induction false} OnAfterOthers(before: seq<Out>, wire: seq<Out>, id: u32)
    requires NoData(before)
    ensures On(before + wire, id) == On(wire, id)
  {
    if wire != [] {
      var f, ws := wire[|wire| - 1], wire[..|wire| - 1];
      assert before + wire == (before + ws) + [f] && wire == ws + [f];
      OnAfterOthers(before, ws, id);
      Snoc(before + ws, f, id);
      Snoc(ws, f, id);
    } else {
      assert before + wire == before;
      NothingOn(before, id);
    }
  }

  lemma {:induction false} NothingOn(wire: seq<Out>, id: u32)
    requires NoData(wire)
    ensures On(wire, id) == []
  {
    if wire != [] {
      assert wire[|wire| - 1] in wire;
      NothingOn(wire[..|wire| - 1], id);
    }
  }

  // ---------------------------------------------------------------- what a reader gets

  /** The bytes a reader of the frames gets on one stream. */
  function Received(fs: seq<Frame>, id: u32): Wire {
    if fs == [] then [] else
      var f, before := fs[|fs| - 1], fs[..|fs| - 1];
      if f.Data? && f.id == id then Received(before, id) + f.data else Received(before, id)
  }

  function Carried(outs: seq<Out>): Wire {
    if outs == [] then [] else
      var f, before := outs[|outs| - 1], outs[..|outs| - 1];
      if f.OutData? then Carried(before) + f.payload else Carried(before)
  }

  lemma ReceivedSnoc(fs: seq<Frame>, f: Frame, id: u32)
    ensures Received(fs + [f], id) == if f.Data? && f.id == id then Received(fs, id) + f.data else Received(fs, id)
  {
    assert (fs + [f])[..|fs|] == fs;
  }

  lemma CarriedSnoc(outs: seq<Out>, f: Out)
    ensures Carried(outs + [f]) == if f.OutData? then Carried(outs) + f.payload else Carried(outs)
  {
    assert (outs + [f])[..|outs|] == outs;
  }

  /** Identifiers read from the client have 31 bits, and so do those the server writes. */
  predicate Narrow(wire: seq<Out>) {
    forall f :: f in wire && f.OutData? ==> f.id < U31
  }

  lemma ViewsSnoc(before: seq<Out>, f: Out)
    ensures Views(before + [f]) == Views(before) + [View(f)]
  {}

  lemma ViewOnStream(f: Out, id: u32)
    requires f.OutData? ==> f.id < U31
    ensures var g := View(f);
            if f.OutData? && f.id == id then g.Data? && g.id == id && g.data == f.payload else g.Data? ==> g.id != id
  {}

  lemma OneMoreReceived(before: seq<Out>, f: Out, id: u32)
    requires f.OutData? ==> f.id < U31
    requires Received(Views(before), id) == Carried(On(before, id))
    ensures Received(Views(before + [f]), id) == Carried(On(before + [f], id))
  {
    ViewsSnoc(before, f);
    ViewOnStream(f, id);
    ReceivedSnoc(Views(before), View(f), id);
    Snoc(before, f, id);
    CarriedSnoc(On(before, id), f);
  }

  lemma {:induction false} ReceivedIsCarried(wire: seq<Out>, id: u32)
    requires Narrow(wire)
    ensures Received(Views(wire), id) == Carried(On(wire, id))
  {
    if wire != [] {
      var f, before := wire[|wire| - 1], wire[..|wire| - 1];
      assert f in wire && wire == before + [f];
      ReceivedIsCarried(before, id);
      OneMoreReceived(before, f, id);
    }
  }

  /** Reading less gives a leading part of the bytes. */
  lemma {:induction false} ReceivedOfPrefix(part: seq<Frame>, fs: seq<Frame>, id: u32)
    requires part <= fs
    ensures Received(part, id) <= Received(fs, id)
    decreases |fs|
  {
    if part != fs {
      assert part <= fs[..|fs| - 1];
      ReceivedOfPrefix(part, fs[..|fs| - 1], id);
    }
  }
}
