/** The connection tables of the userspace network proxy (src/netproxy/src/lib.rs).

    The TCP stack behind the socket set is foreign: between two passes it may put any socket in
    any state, and `SocketSet::add` returns some handle that is not in the set. */
module NetProxy {
  import opened Common

  type Handle = nat

  datatype TcpState = Closed | Listen | SynSent | SynReceived | Established | FinWait1 | FinWait2
                    | CloseWait | Closing | LastAck | TimeWait

  type States = map<Handle, TcpState>

  /** A guest connection and the host stream it belongs to. */
  datatype Conn = Conn(handle: Handle, stream: nat)

  datatype PortForward = PortForward(pending: seq<Conn>, active: seq<Conn>)

  const EPHEMERAL_BASE := 49152

  /** Closed, or closing from the guest side: the proxy gives the connection up. */
  predicate Gone(s: TcpState) {
    s.Closed? || s.TimeWait? || s.CloseWait?
  }

  // ---------------------------------------------------------------- who holds which handle

  function HandlesOf(cs: seq<Conn>): set<Handle> {
    set c | c in cs :: c.handle
  }

  function Held(pf: PortForward): set<Handle> {
    HandlesOf(pf.pending) + HandlesOf(pf.active)
  }

  ghost predicate Unique(cs: seq<Conn>) {
    forall i, j :: 0 <= i < j < |cs| ==> cs[i].handle != cs[j].handle
  }

  /** No handle occurs twice in the forward. */
  ghost predicate Sound(pf: PortForward) {
    Unique(pf.pending) && Unique(pf.active) && HandlesOf(pf.pending) !! HandlesOf(pf.active)
  }

  /** The handles held by the first `n` forwards. */
  function AllHeld(fs: seq<PortForward>, n: nat): set<Handle>
    requires n <= |fs|
  {
    if n == 0 then {} else AllHeld(fs, n - 1) + Held(fs[n - 1])
  }

  ghost predicate Disjoint(fs: seq<PortForward>) {
    forall i, j :: 0 <= i < j < |fs| ==> Held(fs[i]) !! Held(fs[j])
  }

  /** The socket set is the DNS socket and the disjoint union of all pending and active handles. */
  ghost predicate Balanced(fs: seq<PortForward>, dns: Handle, keys: set<Handle>) {
    && (forall i :: 0 <= i < |fs| ==> Sound(fs[i]))
    && Disjoint(fs)
    && dns !in AllHeld(fs, |fs|)
    && keys == {dns} + AllHeld(fs, |fs|)
  }

  lemma {:induction false} AllHeldHas(fs: seq<PortForward>, n: nat, i: nat)
    requires i < n <= |fs|
    ensures Held(fs[i]) <= AllHeld(fs, n)
  {
    if i < n - 1 {
      AllHeldHas(fs, n - 1, i);
    }
  }

  /** Replacing one of pairwise disjoint forwards replaces its handles and no others. */
  lemma {:induction false} AllHeldUpdate(fs: seq<PortForward>, n: nat, i: nat, pf: PortForward)
    requires i < |fs| && n <= |fs| && Disjoint(fs)
    ensures AllHeld(fs[i := pf], n) == if i < n then AllHeld(fs, n) - Held(fs[i]) + Held(pf) else AllHeld(fs, n)
  {
    if n > 0 {
      AllHeldUpdate(fs, n - 1, i, pf);
      if i == n - 1 {
        ApartFrom(fs, n - 1, i);
      } else if i < n - 1 {
        assert Held(fs[i]) !! Held(fs[n - 1]);
      }
    }
  }

  lemma {:induction false} ApartFrom(fs: seq<PortForward>, n: nat, i: nat)
    requires n <= i < |fs| && Disjoint(fs)
    ensures AllHeld(fs, n) !! Held(fs[i])
  {
    if n > 0 {
      ApartFrom(fs, n - 1, i);
    }
  }

  /** A forward takes in one new handle, and so does the set. */
  lemma AddKeepsBalance(fs: seq<PortForward>, dns: Handle, keys: set<Handle>, i: nat, pf: PortForward, h: Handle)
    requires Balanced(fs, dns, keys) && i < |fs| && h !in keys
    requires Sound(pf) && Held(pf) == Held(fs[i]) + {h}
    ensures Balanced(fs[i := pf], dns, keys + {h})
  {
    AllHeldUpdate(fs, |fs|, i, pf);
    AllHeldHas(fs, |fs|, i);
    forall j | 0 <= j < |fs| && j != i ensures Held(fs[j]) !! Held(pf) {
      AllHeldHas(fs, |fs|, j);
      assert Held(fs[j]) !! Held(fs[i]);
    }
  }

  /** A forward lets go of some handles, and so does the set. */
  lemma DropKeepsBalance(fs: seq<PortForward>, dns: Handle, keys: set<Handle>, i: nat, pf: PortForward,
                         gone: set<Handle>)
    requires Balanced(fs, dns, keys) && i < |fs|
    requires Sound(pf) && Held(pf) == Held(fs[i]) - gone && gone <= Held(fs[i])
    ensures Balanced(fs[i := pf], dns, keys - gone)
  {
    AllHeldUpdate(fs, |fs|, i, pf);
    AllHeldHas(fs, |fs|, i);
    forall j | 0 <= j < |fs| && j != i ensures Held(fs[j]) !! Held(pf) {
      assert Held(fs[j]) !! Held(fs[i]);
    }
  }

  // ---------------------------------------------------------------- what a pass does to one list

  datatype Fate = Stays | Promotes | Drops

  /** What becomes of a pending connection. */
  function PendingFate(states: States, c: Conn): Fate {
    if c.handle !in states || Gone(states[c.handle]) then Drops
    else if states[c.handle].Established? then Promotes
    else Stays
  }

  /** What becomes of an active connection. */
  function ActiveFate(states: States, c: Conn): Fate {
    if c.handle !in states || Gone(states[c.handle]) then Drops else Stays
  }

  /** The connections among the first `n` with this fate, in order. */
  function Chosen(cs: seq<Conn>, fate: Conn -> Fate, f: Fate, n: nat): seq<Conn>
    requires n <= |cs|
  {
    if n == 0 then []
    else if fate(cs[n - 1]) == f then Chosen(cs, fate, f, n - 1) + [cs[n - 1]]
    else Chosen(cs, fate, f, n - 1)
  }

  function With(cs: seq<Conn>, fate: Conn -> Fate, f: Fate): seq<Conn> {
    Chosen(cs, fate, f, |cs|)
  }

  lemma {:induction false} ChosenFacts(cs: seq<Conn>, fate: Conn -> Fate, f: Fate, n: nat)
    requires n <= |cs|
    ensures forall c :: c in Chosen(cs, fate, f, n) <==> c in cs[..n] && fate(c) == f
    ensures Unique(cs) ==> Unique(Chosen(cs, fate, f, n))
  {
    if n > 0 {
      ChosenFacts(cs, fate, f, n - 1);
      assert cs[..n] == cs[..n - 1] + [cs[n - 1]];
      var chosen := Chosen(cs, fate, f, n - 1);
      if Unique(cs) {
        forall i | 0 <= i < |chosen| ensures chosen[i].handle != cs[n - 1].handle {
          assert chosen[i] in chosen;
        }
      }
    }
  }

  lemma WithFacts(cs: seq<Conn>, fate: Conn -> Fate, f: Fate)
    ensures forall c :: c in With(cs, fate, f) <==> c in cs && fate(c) == f
    ensures Unique(cs) ==> Unique(With(cs, fate, f))
  {
    ChosenFacts(cs, fate, f, |cs|);
    assert cs[..|cs|] == cs;
  }

  lemma SameHandleSameConn(cs: seq<Conn>, c: Conn, d: Conn)
    requires Unique(cs) && c in cs && d in cs && c.handle == d.handle
    ensures c == d
  {
    var i :| 0 <= i < |cs| && cs[i] == c;
    var j :| 0 <= j < |cs| && cs[j] == d;
  }

  /** In a list without repeats, different fates have different handles. */
  lemma FatesAreDisjoint(cs: seq<Conn>, fate: Conn -> Fate, f: Fate, g: Fate)
    requires Unique(cs) && f != g
    ensures HandlesOf(With(cs, fate, f)) !! HandlesOf(With(cs, fate, g))
  {
    WithFacts(cs, fate, f);
    WithFacts(cs, fate, g);
    forall c, d | c in With(cs, fate, f) && d in With(cs, fate, g) ensures c.handle != d.handle {
      if c.handle == d.handle {
        SameHandleSameConn(cs, c, d);
      }
    }
  }

  /** The three fates share out the handles of the list. */
  lemma FatesCover(cs: seq<Conn>, fate: Conn -> Fate)
    ensures HandlesOf(cs) ==
            HandlesOf(With(cs, fate, Stays)) + HandlesOf(With(cs, fate, Promotes)) + HandlesOf(With(cs, fate, Drops))
  {
    WithFacts(cs, fate, Stays);
    WithFacts(cs, fate, Promotes);
    WithFacts(cs, fate, Drops);
    forall c | c in cs ensures c.handle in HandlesOf(With(cs, fate, fate(c))) {}
  }

  // ---------------------------------------------------------------- what a pass does to one forward

  function PendingFates(states: States): Conn -> Fate {
    c => PendingFate(states, c)
  }

  function ActiveFates(states: States): Conn -> Fate {
    c => ActiveFate(states, c)
  }

  /** Established connections join the active ones, failed ones go, the rest wait on. */
  function Promoted(pf: PortForward, states: States): PortForward {
    PortForward(With(pf.pending, PendingFates(states), Stays),
                pf.active + With(pf.pending, PendingFates(states), Promotes))
  }

  /** The active connections that are gone leave. */
  function Cleaned(pf: PortForward, states: States): PortForward {
    pf.(active := With(pf.active, ActiveFates(states), Stays))
  }

  lemma HandlesAppend(a: seq<Conn>, b: seq<Conn>)
    ensures HandlesOf(a + b) == HandlesOf(a) + HandlesOf(b)
    ensures Unique(a) && Unique(b) && HandlesOf(a) !! HandlesOf(b) ==> Unique(a + b)
  {
    if Unique(a) && Unique(b) && HandlesOf(a) !! HandlesOf(b) {
      forall i, j | 0 <= i < |a| && 0 <= j < |b| ensures a[i].handle != b[j].handle {
        assert a[i].handle in HandlesOf(a) && b[j].handle in HandlesOf(b);
      }
    }
  }

  /** Promotion keeps a forward sound and lets go of exactly the failed connections. */
  lemma PromotedHolds(pf: PortForward, states: States)
    requires Sound(pf)
    ensures Sound(Promoted(pf, states))
    ensures Held(Promoted(pf, states)) == Held(pf) - HandlesOf(With(pf.pending, PendingFates(states), Drops))
    ensures HandlesOf(With(pf.pending, PendingFates(states), Drops)) <= Held(pf)
  {
    var fate := PendingFates(states);
    var up := With(pf.pending, fate, Promotes);
    WithFacts(pf.pending, fate, Stays);
    WithFacts(pf.pending, fate, Promotes);
    FatesCover(pf.pending, fate);
    FatesAreDisjoint(pf.pending, fate, Stays, Drops);
    FatesAreDisjoint(pf.pending, fate, Promotes, Drops);
    FatesAreDisjoint(pf.pending, fate, Stays, Promotes);
    HandlesAppend(pf.active, up);
  }

  lemma CleanedHolds(pf: PortForward, states: States)
    requires Sound(pf)
    ensures Sound(Cleaned(pf, states))
    ensures Held(Cleaned(pf, states)) == Held(pf) - HandlesOf(With(pf.active, ActiveFates(states), Drops))
    ensures HandlesOf(With(pf.active, ActiveFates(states), Drops)) <= Held(pf)
  {
    var fate := ActiveFates(states);
    WithFacts(pf.active, fate, Stays);
    WithFacts(pf.active, fate, Promotes);
    FatesCover(pf.active, fate);
    FatesAreDisjoint(pf.active, fate, Stays, Drops);
    assert HandlesOf(With(pf.active, fate, Promotes)) == {};
  }

  // ---------------------------------------------------------------- the inner loops

  /** The set has lost some sockets and is otherwise as it was in `states`. */
  ghost predicate Within(sockets: States, states: States) {
    forall h :: h in sockets ==> h in states && sockets[h] == states[h]
  }

  /** Handles dropped early in a list without repeats are not those that come later. */
  lemma NotYetDropped(cs: seq<Conn>, fate: Conn -> Fate, j: nat)
    requires Unique(cs) && j < |cs|
    ensures cs[j].handle !in HandlesOf(Chosen(cs, fate, Drops, j))
  {
    ChosenFacts(cs, fate, Drops, j);
  }

  /** The inner loop of `promote_established`. */
  method PromotePending(pf: PortForward, sockets: States, ghost states: States)
    returns (pf': PortForward, left: States)
    requires Sound(pf) && Held(pf) <= sockets.Keys && Within(sockets, states)
    ensures pf' == Promoted(pf, states) && Within(left, states)
    ensures left.Keys == sockets.Keys - HandlesOf(With(pf.pending, PendingFates(states), Drops))
  {
    var still: seq<Conn>, up: seq<Conn> := [], [];
    left := sockets;
    ghost var fate := PendingFates(states);
    for j := 0 to |pf.pending|
      invariant Within(left, states)
      invariant left.Keys == sockets.Keys - HandlesOf(Chosen(pf.pending, fate, Drops, j))
      invariant still == Chosen(pf.pending, fate, Stays, j)
      invariant up == Chosen(pf.pending, fate, Promotes, j)
    {
      var c := pf.pending[j];
      NotYetDropped(pf.pending, fate, j);
      assert c.handle in Held(pf);
      if left[c.handle].Established? {
        up := up + [c];
      } else if Gone(left[c.handle]) {
        HandlesAppend(Chosen(pf.pending, fate, Drops, j), [c]);
        left := left - {c.handle};
      } else {
        still := still + [c];
      }
    }
    pf' := PortForward(still, pf.active + up);
  }

  /** The inner loop of `cleanup`. */
  method CleanActive(pf: PortForward, sockets: States, ghost states: States)
    returns (pf': PortForward, left: States)
    requires Sound(pf) && Held(pf) <= sockets.Keys && Within(sockets, states)
    ensures pf' == Cleaned(pf, states) && Within(left, states)
    ensures left.Keys == sockets.Keys - HandlesOf(With(pf.active, ActiveFates(states), Drops))
  {
    var kept: seq<Conn> := [];
    left := sockets;
    ghost var fate := ActiveFates(states);
    for j := 0 to |pf.active|
      invariant Within(left, states)
      invariant left.Keys == sockets.Keys - HandlesOf(Chosen(pf.active, fate, Drops, j))
      invariant kept == Chosen(pf.active, fate, Stays, j)
    {
      var c := pf.active[j];
      NotYetDropped(pf.active, fate, j);
      assert c.handle in Held(pf);
      if Gone(left[c.handle]) {
        HandlesAppend(Chosen(pf.active, fate, Drops, j), [c]);
        left := left - {c.handle};
      } else {
        kept := kept + [c];
      }
    }
    pf' := pf.(active := kept);
  }

  // ---------------------------------------------------------------- the engine

  /** A host connection that arrived, and for which forward. */
  datatype Arrival = Arrival(forward: nat, stream: nat)

  /** What the outside does during one turn of the loop: host connections arrive, and the TCP
      stack and the data pass leave each socket in some state. */
  datatype Turn = Turn(arrivals: seq<Arrival>, polled: Handle -> TcpState, proxied: Handle -> TcpState)

  function Waiting(pf: PortForward, c: Conn): PortForward {
    pf.(pending := pf.pending + [c])
  }

  /** Arrivals are for existing forwards. */
  predicate InRange(arrivals: seq<Arrival>, n: nat) {
    forall a :: a in arrivals ==> a.forward < n
  }

  /** The forwards after the first `k` arrivals, whose sockets got these handles. */
  function Accepted(fs: seq<PortForward>, arrivals: seq<Arrival>, handles: seq<Handle>, k: nat): (r: seq<PortForward>)
    requires k <= |arrivals| && k <= |handles| && InRange(arrivals, |fs|)
    ensures |r| == |fs|
  {
    if k == 0 then fs
    else
      var a, before := arrivals[k - 1], Accepted(fs, arrivals, handles, k - 1);
      before[a.forward := Waiting(before[a.forward], Conn(handles[k - 1], a.stream))]
  }

  lemma {:induction false} AcceptedBefore(fs: seq<PortForward>, arrivals: seq<Arrival>, handles: seq<Handle>,
                                          h: Handle, k: nat)
    requires k <= |arrivals| && k <= |handles| && InRange(arrivals, |fs|)
    ensures Accepted(fs, arrivals, handles + [h], k) == Accepted(fs, arrivals, handles, k)
  {
    if k > 0 {
      AcceptedBefore(fs, arrivals, handles, h, k - 1);
    }
  }

  ghost predicate Follows(sockets: States, state: Handle -> TcpState) {
    forall h :: h in sockets ==> sockets[h] == state(h)
  }

  /** Each forward was promoted by the states `polled` and then cleaned by the states `proxied`, and
      these know all of its handles. */
  ghost predicate Turned(before: seq<PortForward>, polled: States, proxied: States, after: seq<PortForward>) {
    && |after| == |before|
    && forall i :: 0 <= i < |before| ==>
      && Held(before[i]) <= polled.Keys && Held(Promoted(before[i], polled)) <= proxied.Keys
      && after[i] == Cleaned(Promoted(before[i], polled), proxied)
  }

  /** How many connections arrive in the first `k` turns. */
  function Arrived(turns: seq<Turn>, k: nat): nat
    requires k <= |turns|
  {
    if k == 0 then 0 else Arrived(turns, k - 1) + |turns[k - 1].arrivals|
  }

  /** There is always a free handle. */
  lemma {:induction false} FreeHandle(taken: set<Handle>) returns (h: Handle)
    ensures forall x :: x in taken ==> x < h
  {
    if taken == {} {
      h := 0;
    } else {
      var x :| x in taken;
      var above := FreeHandle(taken - {x});
      h := Max(above, x + 1);
      forall y | y in taken ensures y < h {
        assert y == x || y in taken - {x};
      }
    }
  }

  class ProxyEngine {
    const dns: Handle
    var sockets: States
    var forwards: seq<PortForward>
    var nextEphemeral: nat
    /** The local ports given out so far. */
    ghost var ports: seq<nat>

    ghost predicate PortsInOrder()
      reads this
    {
      && nextEphemeral == EPHEMERAL_BASE + |ports| % 16384
      && forall k :: 0 <= k < |ports| ==> ports[k] == EPHEMERAL_BASE + k % 16384
    }

    ghost predicate Valid()
      reads this
    {
      Balanced(forwards, dns, sockets.Keys) && PortsInOrder()
    }

    constructor (dns: Handle, n: nat)
      ensures Valid() && this.dns == dns && ports == []
      ensures |forwards| == n && sockets.Keys == {dns}
    {
      this.dns := dns;
      sockets := map[dns := Closed];
      forwards := seq(n, _ => PortForward([], []));
      nextEphemeral := EPHEMERAL_BASE;
      ports := [];
      new;
      NothingHeld(forwards, n);
    }

    /** The next local port: counts up and wraps from the top of the range to its base.  The
        socket set picks the handle. */
    method OpenGuestTcp() returns (handle: Handle)
      requires PortsInOrder()
      modifies this`sockets, this`nextEphemeral, this`ports
      ensures PortsInOrder() && ports == old(ports) + [old(nextEphemeral)]
      ensures handle !in old(sockets) && sockets == old(sockets)[handle := SynSent]
    {
      ports := ports + [nextEphemeral];
      nextEphemeral := (nextEphemeral + 1) % 65536;
      if nextEphemeral < EPHEMERAL_BASE {
        nextEphemeral := EPHEMERAL_BASE;
      }
      ghost var free := FreeHandle(sockets.Keys);
      assert free !in sockets;
      handle :| handle !in sockets;
      sockets := sockets[handle := SynSent];
    }

    method AcceptOne(a: Arrival) returns (handle: Handle)
      requires Valid() && a.forward < |forwards|
      modifies this
      ensures Valid() && |ports| == |old(ports)| + 1
      ensures handle !in old(sockets) && sockets == old(sockets)[handle := SynSent]
      ensures forwards == old(forwards)[a.forward := Waiting(old(forwards)[a.forward], Conn(handle, a.stream))]
    {
      handle := OpenGuestTcp();
      var was, c := forwards[a.forward], Conn(handle, a.stream);
      AllHeldHas(forwards, |forwards|, a.forward);
      HandlesAppend(was.pending, [c]);
      AddKeepsBalance(forwards, dns, old(sockets).Keys, a.forward, Waiting(was, c), handle);
      assert sockets.Keys == old(sockets).Keys + {handle};
      forwards := forwards[a.forward := Waiting(was, c)];
    }

    /** Second pass of `accept_connections`: every arrival gets a socket of its own and waits in
        its forward, and the sockets that were there stay. */
    method AcceptConnections(arrivals: seq<Arrival>) returns (handles: seq<Handle>)
      requires Valid() && InRange(arrivals, |forwards|)
      modifies this
      ensures Valid() && |ports| == |old(ports)| + |arrivals| && |handles| == |arrivals|
      ensures forwards == Accepted(old(forwards), arrivals, handles, |arrivals|)
      ensures Within(old(sockets), sockets)
      ensures sockets.Keys == old(sockets).Keys + (set h | h in handles)
      ensures NoDuplicates(handles) && forall h :: h in handles ==> h !in old(sockets)
    {
      handles := [];
      for k := 0 to |arrivals|
        invariant Valid() && |ports| == |old(ports)| + k && |handles| == k
        invariant forwards == Accepted(old(forwards), arrivals, handles, k)
        invariant Within(old(sockets), sockets)
        invariant sockets.Keys == old(sockets).Keys + (set h | h in handles)
        invariant NoDuplicates(handles) && forall h :: h in handles ==> h !in old(sockets)
      {
        var h := AcceptOne(arrivals[k]);
        AcceptedBefore(old(forwards), arrivals, handles, h, k);
        handles := handles + [h];
      }
    }

    /** The TCP stack runs: sockets change state, none comes or goes. */
    method Poll(state: Handle -> TcpState)
      requires Valid()
      modifies this`sockets
      ensures Valid() && sockets.Keys == old(sockets).Keys && Follows(sockets, state)
    {
      sockets := map h | h in sockets :: state(h);
      assert sockets.Keys == old(sockets).Keys;
    }

    /** One pass over all forwards: established connections become active, in order, failed ones
        are dropped with their sockets, and no lookup ever misses. */
    method PromoteEstablished()
      requires Valid()
      modifies this`sockets, this`forwards
      ensures Valid() && Within(sockets, old(sockets)) && |forwards| == |old(forwards)|
      ensures forall i :: 0 <= i < |forwards| ==> forwards[i] == Promoted(old(forwards)[i], old(sockets))
    {
      ghost var states := sockets;
      for i := 0 to |forwards|
        invariant Valid() && Within(sockets, states) && |forwards| == |old(forwards)|
        invariant forall k :: 0 <= k < i ==> forwards[k] == Promoted(old(forwards)[k], states)
        invariant forall k :: i <= k < |forwards| ==> forwards[k] == old(forwards)[k]
      {
        PromoteForward(i, states);
      }
    }

    method PromoteForward(i: nat, ghost states: States)
      requires Valid() && i < |forwards| && Within(sockets, states)
      modifies this`sockets, this`forwards
      ensures Valid() && Within(sockets, states)
      ensures forwards == old(forwards)[i := Promoted(old(forwards)[i], states)]
    {
      AllHeldHas(forwards, |forwards|, i);
      PromotedHolds(forwards[i], states);
      var pf, left := PromotePending(forwards[i], sockets, states);
      DropKeepsBalance(forwards, dns, sockets.Keys, i, pf,
                       HandlesOf(With(forwards[i].pending, PendingFates(states), Drops)));
      forwards, sockets := forwards[i := pf], left;
    }

    /** `cleanup`: connections that are gone leave the active list and their sockets the set. */
    method Cleanup()
      requires Valid()
      modifies this`sockets, this`forwards
      ensures Valid() && Within(sockets, old(sockets)) && |forwards| == |old(forwards)|
      ensures forall i :: 0 <= i < |forwards| ==> forwards[i] == Cleaned(old(forwards)[i], old(sockets))
    {
      ghost var states := sockets;
      for i := 0 to |forwards|
        invariant Valid() && Within(sockets, states) && |forwards| == |old(forwards)|
        invariant forall k :: 0 <= k < i ==> forwards[k] == Cleaned(old(forwards)[k], states)
        invariant forall k :: i <= k < |forwards| ==> forwards[k] == old(forwards)[k]
      {
        CleanForward(i, states);
      }
    }

    method CleanForward(i: nat, ghost states: States)
      requires Valid() && i < |forwards| && Within(sockets, states)
      modifies this`sockets, this`forwards
      ensures Valid() && Within(sockets, states)
      ensures forwards == old(forwards)[i := Cleaned(old(forwards)[i], states)]
    {
      AllHeldHas(forwards, |forwards|, i);
      CleanedHolds(forwards[i], states);
      var pf, left := CleanActive(forwards[i], sockets, states);
      DropKeepsBalance(forwards, dns, sockets.Keys, i, pf,
                       HandlesOf(With(forwards[i].active, ActiveFates(states), Drops)));
      forwards, sockets := forwards[i := pf], left;
    }

    /** One turn of `run`: connections are accepted, the TCP stack leaves the sockets as `polled`,
        promotion looks at that, data and DNS leave them as `proxied`, cleanup looks at that.  The
        data pass finds the socket of every active connection, the DNS pass its own. */
    method RunOnce(turn: Turn) returns (ghost handles: seq<Handle>, ghost polled: States, ghost proxied: States)
      requires Valid() && InRange(turn.arrivals, |forwards|)
      modifies this
      ensures Valid() && |forwards| == |old(forwards)| && |ports| == |old(ports)| + |turn.arrivals|
      ensures |handles| == |turn.arrivals|
      ensures Follows(polled, turn.polled) && Follows(proxied, turn.proxied) && dns in proxied
      ensures Turned(Accepted(old(forwards), turn.arrivals, handles, |handles|), polled, proxied, forwards)
    {
      handles := AcceptConnections(turn.arrivals);
      Poll(turn.polled);
      polled := sockets;
      forall i | 0 <= i < |forwards| ensures Held(forwards[i]) <= polled.Keys {
        AllHeldHas(forwards, |forwards|, i);
      }
      PromoteEstablished();
      Poll(turn.proxied);
      proxied := sockets;
      forall i | 0 <= i < |forwards| ensures Held(forwards[i]) <= proxied.Keys {
        AllHeldHas(forwards, |forwards|, i);
      }
      Cleanup();
    }

    /** What a turn keeps, for the loop. */
    method RunAgain(turn: Turn)
      requires Valid() && InRange(turn.arrivals, |forwards|)
      modifies this
      ensures Valid() && |forwards| == |old(forwards)| && |ports| == |old(ports)| + |turn.arrivals|
    {
      ghost var _, _, _ := RunOnce(turn);
    }

    /** `run`, up to any shutdown: whatever arrives and whatever the TCP stack does, the tables
        and the socket set agree after every turn. */
    method Run(turns: seq<Turn>)
      requires Valid() && forall t :: t in turns ==> InRange(t.arrivals, |forwards|)
      modifies this
      ensures Valid() && |forwards| == |old(forwards)| && |ports| == |old(ports)| + Arrived(turns, |turns|)
    {
      for k := 0 to |turns|
        invariant Valid() && |forwards| == |old(forwards)| && |ports| == |old(ports)| + Arrived(turns, k)
      {
        RunAgain(turns[k]);
      }
    }
  }

  lemma {:induction false} NothingHeld(fs: seq<PortForward>, n: nat)
    requires n <= |fs| && forall i :: 0 <= i < |fs| ==> fs[i] == PortForward([], [])
    ensures AllHeld(fs, n) == {}
  {
    if n > 0 {
      NothingHeld(fs, n - 1);
    }
  }

  /** Local ports stay in the ephemeral range, and any 16384 consecutive ones are distinct. */
  lemma PortsAreDistinct(engine: ProxyEngine, i: nat, j: nat)
    requires engine.Valid() && i < j < |engine.ports| && j < i + 16384
    ensures engine.ports[i] != engine.ports[j]
    ensures 49152 <= engine.ports[i] <= 65535
  {
    assert i == 16384 * (i / 16384) + i % 16384;
    assert j == 16384 * (j / 16384) + j % 16384;
  }

  // ---------------------------------------------------------------- by the socket states alone

  /** After promotion a connection is active if it was, or if it was pending and its socket is
      established; it still waits if it did and its socket is neither that nor over. */
  lemma PromotedExactly(pf: PortForward, states: States, c: Conn)
    requires Held(pf) <= states.Keys
    ensures c in Promoted(pf, states).active <==>
      c in pf.active || (c in pf.pending && c.handle in states && states[c.handle] == Established)
    ensures c in Promoted(pf, states).pending <==>
      c in pf.pending && c.handle in states && states[c.handle] !in {Established, Closed, TimeWait, CloseWait}
  {
    WithFacts(pf.pending, PendingFates(states), Promotes);
    WithFacts(pf.pending, PendingFates(states), Stays);
    if c in pf.pending {
      assert c.handle in Held(pf);
    }
  }

  /** After cleanup a connection is active if it was and its socket is not over. */
  lemma CleanedExactly(pf: PortForward, states: States, c: Conn)
    requires Held(pf) <= states.Keys
    ensures Cleaned(pf, states).pending == pf.pending
    ensures c in Cleaned(pf, states).active <==>
      c in pf.active && c.handle in states && states[c.handle] !in {Closed, TimeWait, CloseWait}
  {
    WithFacts(pf.active, ActiveFates(states), Stays);
    if c in pf.active {
      assert c.handle in Held(pf);
    }
  }

  /** The sockets that go with the connections: those of a pending one that is over at promotion,
      and of an active one that is over at cleanup. */
  lemma DroppedExactly(pf: PortForward, states: States, h: Handle)
    requires Held(pf) <= states.Keys
    ensures h in HandlesOf(With(pf.pending, PendingFates(states), Drops)) <==>
      h in HandlesOf(pf.pending) && h in states && states[h] in {Closed, TimeWait, CloseWait}
    ensures h in HandlesOf(With(pf.active, ActiveFates(states), Drops)) <==>
      h in HandlesOf(pf.active) && h in states && states[h] in {Closed, TimeWait, CloseWait}
  {
    WithFacts(pf.pending, PendingFates(states), Drops);
    WithFacts(pf.active, ActiveFates(states), Drops);
  }

  lemma {:induction false} ChosenAppend(a: seq<Conn>, b: seq<Conn>, fate: Conn -> Fate, f: Fate, n: nat)
    requires n <= |b|
    ensures Chosen(a + b, fate, f, |a| + n) == With(a, fate, f) + Chosen(b, fate, f, n)
  {
    if n > 0 {
      ChosenAppend(a, b, fate, f, n - 1);
      assert (a + b)[|a| + n - 1] == b[n - 1];
    } else {
      ChosenBefore(a, b, fate, f, |a|);
      assert With(a, fate, f) + [] == With(a, fate, f);
    }
  }

  lemma {:induction false} ChosenBefore(a: seq<Conn>, b: seq<Conn>, fate: Conn -> Fate, f: Fate, n: nat)
    requires n <= |a|
    ensures Chosen(a + b, fate, f, n) == Chosen(a, fate, f, n)
  {
    if n > 0 {
      ChosenBefore(a, b, fate, f, n - 1);
    }
  }

  /** A pass keeps the order: what is chosen of two lists in a row is what is chosen of each; and the
      promoted connections come after those that were active. */
  lemma PassKeepsOrder(a: seq<Conn>, b: seq<Conn>, fate: Conn -> Fate, f: Fate, pf: PortForward, states: States)
    ensures With(a + b, fate, f) == With(a, fate, f) + With(b, fate, f)
    ensures pf.active <= Promoted(pf, states).active
  {
    ChosenAppend(a, b, fate, f, |b|);
  }

  /** Accepting adds, behind those that wait already, exactly the arrivals of a forward. */
  lemma {:induction false} AcceptedExactly(fs: seq<PortForward>, arrivals: seq<Arrival>, handles: seq<Handle>,
                                           k: nat, f: nat, c: Conn)
    requires k <= |arrivals| && k <= |handles| && InRange(arrivals, |fs|) && f < |fs|
    ensures var pf := Accepted(fs, arrivals, handles, k)[f];
            && pf.active == fs[f].active && fs[f].pending <= pf.pending
            && (c in pf.pending <==>
                  || c in fs[f].pending
                  || exists i :: 0 <= i < k && arrivals[i].forward == f && c == Conn(handles[i], arrivals[i].stream))
  {
    if k > 0 {
      AcceptedExactly(fs, arrivals, handles, k - 1, f, c);
      assert arrivals[k - 1] in arrivals;
    }
  }
}
