/** Endpoints of a bridge network (src/core/src/network.rs). */
module Network {
  import opened Common
  import opened Ipam

  type BoxId = string

  datatype Endpoint = Endpoint(boxId: BoxId, boxName: string, aliases: seq<string>, ip: nat, mac: string)

  type Endpoints = map<BoxId, Endpoint>

  datatype ConnectResult = Connected(endpoint: Endpoint) | AlreadyConnected | NoAddress

  function UsedSet(es: Endpoints): set<nat> {
    set id | id in es :: es[id].ip
  }

  /** The names that are not empty and not the box's own, as often as they were given. */
  function KeptAliases(aliases: seq<string>, boxName: string): (kept: seq<string>)
    ensures forall a :: multiset(kept)[a] == if a == "" || a == boxName then 0 else multiset(aliases)[a]
  {
    if aliases == [] then []
    else
      assert aliases == [aliases[0]] + aliases[1..];
      var rest := KeptAliases(aliases[1..], boxName);
      if aliases[0] != "" && aliases[0] != boxName then [aliases[0]] + rest else rest
  }

  /** They keep their order: what is kept of two lists in a row is what is kept of each. */
  lemma {:induction false} KeptInOrder(a: seq<string>, b: seq<string>, boxName: string)
    ensures KeptAliases(a + b, boxName) == KeptAliases(a, boxName) + KeptAliases(b, boxName)
  {
    if a == [] {
      assert a + b == b;
    } else {
      assert (a + b)[1..] == a[1..] + b;
      KeptInOrder(a[1..], b, boxName);
    }
  }

  datatype Op = Connect(boxId: BoxId, boxName: string, aliases: seq<string>) | Disconnect(boxId: BoxId)

  function Free(m: Ipam, es: Endpoints): Option<nat>
    requires m.prefixLen <= 32
  {
    LowestFree(First(m), Broadcast(m), m.gateway, UsedSet(es))
  }

  lemma FreeIsUsable(m: Ipam, es: Endpoints)
    requires Valid(m)
    ensures var r := Free(m, es);
            && (r.Some? ==> Usable(m, r.value) && r.value < 0x1_0000_0000 && r.value !in UsedSet(es)
                            && forall ip: nat :: Usable(m, ip) && ip < r.value ==> ip in UsedSet(es))
            && (r.None? ==> forall ip: nat :: Usable(m, ip) ==> ip in UsedSet(es))
  {
    LowestFreeIsLowest(First(m), Broadcast(m), m.gateway, UsedSet(es));
    BroadcastIsLast(m);
  }

  ghost function Result(m: Ipam, es: Endpoints, op: Op): ConnectResult
    requires Valid(m) && op.Connect?
  {
    if op.boxId in es then AlreadyConnected
    else match Free(m, es)
      case None => NoAddress
      case Some(ip) =>
        Connected(Endpoint(op.boxId, op.boxName, KeptAliases(op.aliases, op.boxName), ip, MacFromIp(ip)))
  }

  ghost function Next(m: Ipam, es: Endpoints, op: Op): Endpoints
    requires Valid(m)
  {
    match op
    case Connect(id, _, _) =>
      var r := Result(m, es, op);
      if r.Connected? then es[id := r.endpoint] else es
    case Disconnect(id) => es - {id}
  }

  class NetworkConfig {
    const ipam: Ipam
    var endpoints: Endpoints

    ghost predicate Wf()
      reads this
    {
      Valid(ipam)
    }

    constructor (m: Ipam)
      requires Valid(m)
      ensures ipam == m && Wf() && endpoints == map[]
    {
      ipam, endpoints := m, map[];
    }

    /** A network exists for exactly the subnets the address manager accepts. */
    static method Create(network: Ip, prefixLen: nat) returns (r: Option<NetworkConfig>)
      ensures r.Some? <==> 1 <= prefixLen <= 30 && network != ALL_ONES
      ensures r.Some? ==> fresh(r.value) && r.value.Wf() && r.value.endpoints == map[]
      ensures r.Some? ==> r.value.ipam.network == network && r.value.ipam.prefixLen == prefixLen
    {
      var m := New(network, prefixLen);
      if m.None? {
        return None;
      }
      var config := new NetworkConfig(m.value);
      r := Some(config);
    }

    /** The addresses in use, in whatever order the map yields them. */
    method UsedIps() returns (used: seq<nat>)
      ensures Elements(used) == UsedSet(endpoints)
    {
      used := [];
      var rest := endpoints.Keys;
      while rest != {}
        invariant rest <= endpoints.Keys
        invariant forall ip :: ip in used <==> exists id :: id in endpoints && id !in rest && endpoints[id].ip == ip
      {
        var id :| id in rest;
        used, rest := used + [endpoints[id].ip], rest - {id};
      }
    }

    method ConnectWithAliases(boxId: BoxId, boxName: string, aliases: seq<string>) returns (r: ConnectResult)
      requires Wf()
      modifies this
      ensures Wf()
      ensures r == Result(ipam, old(endpoints), Connect(boxId, boxName, aliases))
      ensures endpoints == Next(ipam, old(endpoints), Connect(boxId, boxName, aliases))
      ensures r.AlreadyConnected? <==> boxId in old(endpoints)
      ensures r.Connected? ==> endpoints == old(endpoints)[boxId := r.endpoint]
      ensures r.Connected? ==> r.endpoint.boxId == boxId && r.endpoint.boxName == boxName
      ensures r.Connected? ==> r.endpoint.aliases == KeptAliases(aliases, boxName)
      ensures !r.Connected? ==> endpoints == old(endpoints)
    {
      if boxId in endpoints {
        return AlreadyConnected;
      }
      var used := UsedIps();
      var ip := Allocate(ipam, used);
      if ip.None? {
        return NoAddress;
      }
      var endpoint := Endpoint(boxId, boxName, KeptAliases(aliases, boxName), ip.value, MacFromIp(ip.value));
      endpoints := endpoints[boxId := endpoint];
      r := Connected(endpoint);
    }

    method Disconnect(boxId: BoxId) returns (r: Option<Endpoint>)
      requires Wf()
      modifies this
      ensures Wf()
      ensures r.Some? <==> boxId in old(endpoints)
      ensures r.Some? ==> r.value == old(endpoints)[boxId]
      ensures endpoints == Next(ipam, old(endpoints), Op.Disconnect(boxId))
      ensures endpoints == old(endpoints) - {boxId}
    {
      if boxId in endpoints {
        r := Some(endpoints[boxId]);
        endpoints := endpoints - {boxId};
      } else {
        r := None;
        assert endpoints - {boxId} == endpoints;
      }
    }
  }

  // ---------------------------------------------------------------- every history

  /** The endpoints before and after each operation of a history that starts empty. */
  ghost predicate IsHistory(m: Ipam, states: seq<Endpoints>, ops: seq<Op>)
    requires Valid(m)
  {
    && |states| == |ops| + 1 && states[0] == map[]
    && forall i :: 0 <= i < |ops| ==> states[i + 1] == Next(m, states[i], ops[i])
  }

  ghost predicate Inv(m: Ipam, es: Endpoints)
    requires Valid(m)
  {
    && (forall id :: id in es ==> es[id].boxId == id && Usable(m, es[id].ip) && es[id].mac == MacFromIp(es[id].ip))
    && (forall a, b :: a in es && b in es && a != b ==> es[a].ip != es[b].ip)
  }

  lemma {:induction false} HistoryKeepsInv(m: Ipam, states: seq<Endpoints>, ops: seq<Op>, k: nat)
    requires Valid(m) && IsHistory(m, states, ops) && k < |states|
    ensures Inv(m, states[k])
  {
    if k > 0 {
      HistoryKeepsInv(m, states, ops, k - 1);
      StepKeepsInv(m, states[k - 1], ops[k - 1]);
    }
  }

  lemma StepKeepsInv(m: Ipam, es: Endpoints, op: Op)
    requires Valid(m) && Inv(m, es)
    ensures Inv(m, Next(m, es, op))
  {
    FreeIsUsable(m, es);
    if op.Connect? && Result(m, es, op).Connected? {
      var ip := Free(m, es).value;
      forall id | id in es ensures es[id].ip != ip {
        assert es[id].ip in UsedSet(es);
      }
    }
  }

  /** Over any history of connects and disconnects, connected boxes have pairwise distinct
      addresses and MAC addresses ... */
  lemma AddressesAreDistinct(m: Ipam, states: seq<Endpoints>, ops: seq<Op>, k: nat, a: BoxId, b: BoxId)
    requires Valid(m) && IsHistory(m, states, ops) && k < |states|
    requires a in states[k] && b in states[k] && a != b
    ensures states[k][a].ip != states[k][b].ip && states[k][a].mac != states[k][b].mac
  {
    HistoryKeepsInv(m, states, ops, k);
    BroadcastIsLast(m);
    var es := states[k];
    if es[a].mac == es[b].mac {
      MacInjective(es[a].ip, es[b].ip);
    }
  }

  /** ... and every address lies strictly between gateway and broadcast and has the network's
      prefix, if and only if the subnet leaves room for a first host. */
  lemma AddressesAreInside(m: Ipam, states: seq<Endpoints>, ops: seq<Op>, k: nat, a: BoxId)
    requires Valid(m) && IsHistory(m, states, ops) && k < |states| && a in states[k]
    ensures m.gateway < states[k][a].ip < Broadcast(m) && Prefix(m, states[k][a].ip) == Prefix(m, m.network)
            <==> m.network + 2 < 0x1_0000_0000
  {
    HistoryKeepsInv(m, states, ops, k);
    InsideBlock(m, states[k][a].ip);
  }

  /** Each new address is the lowest that is free. */
  lemma NewAddressIsLowest(m: Ipam, es: Endpoints, op: Op, ip: nat)
    requires Valid(m) && op.Connect? && Result(m, es, op).Connected?
    requires Usable(m, ip) && ip < Result(m, es, op).endpoint.ip
    ensures exists id :: id in es && es[id].ip == ip
  {
    FreeIsUsable(m, es);
    assert ip in UsedSet(es);
  }

  lemma UsedWithout(es: Endpoints, id: BoxId)
    requires id in es && forall a, b :: a in es && b in es && a != b ==> es[a].ip != es[b].ip
    ensures UsedSet(es) == UsedSet(es - {id}) + {es[id].ip}
    ensures es[id].ip !in UsedSet(es - {id})
  {
    forall ip ensures ip in UsedSet(es) <==> ip in UsedSet(es - {id}) || ip == es[id].ip {
      if ip in UsedSet(es) && ip != es[id].ip {
        var a :| a in es && es[a].ip == ip;
        assert a in es - {id};
      }
    }
  }

  /** As many addresses are in use as there are endpoints. */
  lemma {:induction false} OneAddressEach(es: Endpoints)
    requires forall a, b :: a in es && b in es && a != b ==> es[a].ip != es[b].ip
    ensures |UsedSet(es)| == |es|
    decreases |es|
  {
    if es.Keys != {} {
      var id :| id in es;
      var rest := es - {id};
      assert es.Keys == rest.Keys + {id};
      UsedWithout(es, id);
      OneAddressEach(rest);
    } else {
      assert UsedSet(es) == {};
    }
  }

  lemma SubsetOfEqualSize(a: set<nat>, b: set<nat>)
    requires a <= b && |a| == |b|
    ensures a == b
  {
    var extra := b - a;
    assert b == a + extra;
  }

  /** Pigeonhole, both ways: after any history, connecting a new box fails exactly when the
      endpoints number as many as the addresses the search can return ... */
  lemma FullExactlyWhen(m: Ipam, states: seq<Endpoints>, ops: seq<Op>, k: nat, op: Op)
    requires Valid(m) && IsHistory(m, states, ops) && k < |states| && op.Connect? && op.boxId !in states[k]
    ensures Result(m, states[k], op).NoAddress? <==> |states[k]| == |UsableSet(m)|
  {
    HistoryKeepsInv(m, states, ops, k);
    var es := states[k];
    OneAddressEach(es);
    FreeIsUsable(m, es);
    forall ip | ip in UsedSet(es) ensures ip in UsableSet(m) {}
    if Free(m, es).None? {
      forall ip | ip in UsableSet(m) ensures ip in UsedSet(es) {}
      assert UsedSet(es) == UsableSet(m);
    } else if |UsedSet(es)| == |UsableSet(m)| {
      SubsetOfEqualSize(UsedSet(es), UsableSet(m));
    }
  }

  /** ... which is what `capacity` says, for a network address without host bits. */
  lemma FullAtCapacity(m: Ipam, states: seq<Endpoints>, ops: seq<Op>, k: nat, op: Op)
    requires Valid(m) && IsHistory(m, states, ops) && k < |states| && op.Connect? && op.boxId !in states[k]
    requires HostBits(m, m.network) == 0
    ensures Result(m, states[k], op).NoAddress? <==> |states[k]| == Capacity(m)
  {
    FullExactlyWhen(m, states, ops, k, op);
    CapacityIsExact(m);
  }

  /** A step changes nothing but the box it names: a connected box has the endpoint that was
      returned, a refused one changes nothing, and a disconnected one is gone. */
  lemma StepEffect(m: Ipam, es: Endpoints, op: Op)
    requires Valid(m)
    ensures var after := Next(m, es, op);
            && (forall id :: id != op.boxId ==> (id in after <==> id in es) && (id in es ==> after[id] == es[id]))
            && (op.Disconnect? ==> op.boxId !in after)
            && (op.Connect? ==>
                  if Result(m, es, op).Connected? then
                    && op.boxId in after && after[op.boxId] == Result(m, es, op).endpoint
                    && after[op.boxId].boxId == op.boxId && after[op.boxId].boxName == op.boxName
                  else after == es)
  {}

  /** After a disconnect there is room: any box can be connected. */
  lemma RoomAfterDisconnect(m: Ipam, states: seq<Endpoints>, ops: seq<Op>, k: nat, op: Op)
    requires Valid(m) && IsHistory(m, states, ops) && k < |ops| && ops[k].Disconnect? && ops[k].boxId in states[k]
    requires op.Connect? && op.boxId !in states[k + 1]
    ensures Result(m, states[k + 1], op).Connected?
  {
    FullExactlyWhen(m, states, ops, k + 1, op);
    AtMostUsable(m, states, ops, k);
    assert states[k].Keys == states[k + 1].Keys + {ops[k].boxId};
  }

  lemma AtMostUsable(m: Ipam, states: seq<Endpoints>, ops: seq<Op>, k: nat)
    requires Valid(m) && IsHistory(m, states, ops) && k < |states|
    ensures |states[k]| <= |UsableSet(m)|
  {
    HistoryKeepsInv(m, states, ops, k);
    OneAddressEach(states[k]);
    forall ip | ip in UsedSet(states[k]) ensures ip in UsableSet(m) {}
    SubsetIsSmaller(UsedSet(states[k]), UsableSet(m));
  }

  lemma SubsetIsSmaller(a: set<nat>, b: set<nat>)
    requires a <= b
    ensures |a| <= |b|
  {
    assert b == a + (b - a);
  }
}
