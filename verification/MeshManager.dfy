/** The mesh manager as an object: node records, radio registries and event streams change message by
    message, and every method does what the protocol on values says. */
module MeshManager {
  import opened Basics
  import opened Vehicles
  import opened RiskPrioritizer
  import opened MeshProtocol

  /** The pairwise loop over the peers. */
  method EvaluatePeers(evaluate: Evaluator, ego: VehicleState, peers: seq<VehicleState>) returns (risks: seq<RiskEvent>)
    ensures risks == EvaluateAll(evaluate, ego, peers)
  {
    risks := [];
    for i := 0 to |peers|
      invariant risks == EvaluateAll(evaluate, ego, peers[..i])
    {
      assert peers[..i + 1][..i] == peers[..i];
      var risk := evaluate(ego, peers[i]);
      if risk.Some? {
        risks := risks + [risk.value];
      }
    }
    assert peers[..|peers|] == peers;
  }

  /** Evaluation and prioritization in sequence. */
  method Assess(brain: Brain, ego: VehicleState, peers: seq<VehicleState>) returns (active: Option<RiskEvent>)
    ensures active == Assessed(brain, ego, peers)
  {
    var risks := EvaluatePeers(brain.evaluate, ego, peers);
    active := Prioritize(brain.policy, risks);
  }

  /** `_evaluate_risks`: the refreshed view and, when the conflict is new, its activation. */
  method EvaluateRisks(v: LocalView) returns (r: LocalView, activated: Option<RiskEvent>)
    ensures r == Reassessed(v) && activated == Activation(v)
  {
    if v.state.None? {
      return v, None;
    }
    var active := Assess(v.brain, v.state.value, v.peers.Values());
    var signature := SignatureOf(active);
    activated := if active.Some? && signature != v.signature then active else None;
    r := v.(active := active, signature := signature);
  }

  function WithoutPeer(v: NodeView, id: Id): NodeView {
    v.(local := Forgotten(v.local, id))
  }

  class EdgeV2XManager {
    const metric: Metric
    const range: real
    var internet: bool
    var nodes: Dict<Id, NodeView>
    /** For each transport, the registered peer transports in registration order. */
    var registry: map<Id, seq<Id>>
    var messages: seq<Message>
    var risks: seq<(Id, RiskEvent)>

    ghost function Snap(): Net
      reads this
    {
      Net(metric, range, internet, nodes, messages, risks)
    }

    /** Every transport has every other transport registered. */
    ghost predicate Connected()
      reads this
    {
      registry.Keys == nodes.at.Keys && forall i :: i in registry ==> registry[i] == Without(nodes.keys, i)
    }

    ghost predicate Valid()
      reads this
    {
      nodes.Ok() && Connected()
    }

    constructor (metric: Metric, range: real)
      ensures Valid() && Snap() == EmptyNet(metric, range)
    {
      this.metric, this.range := metric, range;
      internet, nodes, registry, messages, risks := true, EmptyDict(), map[], [], [];
    }

    predicate IsInRange(i: Id, j: Id)
      requires i in nodes.at && j in nodes.at
      reads this
    {
      var si, sj := nodes.at[i].local.state, nodes.at[j].local.state;
      si.Some? && sj.Some? && metric(si.value.position, sj.value.position) <= range
    }

    method NearbyNodes(i: Id) returns (near: seq<Id>)
      requires Connected() && i in nodes.at
      ensures near == Nearby(Snap(), i)
    {
      near := [];
      var peers := registry[i];
      ghost var keep := set j | j in nodes.at && InRange(Snap(), i, j);
      for k := 0 to |peers|
        invariant near == Only(peers[..k], keep)
      {
        OnlySnoc(peers, keep, k);
        if peers[k] in nodes.at && IsInRange(i, peers[k]) {
          near := near + [peers[k]];
        }
      }
      assert peers[..|peers|] == peers;
      assert near == Only(Without(nodes.keys, i), set j | j in Snap().nodes.at && InRange(Snap(), i, j));
    }

    // -------------------------------------------------------------- messages

    method CountSend(i: Id)
      requires i in nodes.at
      modifies this`nodes
      ensures Snap() == Sent(old(Snap()), i)
    {
      var v := nodes.at[i];
      nodes := nodes.(at := nodes.at[i := v.(counters := v.counters.(sent := v.counters.sent + 1))]);
    }

    method CountDelivery(i: Id)
      requires i in nodes.at
      modifies this`nodes
      ensures Snap() == Delivered(old(Snap()), i)
    {
      var v := nodes.at[i];
      nodes := nodes.(at := nodes.at[i := v.(counters := v.counters.(delivered := v.counters.delivered + 1))]);
    }

    method CountReceived(i: Id)
      requires i in nodes.at
      modifies this`nodes
      ensures Snap() == Received(old(Snap()), i)
    {
      var v := nodes.at[i];
      nodes := nodes.(at := nodes.at[i := v.(counters := v.counters.(received := v.counters.received + 1))]);
    }

    method TouchCloud(i: Id, now: int)
      requires i in nodes.at
      modifies this`nodes
      ensures Snap() == Contacted(old(Snap()), i, now)
    {
      var v := nodes.at[i];
      nodes := nodes.(at := nodes.at[i := v.(cloud := v.cloud.(lastContact := Some(now)))]);
    }

    method SetLocal(i: Id, local: LocalView)
      requires i in nodes.at
      modifies this`nodes
      ensures Snap() == WithLocal(old(Snap()), i, local)
    {
      nodes := nodes.(at := nodes.at[i := nodes.at[i].(local := local)]);
    }

    method EmitRisk(i: Id, risk: RiskEvent)
      modifies this`risks
      ensures Snap() == Emit(old(Snap()), i, risk)
    {
      risks := risks + [(i, risk)];
    }

    /** The receive handler of node `j`. */
    method OnMessage(j: Id, m: Message, now: int)
      requires Connected() && j in nodes.at
      modifies this`nodes, this`messages, this`risks
      ensures Connected() && nodes.keys == old(nodes.keys)
      ensures Snap() == Handle(old(Snap()), j, m, now)
      decreases Rank(m), 0
    {
      CountReceived(j);
      if m.StateUpdated? {
        var near := NearbyNodes(j);
        if m.state.actorId in near {
          var seen := Learned(nodes.at[j].local, m.state);
          var local, activated := EvaluateRisks(seen);
          SetLocal(j, local);
          if activated.Some? {
            var delivered := SendRisk(j, activated.value, now);
            EmitRisk(j, activated.value);
          }
        }
      }
    }

    /** Hands the message to one registered peer if it is in range. */
    method DeliverTo(i: Id, target: Id, m: Message, now: int) returns (heard: bool)
      requires Connected() && i in nodes.at
      modifies this`nodes, this`messages, this`risks
      ensures Connected() && nodes.keys == old(nodes.keys) && i in nodes.at
      ensures heard == (target in old(nodes.at) && InRange(old(Snap()), i, target))
      ensures Snap() == if heard then Delivered(Handle(old(Snap()), target, m, now), i) else old(Snap())
      decreases Rank(m), 1
    {
      heard := target in nodes.at && IsInRange(i, target);
      if heard {
        OnMessage(target, m, now);
        CountDelivery(i);
      }
    }

    /** The delivery loop. */
    method DeliverAll(i: Id, m: Message, targets: seq<Id>, now: int) returns (delivered: bool)
      requires Connected() && i in nodes.at
      modifies this`nodes, this`messages, this`risks
      ensures Connected() && nodes.keys == old(nodes.keys) && i in nodes.at
      ensures Snap() == Deliver(old(Snap()), i, m, targets, now)
      ensures delivered == SomeInRange(old(Snap()), i, targets)
      decreases Rank(m), 2
    {
      delivered := false;
      ghost var start := Snap();
      for k := 0 to |targets|
        invariant Connected() && i in nodes.at && nodes.keys == start.nodes.keys
        invariant delivered == SomeInRange(start, i, targets[..k])
        invariant !delivered ==> Snap() == start
        invariant Deliver(start, i, m, targets, now) == Deliver(Snap(), i, m, targets[k..], now)
      {
        DeliverStep(Snap(), i, m, targets, k, now);
        SomeInRangeSnoc(start, i, targets, k);
        var heard := DeliverTo(i, targets[k], m, now);
        delivered := delivered || heard;
      }
      assert targets[..|targets|] == targets;
    }

    /** One transmission: each registered peer in range handles the message in turn. */
    method Send(i: Id, m: Message, online: bool, now: int) returns (delivered: bool)
      requires Connected() && i in nodes.at
      modifies this`nodes, this`messages, this`risks
      ensures Connected() && nodes.keys == old(nodes.keys)
      ensures Snap() == MeshProtocol.Send(old(Snap()), i, m, online, now).0
      ensures delivered == MeshProtocol.Send(old(Snap()), i, m, online, now).1
      decreases Rank(m), 3
    {
      SendUnfolds(Snap(), i, m, online, now);
      CountSend(i);
      delivered := DeliverAll(i, m, registry[i], now);
      if online {
        TouchCloud(i, now);
      }
    }

    /** `broadcast_risk`: always over the direct radio, published when someone received it. */
    method SendRisk(i: Id, risk: RiskEvent, now: int) returns (delivered: bool)
      requires Connected() && i in nodes.at
      modifies this`nodes, this`messages, this`risks
      ensures Connected() && nodes.keys == old(nodes.keys)
      ensures Snap() == BroadcastRisk(old(Snap()), i, risk, now)
      ensures delivered == (old(nodes.at[i].local.state).Some? && MeshProtocol.Nearby(old(Snap()), i) != [])
      decreases 0, 4
    {
      if nodes.at[i].local.state.None? {
        return false;
      }
      var m := RiskDetected(i, risk, nodes.at[i].local.state.value.position);
      delivered := Send(i, m, nodes.at[i].cloud.internet, now);
      if delivered {
        messages := messages + [m];
      }
    }

    method SendState(i: Id, now: int) returns (delivered: bool)
      requires Connected() && i in nodes.at
      modifies this`nodes, this`messages, this`risks
      ensures Connected() && nodes.keys == old(nodes.keys)
      ensures Snap() == BroadcastState(old(Snap()), i, now)
      ensures delivered == (old(nodes.at[i].local.state).Some? && MeshProtocol.Nearby(old(Snap()), i) != [])
    {
      if nodes.at[i].local.state.None? {
        return false;
      }
      var m := StateUpdated(i, nodes.at[i].local.state.value);
      delivered := Send(i, m, nodes.at[i].cloud.internet, now);
      if delivered {
        messages := messages + [m];
      }
    }

    // -------------------------------------------------------------- manager operations

    /** Discards out-of-range peer observations and refreshes the local risk state. */
    method RefreshDirectPeers(i: Id, onlyIfChanged: bool) returns (activated: Option<RiskEvent>)
      requires Connected() && i in nodes.at
      modifies this`nodes
      ensures Connected() && nodes.keys == old(nodes.keys)
      ensures Snap() == RefreshPeers(old(Snap()), i, onlyIfChanged)
      ensures activated == if onlyIfChanged && AllNear(old(Snap()), i) then None
        else Activation(Narrowed(old(Snap()), i))
    {
      var near := NearbyNodes(i);
      var v := nodes.at[i].local;
      if onlyIfChanged && (forall j | j in v.peers.at :: j in near) {
        return None;
      }
      var local;
      local, activated := EvaluateRisks(v.(peers := v.peers.Keep(set j | j in near)));
      SetLocal(i, local);
    }

    method RegisterPeer(i: Id, peer: Id)
      requires i in registry && peer !in registry[i]
      modifies this`registry
      ensures registry == old(registry)[i := old(registry)[i] + [peer]]
    {
      registry := registry[i := registry[i] + [peer]];
    }

    method UnregisterPeer(i: Id, peer: Id)
      requires i in registry
      modifies this`registry
      ensures registry == old(registry)[i := Without(old(registry)[i], peer)]
    {
      registry := registry[i := Without(registry[i], peer)];
    }

    /** Connects the new transport with every existing one, both ways. */
    method ConnectEverywhere(id: Id, ids: seq<Id>)
      requires id !in ids && Distinct(ids) && forall i :: i in ids ==> i in registry && id !in registry[i]
      modifies this`registry
      ensures registry.Keys == old(registry).Keys + {id} && registry[id] == ids
      ensures forall i :: i in ids ==> registry[i] == old(registry)[i] + [id]
    {
      ghost var before := registry;
      registry := registry[id := []];
      for k := 0 to |ids|
        invariant registry.Keys == before.Keys + {id} && registry[id] == ids[..k]
        invariant forall i :: i in ids ==> registry[i] == if i in ids[..k] then before[i] + [id] else before[i]
      {
        var existing := ids[k];
        assert existing in ids && existing !in ids[..k] && existing != id;
        RegisterPeer(id, existing);
        RegisterPeer(existing, id);
        assert ids[..k + 1] == ids[..k] + [existing];
      }
      assert ids[..|ids|] == ids;
    }

    /** Both callers check that the id is unknown. */
    method CreateNode(id: Id, brain: Brain, now: int)
      requires Valid() && id !in nodes.at
      modifies this`nodes, this`registry
      ensures Valid() && Snap() == MeshProtocol.CreateNode(old(Snap()), id, brain, now)
    {
      nodes.PutOk(id, NewNode(brain, internet, now));
      var ids := nodes.keys;
      ghost var wires := registry;
      forall i | i in ids
        ensures id !in registry[i]
      {
        WithoutMembers(ids, i);
      }
      ConnectEverywhere(id, ids);
      nodes := nodes.Put(id, NewNode(brain, internet, now));
      CreatedWires(ids, wires, registry, id);
    }

    /** Unregisters the node everywhere; its former neighbours forget it and reassess. */
    method RemoveNode(id: Id)
      requires Valid()
      modifies this`nodes, this`registry
      ensures Valid() && Snap() == MeshProtocol.RemoveNode(old(Snap()), id)
    {
      if id !in nodes.at {
        return;
      }
      ghost var net, before, wires := Snap(), nodes, registry;
      WithoutMembers(nodes.keys, id);
      var ids := Without(nodes.keys, id);
      nodes := nodes.Drop(id);
      registry := registry - {id};
      ForgetEverywhere(id, ids);
      RemovedWires(before.keys, wires, registry, id, ids);
      RemovedIs(net, Snap(), id, ids);
    }

    method ForgetEverywhere(id: Id, ids: seq<Id>)
      requires Distinct(ids) && forall i :: i in ids ==> i in nodes.at && i in registry
      modifies this`nodes, this`registry
      ensures nodes.keys == old(nodes.keys) && nodes.at.Keys == old(nodes.at).Keys
        && registry.Keys == old(registry).Keys
      ensures forall i :: i in ids ==> registry[i] == Without(old(registry)[i], id)
      ensures forall i :: i in ids ==> nodes.at[i] == WithoutPeer(old(nodes.at)[i], id)
    {
      ghost var before, wires := nodes, registry;
      for k := 0 to |ids|
        invariant nodes.keys == before.keys && nodes.at.Keys == before.at.Keys && registry.Keys == wires.Keys
        invariant forall x :: 0 <= x < k ==> registry[ids[x]] == Without(wires[ids[x]], id)
        invariant forall x :: k <= x < |ids| ==> registry[ids[x]] == wires[ids[x]]
        invariant forall x :: 0 <= x < k ==>
          nodes.at[ids[x]] == WithoutPeer(before.at[ids[x]], id)
        invariant forall x :: k <= x < |ids| ==> nodes.at[ids[x]] == before.at[ids[x]]
      {
        ForgetAt(ids[k], id);
      }
    }

    method ForgetAt(i: Id, id: Id)
      requires i in nodes.at && i in registry
      modifies this`nodes, this`registry
      ensures registry == old(registry)[i := Without(old(registry)[i], id)] && nodes.keys == old(nodes.keys)
      ensures nodes.at == old(nodes.at)[i := WithoutPeer(old(nodes.at)[i], id)]
    {
      UnregisterPeer(i, id);
      RemovePeer(i, id);
    }

    /** `remove_peer`: forgets the peer and reassesses. */
    method RemovePeer(i: Id, peer: Id)
      requires i in nodes.at
      modifies this`nodes
      ensures nodes.keys == old(nodes.keys)
      ensures nodes.at == old(nodes.at)[i := WithoutPeer(old(nodes.at)[i], peer)]
    {
      var v := nodes.at[i].local;
      var local, activated := EvaluateRisks(v.(peers := v.peers.Drop(peer)));
      SetLocal(i, local);
    }

    /** The moved node can leave the others' range: all of them prune. */
    method RefreshOtherNodes(id: Id)
      requires Connected()
      modifies this`nodes
      ensures Connected() && nodes.keys == old(nodes.keys)
      ensures Snap() == RefreshOthers(old(Snap()), id, old(nodes.keys))
    {
      var ids := nodes.keys;
      ghost var start := Snap();
      for k := 0 to |ids|
        invariant Connected() && nodes.keys == ids
        invariant RefreshOthers(start, id, ids) == RefreshOthers(Snap(), id, ids[k..])
      {
        assert ids[k..] == [ids[k]] + ids[k + 1..];
        if ids[k] in nodes.at && ids[k] != id {
          var activated := RefreshDirectPeers(ids[k], true);
        }
      }
    }

    /** Discovery replies of the entering nodes, in whatever order the set is iterated. */
    method AnswerDiscovery(entering: set<Id>, now: int) returns (ghost order: seq<Id>)
      requires Connected()
      modifies this`nodes, this`messages, this`risks
      ensures Connected() && nodes.keys == old(nodes.keys)
      ensures Enumerates(order, entering) && Snap() == Handshake(old(Snap()), order, now)
    {
      var rest := entering;
      order := [];
      ghost var start := Snap();
      while rest != {}
        invariant Connected() && nodes.keys == start.nodes.keys
        invariant Enumerates(order, entering - rest) && rest <= entering
        invariant Snap() == Handshake(start, order, now)
      {
        var p :| p in rest;
        ghost var before := Snap();
        if p in nodes.at {
          var delivered := SendState(p, now);
        }
        HandshakeSnoc(start, order, p, now);
        order := order + [p];
        rest := rest - {p};
      }
    }

    /** The move and all pruning; the activation is that of the moved node's own refresh. */
    method MoveNode(state: VehicleState) returns (activation: Option<RiskEvent>)
      requires Connected() && state.actorId in nodes.at
      modifies this`nodes
      ensures Connected() && nodes.keys == old(nodes.keys)
      ensures Snap() == Pruned(old(Snap()), state)
      ensures activation == Activation(Narrowed(Moved(old(Snap()), state), state.actorId))
    {
      var id := state.actorId;
      SetLocal(id, nodes.at[id].local.(state := Some(state)));
      activation := RefreshDirectPeers(id, false);
      RefreshOtherNodes(id);
    }

    /** State broadcast, and the broadcast of a new risk. */
    method Announce(id: Id, activation: Option<RiskEvent>, now: int)
      requires Connected() && id in nodes.at
      modifies this`nodes, this`messages, this`risks
      ensures Connected() && nodes.keys == old(nodes.keys)
      ensures Snap() == Announced(old(Snap()), id, activation, now)
    {
      var told := SendState(id, now);
      if activation.Some? {
        var delivered := SendRisk(id, activation.value, now);
        EmitRisk(id, activation.value);
      }
    }

    /** The move, then the handshake with the nodes whose range is entered, then the announcement. */
    method UpdateExisting(state: VehicleState, now: int) returns (ghost order: seq<Id>)
      requires Connected() && state.actorId in nodes.at
      modifies this`nodes, this`messages, this`risks
      ensures Connected() && nodes.keys == old(nodes.keys)
      ensures Enumerates(order, Entering(old(Snap()), state)) && Snap() == UpdateKnown(old(Snap()), state, order, now)
    {
      var previous := NearbyNodes(state.actorId);
      var activation := MoveNode(state);
      var current := NearbyNodes(state.actorId);
      order := AnswerDiscovery((set j | j in current && j !in previous), now);
      Announce(state.actorId, activation, now);
    }

    /** `update_actor_state`: the entry point of the simulation loop. */
    method UpdateActorState(state: VehicleState, defaultBrain: Brain, now: int)
      returns (active: Option<RiskEvent>, ghost order: seq<Id>)
      requires Valid()
      modifies this`nodes, this`registry, this`messages, this`risks
      ensures Valid()
      ensures Legal(old(Snap()), Update(state, defaultBrain, order), now)
      ensures Snap() == Step(old(Snap()), Update(state, defaultBrain, order), now)
      ensures state.actorId in nodes.at && active == nodes.at[state.actorId].local.active
    {
      EnsureKnown(state.actorId, defaultBrain, now);
      order := UpdateExisting(state, now);
      active := nodes.at[state.actorId].local.active;
    }

    method EnsureKnown(id: Id, brain: Brain, now: int)
      requires Valid()
      modifies this`nodes, this`registry
      ensures Valid() && Snap() == Known(old(Snap()), id, brain, now)
    {
      if id !in nodes.at {
        CreateNode(id, brain, now);
      }
    }

    method SwitchEverywhere(ids: seq<Id>, available: bool, now: int)
      requires Distinct(ids) && forall i :: i in ids ==> i in nodes.at
      modifies this`nodes
      ensures nodes.keys == old(nodes.keys) && nodes.at.Keys == old(nodes.at).Keys
      ensures forall i :: i in ids ==>
                nodes.at[i] == old(nodes.at)[i].(cloud := SwitchCloud(old(nodes.at)[i].cloud, available, now))
    {
      ghost var before := nodes;
      for k := 0 to |ids|
        invariant nodes.keys == before.keys && nodes.at.Keys == before.at.Keys
        invariant forall i :: i in ids ==>
          nodes.at[i] == if i in ids[..k]
              then before.at[i].(cloud := SwitchCloud(before.at[i].cloud, available, now)) else before.at[i]
      {
        var i := ids[k];
        assert i in ids && i !in ids[..k];
        var v := nodes.at[i];
        nodes := nodes.(at := nodes.at[i := v.(cloud := SwitchCloud(v.cloud, available, now))]);
        assert ids[..k + 1] == ids[..k] + [i];
      }
      assert ids[..|ids|] == ids;
    }

    /** Toggles the internet for the manager and every node. */
    method SetInternet(available: bool, now: int)
      requires Valid()
      modifies this`internet, this`nodes
      ensures Valid() && Snap() == MeshProtocol.SetInternet(old(Snap()), available, now)
    {
      ghost var net := Snap();
      internet := available;
      SwitchEverywhere(nodes.keys, available, now);
      SwitchedIs(net, Snap(), available, now);
    }
  }

  lemma SwitchedIs(net: Net, r: Net, available: bool, now: int)
    requires r == net.(internet := available, nodes := r.nodes) && r.nodes.keys == net.nodes.keys
    requires r.nodes.at.Keys == net.nodes.at.Keys
    requires forall i :: i in net.nodes.at ==>
               r.nodes.at[i] == net.nodes.at[i].(cloud := SwitchCloud(net.nodes.at[i].cloud, available, now))
    ensures r == SetInternet(net, available, now)
  {
    assert r.nodes.at == map i | i in net.nodes.at ::
        net.nodes.at[i].(cloud := SwitchCloud(net.nodes.at[i].cloud, available, now));
  }

  lemma RemovedIs(net: Net, r: Net, id: Id, ids: seq<Id>)
    requires r == net.(nodes := r.nodes) && id in net.nodes.at && r.nodes.keys == ids == Without(net.nodes.keys, id)
    requires r.nodes.at.Keys == net.nodes.at.Keys - {id} && forall i :: i in ids <==> i in net.nodes.at && i != id
    requires forall i :: i in ids ==> r.nodes.at[i] == WithoutPeer(net.nodes.at[i], id)
    ensures r == RemoveNode(net, id)
  {
    assert r.nodes.at == map i | i in net.nodes.at && i != id ::
        net.nodes.at[i].(local := Forgotten(net.nodes.at[i].local, id));
  }

  lemma CreatedWires(ids: seq<Id>, before: map<Id, seq<Id>>, after: map<Id, seq<Id>>, id: Id)
    requires id !in ids && id in after && after[id] == ids
    requires forall i :: i in after ==> i == id || (i in ids && i in before)
    requires forall i :: i in ids ==>
        i in after && i in before && before[i] == Without(ids, i) && after[i] == before[i] + [id]
    ensures forall i :: i in after ==> after[i] == Without(ids + [id], i)
  {
    forall i | i in after
      ensures after[i] == Without(ids + [id], i)
    {
      WithoutAppend(ids, id, i);
    }
  }

  lemma RemovedWires(keys: seq<Id>, before: map<Id, seq<Id>>, after: map<Id, seq<Id>>, id: Id, ids: seq<Id>)
    requires ids == Without(keys, id) && forall i :: i in after ==>
        i in ids && i in before && before[i] == Without(keys, i)
    requires forall i :: i in ids ==> i in after && i in before && after[i] == Without(before[i], id)
    ensures forall i :: i in after ==> after[i] == Without(ids, i)
  {
    forall i | i in after
      ensures after[i] == Without(ids, i)
    {
      WithoutCommutes(keys, id, i);
    }
  }

  lemma {:induction false} HandshakeSnoc(net: Net, order: seq<Id>, p: Id, now: int)
    ensures
      var r := Handshake(net, order, now);
      Handshake(net, order + [p], now) == if p in r.nodes.at then BroadcastState(r, p, now) else r
    decreases |order|
  {
    if order == [] {
      assert [p][1..] == [];
    } else {
      assert (order + [p])[1..] == order[1..] + [p];
      HandshakeSnoc(if order[0] in net.nodes.at then BroadcastState(net, order[0], now) else net, order[1..], p, now);
    }
  }

  lemma {:induction false} WithoutAppend(s: seq<Id>, id: Id, x: Id)
    requires id !in s
    ensures Without(s + [id], x) == if x == id then s else Without(s, x) + [id]
  {
    if s == [] {
      assert [id][1..] == [];
    } else {
      assert (s + [id])[1..] == s[1..] + [id];
      WithoutAppend(s[1..], id, x);
      if x == id {
        assert s == [s[0]] + s[1..];
      }
    }
  }

  lemma {:induction false} WithoutCommutes(s: seq<Id>, a: Id, b: Id)
    ensures Without(Without(s, a), b) == Without(Without(s, b), a)
  {
    if s != [] {
      WithoutCommutes(s[1..], a, b);
    }
  }
}
