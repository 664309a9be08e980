/** The internet switch never affects local safety: two runs that differ only in `set_internet` calls
    reach the same views, the same active risks, the same counters and the same event streams. */
module MeshInternet {
  import opened Basics
  import opened Vehicles
  import opened RiskPrioritizer
  import opened MeshProtocol

  /** Equal up to the cloud side of the network: the switch, each node's connectivity and last contact. */
  ghost predicate Alike(a: Net, b: Net) {
    && a.metric == b.metric && a.range == b.range
    && a.nodes.keys == b.nodes.keys && a.nodes.at.Keys == b.nodes.at.Keys
    && a.messages == b.messages && a.risks == b.risks
    && forall i :: i in a.nodes.at ==>
        a.nodes.at[i].local == b.nodes.at[i].local && a.nodes.at[i].counters == b.nodes.at[i].counters
  }

  lemma NearbyAlike(a: Net, b: Net, i: Id)
    requires Alike(a, b) && i in a.nodes.at
    ensures Nearby(a, i) == Nearby(b, i)
  {
    assert (set j | j in a.nodes.at && InRange(a, i, j)) == (set j | j in b.nodes.at && InRange(b, i, j));
  }

  lemma WithLocalAlike(a: Net, b: Net, i: Id, local: LocalView)
    requires Alike(a, b) && i in a.nodes.at
    ensures Alike(WithLocal(a, i, local), WithLocal(b, i, local))
  {
  }

  lemma DeliveredAlike(a: Net, b: Net, i: Id)
    requires Alike(a, b) && i in a.nodes.at
    ensures Alike(Delivered(a, i), Delivered(b, i))
  {
  }

  lemma ContactedAlike(a: Net, i: Id, now: int)
    requires i in a.nodes.at
    ensures Alike(a, Contacted(a, i, now))
  {
  }

  lemma AlikeChain(a: Net, b: Net, c: Net)
    requires Alike(a, b) && Alike(b, c)
    ensures Alike(a, c) && Alike(b, a)
  {
  }

  // ---------------------------------------------------------------- messages

  lemma {:induction false} SendAlike(a: Net, b: Net, i: Id, m: Message, onlineA: bool, onlineB: bool, now: int)
    requires Alike(a, b) && i in a.nodes.at
    ensures Alike(Send(a, i, m, onlineA, now).0, Send(b, i, m, onlineB, now).0)
    ensures Send(a, i, m, onlineA, now).1 == Send(b, i, m, onlineB, now).1
    decreases Rank(m), 2, 0
  {
    var targets := Without(a.nodes.keys, i);
    DeliverAlike(Sent(a, i), Sent(b, i), i, m, targets, now);
    NearbyAlike(a, b, i);
    var da := Deliver(Sent(a, i), i, m, targets, now);
    var db := Deliver(Sent(b, i), i, m, targets, now);
    ContactedAlike(da, i, now);
    ContactedAlike(db, i, now);
    var ra := if onlineA then Contacted(da, i, now) else da;
    var rb := if onlineB then Contacted(db, i, now) else db;
    AlikeChain(da, ra, ra);
    AlikeChain(ra, da, db);
    AlikeChain(ra, db, rb);
  }

  /** One target of a delivery. */
  function Handed(net: Net, i: Id, m: Message, t: Id, now: int): (r: Net)
    requires i in net.nodes.at
    ensures r.nodes.at.Keys == net.nodes.at.Keys
  {
    if t in net.nodes.at && InRange(net, i, t) then Delivered(Handle(net, t, m, now), i) else net
  }

  lemma RangeAlike(a: Net, b: Net, i: Id, t: Id)
    requires Alike(a, b) && i in a.nodes.at && t in a.nodes.at
    ensures InRange(a, i, t) == InRange(b, i, t)
  {
  }

  lemma {:induction false} HandedAlike(a: Net, b: Net, i: Id, m: Message, t: Id, now: int)
    requires Alike(a, b) && i in a.nodes.at
    ensures Alike(Handed(a, i, m, t, now), Handed(b, i, m, t, now))
    decreases Rank(m), 0, 1
  {
    if t in a.nodes.at {
      var ha, hb := Handle(a, t, m, now), Handle(b, t, m, now);
      HandleAlike(a, b, t, m, now);
      DeliveredAlike(ha, hb, i);
      RangeAlike(a, b, i, t);
      HandedIs(a, i, m, t, now, ha);
      HandedIs(b, i, m, t, now, hb);
    }
  }

  lemma HandedIs(net: Net, i: Id, m: Message, t: Id, now: int, handled: Net)
    requires i in net.nodes.at && t in net.nodes.at && handled == Handle(net, t, m, now)
    ensures Handed(net, i, m, t, now) == if InRange(net, i, t) then Delivered(handled, i) else net
  {
  }

  lemma DeliverHands(net: Net, i: Id, m: Message, targets: seq<Id>, now: int)
    requires i in net.nodes.at && targets != []
    ensures Deliver(net, i, m, targets, now) == Deliver(Handed(net, i, m, targets[0], now), i, m, targets[1..], now)
  {
  }

  lemma {:induction false} DeliverAlike(a: Net, b: Net, i: Id, m: Message, targets: seq<Id>, now: int)
    requires Alike(a, b) && i in a.nodes.at
    ensures Alike(Deliver(a, i, m, targets, now), Deliver(b, i, m, targets, now))
    decreases Rank(m), 1, |targets|
  {
    if targets != [] {
      HandedAlike(a, b, i, m, targets[0], now);
      DeliverHands(a, i, m, targets, now);
      DeliverHands(b, i, m, targets, now);
      DeliverAlike(Handed(a, i, m, targets[0], now), Handed(b, i, m, targets[0], now), i, m, targets[1..], now);
    }
  }

  lemma {:induction false} HandleAlike(a: Net, b: Net, j: Id, m: Message, now: int)
    requires Alike(a, b) && j in a.nodes.at
    ensures Alike(Handle(a, j, m, now), Handle(b, j, m, now))
    decreases Rank(m), 0, 0
  {
    var ca, cb := Received(a, j), Received(b, j);
    NearbyAlike(ca, cb, j);
    if m.StateUpdated? && m.state.actorId in Nearby(ca, j) {
      var seen := Learned(ca.nodes.at[j].local, m.state);
      WithLocalAlike(ca, cb, j, Reassessed(seen));
      if Activation(seen).Some? {
        BroadcastRiskAlike(WithLocal(ca, j, Reassessed(seen)), WithLocal(cb, j, Reassessed(seen)), j,
                           Activation(seen).value, now);
      }
    }
  }

  lemma {:induction false} BroadcastRiskAlike(a: Net, b: Net, i: Id, risk: RiskEvent, now: int)
    requires Alike(a, b) && i in a.nodes.at
    ensures Alike(BroadcastRisk(a, i, risk, now), BroadcastRisk(b, i, risk, now))
    decreases 0, 3, 0
  {
    if StateOf(a, i).Some? {
      var m := RiskDetected(i, risk, StateOf(a, i).value.position);
      SendAlike(a, b, i, m, a.nodes.at[i].cloud.internet, b.nodes.at[i].cloud.internet, now);
    }
  }

  lemma BroadcastStateAlike(a: Net, b: Net, i: Id, now: int)
    requires Alike(a, b) && i in a.nodes.at
    ensures Alike(BroadcastState(a, i, now), BroadcastState(b, i, now))
  {
    if StateOf(a, i).Some? {
      SendAlike(a, b, i, StateUpdated(i, StateOf(a, i).value), a.nodes.at[i].cloud.internet,
                b.nodes.at[i].cloud.internet, now);
    }
  }

  // ---------------------------------------------------------------- manager operations

  lemma RefreshPeersAlike(a: Net, b: Net, i: Id, onlyIfChanged: bool)
    requires Alike(a, b) && i in a.nodes.at
    ensures Alike(RefreshPeers(a, i, onlyIfChanged), RefreshPeers(b, i, onlyIfChanged))
  {
    NearbyAlike(a, b, i);
    assert Narrowed(a, i) == Narrowed(b, i);
    WithLocalAlike(a, b, i, Reassessed(Narrowed(a, i)));
  }

  lemma {:induction false} RefreshOthersAlike(a: Net, b: Net, id: Id, ids: seq<Id>)
    requires Alike(a, b)
    ensures Alike(RefreshOthers(a, id, ids), RefreshOthers(b, id, ids))
    decreases |ids|
  {
    if ids != [] {
      if ids[0] in a.nodes.at && ids[0] != id {
        RefreshPeersAlike(a, b, ids[0], true);
        RefreshOthersAlike(RefreshPeers(a, ids[0], true), RefreshPeers(b, ids[0], true), id, ids[1..]);
      } else {
        RefreshOthersAlike(a, b, id, ids[1..]);
      }
    }
  }

  lemma {:induction false} HandshakeAlike(a: Net, b: Net, entering: seq<Id>, now: int)
    requires Alike(a, b)
    ensures Alike(Handshake(a, entering, now), Handshake(b, entering, now))
    decreases |entering|
  {
    if entering != [] {
      if entering[0] in a.nodes.at {
        BroadcastStateAlike(a, b, entering[0], now);
        HandshakeAlike(BroadcastState(a, entering[0], now), BroadcastState(b, entering[0], now), entering[1..], now);
      } else {
        HandshakeAlike(a, b, entering[1..], now);
      }
    }
  }

  lemma PrunedAlike(a: Net, b: Net, state: VehicleState)
    requires Alike(a, b) && state.actorId in a.nodes.at
    ensures Alike(Pruned(a, state), Pruned(b, state))
    ensures Entering(a, state) == Entering(b, state)
    ensures Narrowed(Moved(a, state), state.actorId) == Narrowed(Moved(b, state), state.actorId)
  {
    var id := state.actorId;
    WithLocalAlike(a, b, id, a.nodes.at[id].local.(state := Some(state)));
    RefreshPeersAlike(Moved(a, state), Moved(b, state), id, false);
    RefreshOthersAlike(RefreshPeers(Moved(a, state), id, false), RefreshPeers(Moved(b, state), id, false), id,
                       a.nodes.keys);
    NearbyAlike(a, b, id);
    NearbyAlike(Pruned(a, state), Pruned(b, state), id);
    NearbyAlike(Moved(a, state), Moved(b, state), id);
  }

  lemma UpdateAlike(a: Net, b: Net, state: VehicleState, order: seq<Id>, now: int)
    requires Alike(a, b) && state.actorId in a.nodes.at
    requires Enumerates(order, Entering(a, state)) && Enumerates(order, Entering(b, state))
    ensures Alike(UpdateKnown(a, state, order, now), UpdateKnown(b, state, order, now))
  {
    var id := state.actorId;
    PrunedAlike(a, b, state);
    HandshakeAlike(Pruned(a, state), Pruned(b, state), order, now);
    var ha, hb := Handshake(Pruned(a, state), order, now), Handshake(Pruned(b, state), order, now);
    BroadcastStateAlike(ha, hb, id, now);
    var activation := Activation(Narrowed(Moved(a, state), id));
    if activation.Some? {
      BroadcastRiskAlike(BroadcastState(ha, id, now), BroadcastState(hb, id, now), id, activation.value, now);
    }
  }

  lemma SwitchAlike(a: Net, available: bool, now: int)
    ensures Alike(a, SetInternet(a, available, now))
  {
  }

  lemma CreateAlike(a: Net, b: Net, id: Id, brain: Brain, now: int)
    requires Alike(a, b)
    ensures Alike(CreateNode(a, id, brain, now), CreateNode(b, id, brain, now))
  {
  }

  lemma RemoveAlike(a: Net, b: Net, id: Id)
    requires Alike(a, b)
    ensures Alike(RemoveNode(a, id), RemoveNode(b, id))
  {
  }

  lemma StepAlike(a: Net, b: Net, op: Op, now: int)
    requires Alike(a, b) && !op.Internet? && Legal(a, op, now) && Legal(b, op, now)
    ensures Alike(Step(a, op, now), Step(b, op, now))
  {
    match op {
      case Create(id, brain) => CreateAlike(a, b, id, brain, now);
      case Update(state, brain, order) =>
        CreateAlike(a, b, state.actorId, brain, now);
        UpdateAlike(Known(a, state.actorId, brain, now), Known(b, state.actorId, brain, now), state, order, now);
      case Remove(id) => RemoveAlike(a, b, id);
    }
  }

  // ---------------------------------------------------------------- two runs

  /** The calls other than the internet switch. */
  function LocalCalls(ops: seq<(Op, int)>): seq<(Op, int)> {
    if ops == [] then []
    else if ops[0].0.Internet? then LocalCalls(ops[1..])
    else [ops[0]] + LocalCalls(ops[1..])
  }

  lemma {:induction false} RunsAlike(a: Net, b: Net, opsA: seq<(Op, int)>, opsB: seq<(Op, int)>)
    requires Alike(a, b) && LegalRun(a, opsA) && LegalRun(b, opsB) && LocalCalls(opsA) == LocalCalls(opsB)
    ensures Alike(Run(a, opsA), Run(b, opsB))
    decreases |opsA| + |opsB|
  {
    if opsA != [] && opsA[0].0.Internet? {
      var next := Step(a, opsA[0].0, opsA[0].1);
      SwitchAlike(a, opsA[0].0.available, opsA[0].1);
      AlikeChain(a, next, next);
      AlikeChain(next, a, b);
      RunsAlike(next, b, opsA[1..], opsB);
    } else if opsB != [] && opsB[0].0.Internet? {
      var next := Step(b, opsB[0].0, opsB[0].1);
      SwitchAlike(b, opsB[0].0.available, opsB[0].1);
      AlikeChain(a, b, next);
      RunsAlike(a, next, opsA, opsB[1..]);
    } else if opsA != [] && opsB != [] {
      assert LocalCalls(opsA)[0] == opsA[0] && LocalCalls(opsB)[0] == opsB[0];
      assert LocalCalls(opsA)[1..] == LocalCalls(opsA[1..]) && LocalCalls(opsB)[1..] == LocalCalls(opsB[1..]);
      StepAlike(a, b, opsA[0].0, opsA[0].1);
      RunsAlike(Step(a, opsA[0].0, opsA[0].1), Step(b, opsB[0].0, opsB[0].1), opsA[1..], opsB[1..]);
    }
  }

  /** From the empty network, toggling the internet anywhere changes no view, no active risk, no counter,
      no delivered message and no emitted risk. */
  lemma InternetNeverAffectsSafety(metric: Metric, range: real, opsA: seq<(Op, int)>, opsB: seq<(Op, int)>)
    requires LegalRun(EmptyNet(metric, range), opsA) && LegalRun(EmptyNet(metric, range), opsB)
    requires LocalCalls(opsA) == LocalCalls(opsB)
    ensures Alike(Run(EmptyNet(metric, range), opsA), Run(EmptyNet(metric, range), opsB))
  {
    RunsAlike(EmptyNet(metric, range), EmptyNet(metric, range), opsA, opsB);
  }
}
