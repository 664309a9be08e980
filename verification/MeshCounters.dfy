/** The transport counters of the mesh: over every run each delivery that a sender counts is counted once by a
    receiver. */
module MeshCounters {
  import opened Basics
  import opened Vehicles
  import opened RiskPrioritizer
  import opened MeshProtocol
  import opened MeshViews

  // ---------------------------------------------------------------- the balance

  /** Messages a node received beyond those it delivered. */
  function Surplus(net: Net, j: Id): int {
    if j in net.nodes.at then net.nodes.at[j].counters.received - net.nodes.at[j].counters.delivered else 0
  }

  function Balance(net: Net, ids: seq<Id>): int {
    if ids == [] then 0 else Balance(net, ids[..|ids| - 1]) + Surplus(net, ids[|ids| - 1])
  }

  /** Of the listed nodes only `i` has another surplus, by `d`. */
  ghost predicate Shifts(net: Net, r: Net, i: Id, d: int) {
    forall j {:trigger Surplus(r, j)} {:trigger Surplus(net, j)} ::
      Surplus(r, j) == Surplus(net, j) + (if j == i then d else 0)
  }

  lemma {:induction false} BalanceShifts(net: Net, r: Net, i: Id, d: int, ids: seq<Id>)
    requires Shifts(net, r, i, d) && Distinct(ids)
    ensures Balance(r, ids) == Balance(net, ids) + (if i in ids then d else 0)
  {
    if ids != [] {
      var n := |ids| - 1;
      assert ids == ids[..n] + [ids[n]] && ids[n] !in ids[..n];
      BalanceShifts(net, r, i, d, ids[..n]);
    }
  }

  /** The same nodes, and all counters together out by `d`. */
  ghost predicate OutBy(net: Net, r: Net, d: int) {
    r.nodes.keys == net.nodes.keys && r.nodes.at.Keys == net.nodes.at.Keys
    && Balance(r, net.nodes.keys) == Balance(net, net.nodes.keys) + d
  }

  lemma OutByThen(net: Net, next: Net, r: Net, d: int, e: int)
    requires OutBy(net, next, d) && OutBy(next, r, e)
    ensures OutBy(net, r, d + e)
  {
  }

  lemma ReceivedOut(net: Net, i: Id)
    requires net.nodes.Ok() && i in net.nodes.at
    ensures OutBy(net, Received(net, i), 1)
  {
    BalanceShifts(net, Received(net, i), i, 1, net.nodes.keys);
  }

  lemma DeliveredOut(net: Net, i: Id)
    requires net.nodes.Ok() && i in net.nodes.at
    ensures OutBy(net, Delivered(net, i), -1)
  {
    BalanceShifts(net, Delivered(net, i), i, -1, net.nodes.keys);
  }

  /** Nothing received or delivered in between. */
  ghost predicate SameTraffic(a: Net, b: Net) {
    && b.nodes.keys == a.nodes.keys && b.nodes.at.Keys == a.nodes.at.Keys
    && forall j :: j in a.nodes.at ==>
         b.nodes.at[j].counters == a.nodes.at[j].counters.(sent := b.nodes.at[j].counters.sent)
  }

  lemma SameTrafficOut(net: Net, r: Net)
    requires net.nodes.Ok() && SameTraffic(net, r)
    ensures OutBy(net, r, 0)
  {
    BalanceShifts(net, r, "", 0, net.nodes.keys);
  }

  lemma OkOut(net: Net, r: Net, d: int)
    requires net.nodes.Ok() && OutBy(net, r, d)
    ensures r.nodes.Ok()
  {
  }

  // ---------------------------------------------------------------- messages

  lemma {:induction false} SendOut(net: Net, i: Id, m: Message, online: bool, now: int)
    requires net.nodes.Ok() && i in net.nodes.at
    ensures OutBy(net, Send(net, i, m, online, now).0, 0)
    decreases MeshProtocol.Rank(m), 2, 0
  {
    var sent := Sent(net, i);
    var delivered := Deliver(sent, i, m, Without(net.nodes.keys, i), now);
    SameTrafficOut(net, sent);
    DeliverOut(sent, i, m, Without(net.nodes.keys, i), now);
    OutByThen(net, sent, delivered, 0, 0);
    ContactOut(net, delivered, i, online, now);
  }

  lemma ContactOut(net: Net, delivered: Net, i: Id, online: bool, now: int)
    requires net.nodes.Ok() && OutBy(net, delivered, 0) && i in delivered.nodes.at
    ensures OutBy(net, if online then Contacted(delivered, i, now) else delivered, 0)
  {
    if online {
      OkOut(net, delivered, 0);
      SameTrafficOut(delivered, Contacted(delivered, i, now));
      OutByThen(net, delivered, Contacted(delivered, i, now), 0, 0);
    }
  }

  lemma {:induction false} DeliverOut(net: Net, i: Id, m: Message, targets: seq<Id>, now: int)
    requires net.nodes.Ok() && i in net.nodes.at
    ensures OutBy(net, Deliver(net, i, m, targets, now), 0)
    decreases MeshProtocol.Rank(m), 1, |targets|
  {
    if targets != [] {
      if targets[0] in net.nodes.at && InRange(net, i, targets[0]) {
        var handled := Handle(net, targets[0], m, now);
        var next := Delivered(handled, i);
        HandleOut(net, targets[0], m, now);
        OkOut(net, handled, 1);
        DeliveredOut(handled, i);
        OutByThen(net, handled, next, 1, -1);
        OkOut(net, next, 0);
        DeliverOut(next, i, m, targets[1..], now);
        OutByThen(net, next, Deliver(net, i, m, targets, now), 0, 0);
      } else {
        DeliverOut(net, i, m, targets[1..], now);
      }
    }
  }

  lemma {:induction false} HandleOut(net: Net, j: Id, m: Message, now: int)
    requires net.nodes.Ok() && j in net.nodes.at
    ensures OutBy(net, Handle(net, j, m, now), 1)
    decreases MeshProtocol.Rank(m), 0, 0
  {
    var counted := Received(net, j);
    ReceivedOut(net, j);
    OkOut(net, counted, 1);
    if m.StateUpdated? && m.state.actorId in Nearby(counted, j) {
      var seen := Learned(counted.nodes.at[j].local, m.state);
      var updated := WithLocal(counted, j, Reassessed(seen));
      SameTrafficOut(counted, updated);
      OutByThen(net, counted, updated, 1, 0);
      OkOut(net, updated, 1);
      if Activation(seen).Some? {
        RaisedOut(updated, j, Activation(seen).value, now);
        OutByThen(net, updated, Handle(net, j, m, now), 1, 0);
      }
    }
  }

  lemma AfterSendOut(net: Net, sent: Net, r: Net)
    requires net.nodes.Ok() && OutBy(net, sent, 0) && r.nodes == sent.nodes
    ensures OutBy(net, r, 0)
  {
    OkOut(net, sent, 0);
    SameTrafficOut(sent, r);
    OutByThen(net, sent, r, 0, 0);
  }

  lemma RaisedOut(net: Net, j: Id, risk: RiskEvent, now: int)
    requires net.nodes.Ok() && j in net.nodes.at
    ensures OutBy(net, Emit(BroadcastRisk(net, j, risk, now), j, risk), 0)
    decreases 0, 3, 0
  {
    var r := Emit(BroadcastRisk(net, j, risk, now), j, risk);
    if StateOf(net, j).Some? {
      var m := RiskDetected(j, risk, StateOf(net, j).value.position);
      var sent := Send(net, j, m, net.nodes.at[j].cloud.internet, now).0;
      SendOut(net, j, m, net.nodes.at[j].cloud.internet, now);
      AfterSendOut(net, sent, r);
    } else {
      SameTrafficOut(net, r);
    }
  }

  lemma BroadcastStateOut(net: Net, i: Id, now: int)
    requires net.nodes.Ok() && i in net.nodes.at
    ensures OutBy(net, BroadcastState(net, i, now), 0)
  {
    if StateOf(net, i).Some? {
      var m := StateUpdated(i, StateOf(net, i).value);
      SendOut(net, i, m, net.nodes.at[i].cloud.internet, now);
      AfterSendOut(net, Send(net, i, m, net.nodes.at[i].cloud.internet, now).0, BroadcastState(net, i, now));
    }
  }

  // ---------------------------------------------------------------- manager calls

  lemma {:induction false} RefreshOthersTraffic(net: Net, id: Id, ids: seq<Id>)
    ensures SameTraffic(net, RefreshOthers(net, id, ids))
    decreases |ids|
  {
    if ids != [] {
      var next := if ids[0] in net.nodes.at && ids[0] != id then RefreshPeers(net, ids[0], true) else net;
      RefreshOthersTraffic(next, id, ids[1..]);
    }
  }

  lemma {:induction false} HandshakeOut(net: Net, entering: seq<Id>, now: int)
    requires net.nodes.Ok()
    ensures OutBy(net, Handshake(net, entering, now), 0)
    decreases |entering|
  {
    if entering != [] {
      var next := if entering[0] in net.nodes.at then BroadcastState(net, entering[0], now) else net;
      if entering[0] in net.nodes.at {
        BroadcastStateOut(net, entering[0], now);
        OkOut(net, next, 0);
      }
      HandshakeOut(next, entering[1..], now);
      OutByThen(net, next, Handshake(net, entering, now), 0, 0);
    }
  }

  lemma UpdateOut(net: Net, state: VehicleState, order: seq<Id>, now: int)
    requires net.nodes.Ok() && state.actorId in net.nodes.at && Enumerates(order, Entering(net, state))
    ensures OutBy(net, UpdateKnown(net, state, order, now), 0)
  {
    var id := state.actorId;
    var own := RefreshPeers(Moved(net, state), id, false);
    var pruned := Pruned(net, state);
    var met := Handshake(pruned, order, now);
    var told := BroadcastState(met, id, now);
    RefreshOthersTraffic(own, id, net.nodes.keys);
    SameTrafficOut(net, pruned);
    HandshakeOut(pruned, order, now);
    OutByThen(net, pruned, met, 0, 0);
    OkOut(net, met, 0);
    BroadcastStateOut(met, id, now);
    OutByThen(net, met, told, 0, 0);
    OkOut(net, told, 0);
    var activation := Activation(Narrowed(Moved(net, state), id));
    if activation.Some? {
      RaisedOut(told, id, activation.value, now);
      OutByThen(net, told, UpdateKnown(net, state, order, now), 0, 0);
    }
  }

  // ---------------------------------------------------------------- every run

  function Total(net: Net): int {
    Balance(net, net.nodes.keys)
  }

  /** What a call takes out of the count: the surplus of a node that is removed. */
  function Leaving(net: Net, op: Op): int {
    if op.Remove? then Surplus(net, op.gone) else 0
  }

  lemma {:induction false} BalanceWithout(net: Net, r: Net, ids: seq<Id>, id: Id)
    requires Distinct(ids) && (forall j :: j in ids && j != id ==> Surplus(r, j) == Surplus(net, j))
    ensures Balance(r, Without(ids, id)) == Balance(net, ids) - (if id in ids then Surplus(net, id) else 0)
  {
    if ids != [] {
      var n := |ids| - 1;
      assert ids == ids[..n] + [ids[n]] && ids[n] !in ids[..n];
      BalanceWithout(net, r, ids[..n], id);
      WithoutSnoc(ids[..n], ids[n], id);
      var front := Without(ids[..n], id);
      if ids[n] == id {
        assert Without(ids, id) == front;
      } else {
        assert Without(ids, id) == front + [ids[n]] && (front + [ids[n]])[..|front|] == front;
      }
    }
  }

  lemma {:induction false} WithoutSnoc(s: seq<Id>, last: Id, x: Id)
    ensures Without(s + [last], x) == Without(s, x) + (if last == x then [] else [last])
  {
    if s == [] {
      assert [last][1..] == [];
    } else {
      assert (s + [last])[1..] == s[1..] + [last];
      WithoutSnoc(s[1..], last, x);
    }
  }

  lemma CreatedOut(net: Net, id: Id, brain: Brain, now: int)
    requires net.nodes.Ok() && id !in net.nodes.at
    ensures Total(CreateNode(net, id, brain, now)) == Total(net) && CreateNode(net, id, brain, now).nodes.Ok()
  {
    var r := CreateNode(net, id, brain, now);
    net.nodes.PutOk(id, NewNode(brain, net.internet, now));
    BalanceShifts(net, r, id, 0, net.nodes.keys);
    assert r.nodes.keys[..|net.nodes.keys|] == net.nodes.keys;
  }

  lemma StepOut(net: Net, op: Op, now: int)
    requires net.nodes.Ok() && Legal(net, op, now)
    ensures Step(net, op, now).nodes.Ok() && Total(Step(net, op, now)) == Total(net) - Leaving(net, op)
  {
    match op {
      case Create(id, brain) => CreatedOut(net, id, brain, now);
      case Update(state, brain, order) =>
        var known := Known(net, state.actorId, brain, now);
        if state.actorId !in net.nodes.at {
          CreatedOut(net, state.actorId, brain, now);
        }
        UpdateOut(known, state, order, now);
        OkOut(known, Step(net, op, now), 0);
      case Remove(id) =>
        if id in net.nodes.at {
          WithoutMembers(net.nodes.keys, id);
          BalanceWithout(net, RemoveNode(net, id), net.nodes.keys, id);
        }
      case Internet(available) =>
        SameTrafficOut(net, SetInternet(net, available, now));
    }
  }

  ghost function AllLeaving(net: Net, ops: seq<(Op, int)>): int
    requires LegalRun(net, ops)
    decreases |ops|
  {
    if ops == [] then 0
    else Leaving(net, ops[0].0) + AllLeaving(Step(net, ops[0].0, ops[0].1), ops[1..])
  }

  lemma {:induction false} RunOut(net: Net, ops: seq<(Op, int)>)
    requires net.nodes.Ok() && LegalRun(net, ops)
    ensures Run(net, ops).nodes.Ok() && Total(Run(net, ops)) == Total(net) - AllLeaving(net, ops)
    decreases |ops|
  {
    if ops != [] {
      StepOut(net, ops[0].0, ops[0].1);
      RunOut(Step(net, ops[0].0, ops[0].1), ops[1..]);
    }
  }

  /** Over every run the deliveries that nodes count and the messages they count as received are the same in number,
      nodes that left included. */
  lemma EveryDeliveryIsReceived(metric: Metric, range: real, ops: seq<(Op, int)>)
    requires LegalRun(EmptyNet(metric, range), ops)
    ensures
      Total(Run(EmptyNet(metric, range), ops)) + AllLeaving(EmptyNet(metric, range), ops) == 0
  {
    RunOut(EmptyNet(metric, range), ops);
  }
}
