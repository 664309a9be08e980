/** When the mesh raises an alarm: over every run a risk is emitted and announced exactly when a node's own update or a
    state it receives gives it a new conflict. */
module MeshAlarms {
  import opened Basics
  import opened Vehicles
  import opened RiskPrioritizer
  import opened MeshProtocol
  import opened MeshViews

  // ---------------------------------------------------------------- new conflicts

  /** What listeners have observed. */
  datatype Log = Log(risks: seq<(Id, RiskEvent)>, messages: seq<Message>) {
    function Then(later: Log): Log {
      Log(this.risks + later.risks, this.messages + later.messages)
    }
  }

  const SILENCE := Log([], [])

  function Observed(net: Net): Log {
    Log(net.risks, net.messages)
  }

  /** The risk is another conflict than before: of another kind or between other actors, or the first one. */
  predicate IsNew(before: Option<RiskEvent>, after: Option<RiskEvent>) {
    after.Some? && (before.Some? ==>
      after.value.kind != before.value.kind || multiset(after.value.actors) != multiset(before.value.actors))
  }

  /** The alarm of a node whose view changed: its new conflict, announced if anyone is in range. */
  function Alarm(j: Id, before: LocalView, after: LocalView, company: bool): Log {
    if after.state.Some? && IsNew(before.active, after.active) then
      Log([(j, after.active.value)],
          if company then [RiskDetected(j, after.active.value, after.state.value.position)] else [])
    else SILENCE
  }

  /** The alarm of one node between two moments. */
  function AlarmAt(net: Net, r: Net, j: Id): Log {
    if j in net.nodes.at && j in r.nodes.at then Alarm(j, net.nodes.at[j].local, r.nodes.at[j].local, true) else SILENCE
  }

  /** The alarms of these nodes between two moments, one after the other. */
  function Alarms(net: Net, r: Net, ids: seq<Id>): Log {
    if ids == [] then SILENCE else AlarmAt(net, r, ids[0]).Then(Alarms(net, r, ids[1..]))
  }

  lemma ThenAssociates(a: Log, b: Log, c: Log)
    ensures a.Then(b).Then(c) == a.Then(b.Then(c))
    ensures a.Then(SILENCE) == a && SILENCE.Then(a) == a
  {
  }

  ghost predicate Tidy(v: LocalView) {
    v.signature == SignatureOf(v.active)
  }

  /** A reassessment activates exactly a new conflict. */
  lemma ActivationIsNew(v: LocalView, changed: LocalView)
    requires Tidy(v) && changed.signature == v.signature && changed.state.Some?
    ensures Activation(changed).Some? <==> IsNew(v.active, Reassessed(changed).active)
    ensures Activation(changed).Some? ==> Activation(changed) == Reassessed(changed).active
  {
  }

  // ---------------------------------------------------------------- risk messages

  lemma {:induction false} RiskDeliveryIsSilent(net: Net, i: Id, m: Message, targets: seq<Id>, now: int)
    requires m.RiskDetected? && i in net.nodes.at
    ensures Observed(Deliver(net, i, m, targets, now)) == Observed(net)
    decreases |targets|
  {
    if targets != [] {
      if targets[0] in net.nodes.at && InRange(net, i, targets[0]) {
        RiskDeliveryIsSilent(Delivered(Handle(net, targets[0], m, now), i), i, m, targets[1..], now);
      } else {
        RiskDeliveryIsSilent(net, i, m, targets[1..], now);
      }
    }
  }

  /** A risk broadcast is published if anyone is in range. */
  lemma BroadcastRiskLog(net: Net, i: Id, risk: RiskEvent, now: int)
    requires i in net.nodes.at && StateOf(net, i).Some?
    ensures
      var m := RiskDetected(i, risk, StateOf(net, i).value.position);
      Observed(BroadcastRisk(net, i, risk, now)) ==
      Observed(net).Then(Log([], if Nearby(net, i) != [] then [m] else []))
  {
    var m := RiskDetected(i, risk, StateOf(net, i).value.position);
    RiskDeliveryIsSilent(Sent(net, i), i, m, Without(net.nodes.keys, i), now);
  }

  /** A risk message is counted once by every node in range of its sender and by nobody else. */
  ghost predicate Counted(net: Net, r: Net, i: Id, targets: seq<Id>, j: Id)
    requires i in net.nodes.at
  {
    j in net.nodes.at ==>
      && j in r.nodes.at
      && r.nodes.at[j].counters.received ==
         net.nodes.at[j].counters.received + (if j in targets && InRange(net, i, j) then 1 else 0)
  }

  lemma {:induction false} RiskDeliveryCounts(net: Net, i: Id, m: Message, targets: seq<Id>, now: int, j: Id)
    requires m.RiskDetected? && i in net.nodes.at && Distinct(targets) && i !in targets
    ensures Counted(net, Deliver(net, i, m, targets, now), i, targets, j)
    decreases |targets|
  {
    if targets != [] {
      var t, rest := targets[0], targets[1..];
      assert targets == [t] + rest && t !in rest;
      if t in net.nodes.at && InRange(net, i, t) {
        var next := Delivered(Handle(net, t, m, now), i);
        assert forall k :: k in net.nodes.at ==> InRange(next, i, k) == InRange(net, i, k);
        RiskDeliveryCounts(next, i, m, rest, now, j);
      } else {
        RiskDeliveryCounts(net, i, m, rest, now, j);
      }
    }
  }

  lemma {:induction false} RiskDeliverySendsNothing(net: Net, i: Id, m: Message, targets: seq<Id>, now: int, j: Id)
    requires m.RiskDetected? && i in net.nodes.at && j in net.nodes.at
    ensures j in Deliver(net, i, m, targets, now).nodes.at
    ensures Deliver(net, i, m, targets, now).nodes.at[j].counters.sent == net.nodes.at[j].counters.sent
    decreases |targets|
  {
    if targets != [] {
      if targets[0] in net.nodes.at && InRange(net, i, targets[0]) {
        RiskDeliverySendsNothing(Delivered(Handle(net, targets[0], m, now), i), i, m, targets[1..], now, j);
      } else {
        RiskDeliverySendsNothing(net, i, m, targets[1..], now, j);
      }
    }
  }

  /** A risk broadcast is one transmission of its sender, and makes nobody else send. */
  lemma RiskIsSentOnce(net: Net, i: Id, risk: RiskEvent, now: int, j: Id)
    requires i in net.nodes.at && StateOf(net, i).Some? && j in net.nodes.at
    ensures j in BroadcastRisk(net, i, risk, now).nodes.at
    ensures BroadcastRisk(net, i, risk, now).nodes.at[j].counters.sent ==
            net.nodes.at[j].counters.sent + (if j == i then 1 else 0)
  {
    var m := RiskDetected(i, risk, StateOf(net, i).value.position);
    RiskDeliverySendsNothing(Sent(net, i), i, m, Without(net.nodes.keys, i), now, j);
  }

  /** An announced risk reaches every node in range. */
  lemma RiskReachesAllInRange(net: Net, i: Id, risk: RiskEvent, now: int, j: Id)
    requires net.nodes.Ok() && i in net.nodes.at && StateOf(net, i).Some? && j in net.nodes.at
    ensures j in BroadcastRisk(net, i, risk, now).nodes.at
    ensures BroadcastRisk(net, i, risk, now).nodes.at[j].counters.received ==
            net.nodes.at[j].counters.received + (if j != i && InRange(net, i, j) then 1 else 0)
  {
    var m := RiskDetected(i, risk, StateOf(net, i).value.position);
    var targets := Without(net.nodes.keys, i);
    WithoutMembers(net.nodes.keys, i);
    RiskDeliveryCounts(Sent(net, i), i, m, targets, now, j);
    assert InRange(Sent(net, i), i, j) == InRange(net, i, j);
  }

  // ---------------------------------------------------------------- state messages

  /** What follows an activation: the risk is announced to whoever is in range, and emitted. */
  lemma RaisedLog(net: Net, j: Id, risk: RiskEvent, now: int)
    requires j in net.nodes.at && StateOf(net, j).Some?
    ensures SameLocals(net, Emit(BroadcastRisk(net, j, risk, now), j, risk))
    ensures Observed(Emit(BroadcastRisk(net, j, risk, now), j, risk)) ==
            Observed(net).Then(Log([(j, risk)], if Nearby(net, j) != []
                                                then [RiskDetected(j, risk, StateOf(net, j).value.position)] else []))
  {
    BroadcastRiskLog(net, j, risk, now);
    BroadcastRiskKeepsLocals(net, j, risk, now);
  }

  /** A received state raises the receiver's alarm and no other. */
  lemma HandleLog(net: Net, j: Id, s: VehicleState, now: int)
    requires Shaped(net) && j in net.nodes.at && s.actorId in net.nodes.at && s.actorId != j
    requires InRange(net, j, s.actorId) && Tidy(net.nodes.at[j].local)
    ensures
      var v := net.nodes.at[j].local;
      Observed(Handle(net, j, StateUpdated(s.actorId, s), now)) ==
      Observed(net).Then(Alarm(j, v, Heard(v, s), true))
  {
    var v := net.nodes.at[j].local;
    var counted := Received(net, j);
    NearbyMembers(counted, j);
    var updated := WithLocal(counted, j, Heard(v, s));
    ActivationIsNew(v, Learned(v, s));
    if Activation(Learned(v, s)).Some? {
      NearbyMembers(updated, j);
      assert s.actorId in Nearby(updated, j);
      RaisedLog(updated, j, Activation(Learned(v, s)).value, now);
    }
  }

  /** The same node with the same view at both moments. */
  ghost predicate SameAt(a: Net, b: Net, j: Id) {
    (j in a.nodes.at <==> j in b.nodes.at) && (j in a.nodes.at ==> a.nodes.at[j].local == b.nodes.at[j].local)
  }

  /** Only this node's view changes. */
  ghost predicate OnlyAt(a: Net, b: Net, t: Id) {
    forall j {:trigger SameAt(a, b, j)} :: j != t ==> SameAt(a, b, j)
  }

  lemma {:induction false} AlarmsAgree(net: Net, next: Net, r: Net, t: Id, ids: seq<Id>)
    requires OnlyAt(net, next, t) && t !in ids
    ensures Alarms(next, r, ids) == Alarms(net, r, ids)
  {
    if ids != [] {
      assert SameAt(net, next, ids[0]);
      AlarmsAgree(net, next, r, t, ids[1..]);
    }
  }

  /** What was observed in between are the alarms of these nodes. */
  ghost predicate Rings(net: Net, r: Net, ids: seq<Id>) {
    Observed(r) == Observed(net).Then(Alarms(net, r, ids))
  }

  lemma RingsCons(net: Net, next: Net, r: Net, t: Id, rest: seq<Id>)
    requires OnlyAt(net, next, t) && t !in rest && SameAt(next, r, t)
    requires Observed(next) == Observed(net).Then(AlarmAt(net, next, t)) && Rings(next, r, rest)
    ensures Rings(net, r, [t] + rest)
  {
    AlarmsAgree(net, next, r, t, rest);
    assert ([t] + rest)[1..] == rest;
    ThenAssociates(Observed(net), AlarmAt(net, next, t), Alarms(next, r, rest));
  }

  /** One target of a state delivery. */
  function Told(net: Net, i: Id, s: VehicleState, t: Id, now: int): (r: Net)
    requires i in net.nodes.at
    ensures i in r.nodes.at
  {
    if t in net.nodes.at && InRange(net, i, t) then Delivered(Handle(net, t, StateUpdated(i, s), now), i) else net
  }

  ghost predicate TidyAt(net: Net, t: Id) {
    t in net.nodes.at ==> Tidy(net.nodes.at[t].local)
  }

  lemma DeliveredIs(net: Net, i: Id)
    requires i in net.nodes.at
    ensures Observed(Delivered(net, i)) == Observed(net) && SameLocals(net, Delivered(net, i))
  {
  }

  lemma HandedAlarm(net: Net, handled: Net, next: Net, s: VehicleState, t: Id)
    requires SameTable(net, handled) && SameLocals(handled, next) && Observed(next) == Observed(handled)
    requires t in net.nodes.at && handled.nodes.at[t].local == Heard(net.nodes.at[t].local, s)
    requires forall k :: k in net.nodes.at && k != t ==> handled.nodes.at[k].local == net.nodes.at[k].local
    requires
      var v := net.nodes.at[t].local;
      Observed(handled) == Observed(net).Then(Alarm(t, v, Heard(v, s), true))
    ensures OnlyAt(net, next, t) && Observed(next) == Observed(net).Then(AlarmAt(net, next, t))
  {
  }

  lemma ToldLog(net: Net, i: Id, s: VehicleState, t: Id, now: int)
    requires Shaped(net) && i in net.nodes.at && s.actorId == i && i != t && TidyAt(net, t)
    ensures
      var next := Told(net, i, s, t, now);
      Shaped(next) && OnlyAt(net, next, t) && Observed(next) == Observed(net).Then(AlarmAt(net, next, t))
  {
    if t in net.nodes.at && InRange(net, i, t) {
      var handled := Handle(net, t, StateUpdated(i, s), now);
      HandleState(net, t, s, now);
      HandleLog(net, t, s, now);
      DeliveredIs(handled, i);
      HandedAlarm(net, handled, Delivered(handled, i), s, t);
      SameTableShaped(net, Delivered(handled, i));
    } else {
      ThenAssociates(Observed(net), SILENCE, SILENCE);
    }
  }

  lemma ToldFirst(net: Net, i: Id, s: VehicleState, t: Id, rest: seq<Id>, now: int)
    requires i in net.nodes.at
    ensures Deliver(net, i, StateUpdated(i, s), [t] + rest, now) ==
            Deliver(Told(net, i, s, t, now), i, StateUpdated(i, s), rest, now)
  {
    assert ([t] + rest)[1..] == rest;
  }

  lemma RestSparesFirst(net: Net, i: Id, s: VehicleState, t: Id, rest: seq<Id>, now: int)
    requires Shaped(net) && i in net.nodes.at && s.actorId == i && t !in rest && i !in rest && Distinct(rest)
    ensures SameAt(net, Deliver(net, i, StateUpdated(i, s), rest, now), t)
  {
    StateDeliverySpreads(net, i, s, rest, now);
  }

  /** Delivering a state raises the alarms of its receivers, in the order of delivery. */
  lemma {:induction false} StateDeliveryLog(net: Net, i: Id, s: VehicleState, targets: seq<Id>, now: int)
    requires Shaped(net) && i in net.nodes.at && s.actorId == i && Distinct(targets) && i !in targets
    requires forall t :: t in targets ==> TidyAt(net, t)
    ensures Rings(net, Deliver(net, i, StateUpdated(i, s), targets, now), targets)
    decreases |targets|
  {
    if targets != [] {
      var t, rest := targets[0], targets[1..];
      assert targets == [t] + rest && t !in rest;
      var next := Told(net, i, s, t, now);
      ToldLog(net, i, s, t, now);
      ToldFirst(net, i, s, t, rest, now);
      forall x | x in rest
        ensures TidyAt(next, x)
      {
        assert TidyAt(net, x) && SameAt(net, next, x);
      }
      StateDeliveryLog(next, i, s, rest, now);
      RestSparesFirst(next, i, s, t, rest, now);
      RingsCons(net, next, Deliver(net, i, StateUpdated(i, s), targets, now), t, rest);
    }
  }

  lemma {:induction false} AlarmsSameLocals(a: Net, a': Net, b: Net, b': Net, ids: seq<Id>)
    requires SameLocals(a, a') && SameLocals(b, b')
    ensures Alarms(a', b', ids) == Alarms(a, b, ids)
  {
    if ids != [] {
      AlarmsSameLocals(a, a', b, b', ids[1..]);
    }
  }

  function Notice(i: Id, s: VehicleState, company: bool): Log {
    Log([], if company then [StateUpdated(i, s)] else [])
  }

  lemma BroadcastIs(net: Net, i: Id, s: VehicleState, now: int)
    requires i in net.nodes.at && StateOf(net, i) == Some(s)
    ensures
      var delivered := Deliver(Sent(net, i), i, StateUpdated(i, s), Without(net.nodes.keys, i), now);
      Observed(BroadcastState(net, i, now)) == Observed(delivered).Then(Notice(i, s, Nearby(net, i) != []))
  {
  }

  lemma SentIs(net: Net, i: Id)
    requires i in net.nodes.at
    ensures Observed(Sent(net, i)) == Observed(net) && SameLocals(Sent(net, i), net)
  {
  }

  ghost predicate AllTidy(net: Net) {
    forall j {:trigger TidyAt(net, j)} :: TidyAt(net, j)
  }

  /** A state broadcast raises the alarms of those who hear it, and is published if there is anyone. */
  lemma BroadcastStateLog(net: Net, i: Id, now: int)
    requires Shaped(net) && AllTidy(net) && i in net.nodes.at && StateOf(net, i).Some? && OwnState(net, i)
    ensures
      var r := BroadcastState(net, i, now);
      Observed(r) == Observed(net).Then(Alarms(net, r, Without(net.nodes.keys, i)))
                     .Then(Notice(i, StateOf(net, i).value, Nearby(net, i) != []))
  {
    var s := StateOf(net, i).value;
    var targets := Without(net.nodes.keys, i);
    var sent := Sent(net, i);
    WithoutMembers(net.nodes.keys, i);
    SentIs(net, i);
    SameTableShaped(net, sent);
    forall x | x in targets
      ensures TidyAt(sent, x)
    {
      assert TidyAt(net, x);
    }
    StateDeliveryLog(sent, i, s, targets, now);
    BroadcastIs(net, i, s, now);
    BroadcastIsDelivery(net, i, s, now);
    AlarmsSameLocals(sent, net, Deliver(sent, i, StateUpdated(i, s), targets, now), BroadcastState(net, i, now),
                     targets);
  }

  // ---------------------------------------------------------------- discovery replies

  lemma UnchangedIsSilent(a: Net, b: Net, j: Id)
    requires SameAt(a, b, j)
    ensures AlarmAt(a, b, j) == SILENCE
  {
  }

  lemma {:induction false} OneAlarm(net: Net, r: Net, a: Id, ids: seq<Id>)
    requires OnlyAt(net, r, a) && Distinct(ids)
    ensures Alarms(net, r, ids) == if a in ids then AlarmAt(net, r, a) else SILENCE
  {
    if ids != [] {
      assert ids == [ids[0]] + ids[1..] && ids[0] !in ids[1..];
      OneAlarm(net, r, a, ids[1..]);
      if ids[0] != a {
        assert SameAt(net, r, ids[0]);
        UnchangedIsSilent(net, r, ids[0]);
      }
    }
  }

  /** Hearing what is known already changes nothing. */
  lemma RepeatChangesNothing(v: LocalView, s: VehicleState)
    requires Coherent(v) && s.actorId in v.peers.at && v.peers.at[s.actorId] == s
    ensures Heard(v, s) == v
  {
    assert v.peers.at[s.actorId := s] == v.peers.at;
    assert v.peers.Put(s.actorId, s) == v.peers;
    assert Learned(v, s) == v;
  }

  lemma ReplyAt(net: Net, a: Id, missing: set<Id>, p: Id, now: int, j: Id)
    requires Almost(net, a, missing) && p in net.nodes.at && p != a && StateOf(net, p).Some? && j in net.nodes.at
    ensures j in BroadcastState(net, p, now).nodes.at && OwnState(net, p)
    ensures BroadcastState(net, p, now).nodes.at[j].local ==
            if j == a && InRange(net, p, a) then Heard(net.nodes.at[j].local, StateOf(net, p).value)
            else net.nodes.at[j].local
  {
    assert OwnState(net, p) && OwnState(net, j) && PairOk(net, a, missing, j, p);
    BroadcastStateSpreads(net, p, now);
    SpreadAt(net, BroadcastState(net, p, now), p, StateOf(net, p).value, j);
    if j != a && j != p && InRange(net, p, j) {
      RepeatChangesNothing(net.nodes.at[j].local, StateOf(net, p).value);
    }
  }

  /** A reply is news to the moved node only. */
  lemma ReplyIsNewsToOne(net: Net, a: Id, missing: set<Id>, p: Id, now: int)
    requires Almost(net, a, missing) && p in net.nodes.at && p != a && StateOf(net, p).Some?
    ensures OnlyAt(net, BroadcastState(net, p, now), a)
  {
    assert OwnState(net, p);
    BroadcastStateSpreads(net, p, now);
    forall j | j != a
      ensures SameAt(net, BroadcastState(net, p, now), j)
    {
      if j in net.nodes.at {
        ReplyAt(net, a, missing, p, now, j);
      }
    }
  }

  lemma AlmostIsTidy(net: Net, a: Id, missing: set<Id>)
    requires Almost(net, a, missing)
    ensures AllTidy(net)
  {
    forall j
      ensures TidyAt(net, j)
    {
      if j in net.nodes.at {
        assert OwnState(net, j);
      }
    }
  }

  /** The log of a node that hears these states one after the other. */
  function Meeting(a: Id, v: LocalView, states: seq<VehicleState>): Log
    decreases |states|
  {
    if states == [] then SILENCE
    else
      Alarm(a, v, Heard(v, states[0]), true).Then(Notice(states[0].actorId, states[0], true))
      .Then(Meeting(a, Heard(v, states[0]), states[1..]))
  }

  lemma ReplyLog(net: Net, a: Id, missing: set<Id>, p: Id, now: int)
    requires Almost(net, a, missing) && p in net.nodes.at && p != a && StateOf(net, p).Some?
    requires a in net.nodes.at && InRange(net, a, p)
    ensures
      var v, s := net.nodes.at[a].local, StateOf(net, p).value;
      s.actorId == p && Observed(BroadcastState(net, p, now)) ==
                        Observed(net).Then(Alarm(a, v, Heard(v, s), true)).Then(Notice(p, s, true))
  {
    assert OwnState(net, p);
    AlmostIsTidy(net, a, missing);
    ReplyIsNewsToOne(net, a, missing, p, now);
    ReplyAt(net, a, missing, p, now, a);
    WithoutMembers(net.nodes.keys, p);
    OneAlarm(net, BroadcastState(net, p, now), a, Without(net.nodes.keys, p));
    NearbyMembers(net, p);
    assert a in Nearby(net, p);
    BroadcastStateLog(net, p, now);
  }

  function StatesOf(net: Net, ids: seq<Id>): seq<VehicleState> {
    if ids == [] then []
    else if ids[0] in net.nodes.at && StateOf(net, ids[0]).Some? then
      [StateOf(net, ids[0]).value] + StatesOf(net, ids[1..])
    else StatesOf(net, ids[1..])
  }

  lemma {:induction false} StatesAgree(net: Net, next: Net, ids: seq<Id>)
    requires forall p :: p in ids ==> p in net.nodes.at && p in next.nodes.at && StateOf(next, p) == StateOf(net, p)
    ensures StatesOf(next, ids) == StatesOf(net, ids)
  {
    if ids != [] {
      assert ids[0] in ids;
      StatesAgree(net, next, ids[1..]);
    }
  }

  /** A positioned neighbour of `a`. */
  ghost predicate Neighbour(net: Net, a: Id, p: Id)
    requires a in net.nodes.at
  {
    p in net.nodes.at && p != a && StateOf(net, p).Some? && InRange(net, a, p)
  }

  lemma ReplyKeepsNeighbour(net: Net, a: Id, p: Id, q: Id, now: int)
    requires Shaped(net) && a in net.nodes.at && p in net.nodes.at && StateOf(net, p).Some? && OwnState(net, p)
    requires Neighbour(net, a, q)
    ensures a in BroadcastState(net, p, now).nodes.at && Neighbour(BroadcastState(net, p, now), a, q)
    ensures StateOf(BroadcastState(net, p, now), q) == StateOf(net, q)
  {
    BroadcastStateSpreads(net, p, now);
    ReplyStates(net, p, a, now);
    ReplyStates(net, p, q, now);
  }

  /** The replies are news to the moved node only, and it raises an alarm for every new conflict they bring. */
  lemma {:induction false} HandshakeLog(net: Net, a: Id, missing: set<Id>, entering: seq<Id>, now: int)
    requires Almost(net, a, missing) && a in net.nodes.at && forall p :: p in entering ==> Neighbour(net, a, p)
    ensures OnlyAt(net, Handshake(net, entering, now), a)
    ensures Observed(Handshake(net, entering, now)) ==
            Observed(net).Then(Meeting(a, net.nodes.at[a].local, StatesOf(net, entering)))
    decreases |entering|
  {
    if entering != [] {
      var p, rest := entering[0], entering[1..];
      assert p in entering && entering == [p] + rest;
      var next := BroadcastState(net, p, now);
      ReplyStep(net, a, missing, p, now);
      ReplyIsNewsToOne(net, a, missing, p, now);
      ReplyAt(net, a, missing, p, now, a);
      forall q | q in rest
        ensures Neighbour(net, a, q) && a in next.nodes.at && Neighbour(next, a, q)
        ensures StateOf(next, q) == StateOf(net, q)
      {
        assert q in entering;
        ReplyKeepsNeighbour(net, a, p, q, now);
      }
      ReplyLog(net, a, missing, p, now);
      HandshakeLog(next, a, missing - {p}, rest, now);
      StatesAgree(net, next, rest);
      var v, s := net.nodes.at[a].local, StateOf(net, p).value;
      MeetingCons(Observed(net), a, v, s, StatesOf(net, rest));
      OnlyAtTwice(net, next, Handshake(next, rest, now), a);
    }
  }

  lemma OnlyAtTwice(net: Net, next: Net, r: Net, a: Id)
    requires OnlyAt(net, next, a) && OnlyAt(next, r, a)
    ensures OnlyAt(net, r, a)
  {
    forall j | j != a
      ensures SameAt(net, r, j)
    {
      assert SameAt(net, next, j) && SameAt(next, r, j);
    }
  }

  lemma MeetingCons(before: Log, a: Id, v: LocalView, s: VehicleState, rest: seq<VehicleState>)
    ensures before.Then(Meeting(a, v, [s] + rest)) ==
            before.Then(Alarm(a, v, Heard(v, s), true)).Then(Notice(s.actorId, s, true))
            .Then(Meeting(a, Heard(v, s), rest))
  {
    assert ([s] + rest)[1..] == rest;
    var x, y, z := Alarm(a, v, Heard(v, s), true), Notice(s.actorId, s, true), Meeting(a, Heard(v, s), rest);
    ThenAssociates(before, x.Then(y), z);
    ThenAssociates(before, x, y);
  }

  // ---------------------------------------------------------------- one update

  lemma {:induction false} RefreshOthersIsSilent(net: Net, id: Id, ids: seq<Id>)
    ensures Observed(RefreshOthers(net, id, ids)) == Observed(net)
    decreases |ids|
  {
    if ids != [] {
      var next := if ids[0] in net.nodes.at && ids[0] != id then RefreshPeers(net, ids[0], true) else net;
      RefreshOthersIsSilent(next, id, ids[1..]);
    }
  }

  lemma PruningIsSilent(net: Net, state: VehicleState)
    requires state.actorId in net.nodes.at
    ensures Observed(Pruned(net, state)) == Observed(net)
  {
    RefreshOthersIsSilent(RefreshPeers(Moved(net, state), state.actorId, false), state.actorId, net.nodes.keys);
  }

  lemma RefreshSparesNear(net: Net, i: Id, j: Id)
    requires i in net.nodes.at && j in net.nodes.at && AllNear(net, j)
    ensures j in RefreshPeers(net, i, true).nodes.at && AllNear(RefreshPeers(net, i, true), j)
    ensures RefreshPeers(net, i, true).nodes.at[j].local == net.nodes.at[j].local
  {
    var next := RefreshPeers(net, i, true);
    assert forall k :: k in net.nodes.at ==> StateOf(next, k) == StateOf(net, k);
    NearbySameStates(net, next, j);
  }

  lemma NearbySameStates(a: Net, b: Net, i: Id)
    requires SameTable(a, b) && i in a.nodes.at && forall j :: j in a.nodes.at ==> StateOf(a, j) == StateOf(b, j)
    ensures Nearby(a, i) == Nearby(b, i)
  {
    assert (set j | j in a.nodes.at && InRange(a, i, j)) == (set j | j in b.nodes.at && InRange(b, i, j));
  }

  /** Whoever is still near all its peers is not pruned. */
  lemma {:induction false} NearIsSpared(net: Net, id: Id, ids: seq<Id>, j: Id)
    requires j in net.nodes.at && AllNear(net, j)
    ensures j in RefreshOthers(net, id, ids).nodes.at
    ensures RefreshOthers(net, id, ids).nodes.at[j].local == net.nodes.at[j].local
    decreases |ids|
  {
    if ids != [] {
      if ids[0] in net.nodes.at && ids[0] != id {
        RefreshSparesNear(net, ids[0], j);
        NearIsSpared(RefreshPeers(net, ids[0], true), id, ids[1..], j);
      } else {
        NearIsSpared(net, id, ids[1..], j);
      }
    }
  }

  /** A node that has the moved one in its range loses nobody. */
  lemma InRangeIsUnpruned(net: Net, state: VehicleState, j: Id)
    requires Exact(net) && state.actorId in net.nodes.at && j in net.nodes.at && j != state.actorId
    requires InRange(Moved(net, state), j, state.actorId)
    ensures j in Pruned(net, state).nodes.at && Pruned(net, state).nodes.at[j].local == net.nodes.at[j].local
  {
    var id := state.actorId;
    var own := RefreshPeers(Moved(net, state), id, false);
    assert ExactAt(net, j);
    NearbyMembers(own, j);
    forall k | k in own.nodes.at[j].local.peers.at
      ensures k in Nearby(own, j)
    {
      assert k in InRangeStates(net, j);
      assert k != id ==> StateOf(own, k) == StateOf(net, k);
    }
    NearIsSpared(own, id, net.nodes.keys, j);
  }

  /** The alarms of the nodes that have `id` in their range, for what changed between two moments. */
  function Neighbours(net: Net, r: Net, id: Id, ids: seq<Id>): Log {
    if ids == [] then SILENCE
    else
      (if ids[0] in net.nodes.at && ids[0] in r.nodes.at && id in r.nodes.at && InRange(r, id, ids[0])
       then AlarmAt(net, r, ids[0]) else SILENCE)
      .Then(Neighbours(net, r, id, ids[1..]))
  }

  /** A neighbour's alarm of the broadcast is that of the whole update; nobody else has one. */
  ghost predicate AlarmedAlike(net: Net, met: Net, told: Net, r: Net, id: Id, j: Id) {
    && id in r.nodes.at
    && AlarmAt(met, told, j) == if j in net.nodes.at && j in r.nodes.at && InRange(r, id, j) then AlarmAt(net, r, j)
                                else SILENCE
  }

  lemma {:induction false} NeighboursAre(net: Net, met: Net, told: Net, r: Net, id: Id, ids: seq<Id>)
    requires forall j :: j in ids ==> AlarmedAlike(net, met, told, r, id, j)
    ensures Alarms(met, told, ids) == Neighbours(net, r, id, ids)
  {
    if ids != [] {
      assert AlarmedAlike(net, met, told, r, id, ids[0]);
      NeighboursAre(net, met, told, r, id, ids[1..]);
    }
  }

  /** The stages of an update of an exact network: pruned, the replies in, the own state told. */
  ghost predicate Stages(net: Net, state: VehicleState, met: Net, told: Net) {
    && Exact(net) && state.actorId in net.nodes.at
    && SameTable(net, Pruned(net, state)) && SameTable(Pruned(net, state), met)
    && OnlyAt(Pruned(net, state), met, state.actorId) && StateOf(met, state.actorId) == Some(state)
    && Spread(met, told, state.actorId, state, Without(met.nodes.keys, state.actorId))
  }

  /** Between the stages only the moved node has another state. */
  lemma StageStates(net: Net, state: VehicleState, met: Net, told: Net, j: Id)
    requires Stages(net, state, met, told) && j in net.nodes.at
    ensures j in met.nodes.at && j in told.nodes.at && StateOf(told, j) == StateOf(met, j)
    ensures StateOf(met, j) == StateOf(Moved(net, state), j)
  {
    SameTableShaped(net, met);
    SpreadAt(met, told, state.actorId, state, j);
    if j != state.actorId {
      assert SameAt(Pruned(net, state), met, j);
      PrunedStates(net, state, j);
    }
  }

  lemma PrunedStates(net: Net, state: VehicleState, j: Id)
    requires Exact(net) && state.actorId in net.nodes.at && j in net.nodes.at
    ensures j in Pruned(net, state).nodes.at && StateOf(Pruned(net, state), j) == StateOf(Moved(net, state), j)
  {
    RefreshStates(RefreshPeers(Moved(net, state), state.actorId, false), state.actorId, net.nodes.keys, j);
  }

  lemma {:induction false} RefreshStates(net: Net, id: Id, ids: seq<Id>, j: Id)
    requires j in net.nodes.at
    ensures j in RefreshOthers(net, id, ids).nodes.at && StateOf(RefreshOthers(net, id, ids), j) == StateOf(net, j)
    decreases |ids|
  {
    if ids != [] {
      var next := if ids[0] in net.nodes.at && ids[0] != id then RefreshPeers(net, ids[0], true) else net;
      RefreshStates(next, id, ids[1..], j);
    }
  }

  lemma StageRange(net: Net, state: VehicleState, met: Net, told: Net, j: Id)
    requires Stages(net, state, met, told) && j in net.nodes.at
    ensures j in told.nodes.at && j in met.nodes.at && state.actorId in told.nodes.at
    ensures InRange(told, state.actorId, j) == InRange(Moved(net, state), j, state.actorId)
    ensures InRange(met, state.actorId, j) == InRange(told, state.actorId, j)
  {
    StageStates(net, state, met, told, j);
    StageStates(net, state, met, told, state.actorId);
  }

  lemma StageView(net: Net, state: VehicleState, met: Net, told: Net, j: Id)
    requires Stages(net, state, met, told) && j in net.nodes.at && j != state.actorId
    ensures j in told.nodes.at && state.actorId in told.nodes.at && j in met.nodes.at
    ensures if InRange(told, state.actorId, j) then met.nodes.at[j].local == net.nodes.at[j].local
            else told.nodes.at[j].local == met.nodes.at[j].local
  {
    StageRange(net, state, met, told, j);
    SameTableShaped(net, met);
    SpreadAt(met, told, state.actorId, state, j);
    if InRange(told, state.actorId, j) {
      assert SameAt(Pruned(net, state), met, j);
      InRangeIsUnpruned(net, state, j);
    }
  }

  lemma NeighbourIsAlarmedAlike(net: Net, state: VehicleState, met: Net, told: Net, j: Id)
    requires Stages(net, state, met, told) && j != state.actorId
    ensures AlarmedAlike(net, met, told, told, state.actorId, j)
  {
    if j in net.nodes.at {
      StageView(net, state, met, told, j);
    }
    if !(j in net.nodes.at && InRange(told, state.actorId, j)) {
      UnchangedIsSilent(met, told, j);
    }
  }

  lemma NeighboursAlarm(net: Net, state: VehicleState, met: Net, told: Net, ids: seq<Id>)
    requires Stages(net, state, met, told) && state.actorId !in ids
    ensures Alarms(met, told, ids) == Neighbours(net, told, state.actorId, ids)
  {
    forall j | j in ids
      ensures AlarmedAlike(net, met, told, told, state.actorId, j)
    {
      NeighbourIsAlarmedAlike(net, state, met, told, j);
    }
    NeighboursAre(net, met, told, told, state.actorId, ids);
  }

  lemma {:induction false} NeighboursSameLocals(net: Net, a: Net, b: Net, id: Id, ids: seq<Id>)
    requires SameLocals(a, b)
    ensures Neighbours(net, b, id, ids) == Neighbours(net, a, id, ids)
  {
    if ids != [] {
      NeighboursSameLocals(net, a, b, id, ids[1..]);
    }
  }

  /** The view of the moved node after its own update: its old peers that are still in range, and the risk they make. */
  function OwnView(net: Net, state: VehicleState): LocalView
    requires state.actorId in net.nodes.at
  {
    Reassessed(Narrowed(Moved(net, state), state.actorId))
  }

  /** The log of one update: the moved node's alarms as the entering nodes reply, those of its neighbours as they hear
      its state, that state, and the moved node's alarm for what its own update changed. */
  function UpdateLog(net: Net, r: Net, state: VehicleState, order: seq<Id>): Log
    requires state.actorId in net.nodes.at && state.actorId in r.nodes.at
  {
    var id := state.actorId;
    var company := Nearby(r, id) != [];
    Meeting(id, OwnView(net, state), StatesOf(net, order))
    .Then(Neighbours(net, r, id, Without(net.nodes.keys, id))).Then(Notice(id, state, company))
    .Then(Alarm(id, net.nodes.at[id].local, OwnView(net, state), company))
  }

  /** The announcement that ends an update, once the state is told. */
  function Ending(told: Net, id: Id, activation: Option<RiskEvent>, now: int): Net
    requires id in told.nodes.at
  {
    if activation.Some? then Emit(BroadcastRisk(told, id, activation.value, now), id, activation.value) else told
  }

  lemma EndingLog(told: Net, state: VehicleState, v: LocalView, changed: LocalView, now: int)
    requires state.actorId in told.nodes.at && StateOf(told, state.actorId) == Some(state)
    requires Tidy(v) && changed.signature == v.signature && changed.state == Some(state)
    ensures
      var id := state.actorId;
      var r := Ending(told, id, Activation(changed), now);
      && SameLocals(told, r)
      && Observed(r) == Observed(told).Then(Alarm(id, v, Reassessed(changed), Nearby(told, id) != []))
  {
    ActivationIsNew(v, changed);
    if Activation(changed).Some? {
      RaisedLog(told, state.actorId, Activation(changed).value, now);
    } else {
      ThenAssociates(Observed(told), SILENCE, SILENCE);
    }
  }

  /** The stages of the update are those of the code. */
  lemma UpdateStages(net: Net, state: VehicleState, order: seq<Id>, now: int)
    requires Exact(net) && state.actorId in net.nodes.at && Enumerates(order, Entering(net, state))
    ensures
      var id, pruned := state.actorId, Pruned(net, state);
      var met := Handshake(pruned, order, now);
      && Stages(net, state, met, BroadcastState(met, id, now)) && AllTidy(met) && OwnState(met, id)
      && Observed(met) == Observed(net).Then(Meeting(id, OwnView(net, state), StatesOf(net, order)))
  {
    var id, pruned := state.actorId, Pruned(net, state);
    var met := Handshake(pruned, order, now);
    PrunedIsAlmost(net, state);
    NearbyMembers(pruned, id);
    HandshakeFillsGaps(pruned, id, Entering(net, state), order, now);
    forall p | p in order
      ensures Neighbour(pruned, id, p) && p in net.nodes.at && StateOf(pruned, p) == StateOf(net, p)
    {
      PrunedStates(net, state, p);
    }
    HandshakeLog(pruned, id, Entering(net, state), order, now);
    PruningIsSilent(net, state);
    OwnViewIs(net, state);
    StatesAgree(net, pruned, order);
    AlmostIsTidy(met, id, {});
    assert OwnState(met, id);
    BroadcastStateSpreads(met, id, now);
  }

  lemma OwnViewIs(net: Net, state: VehicleState)
    requires state.actorId in net.nodes.at
    ensures state.actorId in Pruned(net, state).nodes.at
    ensures Pruned(net, state).nodes.at[state.actorId].local == OwnView(net, state)
  {
    var own := RefreshPeers(Moved(net, state), state.actorId, false);
    OwnIsSpared(own, state.actorId, net.nodes.keys);
  }

  lemma {:induction false} OwnIsSpared(net: Net, id: Id, ids: seq<Id>)
    requires id in net.nodes.at
    ensures id in RefreshOthers(net, id, ids).nodes.at
    ensures RefreshOthers(net, id, ids).nodes.at[id].local == net.nodes.at[id].local
    decreases |ids|
  {
    if ids != [] {
      var next := if ids[0] in net.nodes.at && ids[0] != id then RefreshPeers(net, ids[0], true) else net;
      OwnIsSpared(next, id, ids[1..]);
    }
  }

  /** After the replies are in, the own state and then the own alarm. */
  lemma TellingLog(net: Net, state: VehicleState, met: Net, now: int)
    requires state.actorId in met.nodes.at && OwnState(met, state.actorId) && AllTidy(met)
    requires Stages(net, state, met, BroadcastState(met, state.actorId, now))
    ensures
      var id := state.actorId;
      var told := BroadcastState(met, id, now);
      && id in told.nodes.at && StateOf(told, id) == Some(state)
      && Observed(told) == Observed(met).Then(Neighbours(net, told, id, Without(net.nodes.keys, id)))
                           .Then(Notice(id, state, Nearby(told, id) != []))
  {
    var id := state.actorId;
    var told := BroadcastState(met, id, now);
    SameTableShaped(net, met);
    BroadcastStateLog(met, id, now);
    WithoutMembers(net.nodes.keys, id);
    NeighboursAlarm(net, state, met, told, Without(net.nodes.keys, id));
    forall j | j in met.nodes.at
      ensures j in told.nodes.at && StateOf(met, j) == StateOf(told, j)
    {
      StageStates(net, state, met, told, j);
    }
    NearbySameStates(met, told, id);
    StageStates(net, state, met, told, id);
  }

  /** What an update emits and announces. */
  lemma UpdateIsLogged(net: Net, state: VehicleState, order: seq<Id>, now: int)
    requires Exact(net) && state.actorId in net.nodes.at && Enumerates(order, Entering(net, state))
    ensures
      var r := UpdateKnown(net, state, order, now);
      state.actorId in r.nodes.at && Observed(r) == Observed(net).Then(UpdateLog(net, r, state, order))
  {
    var id := state.actorId;
    var met := Handshake(Pruned(net, state), order, now);
    var told := BroadcastState(met, id, now);
    var changed := Narrowed(Moved(net, state), id);
    var r := UpdateKnown(net, state, order, now);
    UpdateStages(net, state, order, now);
    TellingLog(net, state, met, now);
    assert ExactAt(net, id);
    EndingLog(told, state, net.nodes.at[id].local, changed, now);
    assert r == Ending(told, id, Activation(changed), now);
    NearbySameStates(told, r, id);
    NeighboursSameLocals(net, told, r, id, Without(net.nodes.keys, id));
    FourInTurn(Observed(net), Meeting(id, OwnView(net, state), StatesOf(net, order)),
               Neighbours(net, r, id, Without(net.nodes.keys, id)), Notice(id, state, Nearby(r, id) != []),
               Alarm(id, net.nodes.at[id].local, OwnView(net, state), Nearby(r, id) != []));
  }

  lemma FourInTurn(before: Log, a: Log, b: Log, c: Log, d: Log)
    ensures before.Then(a).Then(b).Then(c).Then(d) == before.Then(a.Then(b).Then(c).Then(d))
  {
    ThenAssociates(before, a, b);
    ThenAssociates(before, a.Then(b), c);
    ThenAssociates(before, a.Then(b).Then(c), d);
  }

  // ---------------------------------------------------------------- every run

  /** What one manager call emits and announces: nothing unless it is an update. */
  ghost function StepLog(net: Net, op: Op, now: int): Log
    requires Legal(net, op, now)
  {
    match op
    case Update(state, brain, order) =>
      UpdateLog(Known(net, state.actorId, brain, now), Step(net, op, now), state, order)
    case _ => SILENCE
  }

  lemma StepIsLogged(net: Net, op: Op, now: int)
    requires Exact(net) && Legal(net, op, now)
    ensures Observed(Step(net, op, now)) == Observed(net).Then(StepLog(net, op, now))
  {
    match op {
      case Update(state, brain, order) =>
        if state.actorId !in net.nodes.at {
          CreateKeepsExact(net, state.actorId, brain, now);
        }
        UpdateIsLogged(Known(net, state.actorId, brain, now), state, order, now);
      case _ => ThenAssociates(Observed(net), SILENCE, SILENCE);
    }
  }

  ghost function RunLog(net: Net, ops: seq<(Op, int)>): Log
    requires LegalRun(net, ops)
    decreases |ops|
  {
    if ops == [] then SILENCE
    else StepLog(net, ops[0].0, ops[0].1).Then(RunLog(Step(net, ops[0].0, ops[0].1), ops[1..]))
  }

  lemma {:induction false} RunIsLogged(net: Net, ops: seq<(Op, int)>)
    requires Exact(net) && LegalRun(net, ops)
    ensures Observed(Run(net, ops)) == Observed(net).Then(RunLog(net, ops))
    decreases |ops|
  {
    if ops == [] {
      ThenAssociates(Observed(net), SILENCE, SILENCE);
    } else {
      var next := Step(net, ops[0].0, ops[0].1);
      StepKeepsExact(net, ops[0].0, ops[0].1);
      StepIsLogged(net, ops[0].0, ops[0].1);
      RunIsLogged(next, ops[1..]);
      ThenAssociates(Observed(net), StepLog(net, ops[0].0, ops[0].1), RunLog(next, ops[1..]));
    }
  }

  /** Over every run the listeners observe exactly the new conflicts, each emitted and announced once when a node's own
      update or a state it hears brings it about. */
  lemma EveryAlarmIsANewConflict(metric: Metric, range: real, ops: seq<(Op, int)>)
    requires (forall a, b :: metric(a, b) == metric(b, a)) && LegalRun(EmptyNet(metric, range), ops)
    ensures Observed(Run(EmptyNet(metric, range), ops)) == RunLog(EmptyNet(metric, range), ops)
  {
    RunIsLogged(EmptyNet(metric, range), ops);
    ThenAssociates(RunLog(EmptyNet(metric, range), ops), SILENCE, SILENCE);
  }

  // ---------------------------------------------------------------- node by node

  /** The risks that one node emitted. */
  function By(risks: seq<(Id, RiskEvent)>, j: Id): seq<RiskEvent> {
    if risks == [] then []
    else By(risks[..|risks| - 1], j) + (if risks[|risks| - 1].0 == j then [risks[|risks| - 1].1] else [])
  }

  lemma {:induction false} ByThen(a: seq<(Id, RiskEvent)>, b: seq<(Id, RiskEvent)>, j: Id)
    ensures By(a + b, j) == By(a, j) + By(b, j)
  {
    if b == [] {
      assert a + b == a;
    } else {
      ByThen(a, b[..|b| - 1], j);
      assert (a + b)[..|a + b| - 1] == a + b[..|b| - 1];
    }
  }

  lemma RisksOfThree(all: Log, x: Log, notice: Log, rest: Log)
    requires SILENCE.Then(all) == SILENCE.Then(x).Then(notice).Then(rest) && notice.risks == []
    ensures all.risks == x.risks + rest.risks
  {
    ThenAssociates(all, SILENCE, SILENCE);
    ThenAssociates(x, SILENCE, SILENCE);
    assert SILENCE.Then(x).Then(notice).risks == x.risks + [] == x.risks;
  }

  lemma {:induction false} MeetingIsOwn(a: Id, v: LocalView, states: seq<VehicleState>, j: Id)
    requires j != a
    ensures By(Meeting(a, v, states).risks, j) == []
    decreases |states|
  {
    if states != [] {
      var s, rest := states[0], states[1..];
      assert states == [s] + rest;
      var all, x, later := Meeting(a, v, states), Alarm(a, v, Heard(v, s), true), Meeting(a, Heard(v, s), rest);
      MeetingCons(SILENCE, a, v, s, rest);
      RisksOfThree(all, x, Notice(s.actorId, s, true), later);
      MeetingIsOwn(a, Heard(v, s), rest, j);
      AlarmIsOwn(a, v, Heard(v, s), true, j);
      ByThen(x.risks, later.risks, j);
    }
  }

  lemma AlarmIsOwn(a: Id, before: LocalView, after: LocalView, company: bool, j: Id)
    ensures By(Alarm(a, before, after, company).risks, j) ==
            if a == j && after.state.Some? && IsNew(before.active, after.active) then [after.active.value] else []
  {
    var risks := Alarm(a, before, after, company).risks;
    if risks != [] {
      assert risks[..|risks| - 1] == [];
    }
  }

  /** The alarm of a neighbour of the moved node. */
  function NeighbourAlarm(net: Net, r: Net, id: Id, j: Id): seq<RiskEvent> {
    if j in net.nodes.at && j in r.nodes.at && id in r.nodes.at && InRange(r, id, j)
       && IsNew(net.nodes.at[j].local.active, r.nodes.at[j].local.active)
    then [r.nodes.at[j].local.active.value]
    else []
  }

  lemma {:induction false} NeighboursBy(net: Net, r: Net, id: Id, ids: seq<Id>, j: Id)
    requires Distinct(ids)
    ensures By(Neighbours(net, r, id, ids).risks, j) == if j in ids then NeighbourAlarm(net, r, id, j) else []
  {
    if ids != [] {
      var t, rest := ids[0], ids[1..];
      assert ids == [t] + rest && t !in rest;
      var x := if t in net.nodes.at && t in r.nodes.at && id in r.nodes.at && InRange(r, id, t) then AlarmAt(net, r, t)
          else SILENCE;
      NeighboursBy(net, r, id, rest, j);
      if x != SILENCE {
        AlarmIsOwn(t, net.nodes.at[t].local, r.nodes.at[t].local, true, j);
      }
      ByThen(x.risks, Neighbours(net, r, id, rest).risks, j);
    }
  }

  /** When another node moves, a node emits one risk if that node is in its range and its conflict is a new one, and
      none otherwise. */
  lemma NeighbourAlarmsOnce(net: Net, state: VehicleState, order: seq<Id>, now: int, j: Id)
    requires Exact(net) && state.actorId in net.nodes.at && Enumerates(order, Entering(net, state))
    requires j in net.nodes.at && j != state.actorId
    ensures
      var r := UpdateKnown(net, state, order, now);
      By(r.risks, j) == By(net.risks, j) + NeighbourAlarm(net, r, state.actorId, j)
  {
    UpdateIsLogged(net, state, order, now);
    LoggedBy(net, UpdateKnown(net, state, order, now), state, order, j);
  }

  lemma LoggedBy(net: Net, r: Net, state: VehicleState, order: seq<Id>, j: Id)
    requires net.nodes.Ok() && state.actorId in net.nodes.at && state.actorId in r.nodes.at
    requires Observed(r) == Observed(net).Then(UpdateLog(net, r, state, order))
    requires j != state.actorId && j in net.nodes.at
    ensures By(r.risks, j) == By(net.risks, j) + NeighbourAlarm(net, r, state.actorId, j)
  {
    var id, view := state.actorId, OwnView(net, state);
    var ids := Without(net.nodes.keys, id);
    WithoutMembers(net.nodes.keys, id);
    MeetingIsOwn(id, view, StatesOf(net, order), j);
    NeighboursBy(net, r, id, ids, j);
    AlarmIsOwn(id, net.nodes.at[id].local, view, Nearby(r, id) != [], j);
    UpdateRisks(net, r, state, order);
    ThreeBy(net.risks, Meeting(id, view, StatesOf(net, order)).risks, Neighbours(net, r, id, ids).risks,
            Alarm(id, net.nodes.at[id].local, view, Nearby(r, id) != []).risks, j);
  }

  lemma UpdateRisks(net: Net, r: Net, state: VehicleState, order: seq<Id>)
    requires state.actorId in net.nodes.at && state.actorId in r.nodes.at
    ensures
      var id, view := state.actorId, OwnView(net, state);
      UpdateLog(net, r, state, order).risks ==
      Meeting(id, view, StatesOf(net, order)).risks + Neighbours(net, r, id, Without(net.nodes.keys, id)).risks
      + Alarm(id, net.nodes.at[id].local, view, Nearby(r, id) != []).risks
  {
  }

  lemma ThreeBy(before: seq<(Id, RiskEvent)>, a: seq<(Id, RiskEvent)>, b: seq<(Id, RiskEvent)>,
                c: seq<(Id, RiskEvent)>, j: Id)
    requires By(a, j) == [] && By(c, j) == []
    ensures By(before + (a + b + c), j) == By(before, j) + By(b, j)
  {
    ByThen(before, a + b + c, j);
    ByThen(a + b, c, j);
    ByThen(a, b, j);
  }
}
