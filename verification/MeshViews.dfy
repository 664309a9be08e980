/** Every node's local view is exact in every reachable network: it holds exactly the other positioned
    nodes in its range with their latest state, and its active risk is the top one over that view. */
module MeshViews {
  import opened Basics
  import opened Vehicles
  import opened RiskPrioritizer
  import opened MeshProtocol

  ghost predicate Shaped(net: Net) {
    && net.nodes.Ok()
    && (forall a, b :: net.metric(a, b) == net.metric(b, a))
  }

  lemma NearbyMembers(net: Net, i: Id)
    requires i in net.nodes.at && net.nodes.Ok()
    ensures forall j :: j in Nearby(net, i) <==> j in net.nodes.at && j != i && InRange(net, i, j)
  {
    WithoutMembers(net.nodes.keys, i);
    OnlyMembers(Without(net.nodes.keys, i), set j | j in net.nodes.at && InRange(net, i, j));
  }

  /** The view a node ought to have. */
  ghost function InRangeStates(net: Net, i: Id): map<Id, VehicleState>
    requires i in net.nodes.at
  {
    map j | j in net.nodes.at && j != i && InRange(net, i, j) :: StateOf(net, j).value
  }

  /** The active risk is the one the view calls for; a node without a state knows nothing. */
  ghost predicate Coherent(v: LocalView) {
    && v.peers.Ok()
    && v.signature == SignatureOf(v.active)
    && (if v.state.None? then v.peers.at == map[] && v.active == None else v.active == DueRisk(v))
  }

  ghost predicate OwnState(net: Net, i: Id)
    requires i in net.nodes.at
  {
    StateOf(net, i).Some? ==> StateOf(net, i).value.actorId == i
  }

  ghost predicate ExactAt(net: Net, i: Id)
    requires i in net.nodes.at
  {
    Coherent(net.nodes.at[i].local) && OwnState(net, i) && net.nodes.at[i].local.peers.at == InRangeStates(net, i)
  }

  ghost predicate Exact(net: Net) {
    Shaped(net) && forall i {:trigger ExactAt(net, i)} :: i in net.nodes.at ==> ExactAt(net, i)
  }

  /** The active risk of a node scores highest among all risks found over its view, and is absent exactly when none is
      found. */
  ghost predicate TopRisk(v: LocalView)
    requires v.state.Some?
  {
    var found := EvaluateAll(v.brain.evaluate, v.state.value, v.peers.Values());
    && (v.active == None <==> found == [])
    && (v.active.Some? ==> v.active.value in found
                           && forall risk :: risk in found ==>
                               Score(v.brain.policy, risk) <= Score(v.brain.policy, v.active.value))
  }

  /** In an exact network every positioned node's active risk is the top one. */
  lemma ActiveRiskIsTop(net: Net, i: Id)
    requires Exact(net) && i in net.nodes.at && StateOf(net, i).Some?
    ensures TopRisk(net.nodes.at[i].local)
  {
    assert ExactAt(net, i);
  }

  // ---------------------------------------------------------------- what messages change

  ghost predicate SameTable(a: Net, b: Net) {
    a.metric == b.metric && a.range == b.range && a.nodes.keys == b.nodes.keys && a.nodes.at.Keys == b.nodes.at.Keys
  }

  ghost predicate SameLocals(a: Net, b: Net) {
    SameTable(a, b) && forall i :: i in a.nodes.at ==> a.nodes.at[i].local == b.nodes.at[i].local
  }

  /** Risk messages change nobody's view. */
  lemma {:induction false} RiskDeliveryKeepsLocals(net: Net, i: Id, m: Message, targets: seq<Id>, now: int)
    requires m.RiskDetected? && i in net.nodes.at
    ensures SameLocals(net, Deliver(net, i, m, targets, now))
    decreases |targets|
  {
    if targets != [] {
      if targets[0] in net.nodes.at && InRange(net, i, targets[0]) {
        RiskDeliveryKeepsLocals(Delivered(Handle(net, targets[0], m, now), i), i, m, targets[1..], now);
      } else {
        RiskDeliveryKeepsLocals(net, i, m, targets[1..], now);
      }
    }
  }

  lemma BroadcastRiskKeepsLocals(net: Net, i: Id, risk: RiskEvent, now: int)
    requires i in net.nodes.at
    ensures SameLocals(net, BroadcastRisk(net, i, risk, now))
  {
    if StateOf(net, i).Some? {
      var m := RiskDetected(i, risk, StateOf(net, i).value.position);
      RiskSendKeepsLocals(net, i, m, net.nodes.at[i].cloud.internet, now);
    }
  }

  lemma RiskSendKeepsLocals(net: Net, i: Id, m: Message, online: bool, now: int)
    requires m.RiskDetected? && i in net.nodes.at
    ensures SameLocals(net, Send(net, i, m, online, now).0)
  {
    RiskDeliveryKeepsLocals(Sent(net, i), i, m, Without(net.nodes.keys, i), now);
  }

  function Heard(v: LocalView, peer: VehicleState): LocalView {
    Reassessed(Learned(v, peer))
  }

  lemma HandleState(net: Net, j: Id, s: VehicleState, now: int)
    requires Shaped(net) && j in net.nodes.at && s.actorId in net.nodes.at && s.actorId != j
    ensures
      var r := Handle(net, j, StateUpdated(s.actorId, s), now);
      SameTable(net, r) && forall k :: k in net.nodes.at ==>
        r.nodes.at[k].local == if k == j && InRange(net, j, s.actorId) then Heard(net.nodes.at[j].local, s)
            else net.nodes.at[k].local
  {
    var counted := Received(net, j);
    NearbyMembers(counted, j);
    if s.actorId in Nearby(counted, j) {
      var seen := Learned(counted.nodes.at[j].local, s);
      var updated := WithLocal(counted, j, Reassessed(seen));
      if Activation(seen).Some? {
        BroadcastRiskKeepsLocals(updated, j, Activation(seen).value, now);
      }
    }
  }

  /** `r` differs from `net` in that the targets in range of `i` have heard its state. */
  ghost predicate Spread(net: Net, r: Net, i: Id, s: VehicleState, targets: seq<Id>)
    requires i in net.nodes.at
  {
    SameTable(net, r) && forall j :: j in net.nodes.at ==>
      r.nodes.at[j].local == if j in targets && InRange(net, i, j) then Heard(net.nodes.at[j].local, s)
          else net.nodes.at[j].local
  }

  /** One receiver after the other: the spread over `[t] + rest` is that over `t`, then over `rest`. */
  lemma SpreadCons(net: Net, next: Net, r: Net, i: Id, s: VehicleState, t: Id, rest: seq<Id>)
    requires i in net.nodes.at && t !in rest && i != t && SameTable(net, next)
    requires forall k :: k in net.nodes.at ==>
               next.nodes.at[k].local == if k == t && InRange(net, i, t) then Heard(net.nodes.at[t].local, s)
                   else net.nodes.at[k].local
    requires Spread(next, r, i, s, rest)
    ensures Spread(net, r, i, s, [t] + rest)
  {
    forall k | k in net.nodes.at
      ensures StateOf(next, k) == StateOf(net, k)
    {
    }
    forall j | j in net.nodes.at
      ensures r.nodes.at[j].local == if j in [t] + rest && InRange(net, i, j) then Heard(net.nodes.at[j].local, s)
                                     else net.nodes.at[j].local
    {
      SpreadConsAt(net, next, r, i, s, t, rest, j);
    }
  }

  lemma SpreadConsAt(net: Net, next: Net, r: Net, i: Id, s: VehicleState, t: Id, rest: seq<Id>, j: Id)
    requires i in net.nodes.at && j in net.nodes.at && t !in rest && SameTable(net, next) && Spread(next, r, i, s, rest)
    requires StateOf(next, i) == StateOf(net, i) && StateOf(next, j) == StateOf(net, j)
    requires next.nodes.at[j].local == if j == t && InRange(net, i, t) then Heard(net.nodes.at[t].local, s)
                                       else net.nodes.at[j].local
    ensures r.nodes.at[j].local == if j in [t] + rest && InRange(net, i, j) then Heard(net.nodes.at[j].local, s)
                                   else net.nodes.at[j].local
  {
    assert InRange(next, i, j) == InRange(net, i, j);
    assert j in [t] + rest <==> j == t || j in rest;
  }

  lemma {:induction false} StateDeliverySpreads(net: Net, i: Id, s: VehicleState, targets: seq<Id>, now: int)
    requires Shaped(net) && i in net.nodes.at && s.actorId == i
    requires Distinct(targets) && i !in targets
    ensures Spread(net, Deliver(net, i, StateUpdated(i, s), targets, now), i, s, targets)
    decreases |targets|
  {
    if targets != [] {
      var t := targets[0];
      var m := StateUpdated(i, s);
      assert targets == [t] + targets[1..] && t !in targets[1..];
      var next := net;
      if t in net.nodes.at && InRange(net, i, t) {
        HandleState(net, t, s, now);
        next := Delivered(Handle(net, t, m, now), i);
      }
      StateDeliverySpreads(next, i, s, targets[1..], now);
      SpreadCons(net, next, Deliver(net, i, m, targets, now), i, s, t, targets[1..]);
    }
  }

  lemma SpreadUpToCounters(net: Net, sent: Net, delivered: Net, r: Net, i: Id, s: VehicleState, targets: seq<Id>)
    requires i in net.nodes.at && SameLocals(net, sent) && SameLocals(delivered, r)
      && Spread(sent, delivered, i, s, targets)
    ensures Spread(net, r, i, s, targets)
  {
  }

  lemma BroadcastIsDelivery(net: Net, i: Id, s: VehicleState, now: int)
    requires i in net.nodes.at && StateOf(net, i) == Some(s)
    ensures SameLocals(Deliver(Sent(net, i), i, StateUpdated(i, s), Without(net.nodes.keys, i), now),
                       BroadcastState(net, i, now))
  {
  }

  lemma BroadcastStateSpreads(net: Net, i: Id, now: int)
    requires Shaped(net) && i in net.nodes.at && StateOf(net, i).Some? && OwnState(net, i)
    ensures Spread(net, BroadcastState(net, i, now), i, StateOf(net, i).value, Without(net.nodes.keys, i))
  {
    var s := StateOf(net, i).value;
    var targets := Without(net.nodes.keys, i);
    var sent := Sent(net, i);
    assert Distinct(targets) && i !in targets by {
      WithoutMembers(net.nodes.keys, i);
    }
    StateDeliverySpreads(sent, i, s, targets, now);
    BroadcastIsDelivery(net, i, s, now);
    SpreadUpToCounters(net, sent, Deliver(sent, i, StateUpdated(i, s), targets, now), BroadcastState(net, i, now), i,
                       s, targets);
  }

  lemma SpreadAt(net: Net, r: Net, i: Id, s: VehicleState, k: Id)
    requires net.nodes.Ok() && i in net.nodes.at && k in net.nodes.at
      && Spread(net, r, i, s, Without(net.nodes.keys, i))
    ensures k in r.nodes.at && StateOf(r, k) == StateOf(net, k)
    ensures r.nodes.at[k].local == if k != i && InRange(net, i, k) then Heard(net.nodes.at[k].local, s)
      else net.nodes.at[k].local
  {
    WithoutMembers(net.nodes.keys, i);
  }

  // ---------------------------------------------------------------- while one node moves

  /** Node `i`'s knowledge of `j` while node `a` moves: nothing out of range, only `a` may be stale or
      missing, and `a` itself may still miss the nodes in `missing`. */
  ghost predicate PairOk(net: Net, a: Id, missing: set<Id>, i: Id, j: Id)
    requires i in net.nodes.at
  {
    var peers := net.nodes.at[i].local.peers.at;
    && (j in peers ==>
          j in net.nodes.at && j != i && InRange(net, i, j)
          && (j != a ==> StateOf(net, j) == Some(peers[j])))
    && (j in net.nodes.at && j != i && InRange(net, i, j) && j != a && !(i == a && j in missing) ==> j in peers)
  }

  ghost predicate Almost(net: Net, a: Id, missing: set<Id>) {
    && Shaped(net)
    && (forall i {:trigger OwnState(net, i)} :: i in net.nodes.at ==>
        Coherent(net.nodes.at[i].local) && OwnState(net, i))
    && (forall i, j {:trigger PairOk(net, a, missing, i, j)} :: i in net.nodes.at ==> PairOk(net, a, missing, i, j))
  }

  lemma HeardIsCoherent(v: LocalView, peer: VehicleState)
    requires v.peers.Ok() && v.state.Some?
    ensures Coherent(Heard(v, peer)) && Heard(v, peer).state == v.state
    ensures Heard(v, peer).peers.at == v.peers.at[peer.actorId := peer]
  {
    v.peers.PutOk(peer.actorId, peer);
  }

  lemma SpreadKeepsCoherent(net: Net, r: Net, i: Id, k: Id)
    requires net.nodes.Ok() && i in net.nodes.at && k in net.nodes.at && StateOf(net, i).Some?
    requires Spread(net, r, i, StateOf(net, i).value, Without(net.nodes.keys, i))
    requires Coherent(net.nodes.at[k].local) && OwnState(net, k)
    ensures k in r.nodes.at && Coherent(r.nodes.at[k].local) && OwnState(r, k)
  {
    SpreadAt(net, r, i, StateOf(net, i).value, k);
    if k != i && InRange(net, i, k) {
      HeardIsCoherent(net.nodes.at[k].local, StateOf(net, i).value);
    }
  }

  lemma ReplyPair(net: Net, r: Net, a: Id, missing: set<Id>, p: Id, i: Id, j: Id)
    requires Almost(net, a, missing) && p in net.nodes.at && p != a && StateOf(net, p).Some? && i in net.nodes.at
    requires Spread(net, r, p, StateOf(net, p).value, Without(net.nodes.keys, p))
    ensures i in r.nodes.at && PairOk(r, a, missing - {p}, i, j)
  {
    var s := StateOf(net, p).value;
    assert OwnState(net, p) && OwnState(net, i) && PairOk(net, a, missing, i, j);
    SpreadAt(net, r, p, s, i);
    if j in net.nodes.at {
      SpreadAt(net, r, p, s, j);
    }
    if i != p && InRange(net, p, i) {
      HeardIsCoherent(net.nodes.at[i].local, s);
    }
  }

  /** A reply of `p` tells `a` about `p` and repeats what the others know. */
  lemma ReplyFillsGap(net: Net, r: Net, a: Id, missing: set<Id>, p: Id)
    requires Almost(net, a, missing) && p in net.nodes.at && p != a && StateOf(net, p).Some?
    requires Spread(net, r, p, StateOf(net, p).value, Without(net.nodes.keys, p))
    ensures Almost(r, a, missing - {p})
  {
    forall i | i in r.nodes.at
      ensures Coherent(r.nodes.at[i].local) && OwnState(r, i)
    {
      assert OwnState(net, i);
      SpreadKeepsCoherent(net, r, p, i);
    }
    forall i, j | i in r.nodes.at
      ensures PairOk(r, a, missing - {p}, i, j)
    {
      ReplyPair(net, r, a, missing, p, i, j);
    }
  }

  lemma CompletedPair(net: Net, r: Net, a: Id, i: Id, j: Id)
    requires Almost(net, a, {}) && a in net.nodes.at && StateOf(net, a).Some? && i in net.nodes.at
    requires Spread(net, r, a, StateOf(net, a).value, Without(net.nodes.keys, a))
    ensures i in r.nodes.at
    ensures j in r.nodes.at[i].local.peers.at <==> j in r.nodes.at && j != i && InRange(r, i, j)
    ensures j in r.nodes.at[i].local.peers.at ==> StateOf(r, j) == Some(r.nodes.at[i].local.peers.at[j])
  {
    var s := StateOf(net, a).value;
    assert OwnState(net, a) && OwnState(net, i) && PairOk(net, a, {}, i, j);
    SpreadAt(net, r, a, s, i);
    if j in net.nodes.at {
      SpreadAt(net, r, a, s, j);
    }
    if i != a && InRange(net, a, i) {
      HeardIsCoherent(net.nodes.at[i].local, s);
    }
  }

  lemma CompletedView(net: Net, r: Net, a: Id, i: Id)
    requires Almost(net, a, {}) && a in net.nodes.at && StateOf(net, a).Some? && i in net.nodes.at
    requires Spread(net, r, a, StateOf(net, a).value, Without(net.nodes.keys, a))
    ensures i in r.nodes.at && r.nodes.at[i].local.peers.at == InRangeStates(r, i)
  {
    forall j
      ensures j in r.nodes.at[i].local.peers.at <==> j in r.nodes.at && j != i && InRange(r, i, j)
      ensures j in r.nodes.at[i].local.peers.at ==> StateOf(r, j) == Some(r.nodes.at[i].local.peers.at[j])
    {
      CompletedPair(net, r, a, i, j);
    }
  }

  lemma SameTableShaped(a: Net, b: Net)
    requires Shaped(a) && SameTable(a, b)
    ensures Shaped(b)
  {
  }

  lemma CompletedAt(net: Net, r: Net, a: Id, i: Id)
    requires Almost(net, a, {}) && a in net.nodes.at && StateOf(net, a).Some? && i in net.nodes.at
    requires Spread(net, r, a, StateOf(net, a).value, Without(net.nodes.keys, a))
    ensures i in r.nodes.at && ExactAt(r, i)
  {
    assert OwnState(net, i);
    SpreadKeepsCoherent(net, r, a, i);
    CompletedView(net, r, a, i);
  }

  /** Once `a` misses nobody, its own broadcast makes every view exact. */
  lemma BroadcastCompletes(net: Net, r: Net, a: Id)
    requires Almost(net, a, {}) && a in net.nodes.at && StateOf(net, a).Some?
    requires Spread(net, r, a, StateOf(net, a).value, Without(net.nodes.keys, a))
    ensures Exact(r)
  {
    SameTableShaped(net, r);
    forall i | i in r.nodes.at
      ensures ExactAt(r, i)
    {
      CompletedAt(net, r, a, i);
    }
  }

  /** The replies of all missing nodes fill every gap. */
  lemma {:induction false} HandshakeFillsGaps(net: Net, a: Id, missing: set<Id>, entering: seq<Id>, now: int)
    requires Almost(net, a, missing) && a in net.nodes.at
    requires forall p :: p in entering ==> p in net.nodes.at && p != a && StateOf(net, p).Some?
    requires forall p :: p in missing ==> p in entering
    ensures SameTable(net, Handshake(net, entering, now))
      && StateOf(Handshake(net, entering, now), a) == StateOf(net, a)
    ensures Almost(Handshake(net, entering, now), a, {})
    decreases |entering|
  {
    if entering == [] {
      assert missing == {};
    } else {
      var p := entering[0];
      var next := BroadcastState(net, p, now);
      assert p in entering && entering == [p] + entering[1..];
      ReplyStep(net, a, missing, p, now);
      forall q | q in entering[1..]
        ensures q in next.nodes.at && q != a && StateOf(next, q).Some?
      {
        assert q in entering;
        ReplyStates(net, p, q, now);
      }
      ReplyStates(net, p, a, now);
      HandshakeFillsGaps(next, a, missing - {p}, entering[1..], now);
    }
  }

  lemma ReplyStates(net: Net, p: Id, k: Id, now: int)
    requires Shaped(net) && p in net.nodes.at && StateOf(net, p).Some? && OwnState(net, p) && k in net.nodes.at
    ensures k in BroadcastState(net, p, now).nodes.at && StateOf(BroadcastState(net, p, now), k) == StateOf(net, k)
  {
    BroadcastStateSpreads(net, p, now);
    SpreadAt(net, BroadcastState(net, p, now), p, StateOf(net, p).value, k);
  }

  lemma ReplyStep(net: Net, a: Id, missing: set<Id>, p: Id, now: int)
    requires Almost(net, a, missing) && p in net.nodes.at && p != a && StateOf(net, p).Some?
    ensures SameTable(net, BroadcastState(net, p, now)) && OwnState(net, p)
    ensures Almost(BroadcastState(net, p, now), a, missing - {p})
  {
    assert OwnState(net, p);
    BroadcastStateSpreads(net, p, now);
    ReplyFillsGap(net, BroadcastState(net, p, now), a, missing, p);
  }

  // ---------------------------------------------------------------- pruning

  lemma ReassessedIsCoherent(v: LocalView)
    requires v.peers.Ok() && v.state.Some?
    ensures Coherent(Reassessed(v))
  {
  }

  /** A node's view cut down to the peers in range. */
  ghost predicate CutDown(net: Net, v: LocalView, i: Id, cut: LocalView)
    requires i in net.nodes.at
  {
    && cut.state == v.state
    && cut.peers.at == (map j | j in v.peers.at && j in net.nodes.at && j != i && InRange(net, i, j) :: v.peers.at[j])
    && Coherent(cut)
  }

  lemma AllNearIsCut(net: Net, i: Id)
    requires Shaped(net) && i in net.nodes.at && Coherent(net.nodes.at[i].local)
    requires AllNear(net, i)
    ensures CutDown(net, net.nodes.at[i].local, i, net.nodes.at[i].local)
  {
    NearbyMembers(net, i);
  }

  lemma NarrowedPeers(net: Net, i: Id)
    requires Shaped(net) && i in net.nodes.at && net.nodes.at[i].local.peers.Ok()
    ensures
      var v, cut := net.nodes.at[i].local, Narrowed(net, i);
      && cut.state == v.state && cut.peers.Ok()
      && cut.peers.at == map j | j in v.peers.at && j in net.nodes.at && j != i && InRange(net, i, j) :: v.peers.at[j]
  {
    NearbyMembers(net, i);
    net.nodes.at[i].local.peers.KeepOk(set j | j in Nearby(net, i));
  }

  lemma NarrowedIsCut(net: Net, i: Id)
    requires Shaped(net) && i in net.nodes.at && net.nodes.at[i].local.peers.Ok() && StateOf(net, i).Some?
    ensures CutDown(net, net.nodes.at[i].local, i, Reassessed(Narrowed(net, i)))
  {
    NarrowedPeers(net, i);
    ReassessedIsCoherent(Narrowed(net, i));
  }

  lemma RefreshCutsDown(net: Net, i: Id, onlyIfChanged: bool)
    requires Shaped(net) && i in net.nodes.at && net.nodes.at[i].local.peers.Ok()
    requires StateOf(net, i).Some?
    requires onlyIfChanged ==> Coherent(net.nodes.at[i].local)
    ensures SameTable(net, RefreshPeers(net, i, onlyIfChanged))
    ensures forall k :: k in net.nodes.at && k != i ==>
        RefreshPeers(net, i, onlyIfChanged).nodes.at[k] == net.nodes.at[k]
    ensures CutDown(net, net.nodes.at[i].local, i, RefreshPeers(net, i, onlyIfChanged).nodes.at[i].local)
  {
    if onlyIfChanged && AllNear(net, i) {
      AllNearIsCut(net, i);
    } else {
      NarrowedIsCut(net, i);
    }
  }

  /** A node without a state has nothing to prune. */
  lemma RefreshWithoutState(net: Net, i: Id)
    requires Shaped(net) && i in net.nodes.at && Coherent(net.nodes.at[i].local) && StateOf(net, i).None?
    ensures RefreshPeers(net, i, true) == net
  {
  }

  ghost predicate PrunedAt(net: Net, r: Net, id: Id, ids: seq<Id>, i: Id)
    requires i in net.nodes.at
  {
    && i in r.nodes.at
    && if i in ids && i != id && StateOf(net, i).Some?
       then CutDown(net, net.nodes.at[i].local, i, r.nodes.at[i].local)
       else r.nodes.at[i].local == net.nodes.at[i].local
  }

  ghost predicate PrunedFrom(net: Net, r: Net, id: Id, ids: seq<Id>) {
    SameTable(net, r) && forall i {:trigger PrunedAt(net, r, id, ids, i)} :: i in net.nodes.at ==>
        PrunedAt(net, r, id, ids, i)
  }

  lemma RefreshOne(net: Net, id: Id, i: Id)
    requires Shaped(net) && i in net.nodes.at && i != id && Coherent(net.nodes.at[i].local)
    ensures SameTable(net, RefreshPeers(net, i, true))
    ensures forall k :: k in net.nodes.at && k != i ==> RefreshPeers(net, i, true).nodes.at[k] == net.nodes.at[k]
    ensures PrunedAt(net, RefreshPeers(net, i, true), id, [i], i)
    ensures Coherent(RefreshPeers(net, i, true).nodes.at[i].local)
  {
    if StateOf(net, i).Some? {
      RefreshCutsDown(net, i, true);
    } else {
      RefreshWithoutState(net, i);
    }
  }

  /** Pruning one node and then the rest prunes each once: pruning moves nobody. */
  lemma PrunedCons(net: Net, next: Net, r: Net, id: Id, t: Id, rest: seq<Id>)
    requires t !in rest && t in net.nodes.at && t != id && SameTable(net, next) && PrunedFrom(next, r, id, rest)
    requires forall k :: k in net.nodes.at && k != t ==> next.nodes.at[k] == net.nodes.at[k]
    requires PrunedAt(net, next, id, [t], t)
    ensures PrunedFrom(net, r, id, [t] + rest)
  {
    forall k | k in net.nodes.at
      ensures StateOf(next, k) == StateOf(net, k)
    {
    }
    forall i | i in net.nodes.at
      ensures PrunedAt(net, r, id, [t] + rest, i)
    {
      assert PrunedAt(next, r, id, rest, i);
    }
  }

  lemma PrunedSkip(net: Net, r: Net, id: Id, t: Id, rest: seq<Id>)
    requires (t !in net.nodes.at || t == id) && PrunedFrom(net, r, id, rest)
    ensures PrunedFrom(net, r, id, [t] + rest)
  {
    forall i | i in net.nodes.at
      ensures PrunedAt(net, r, id, [t] + rest, i)
    {
      assert PrunedAt(net, r, id, rest, i);
    }
  }

  ghost predicate OthersCoherent(net: Net, id: Id) {
    Shaped(net) && forall i :: i in net.nodes.at && i != id ==> Coherent(net.nodes.at[i].local)
  }

  lemma OneKeepsCoherent(net: Net, next: Net, id: Id, t: Id)
    requires OthersCoherent(net, id) && SameTable(net, next) && t in net.nodes.at && Coherent(next.nodes.at[t].local)
    requires forall k :: k in net.nodes.at && k != t ==> next.nodes.at[k] == net.nodes.at[k]
    ensures OthersCoherent(next, id)
  {
  }

  lemma RefreshOthersUnfolds(net: Net, id: Id, ids: seq<Id>)
    requires ids != []
    ensures ids[0] in net.nodes.at && ids[0] != id ==>
              RefreshOthers(net, id, ids) == RefreshOthers(RefreshPeers(net, ids[0], true), id, ids[1..])
    ensures ids[0] !in net.nodes.at || ids[0] == id ==> RefreshOthers(net, id, ids) == RefreshOthers(net, id, ids[1..])
  {
  }

  lemma NextCoherent(net: Net, id: Id, t: Id)
    requires OthersCoherent(net, id) && t in net.nodes.at && t != id
    ensures OthersCoherent(RefreshPeers(net, t, true), id)
  {
    RefreshOne(net, id, t);
    OneKeepsCoherent(net, RefreshPeers(net, t, true), id, t);
  }

  lemma PrunedThen(net: Net, id: Id, t: Id, rest: seq<Id>, r: Net)
    requires OthersCoherent(net, id) && t in net.nodes.at && t != id && t !in rest
    requires PrunedFrom(RefreshPeers(net, t, true), r, id, rest)
    ensures PrunedFrom(net, r, id, [t] + rest)
  {
    RefreshOne(net, id, t);
    PrunedCons(net, RefreshPeers(net, t, true), r, id, t, rest);
  }

  lemma {:induction false} RefreshOthersPrunes(net: Net, id: Id, ids: seq<Id>)
    requires Distinct(ids) && OthersCoherent(net, id)
    ensures PrunedFrom(net, RefreshOthers(net, id, ids), id, ids)
    decreases |ids|
  {
    if ids != [] {
      var t, rest := ids[0], ids[1..];
      assert ids == [t] + rest && t !in rest;
      RefreshOthersUnfolds(net, id, ids);
      if t in net.nodes.at && t != id {
        NextCoherent(net, id, t);
        RefreshOthersPrunes(RefreshPeers(net, t, true), id, rest);
        PrunedThen(net, id, t, rest, RefreshOthers(net, id, ids));
      } else {
        RefreshOthersPrunes(net, id, rest);
        PrunedSkip(net, RefreshOthers(net, id, ids), id, t, rest);
      }
    }
  }

  // ---------------------------------------------------------------- the operations keep views exact

  lemma CreateKeepsExact(net: Net, id: Id, brain: Brain, now: int)
    requires Exact(net) && id !in net.nodes.at
    ensures Exact(CreateNode(net, id, brain, now))
  {
    net.nodes.PutOk(id, NewNode(brain, net.internet, now));
    forall i | i in CreateNode(net, id, brain, now).nodes.at
      ensures ExactAt(CreateNode(net, id, brain, now), i)
    {
      CreateKeepsExactAt(net, id, brain, now, i);
    }
  }

  /** `r` is `net` with a node at `id` that has no state. */
  ghost predicate Silenced(net: Net, r: Net, id: Id) {
    && r.metric == net.metric && r.range == net.range
    && id in r.nodes.at && StateOf(r, id).None?
    && (forall k :: k in r.nodes.at <==> k == id || k in net.nodes.at)
    && forall k :: k in net.nodes.at && k != id ==> k in r.nodes.at && r.nodes.at[k] == net.nodes.at[k]
  }

  lemma SilencedStates(net: Net, r: Net, id: Id, i: Id)
    requires Silenced(net, r, id) && i in net.nodes.at && i != id && (id in net.nodes.at ==> !InRange(net, i, id))
    ensures i in r.nodes.at && InRangeStates(r, i) == InRangeStates(net, i)
  {
    forall j | j in net.nodes.at && j != id
      ensures j in r.nodes.at && StateOf(r, j) == StateOf(net, j)
    {
    }
  }

  /** A node out of everyone's range that loses its state, or a new one, leaves the other views exact. */
  lemma SilencedKeepsExactAt(net: Net, r: Net, id: Id, i: Id)
    requires Silenced(net, r, id) && i in net.nodes.at && i != id && (id in net.nodes.at ==> !InRange(net, i, id))
    requires ExactAt(net, i)
    ensures i in r.nodes.at && ExactAt(r, i)
  {
    SilencedStates(net, r, id, i);
  }

  lemma CreateSilences(net: Net, id: Id, brain: Brain, now: int)
    ensures Silenced(net, CreateNode(net, id, brain, now), id)
  {
  }

  lemma CreateKeepsExactAt(net: Net, id: Id, brain: Brain, now: int, i: Id)
    requires Exact(net) && id !in net.nodes.at && i in CreateNode(net, id, brain, now).nodes.at
    ensures ExactAt(CreateNode(net, id, brain, now), i)
  {
    if i == id {
      NewNodeIsExact(net, id, brain, now);
    } else {
      assert ExactAt(net, i);
      CreateSilences(net, id, brain, now);
      SilencedKeepsExactAt(net, CreateNode(net, id, brain, now), id, i);
    }
  }

  lemma ForgottenIsCoherent(v: LocalView, id: Id)
    requires Coherent(v)
    ensures Coherent(Forgotten(v, id)) && Forgotten(v, id).state == v.state
    ensures Forgotten(v, id).peers.at == v.peers.at - {id}
  {
    v.peers.DropOk(id);
  }

  lemma RemoveKeepsExact(net: Net, id: Id)
    requires Exact(net)
    ensures Exact(RemoveNode(net, id))
  {
    if id in net.nodes.at {
      WithoutMembers(net.nodes.keys, id);
      forall i | i in RemoveNode(net, id).nodes.at
        ensures ExactAt(RemoveNode(net, id), i)
      {
        RemoveKeepsExactAt(net, id, i);
      }
    }
  }

  lemma ForgottenKeepsState(v: LocalView, id: Id)
    ensures Forgotten(v, id).state == v.state
  {
  }

  lemma RemovedStates(net: Net, id: Id, k: Id)
    requires id in net.nodes.at && k in net.nodes.at && k != id
    ensures k in RemoveNode(net, id).nodes.at && StateOf(RemoveNode(net, id), k) == StateOf(net, k)
  {
    ForgottenKeepsState(net.nodes.at[k].local, id);
  }

  lemma RemovedInRangeStates(net: Net, id: Id, i: Id)
    requires id in net.nodes.at && i in net.nodes.at && i != id
    ensures InRangeStates(RemoveNode(net, id), i) == InRangeStates(net, i) - {id}
  {
    var r := RemoveNode(net, id);
    RemovedStates(net, id, i);
    forall j | j in net.nodes.at && j != id
      ensures j in r.nodes.at && StateOf(r, j) == StateOf(net, j)
    {
      RemovedStates(net, id, j);
    }
  }

  lemma RemoveKeepsExactAt(net: Net, id: Id, i: Id)
    requires Exact(net) && id in net.nodes.at && i in net.nodes.at && i != id
    ensures ExactAt(RemoveNode(net, id), i)
  {
    RemovedInRangeStates(net, id, i);
    assert ExactAt(net, i);
    ForgottenIsCoherent(net.nodes.at[i].local, id);
  }

  lemma SetInternetKeepsExact(net: Net, available: bool, now: int)
    requires Exact(net)
    ensures Exact(SetInternet(net, available, now))
  {
    var r := SetInternet(net, available, now);
    forall i | i in r.nodes.at
      ensures ExactAt(r, i)
    {
      assert ExactAt(net, i);
      assert InRangeStates(r, i) == InRangeStates(net, i);
    }
  }

  /** After the move and the pruning, only knowledge of the moved node and of the entering ones is off. */
  lemma PrunedIsAlmost(net: Net, state: VehicleState)
    requires Exact(net) && state.actorId in net.nodes.at
    ensures SameTable(net, Pruned(net, state)) && StateOf(Pruned(net, state), state.actorId) == Some(state)
    ensures Almost(Pruned(net, state), state.actorId, Entering(net, state))
  {
    var id := state.actorId;
    var moved := Moved(net, state);
    assert ExactAt(net, id);
    RefreshCutsDown(moved, id, false);
    var own := RefreshPeers(moved, id, false);
    forall i | i in own.nodes.at && i != id
      ensures Coherent(own.nodes.at[i].local)
    {
      assert ExactAt(net, i);
    }
    RefreshOthersPrunes(own, id, net.nodes.keys);
    PrunedPairs(net, state, own, Pruned(net, state));
  }

  /** The two prunings of an exact network in which `state.actorId` moved. */
  ghost predicate PrunedAfterMove(net: Net, state: VehicleState, own: Net, r: Net) {
    && Exact(net) && state.actorId in net.nodes.at
    && SameTable(net, own) && PrunedFrom(own, r, state.actorId, net.nodes.keys)
    && (forall k :: k in net.nodes.at && k != state.actorId ==> own.nodes.at[k] == net.nodes.at[k])
    && CutDown(Moved(net, state), Moved(net, state).nodes.at[state.actorId].local, state.actorId,
               own.nodes.at[state.actorId].local)
  }

  lemma PrunedNode(net: Net, state: VehicleState, own: Net, r: Net, i: Id)
    requires PrunedAfterMove(net, state, own, r) && i in net.nodes.at
    ensures i in r.nodes.at && StateOf(r, i) == if i == state.actorId then Some(state) else StateOf(net, i)
    ensures Coherent(r.nodes.at[i].local) && OwnState(r, i)
  {
    assert ExactAt(net, i) && PrunedAt(own, r, state.actorId, net.nodes.keys, i);
  }

  /** What the moved node knows after pruning: its old neighbours that are still in range. */
  lemma PrunedPairOwn(net: Net, state: VehicleState, own: Net, r: Net, missing: set<Id>, j: Id)
    requires PrunedAfterMove(net, state, own, r)
    requires forall k :: k in missing <==>
               (k in r.nodes.at && k != state.actorId && InRange(r, state.actorId, k)
                && !InRange(net, state.actorId, k))
    ensures state.actorId in r.nodes.at && PairOk(r, state.actorId, missing, state.actorId, j)
  {
    var id := state.actorId;
    assert ExactAt(net, id) && PrunedAt(own, r, id, net.nodes.keys, id);
    PrunedNode(net, state, own, r, id);
    if j in net.nodes.at {
      PrunedNode(net, state, own, r, j);
    }
  }

  /** Another node keeps of its peers those that are still in range. */
  lemma PrunedPeer(net: Net, state: VehicleState, own: Net, r: Net, i: Id, j: Id)
    requires PrunedAfterMove(net, state, own, r) && i in net.nodes.at && i != state.actorId
    ensures i in r.nodes.at
    ensures
      var (before, after) := (net.nodes.at[i].local.peers.at, r.nodes.at[i].local.peers.at);
      && (j in after ==> j in before && after[j] == before[j] && j in r.nodes.at && j != i && InRange(r, i, j))
      && (j in before && j in r.nodes.at && j != i && InRange(r, i, j) ==> j in after)
  {
    assert PrunedAt(own, r, state.actorId, net.nodes.keys, i);
    if j in net.nodes.at {
      PrunedAsOwn(net, state, own, r, i);
      PrunedAsOwn(net, state, own, r, j);
    }
    assert ExactAt(net, i);
  }

  /** Pruning the others moves nobody. */
  lemma PrunedAsOwn(net: Net, state: VehicleState, own: Net, r: Net, i: Id)
    requires PrunedAfterMove(net, state, own, r) && i in net.nodes.at
    ensures i in r.nodes.at && StateOf(r, i) == StateOf(own, i)
  {
    assert PrunedAt(own, r, state.actorId, net.nodes.keys, i);
  }

  /** What another node knows after pruning: as before, minus the moved node if it left its range. */
  lemma PrunedPairOther(net: Net, state: VehicleState, own: Net, r: Net, missing: set<Id>, i: Id, j: Id)
    requires PrunedAfterMove(net, state, own, r) && i in net.nodes.at && i != state.actorId
    ensures i in r.nodes.at && PairOk(r, state.actorId, missing, i, j)
  {
    PrunedPeer(net, state, own, r, i, j);
    assert ExactAt(net, i);
    PrunedNode(net, state, own, r, i);
    if j in net.nodes.at {
      PrunedNode(net, state, own, r, j);
    }
  }

  lemma PrunedPairs(net: Net, state: VehicleState, own: Net, r: Net)
    requires PrunedAfterMove(net, state, own, r) && r == Pruned(net, state)
    ensures SameTable(net, r) && StateOf(r, state.actorId) == Some(state)
    ensures Almost(r, state.actorId, Entering(net, state))
  {
    var id := state.actorId;
    NearbyMembers(net, id);
    NearbyMembers(r, id);
    forall i | i in r.nodes.at
      ensures Coherent(r.nodes.at[i].local) && OwnState(r, i)
    {
      PrunedNode(net, state, own, r, i);
    }
    PrunedNode(net, state, own, r, id);
    forall i, j | i in r.nodes.at
      ensures PairOk(r, id, Entering(net, state), i, j)
    {
      if i == id {
        PrunedPairOwn(net, state, own, r, Entering(net, state), j);
      } else {
        PrunedPairOther(net, state, own, r, Entering(net, state), i, j);
      }
    }
  }

  /** The main step: whatever order the entering nodes reply in, moving a node keeps every view exact. */
  lemma UpdateKeepsExact(net: Net, state: VehicleState, order: seq<Id>, now: int)
    requires Exact(net) && state.actorId in net.nodes.at && Enumerates(order, Entering(net, state))
    ensures Exact(UpdateKnown(net, state, order, now))
  {
    var id := state.actorId;
    var pruned := Pruned(net, state);
    PrunedIsAlmost(net, state);
    NearbyMembers(pruned, id);
    HandshakeFillsGaps(pruned, id, Entering(net, state), order, now);
    var met := Handshake(pruned, order, now);
    assert OwnState(met, id);
    BroadcastStateSpreads(met, id, now);
    var told := BroadcastState(met, id, now);
    BroadcastCompletes(met, told, id);
    var activation := Activation(Narrowed(Moved(net, state), id));
    if activation.Some? {
      BroadcastRiskKeepsLocals(told, id, activation.value, now);
      SameLocalsExact(told, UpdateKnown(net, state, order, now));
    }
  }

  lemma SameLocalsExact(a: Net, b: Net)
    requires Exact(a) && SameLocals(a, b)
    ensures Exact(b)
  {
    forall i | i in b.nodes.at
      ensures ExactAt(b, i)
    {
      assert ExactAt(a, i);
      assert InRangeStates(b, i) == InRangeStates(a, i);
    }
  }

  // ---------------------------------------------------------------- every reachable network

  lemma StepKeepsExact(net: Net, op: Op, now: int)
    requires Exact(net) && Legal(net, op, now)
    ensures Exact(Step(net, op, now))
  {
    match op {
      case Create(id, brain) => CreateKeepsExact(net, id, brain, now);
      case Update(state, brain, order) =>
        if state.actorId !in net.nodes.at {
          CreateKeepsExact(net, state.actorId, brain, now);
        }
        UpdateKeepsExact(Known(net, state.actorId, brain, now), state, order, now);
      case Remove(id) => RemoveKeepsExact(net, id);
      case Internet(available) => SetInternetKeepsExact(net, available, now);
    }
  }

  lemma {:induction false} RunKeepsExact(net: Net, ops: seq<(Op, int)>)
    requires Exact(net) && LegalRun(net, ops)
    ensures Exact(Run(net, ops))
    decreases |ops|
  {
    if ops != [] {
      StepKeepsExact(net, ops[0].0, ops[0].1);
      RunKeepsExact(Step(net, ops[0].0, ops[0].1), ops[1..]);
    }
  }

  /** After every complete manager call of every run, every node's view is exact, and its active risk is the top one
      over the states of the nodes in its range. */
  lemma EveryRunIsExact(metric: Metric, range: real, ops: seq<(Op, int)>)
    requires forall a, b :: metric(a, b) == metric(b, a)
    requires LegalRun(EmptyNet(metric, range), ops)
    ensures
      var net := Run(EmptyNet(metric, range), ops);
      && Exact(net)
      && forall i :: i in net.nodes.at && StateOf(net, i).Some? ==>
           net.nodes.at[i].local.peers.at == InRangeStates(net, i) && TopRisk(net.nodes.at[i].local)
  {
    RunKeepsExact(EmptyNet(metric, range), ops);
    var net := Run(EmptyNet(metric, range), ops);
    forall i | i in net.nodes.at && StateOf(net, i).Some?
      ensures net.nodes.at[i].local.peers.at == InRangeStates(net, i) && TopRisk(net.nodes.at[i].local)
    {
      assert ExactAt(net, i);
      ActiveRiskIsTop(net, i);
    }
  }

  /** In every reachable network two positioned nodes know each other's latest state if and only if they are at most the
      radio range apart. */
  lemma KnowsIffInRange(metric: Metric, range: real, ops: seq<(Op, int)>, i: Id, j: Id)
    requires (forall a, b :: metric(a, b) == metric(b, a)) && LegalRun(EmptyNet(metric, range), ops)
    requires
      var net := Run(EmptyNet(metric, range), ops);
      i in net.nodes.at && j in net.nodes.at && i != j && StateOf(net, i).Some? && StateOf(net, j).Some?
    ensures
      var net := Run(EmptyNet(metric, range), ops);
      var (here, there) := (StateOf(net, i).value, StateOf(net, j).value);
      (j in net.nodes.at[i].local.peers.at <==> metric(here.position, there.position) <= range)
      && (j in net.nodes.at[i].local.peers.at ==> net.nodes.at[i].local.peers.at[j] == there)
  {
    RunKeepsExact(EmptyNet(metric, range), ops);
    RunKeepsRange(EmptyNet(metric, range), ops);
    assert ExactAt(Run(EmptyNet(metric, range), ops), i);
  }

  lemma StepKeepsRange(net: Net, op: Op, now: int)
    requires Exact(net) && Legal(net, op, now)
    ensures Step(net, op, now).metric == net.metric && Step(net, op, now).range == net.range
  {
    match op {
      case Update(state, brain, order) =>
        if state.actorId !in net.nodes.at {
          CreateKeepsExact(net, state.actorId, brain, now);
        }
        UpdateKeepsRange(Known(net, state.actorId, brain, now), state, order, now);
      case _ =>
    }
  }

  lemma UpdateKeepsRange(net: Net, state: VehicleState, order: seq<Id>, now: int)
    requires Exact(net) && state.actorId in net.nodes.at && Enumerates(order, Entering(net, state))
    ensures
      var r := UpdateKnown(net, state, order, now);
      r.metric == net.metric && r.range == net.range
  {
    var id := state.actorId;
    var pruned := Pruned(net, state);
    PrunedIsAlmost(net, state);
    NearbyMembers(pruned, id);
    HandshakeFillsGaps(pruned, id, Entering(net, state), order, now);
    var met := Handshake(pruned, order, now);
    assert OwnState(met, id);
    BroadcastStateSpreads(met, id, now);
    var activation := Activation(Narrowed(Moved(net, state), id));
    if activation.Some? {
      BroadcastRiskKeepsLocals(BroadcastState(met, id, now), id, activation.value, now);
    }
  }

  lemma {:induction false} RunKeepsRange(net: Net, ops: seq<(Op, int)>)
    requires Exact(net) && LegalRun(net, ops)
    ensures Run(net, ops).metric == net.metric && Run(net, ops).range == net.range
    decreases |ops|
  {
    if ops != [] {
      StepKeepsExact(net, ops[0].0, ops[0].1);
      StepKeepsRange(net, ops[0].0, ops[0].1);
      RunKeepsRange(Step(net, ops[0].0, ops[0].1), ops[1..]);
    }
  }

  /** Creating an id that is in use keeps the views exact just when nobody is in its range: otherwise a
      neighbour keeps the state of the node that was replaced.  Both callers rule this out. */
  lemma RecreateKeepsExactIff(net: Net, id: Id, brain: Brain, now: int)
    requires Exact(net) && id in net.nodes.at
    ensures Exact(CreateNode(net, id, brain, now)) <==> InRangeStates(net, id) == map[]
  {
    net.nodes.PutOk(id, NewNode(brain, net.internet, now));
    if j :| j in InRangeStates(net, id) {
      ReplacedIsRemembered(net, id, brain, now, j);
    } else {
      forall i | i in CreateNode(net, id, brain, now).nodes.at
        ensures ExactAt(CreateNode(net, id, brain, now), i)
      {
        if i == id {
          NewNodeIsExact(net, id, brain, now);
        } else {
          assert ExactAt(net, i);
          RecreatedAt(net, id, brain, now, i);
        }
      }
    }
  }

  /** A neighbour of the replaced node still holds its state. */
  lemma ReplacedIsRemembered(net: Net, id: Id, brain: Brain, now: int, j: Id)
    requires Exact(net) && id in net.nodes.at && j in InRangeStates(net, id)
    ensures !Exact(CreateNode(net, id, brain, now))
  {
    var r := CreateNode(net, id, brain, now);
    assert ExactAt(net, id) && ExactAt(net, j);
    assert id in InRangeStates(net, j) && id !in InRangeStates(r, j);
    assert !ExactAt(r, j);
  }

  lemma NewNodeIsExact(net: Net, id: Id, brain: Brain, now: int)
    ensures ExactAt(CreateNode(net, id, brain, now), id)
  {
    assert InRangeStates(CreateNode(net, id, brain, now), id) == map[];
  }

  lemma RecreatedAt(net: Net, id: Id, brain: Brain, now: int, i: Id)
    requires Shaped(net) && id in net.nodes.at && i in net.nodes.at && i != id && InRangeStates(net, id) == map[]
    requires ExactAt(net, i)
    ensures ExactAt(CreateNode(net, id, brain, now), i)
  {
    LonelyIsUnseen(net, id, i);
    CreateSilences(net, id, brain, now);
    SilencedKeepsExactAt(net, CreateNode(net, id, brain, now), id, i);
  }

  lemma LonelyIsUnseen(net: Net, id: Id, i: Id)
    requires Shaped(net) && id in net.nodes.at && i in net.nodes.at && i != id && InRangeStates(net, id) == map[]
    ensures !InRange(net, i, id)
  {
    assert i !in InRangeStates(net, id);
  }
}
