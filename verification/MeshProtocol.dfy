/** The edge V2X mesh as a message protocol on values: what each node sees, what every message does
    to its receivers, and the manager operations built from them.  Delivery is in process, one
    receiver after the other, in registration order. */
module MeshProtocol {
  import opened Basics
  import opened Vehicles
  import opened RiskPrioritizer

  // ---------------------------------------------------------------- node views

  type Evaluator = (VehicleState, VehicleState) -> Option<RiskEvent>

  /** What turns a node's own state and its peers' states into its one active risk. */
  datatype Brain = Brain(evaluate: Evaluator, policy: Policy)

  /** Every risk the pairwise evaluator finds against the peers, in order. */
  function EvaluateAll(evaluate: Evaluator, ego: VehicleState, peers: seq<VehicleState>): seq<RiskEvent> {
    if peers == [] then []
    else
      var before := EvaluateAll(evaluate, ego, peers[..|peers| - 1]);
      match evaluate(ego, peers[|peers| - 1])
      case None => before
      case Some(risk) => before + [risk]
  }

  /** The top risk among all pairwise risks. */
  function Assessed(brain: Brain, ego: VehicleState, peers: seq<VehicleState>): Option<RiskEvent> {
    Top(brain.policy, EvaluateAll(brain.evaluate, ego, peers))
  }

  type Signature = (RiskType, multiset<Id>)

  /** The safety-relevant part of a node: its own state, what it knows of peers, its active risk. */
  datatype LocalView = LocalView(
    brain: Brain,
    state: Option<VehicleState>,
    peers: Dict<Id, VehicleState>,
    active: Option<RiskEvent>,
    signature: Option<Signature>)

  datatype Counters = Counters(received: nat, sent: nat, delivered: nat)

  datatype Connectivity = Full | DirectOnly | Intermittent | Isolated

  datatype Cloud = Cloud(internet: bool, connectivity: Connectivity, lastContact: Option<int>)

  datatype NodeView = NodeView(local: LocalView, counters: Counters, cloud: Cloud)

  datatype Message =
    | StateUpdated(sender: Id, state: VehicleState)
    | RiskDetected(sender: Id, risk: RiskEvent, at: Position)

  /** The network with the two event streams its listeners observe. */
  datatype Net = Net(
    metric: Metric,
    range: real,
    internet: bool,
    nodes: Dict<Id, NodeView>,
    messages: seq<Message>,
    risks: seq<(Id, RiskEvent)>)

  // ---------------------------------------------------------------- local risk assessment

  function SignatureOf(risk: Option<RiskEvent>): Option<Signature> {
    if risk.Some? then Some((risk.value.kind, multiset(risk.value.actors))) else None
  }

  /** The risk the local view calls for. */
  function DueRisk(v: LocalView): Option<RiskEvent>
  {
    if v.state.Some? then Assessed(v.brain, v.state.value, v.peers.Values()) else v.active
  }

  function Reassessed(v: LocalView): LocalView
  {
    if v.state.None? then v
    else v.(active := DueRisk(v), signature := SignatureOf(DueRisk(v)))
  }

  /** The due risk when it is a new conflict. */
  function Activation(v: LocalView): Option<RiskEvent>
  {
    if v.state.Some? && DueRisk(v).Some? && SignatureOf(DueRisk(v)) != v.signature then DueRisk(v) else None
  }

  // ---------------------------------------------------------------- the network

  function StateOf(net: Net, i: Id): Option<VehicleState>
    requires i in net.nodes.at
  {
    net.nodes.at[i].local.state
  }

  predicate InRange(net: Net, i: Id, j: Id)
    requires i in net.nodes.at && j in net.nodes.at
  {
    StateOf(net, i).Some? && StateOf(net, j).Some?
    && net.metric(StateOf(net, i).value.position, StateOf(net, j).value.position) <= net.range
  }

  /** The registered peers within radio range, in registration order. */
  function Nearby(net: Net, i: Id): seq<Id>
    requires i in net.nodes.at
  {
    Only(Without(net.nodes.keys, i), set j | j in net.nodes.at && InRange(net, i, j))
  }

  function WithNode(net: Net, i: Id, v: NodeView): (n: Net)
    requires i in net.nodes.at
  {
    net.(nodes := net.nodes.(at := net.nodes.at[i := v]))
  }

  function WithLocal(net: Net, i: Id, local: LocalView): Net
    requires i in net.nodes.at
  {
    WithNode(net, i, net.nodes.at[i].(local := local))
  }

  function Received(net: Net, i: Id): Net
    requires i in net.nodes.at
  {
    var v := net.nodes.at[i];
    WithNode(net, i, v.(counters := v.counters.(received := v.counters.received + 1)))
  }

  function Sent(net: Net, i: Id): Net
    requires i in net.nodes.at
  {
    var v := net.nodes.at[i];
    WithNode(net, i, v.(counters := v.counters.(sent := v.counters.sent + 1)))
  }

  function Delivered(net: Net, i: Id): Net
    requires i in net.nodes.at
  {
    var v := net.nodes.at[i];
    WithNode(net, i, v.(counters := v.counters.(delivered := v.counters.delivered + 1)))
  }

  function Contacted(net: Net, i: Id, now: int): Net
    requires i in net.nodes.at
  {
    var v := net.nodes.at[i];
    WithNode(net, i, v.(cloud := v.cloud.(lastContact := Some(now))))
  }

  // ---------------------------------------------------------------- sending and receiving

  function Rank(m: Message): nat {
    if m.StateUpdated? then 1 else 0
  }

  /** One transmission: every registered peer in range handles the message; the cloud is touched only
      when the sender is online.  The flag says whether anyone received it. */
  function Send(net: Net, i: Id, m: Message, online: bool, now: int): (r: (Net, bool))
    requires i in net.nodes.at
    ensures r.0.nodes.at.Keys == net.nodes.at.Keys
    decreases Rank(m), 2, 0
  {
    var delivered := Deliver(Sent(net, i), i, m, Without(net.nodes.keys, i), now);
    (if online then Contacted(delivered, i, now) else delivered, Nearby(net, i) != [])
  }

  function Deliver(net: Net, i: Id, m: Message, targets: seq<Id>, now: int): (r: Net)
    requires i in net.nodes.at
    ensures r.nodes.at.Keys == net.nodes.at.Keys
    decreases Rank(m), 1, |targets|
  {
    if targets == [] then net
    else if targets[0] in net.nodes.at && InRange(net, i, targets[0]) then
      Deliver(Delivered(Handle(net, targets[0], m, now), i), i, m, targets[1..], now)
    else Deliver(net, i, m, targets[1..], now)
  }

  /** The receive handler: a peer state within range enters the local view, and a newly activated risk
      is broadcast and emitted; a risk message is only counted. */
  function Handle(net: Net, j: Id, m: Message, now: int): (r: Net)
    requires j in net.nodes.at
    ensures r.nodes.at.Keys == net.nodes.at.Keys
    decreases Rank(m), 0, 0
  {
    var counted := Received(net, j);
    if m.StateUpdated? && m.state.actorId in Nearby(counted, j) then
      var seen := Learned(counted.nodes.at[j].local, m.state);
      var updated := WithLocal(counted, j, Reassessed(seen));
      if Activation(seen).Some? then
        Emit(BroadcastRisk(updated, j, Activation(seen).value, now), j, Activation(seen).value)
      else updated
    else counted
  }

  function Learned(v: LocalView, peer: VehicleState): LocalView {
    v.(peers := v.peers.Put(peer.actorId, peer))
  }

  function Emit(net: Net, i: Id, risk: RiskEvent): Net {
    net.(risks := net.risks + [(i, risk)])
  }

  function Published(r: (Net, bool), m: Message): Net {
    if r.1 then r.0.(messages := r.0.messages + [m]) else r.0
  }

  function BroadcastRisk(net: Net, i: Id, risk: RiskEvent, now: int): (r: Net)
    requires i in net.nodes.at
    ensures r.nodes.at.Keys == net.nodes.at.Keys
    decreases 0, 3, 0
  {
    if StateOf(net, i).None? then net
    else
      var m := RiskDetected(i, risk, StateOf(net, i).value.position);
      Published(Send(net, i, m, net.nodes.at[i].cloud.internet, now), m)
  }

  function BroadcastState(net: Net, i: Id, now: int): (r: Net)
    requires i in net.nodes.at
    ensures r.nodes.at.Keys == net.nodes.at.Keys
  {
    if StateOf(net, i).None? then net
    else
      var m := StateUpdated(i, StateOf(net, i).value);
      Published(Send(net, i, m, net.nodes.at[i].cloud.internet, now), m)
  }

  // ---------------------------------------------------------------- the delivery loop

  lemma DeliverStep(net: Net, i: Id, m: Message, targets: seq<Id>, k: nat, now: int)
    requires i in net.nodes.at && k < |targets|
    ensures Deliver(net, i, m, targets[k..], now) ==
            Deliver(if targets[k] in net.nodes.at && InRange(net, i, targets[k])
                    then Delivered(Handle(net, targets[k], m, now), i) else net,
                    i, m, targets[k + 1..], now)
  {
    assert targets[k..][0] == targets[k] && targets[k..][1..] == targets[k + 1..];
  }

  ghost predicate SomeInRange(net: Net, i: Id, targets: seq<Id>)
    requires i in net.nodes.at
  {
    exists j :: j in targets && j in net.nodes.at && InRange(net, i, j)
  }

  lemma SomeInRangeSnoc(net: Net, i: Id, targets: seq<Id>, k: nat)
    requires i in net.nodes.at && k < |targets|
    ensures SomeInRange(net, i, targets[..k + 1]) <==>
            SomeInRange(net, i, targets[..k]) || (targets[k] in net.nodes.at && InRange(net, i, targets[k]))
  {
    assert targets[..k + 1] == targets[..k] + [targets[k]];
  }

  lemma SomeInRangeIsNearby(net: Net, i: Id)
    requires i in net.nodes.at
    ensures SomeInRange(net, i, Without(net.nodes.keys, i)) <==> Nearby(net, i) != []
  {
    var keep := set j | j in net.nodes.at && InRange(net, i, j);
    OnlyMembers(Without(net.nodes.keys, i), keep);
    if Nearby(net, i) != [] {
      assert Nearby(net, i)[0] in Nearby(net, i);
    }
  }

  lemma SendUnfolds(net: Net, i: Id, m: Message, online: bool, now: int)
    requires i in net.nodes.at
    ensures
      var sent := Sent(net, i);
      var delivered := Deliver(sent, i, m, Without(sent.nodes.keys, i), now);
      && Send(net, i, m, online, now).0 == (if online then Contacted(delivered, i, now) else delivered)
      && Send(net, i, m, online, now).1 == SomeInRange(sent, i, Without(sent.nodes.keys, i))
  {
    SomeInRangeIsNearby(net, i);
    assert forall j :: j in net.nodes.at ==> InRange(Sent(net, i), i, j) == InRange(net, i, j);
  }

  // ---------------------------------------------------------------- manager operations

  function SwitchCloud(cloud: Cloud, available: bool, now: int): Cloud {
    Cloud(available, if available then Full else DirectOnly, if available then Some(now) else cloud.lastContact)
  }

  function NewNode(brain: Brain, internet: bool, now: int): NodeView {
    NodeView(LocalView(brain, None, EmptyDict(), None, None),
             Counters(0, 0, 0),
             SwitchCloud(Cloud(true, Full, None), internet, now))
  }

  function CreateNode(net: Net, id: Id, brain: Brain, now: int): (r: Net)
  {
    net.(nodes := net.nodes.Put(id, NewNode(brain, net.internet, now)))
  }

  function Forgotten(v: LocalView, id: Id): LocalView
  {
    Reassessed(v.(peers := v.peers.Drop(id)))
  }

  function RemoveNode(net: Net, id: Id): (r: Net)
  {
    if id !in net.nodes.at then net
    else
      net.(nodes := Dict(Without(net.nodes.keys, id),
                         map i | i in net.nodes.at && i != id ::
                           net.nodes.at[i].(local := Forgotten(net.nodes.at[i].local, id))))
  }

  function SetInternet(net: Net, available: bool, now: int): (r: Net)
  {
    net.(internet := available,
         nodes := Dict(net.nodes.keys,
                       map i | i in net.nodes.at ::
                         net.nodes.at[i].(cloud := SwitchCloud(net.nodes.at[i].cloud, available, now))))
  }

  /** Peer observations cut down to the peers still in range. */
  function Narrowed(net: Net, i: Id): LocalView
    requires i in net.nodes.at
  {
    var v := net.nodes.at[i].local;
    v.(peers := v.peers.Keep(set j | j in Nearby(net, i)))
  }

  predicate AllNear(net: Net, i: Id)
    requires i in net.nodes.at
  {
    forall j :: j in net.nodes.at[i].local.peers.at ==> j in Nearby(net, i)
  }

  /** Discards out-of-range observations; `onlyIfChanged` skips the work when there are none. */
  function RefreshPeers(net: Net, i: Id, onlyIfChanged: bool): (r: Net)
    requires i in net.nodes.at
    ensures r.nodes.at.Keys == net.nodes.at.Keys
  {
    if onlyIfChanged && AllNear(net, i) then net
    else WithLocal(net, i, Reassessed(Narrowed(net, i)))
  }

  /** The moved node can leave other nodes' range: each of them prunes. */
  function RefreshOthers(net: Net, id: Id, ids: seq<Id>): (r: Net)
    ensures r.nodes.at.Keys == net.nodes.at.Keys
    decreases |ids|
  {
    if ids == [] then net
    else
      var next := if ids[0] in net.nodes.at && ids[0] != id then RefreshPeers(net, ids[0], true) else net;
      RefreshOthers(next, id, ids[1..])
  }

  /** Discovery replies of the nodes that just came into range, in the given order. */
  function Handshake(net: Net, entering: seq<Id>, now: int): (r: Net)
    ensures r.nodes.at.Keys == net.nodes.at.Keys
    decreases |entering|
  {
    if entering == [] then net
    else
      var next := if entering[0] in net.nodes.at then BroadcastState(net, entering[0], now) else net;
      Handshake(next, entering[1..], now)
  }

  function Moved(net: Net, state: VehicleState): (r: Net)
    requires state.actorId in net.nodes.at
    ensures r.nodes.at.Keys == net.nodes.at.Keys
  {
    WithLocal(net, state.actorId, net.nodes.at[state.actorId].local.(state := Some(state)))
  }

  /** The network after the move and all pruning, before anything is sent. */
  function Pruned(net: Net, state: VehicleState): (r: Net)
    requires state.actorId in net.nodes.at
    ensures r.nodes.at.Keys == net.nodes.at.Keys
  {
    RefreshOthers(RefreshPeers(Moved(net, state), state.actorId, false), state.actorId, net.nodes.keys)
  }

  /** The nodes whose range the moved node just entered. */
  function Entering(net: Net, state: VehicleState): set<Id>
    requires state.actorId in net.nodes.at
  {
    set j | j in Nearby(Pruned(net, state), state.actorId) && j !in Nearby(net, state.actorId)
  }

  ghost predicate Enumerates(order: seq<Id>, ids: set<Id>) {
    Distinct(order) && forall i :: i in order <==> i in ids
  }

  /** The node's state is broadcast, then its new risk if there is one. */
  function Announced(net: Net, id: Id, activation: Option<RiskEvent>, now: int): (r: Net)
    requires id in net.nodes.at
  {
    var told := BroadcastState(net, id, now);
    if activation.Some? then Emit(BroadcastRisk(told, id, activation.value, now), id, activation.value) else told
  }

  /** `update_actor_state` on a known node; `order` is the iteration order of the entering set. */
  function UpdateKnown(net: Net, state: VehicleState, order: seq<Id>, now: int): (r: Net)
    requires state.actorId in net.nodes.at && Enumerates(order, Entering(net, state))
  {
    Announced(Handshake(Pruned(net, state), order, now), state.actorId,
              Activation(Narrowed(Moved(net, state), state.actorId)), now)
  }

  function Known(net: Net, id: Id, brain: Brain, now: int): (r: Net)
    ensures id in r.nodes.at
  {
    if id in net.nodes.at then net else CreateNode(net, id, brain, now)
  }

  // ---------------------------------------------------------------- runs

  /** A manager call.  An update carries the brain of the node it may have to create and the order in
      which the entering nodes reply. */
  datatype Op =
    | Create(id: Id, brain: Brain)
    | Update(state: VehicleState, defaultBrain: Brain, order: seq<Id>)
    | Remove(gone: Id)
    | Internet(available: bool)

  /** Callers create only unknown ids; the reply order lists the entering nodes. */
  ghost predicate Legal(net: Net, op: Op, now: int) {
    match op
    case Create(id, _) => id !in net.nodes.at
    case Update(state, brain, order) => Enumerates(order, Entering(Known(net, state.actorId, brain, now), state))
    case Remove(_) => true
    case Internet(_) => true
  }

  ghost function Step(net: Net, op: Op, now: int): Net
    requires Legal(net, op, now)
  {
    match op
    case Create(id, brain) => CreateNode(net, id, brain, now)
    case Update(state, brain, order) => UpdateKnown(Known(net, state.actorId, brain, now), state, order, now)
    case Remove(id) => RemoveNode(net, id)
    case Internet(available) => SetInternet(net, available, now)
  }

  /** A run; each call comes with its time. */
  ghost predicate LegalRun(net: Net, ops: seq<(Op, int)>)
    decreases |ops|
  {
    ops == [] || (Legal(net, ops[0].0, ops[0].1) && LegalRun(Step(net, ops[0].0, ops[0].1), ops[1..]))
  }

  ghost function Run(net: Net, ops: seq<(Op, int)>): Net
    requires LegalRun(net, ops)
    decreases |ops|
  {
    if ops == [] then net else Run(Step(net, ops[0].0, ops[0].1), ops[1..])
  }

  function EmptyNet(metric: Metric, range: real): Net {
    Net(metric, range, true, EmptyDict(), [], [])
  }
}
