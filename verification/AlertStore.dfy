/** The prioritiser's alert store with its per-actor counters: evaluating and resolving risks on values. */
module AlertStore {
  import opened Basics
  import opened Alerts

  /** `key` is the suppression key and `level` the level computed from the risk and the actors' states. */
  datatype Risk = Risk(id: string, score: real, key: string, level: Level, actors: seq<string>, confidence: real,
                       collisionClass: bool)

  datatype Rules = Rules(window: real, hysteresis: real, maxConcurrent: int, criticalPreempts: bool)

  datatype Desk = Desk(
    store: Dict<string, Alert>,
    counts: map<string, int>,
    log: map<string, real>,
    scores: map<string, real>)

  const EMPTY_DESK := Desk(EmptyDict(), map[], map[], map[])

  // ---------------------------------------------------------------- counters

  function Count(counts: map<string, int>, actor: string): int {
    if actor in counts then counts[actor] else 0
  }

  /** One counter step down, clamped at zero as the code does. */
  function Down(counts: map<string, int>, actor: string): map<string, int> {
    var left := (if actor in counts then counts[actor] else 1) - 1;
    counts[actor := if left > 0 then left else 0]
  }

  function AllDown(counts: map<string, int>, actors: seq<string>): map<string, int> {
    if actors == [] then counts else Down(AllDown(counts, actors[..|actors| - 1]), actors[|actors| - 1])
  }

  function AllUp(counts: map<string, int>, actors: seq<string>): map<string, int> {
    if actors == [] then counts
    else
      var before := AllUp(counts, actors[..|actors| - 1]);
      before[actors[|actors| - 1] := Count(before, actors[|actors| - 1]) + 1]
  }

  /** Occurrences of an actor in the ACTIVE alerts stored under these ids. */
  function Load(store: Dict<string, Alert>, ids: seq<string>, actor: string): nat {
    if ids == [] then 0
    else
      var id := ids[|ids| - 1];
      Load(store, ids[..|ids| - 1], actor)
      + (if id in store.at && store.at[id].status.Active? then multiset(store.at[id].actors)[actor] else 0)
  }

  function Occurrences(s: Desk, actor: string): nat {
    Load(s.store, s.store.keys, actor)
  }

  /** Every counter equals its actor's occurrences in ACTIVE stored alerts. */
  ghost predicate Exact(s: Desk) {
    s.store.Ok() && forall actor {:trigger Occurrences(s, actor)} {:trigger Count(s.counts, actor)} ::
      Count(s.counts, actor) == Occurrences(s, actor)
  }

  // ---------------------------------------------------------------- steps

  function ResolveStored(s: Desk, id: string): Desk {
    if id in s.store.at && s.store.at[id].status.Active? then
      s.(store := s.store.Put(id, s.store.at[id].(status := Resolved)),
         counts := AllDown(s.counts, s.store.at[id].actors))
    else s
  }

  /** The first stored ACTIVE alert of the risk. */
  function FirstOf(store: Dict<string, Alert>, ids: seq<string>, riskId: string): Option<string> {
    if ids == [] then None
    else if ids[0] in store.at && store.at[ids[0]].riskId == riskId && store.at[ids[0]].status.Active? then Some(ids[0])
    else FirstOf(store, ids[1..], riskId)
  }

  function ResolveRisk(s: Desk, riskId: string): Desk {
    var found := FirstOf(s.store, s.store.keys, riskId);
    if found.Some? then ResolveStored(s, found.value) else s
  }

  predicate Involves(a: Alert, actor: string) {
    a.status.Active? && actor in a.actors
  }

  function FirstAt(alerts: seq<Alert>, actor: string, level: Level): Option<Alert> {
    if alerts == [] then None
    else if Involves(alerts[0], actor) && alerts[0].level == level then Some(alerts[0])
    else FirstAt(alerts[1..], actor, level)
  }

  const LEVELS: seq<Level> := [Informational, Advisory, Warning, Critical]

  function LowestFrom(alerts: seq<Alert>, actor: string, levels: seq<Level>): Option<Alert> {
    if levels == [] then None
    else if FirstAt(alerts, actor, levels[0]).Some? then FirstAt(alerts, actor, levels[0])
    else LowestFrom(alerts, actor, levels[1..])
  }

  function Lowest(alerts: seq<Alert>, actor: string): Option<Alert> {
    LowestFrom(alerts, actor, LEVELS)
  }

  /** Makes room for an alert: an actor at its limit gives up its lowest alert, if that ranks lower. */
  function MakeRoom(s: Desk, rules: Rules, level: Level, actors: seq<string>, active: seq<Alert>): (Desk, bool)
    decreases |actors|
  {
    if actors == [] then (s, true)
    else if Count(s.counts, actors[0]) >= rules.maxConcurrent then
      var lowest := Lowest(active, actors[0]);
      if lowest.Some? && Rank(level) > Rank(lowest.value.level)
      then MakeRoom(ResolveStored(s, lowest.value.id), rules, level, actors[1..], active)
      else (s, false)
    else MakeRoom(s, rules, level, actors[1..], active)
  }

  predicate Minor(l: Level) {
    l.Advisory? || l.Informational?
  }

  predicate Shares(a: Alert, actors: seq<string>) {
    exists actor :: actor in actors && actor in a.actors
  }

  /** Resolves the minor alerts that share an actor. */
  function SuppressLower(s: Desk, actors: seq<string>, active: seq<Alert>): Desk {
    if active == [] then s
    else
      var before := SuppressLower(s, actors, active[..|active| - 1]);
      var a := active[|active| - 1];
      if a.status.Active? && Minor(a.level) && Shares(a, actors) then ResolveStored(before, a.id) else before
  }

  predicate Muted(s: Desk, rules: Rules, r: Risk, now: real) {
    r.key in s.log && now - s.log[r.key] < rules.window
  }

  predicate Settled(s: Desk, rules: Rules, r: Risk) {
    r.key in s.scores && (if r.score - s.scores[r.key] >= 0.0 then r.score - s.scores[r.key]
                          else s.scores[r.key] - r.score) < rules.hysteresis
  }

  function NewAlert(r: Risk, now: real, id: string): Alert {
    Alert(id, r.id, r.level, Active, r.actors, r.confidence, now, r.collisionClass)
  }

  function Issue(s: Desk, r: Risk, now: real, id: string): Desk {
    s.(store := s.store.Put(id, NewAlert(r, now, id)), log := s.log[r.key := now], counts := AllUp(s.counts, r.actors))
  }

  function Evaluate(s: Desk, rules: Rules, r: Risk, active: seq<Alert>, now: real, freshId: string)
    : (Desk, Option<Alert>)
  {
    if Muted(s, rules, r, now) || Settled(s, rules, r) then (s, None)
    else
      var (roomy, room) := MakeRoom(s.(scores := s.scores[r.key := r.score]), rules, r.level, r.actors, active);
      if !room then (roomy, None)
      else
        var cleared := if rules.criticalPreempts && r.level.Critical? then SuppressLower(roomy, r.actors, active)
            else roomy;
        (Issue(cleared, r, now, freshId), Some(NewAlert(r, now, freshId)))
  }

  // ---------------------------------------------------------------- counters stay exact

  lemma DropLast(actors: seq<string>)
    requires actors != []
    ensures multiset(actors) == multiset(actors[..|actors| - 1]) + multiset{actors[|actors| - 1]}
  {
    assert actors == actors[..|actors| - 1] + [actors[|actors| - 1]];
  }

  /** If no counter is smaller than what is taken off it, the clamp has no effect. */
  lemma {:induction false} AllDownIs(counts: map<string, int>, actors: seq<string>)
    requires forall actor :: Count(counts, actor) >= multiset(actors)[actor]
    ensures forall actor :: Count(AllDown(counts, actors), actor) == Count(counts, actor) - multiset(actors)[actor]
  {
    if actors != [] {
      DropLast(actors);
      AllDownIs(counts, actors[..|actors| - 1]);
    }
  }

  lemma {:induction false} AllUpIs(counts: map<string, int>, actors: seq<string>)
    ensures forall actor :: Count(AllUp(counts, actors), actor) == Count(counts, actor) + multiset(actors)[actor]
  {
    if actors != [] {
      DropLast(actors);
      AllUpIs(counts, actors[..|actors| - 1]);
    }
  }

  lemma {:induction false} LoadSame(store: Dict<string, Alert>, store': Dict<string, Alert>, ids: seq<string>,
                                    id: string, actor: string)
    requires id !in ids && forall x :: x != id ==>
        (x in store.at <==> x in store'.at) && (x in store.at ==> store.at[x] == store'.at[x])
    ensures Load(store, ids, actor) == Load(store', ids, actor)
  {
    if ids != [] {
      LoadSame(store, store', ids[..|ids| - 1], id, actor);
    }
  }

  /** Marking one ACTIVE alert as resolved takes its occurrences off. */
  lemma {:induction false} LoadResolved(store: Dict<string, Alert>, ids: seq<string>, id: string, actor: string)
    requires Distinct(ids) && id in ids && id in store.at && store.at[id].status.Active?
    ensures Load(store.Put(id, store.at[id].(status := Resolved)), ids, actor)
            == Load(store, ids, actor) - multiset(store.at[id].actors)[actor]
  {
    var n := |ids| - 1;
    var store' := store.Put(id, store.at[id].(status := Resolved));
    assert ids == ids[..n] + [ids[n]];
    if ids[n] == id {
      LoadSame(store, store', ids[..n], id, actor);
    } else {
      LoadResolved(store, ids[..n], id, actor);
    }
  }

  lemma ResolveKeepsExact(s: Desk, id: string)
    requires Exact(s)
    ensures Exact(ResolveStored(s, id))
    ensures forall actor :: Count(ResolveStored(s, id).counts, actor) <= Count(s.counts, actor)
  {
    if id in s.store.at && s.store.at[id].status.Active? {
      var r := ResolveStored(s, id);
      var actors := s.store.at[id].actors;
      forall actor
        ensures Occurrences(r, actor) == Occurrences(s, actor) - multiset(actors)[actor]
        ensures Count(s.counts, actor) >= multiset(actors)[actor]
      {
        LoadResolved(s.store, s.store.keys, id, actor);
        assert Count(s.counts, actor) == Occurrences(s, actor);
      }
      AllDownIs(s.counts, actors);
      s.store.PutOk(id, s.store.at[id].(status := Resolved));
    }
  }

  /** The clamp never bites: each counter that is stepped down is at least one. */
  lemma ClampNeverBites(s: Desk, id: string, k: nat)
    requires Exact(s) && id in s.store.at && s.store.at[id].status.Active? && k < |s.store.at[id].actors|
    ensures
      var actors := s.store.at[id].actors;
      var before := AllDown(s.counts, actors[..k]);
      actors[k] in before && before[actors[k]] >= 1
  {
    var actors := s.store.at[id].actors;
    forall actor
      ensures Count(s.counts, actor) >= multiset(actors)[actor] >= multiset(actors[..k])[actor]
    {
      LoadResolved(s.store, s.store.keys, id, actor);
      assert Count(s.counts, actor) == Occurrences(s, actor);
      assert actors == actors[..k] + actors[k..];
    }
    AllDownIs(s.counts, actors[..k]);
    assert actors == actors[..k] + [actors[k]] + actors[k + 1..];
    assert multiset(actors)[actors[k]] > multiset(actors[..k])[actors[k]];
  }

  lemma {:induction false} MakeRoomKeepsExact(s: Desk, rules: Rules, level: Level, actors: seq<string>,
                                              active: seq<Alert>)
    requires Exact(s)
    ensures Exact(MakeRoom(s, rules, level, actors, active).0)
    ensures MakeRoom(s, rules, level, actors, active).0.store.keys == s.store.keys
    decreases |actors|
  {
    if actors != [] {
      var lowest := Lowest(active, actors[0]);
      if Count(s.counts, actors[0]) < rules.maxConcurrent {
        MakeRoomKeepsExact(s, rules, level, actors[1..], active);
      } else if lowest.Some? && Rank(level) > Rank(lowest.value.level) {
        ResolveKeepsExact(s, lowest.value.id);
        MakeRoomKeepsExact(ResolveStored(s, lowest.value.id), rules, level, actors[1..], active);
      }
    }
  }

  lemma {:induction false} SuppressKeepsExact(s: Desk, actors: seq<string>, active: seq<Alert>)
    requires Exact(s)
    ensures Exact(SuppressLower(s, actors, active)) && SuppressLower(s, actors, active).store.keys == s.store.keys
    ensures forall actor :: Count(SuppressLower(s, actors, active).counts, actor) <= Count(s.counts, actor)
  {
    if active != [] {
      SuppressKeepsExact(s, actors, active[..|active| - 1]);
      ResolveKeepsExact(SuppressLower(s, actors, active[..|active| - 1]), active[|active| - 1].id);
    }
  }

  lemma LoadAdded(store: Dict<string, Alert>, id: string, a: Alert, actor: string)
    requires id !in store.at && store.Ok() && a.status.Active?
    ensures Load(store.Put(id, a), store.Put(id, a).keys, actor) == Load(store, store.keys, actor)
      + multiset(a.actors)[actor]
  {
    var store' := store.Put(id, a);
    assert store'.keys[..|store'.keys| - 1] == store.keys && store'.keys[|store'.keys| - 1] == id;
    LoadSame(store, store', store.keys, id, actor);
  }

  lemma IssueExactAt(s: Desk, r: Risk, now: real, id: string, s': Desk, actor: string)
    requires Exact(s) && id !in s.store.at && s' == Issue(s, r, now, id)
    ensures Count(s'.counts, actor) == Occurrences(s', actor)
    ensures Count(s'.counts, actor) == Count(s.counts, actor) + multiset(r.actors)[actor]
  {
    AllUpIs(s.counts, r.actors);
    LoadAdded(s.store, id, NewAlert(r, now, id), actor);
    assert Count(s.counts, actor) == Occurrences(s, actor);
  }

  lemma IssueKeepsExact(s: Desk, r: Risk, now: real, id: string, s': Desk)
    requires Exact(s) && id !in s.store.at && s' == Issue(s, r, now, id)
    ensures Exact(s')
  {
    s.store.PutOk(id, NewAlert(r, now, id));
    forall actor
      ensures Count(s'.counts, actor) == Occurrences(s', actor)
    {
      IssueExactAt(s, r, now, id, s', actor);
    }
  }

  lemma KeysNotIn(s: Desk, s': Desk, id: string)
    requires s.store.Ok() && s'.store.Ok() && s'.store.keys == s.store.keys && id !in s.store.at
    ensures id !in s'.store.at
  {
  }

  lemma EvaluateKeepsExact(s: Desk, rules: Rules, r: Risk, active: seq<Alert>, now: real, freshId: string)
    requires Exact(s) && freshId !in s.store.at
    ensures Exact(Evaluate(s, rules, r, active, now, freshId).0)
  {
    var scored := s.(scores := s.scores[r.key := r.score]);
    assert Exact(scored) by {
      assert forall actor :: Occurrences(scored, actor) == Occurrences(s, actor);
    }
    var (roomy, room) := MakeRoom(scored, rules, r.level, r.actors, active);
    MakeRoomKeepsExact(scored, rules, r.level, r.actors, active);
    if room && !Muted(s, rules, r, now) && !Settled(s, rules, r) {
      var cleared := if rules.criticalPreempts && r.level.Critical? then SuppressLower(roomy, r.actors, active)
          else roomy;
      SuppressKeepsExact(roomy, r.actors, active);
      KeysNotIn(s, cleared, freshId);
      IssueKeepsExact(cleared, r, now, freshId, Issue(cleared, r, now, freshId));
    }
  }

  // ---------------------------------------------------------------- runs

  datatype Op = EvaluateRisk(r: Risk, active: seq<Alert>, now: real, freshId: string) | Resolve(riskId: string)

  function Step(s: Desk, rules: Rules, op: Op): Desk {
    match op
    case EvaluateRisk(r, active, now, id) => Evaluate(s, rules, r, active, now, id).0
    case Resolve(riskId) => ResolveRisk(s, riskId)
  }

  function Run(s: Desk, rules: Rules, ops: seq<Op>): Desk
    decreases |ops|
  {
    if ops == [] then s else Run(Step(s, rules, ops[0]), rules, ops[1..])
  }

  /** Alert ids are generated fresh. */
  predicate FreshIds(s: Desk, rules: Rules, ops: seq<Op>)
    decreases |ops|
  {
    ops == [] || ((ops[0].EvaluateRisk? ==> ops[0].freshId !in s.store.at)
                  && FreshIds(Step(s, rules, ops[0]), rules, ops[1..]))
  }

  lemma StepKeepsExact(s: Desk, rules: Rules, op: Op)
    requires Exact(s) && (op.EvaluateRisk? ==> op.freshId !in s.store.at)
    ensures Exact(Step(s, rules, op))
  {
    match op
    case EvaluateRisk(r, active, now, id) => EvaluateKeepsExact(s, rules, r, active, now, id);
    case Resolve(riskId) =>
      var found := FirstOf(s.store, s.store.keys, riskId);
      if found.Some? {
        ResolveKeepsExact(s, found.value);
      }
  }

  /** Over any run, whatever alert lists the callers pass, each actor's counter equals its occurrences in ACTIVE
      stored alerts. */
  lemma {:induction false} CountersStayExact(s: Desk, rules: Rules, ops: seq<Op>)
    requires Exact(s) && FreshIds(s, rules, ops)
    ensures Exact(Run(s, rules, ops))
    decreases |ops|
  {
    if ops != [] {
      StepKeepsExact(s, rules, ops[0]);
      CountersStayExact(Step(s, rules, ops[0]), rules, ops[1..]);
    }
  }

  lemma EmptyIsExact()
    ensures Exact(EMPTY_DESK)
  {
  }

  /** So it is over every run of a new prioritizer. */
  lemma CountersExactFromStart(rules: Rules, ops: seq<Op>, actor: string)
    requires FreshIds(EMPTY_DESK, rules, ops)
    ensures Count(Run(EMPTY_DESK, rules, ops).counts, actor) == Occurrences(Run(EMPTY_DESK, rules, ops), actor)
  {
    EmptyIsExact();
    CountersStayExact(EMPTY_DESK, rules, ops);
  }

  // ---------------------------------------------------------------- the suppression window

  /** The key's last alert was issued at `since` or later. */
  ghost predicate IssuedSince(s: Desk, key: string, since: real) {
    key in s.log && s.log[key] >= since
  }

  lemma {:induction false} MakeRoomKeepsLog(s: Desk, rules: Rules, level: Level, actors: seq<string>,
                                            active: seq<Alert>)
    ensures MakeRoom(s, rules, level, actors, active).0.log == s.log
    decreases |actors|
  {
    if actors != [] {
      var lowest := Lowest(active, actors[0]);
      if Count(s.counts, actors[0]) < rules.maxConcurrent {
        MakeRoomKeepsLog(s, rules, level, actors[1..], active);
      } else if lowest.Some? && Rank(level) > Rank(lowest.value.level) {
        MakeRoomKeepsLog(ResolveStored(s, lowest.value.id), rules, level, actors[1..], active);
      }
    }
  }

  lemma {:induction false} SuppressKeepsLog(s: Desk, actors: seq<string>, active: seq<Alert>)
    ensures SuppressLower(s, actors, active).log == s.log
  {
    if active != [] {
      SuppressKeepsLog(s, actors, active[..|active| - 1]);
    }
  }

  /** An evaluation logs its key exactly when it issues an alert. */
  lemma EvaluateLogs(s: Desk, rules: Rules, r: Risk, active: seq<Alert>, now: real, freshId: string)
    ensures
      var (s', alert) := Evaluate(s, rules, r, active, now, freshId);
      && s'.log == (if alert.Some? then s.log[r.key := now] else s.log)
      && (alert.Some? && r.key in s.log ==> now - s.log[r.key] >= rules.window)
  {
    var scored := s.(scores := s.scores[r.key := r.score]);
    MakeRoomKeepsLog(scored, rules, r.level, r.actors, active);
    SuppressKeepsLog(MakeRoom(scored, rules, r.level, r.actors, active).0, r.actors, active);
  }

  lemma {:induction false} RunKeepsIssued(s: Desk, rules: Rules, ops: seq<Op>, key: string, since: real)
    requires IssuedSince(s, key, since) && forall op :: op in ops && op.EvaluateRisk? ==> op.now >= since
    ensures IssuedSince(Run(s, rules, ops), key, since)
    decreases |ops|
  {
    if ops != [] {
      var op := ops[0];
      assert op in ops;
      if op.EvaluateRisk? {
        EvaluateLogs(s, rules, op.r, op.active, op.now, op.freshId);
      }
      RunKeepsIssued(Step(s, rules, op), rules, ops[1..], key, since);
    }
  }

  /** Two alerts with the same suppression key are at least a window apart, whatever comes between them. */
  lemma SameKeyAlertsAreApart(s: Desk, rules: Rules, first: Op, between: seq<Op>, second: Op)
    requires first.EvaluateRisk? && second.EvaluateRisk? && first.r.key == second.r.key
    requires forall op :: op in between && op.EvaluateRisk? ==> op.now >= first.now
    requires Evaluate(s, rules, first.r, first.active, first.now, first.freshId).1.Some?
    requires Evaluate(Run(Step(s, rules, first), rules, between), rules, second.r, second.active, second.now,
                      second.freshId).1.Some?
    ensures second.now - first.now >= rules.window
  {
    EvaluateLogs(s, rules, first.r, first.active, first.now, first.freshId);
    RunKeepsIssued(Step(s, rules, first), rules, between, first.r.key, first.now);
    EvaluateLogs(Run(Step(s, rules, first), rules, between), rules, second.r, second.active, second.now,
                 second.freshId);
  }

  // ---------------------------------------------------------------- the limit on stored alerts

  /** No actor is in more ACTIVE stored alerts than the limit. */
  ghost predicate Capped(s: Desk, rules: Rules) {
    forall actor {:trigger Count(s.counts, actor)} :: Count(s.counts, actor) <= rules.maxConcurrent
  }

  /** The alert that an actor at its limit would give up is really its own and really ACTIVE in the store; none is
      given up if the list has none or only critical ones. */
  ghost predicate GivesUp(s: Desk, active: seq<Alert>, actor: string) {
    var lowest := Lowest(active, actor);
    || lowest.None?
    || lowest.value.level.Critical?
    || (lowest.value.id in s.store.at && s.store.at[lowest.value.id].status.Active?
        && actor in s.store.at[lowest.value.id].actors)
  }

  /** What a caller's list must get right: the alerts given up by the actors at their limit. */
  ghost predicate ListServes(s: Desk, rules: Rules, active: seq<Alert>) {
    forall actor {:trigger GivesUp(s, active, actor)} ::
      Count(s.counts, actor) >= rules.maxConcurrent ==> GivesUp(s, active, actor)
  }

  lemma {:induction false} FirstAtInvolves(alerts: seq<Alert>, actor: string, level: Level)
    ensures FirstAt(alerts, actor, level).Some? ==>
              FirstAt(alerts, actor, level).value in alerts && Involves(FirstAt(alerts, actor, level).value, actor)
              && FirstAt(alerts, actor, level).value.level == level
    ensures FirstAt(alerts, actor, level).None? ==> forall a :: a in alerts && Involves(a, actor) ==> a.level != level
  {
    if alerts != [] {
      FirstAtInvolves(alerts[1..], actor, level);
      assert alerts == [alerts[0]] + alerts[1..];
    }
  }

  /** The lowest alert of an actor: ACTIVE, the actor's, and none of the actor's ranks lower. */
  lemma LowestIsLowest(alerts: seq<Alert>, actor: string)
    ensures Lowest(alerts, actor).None? ==> forall a :: a in alerts ==> !Involves(a, actor)
    ensures Lowest(alerts, actor).Some? ==>
              && Lowest(alerts, actor).value in alerts && Involves(Lowest(alerts, actor).value, actor)
              && forall a :: a in alerts && Involves(a, actor) ==>
                  Rank(Lowest(alerts, actor).value.level) <= Rank(a.level)
  {
    LowestFromIs(alerts, actor, LEVELS);
    assert LEVELS[0] == Informational && LEVELS[1] == Advisory && LEVELS[2] == Warning && LEVELS[3] == Critical;
    forall a | a in alerts && Involves(a, actor)
      ensures a.level in LEVELS
    {
      match a.level
      case Informational => assert LEVELS[0] == a.level;
      case Advisory => assert LEVELS[1] == a.level;
      case Warning => assert LEVELS[2] == a.level;
      case Critical => assert LEVELS[3] == a.level;
    }
  }

  lemma {:induction false} LowestFromIs(alerts: seq<Alert>, actor: string, levels: seq<Level>)
    requires forall i, j :: 0 <= i < j < |levels| ==> Rank(levels[i]) <= Rank(levels[j])
    ensures LowestFrom(alerts, actor, levels).None? ==> forall a :: a in alerts && Involves(a, actor) ==>
        a.level !in levels
    ensures LowestFrom(alerts, actor, levels).Some? ==>
              && LowestFrom(alerts, actor, levels).value in alerts
                  && Involves(LowestFrom(alerts, actor, levels).value, actor)
              && LowestFrom(alerts, actor, levels).value.level in levels
              && forall a :: a in alerts && Involves(a, actor) && a.level in levels ==>
                               Rank(LowestFrom(alerts, actor, levels).value.level) <= Rank(a.level)
    decreases |levels|
  {
    if levels != [] {
      assert levels == [levels[0]] + levels[1..];
      FirstAtInvolves(alerts, actor, levels[0]);
      LowestFromIs(alerts, actor, levels[1..]);
    }
  }

  /** Resolving an alert keeps the list good enough: an actor still at its limit was not in that alert. */
  lemma ResolveKeepsServes(s: Desk, rules: Rules, active: seq<Alert>, id: string)
    requires Exact(s) && Capped(s, rules) && ListServes(s, rules, active)
    ensures Capped(ResolveStored(s, id), rules) && ListServes(ResolveStored(s, id), rules, active)
  {
    var r := ResolveStored(s, id);
    ResolveKeepsExact(s, id);
    forall actor | Count(r.counts, actor) >= rules.maxConcurrent
      ensures GivesUp(r, active, actor)
    {
      assert GivesUp(s, active, actor);
      if id in s.store.at && s.store.at[id].status.Active? && actor in s.store.at[id].actors {
        ResolveTakesOff(s, id, actor);
      }
    }
  }

  lemma ResolveTakesOff(s: Desk, id: string, actor: string)
    requires Exact(s) && id in s.store.at && s.store.at[id].status.Active? && actor in s.store.at[id].actors
    ensures Count(ResolveStored(s, id).counts, actor) < Count(s.counts, actor)
  {
    var r := ResolveStored(s, id);
    ResolveKeepsExact(s, id);
    LoadResolved(s.store, s.store.keys, id, actor);
    assert Count(s.counts, actor) == Occurrences(s, actor) && Count(r.counts, actor) == Occurrences(r, actor);
  }

  /** Room made for an alert: every actor it names is below the limit. */
  lemma {:induction false} MakeRoomMakesRoom(s: Desk, rules: Rules, level: Level, actors: seq<string>,
                                             active: seq<Alert>)
    requires Exact(s) && Capped(s, rules) && ListServes(s, rules, active)
    ensures
      var (r, room) := MakeRoom(s, rules, level, actors, active);
      && Exact(r) && Capped(r, rules)
      && (forall actor :: Count(r.counts, actor) <= Count(s.counts, actor))
      && (room ==> forall actor :: actor in actors ==> Count(r.counts, actor) < rules.maxConcurrent)
    decreases |actors|
  {
    if actors != [] {
      assert actors == [actors[0]] + actors[1..];
      var lowest := Lowest(active, actors[0]);
      if Count(s.counts, actors[0]) < rules.maxConcurrent {
        MakeRoomMakesRoom(s, rules, level, actors[1..], active);
      } else if lowest.Some? && Rank(level) > Rank(lowest.value.level) {
        assert GivesUp(s, active, actors[0]);
        ResolveTakesOff(s, lowest.value.id, actors[0]);
        ResolveKeepsExact(s, lowest.value.id);
        ResolveKeepsServes(s, rules, active, lowest.value.id);
        MakeRoomMakesRoom(ResolveStored(s, lowest.value.id), rules, level, actors[1..], active);
      }
    }
  }

  lemma ScoredKeeps(s: Desk, rules: Rules, active: seq<Alert>, scored: Desk)
    requires scored == s.(scores := scored.scores) && Exact(s) && Capped(s, rules)
    ensures Exact(scored) && Capped(scored, rules)
    ensures ListServes(s, rules, active) ==> ListServes(scored, rules, active)
  {
    assert forall actor :: Occurrences(scored, actor) == Occurrences(s, actor);
    if ListServes(s, rules, active) {
      forall actor | Count(scored.counts, actor) >= rules.maxConcurrent
        ensures GivesUp(scored, active, actor)
      {
        assert GivesUp(s, active, actor);
      }
    }
  }

  /** With such a list and actors named once, no evaluation takes an actor past the limit. */
  lemma EvaluateKeepsCap(s: Desk, rules: Rules, r: Risk, active: seq<Alert>, now: real, freshId: string)
    requires Exact(s) && Capped(s, rules) && ListServes(s, rules, active) && Distinct(r.actors)
    ensures Capped(Evaluate(s, rules, r, active, now, freshId).0, rules)
  {
    var scored := s.(scores := s.scores[r.key := r.score]);
    ScoredKeeps(s, rules, active, scored);
    var (roomy, room) := MakeRoom(scored, rules, r.level, r.actors, active);
    MakeRoomMakesRoom(scored, rules, r.level, r.actors, active);
    if room && !Muted(s, rules, r, now) && !Settled(s, rules, r) {
      var cleared := if rules.criticalPreempts && r.level.Critical? then SuppressLower(roomy, r.actors, active)
          else roomy;
      SuppressKeepsExact(roomy, r.actors, active);
      IssueKeepsCap(cleared, rules, r, now, freshId);
    }
  }

  lemma IssueKeepsCap(s: Desk, rules: Rules, r: Risk, now: real, id: string)
    requires Capped(s, rules) && Distinct(r.actors)
    requires forall actor :: actor in r.actors ==> Count(s.counts, actor) < rules.maxConcurrent
    ensures Capped(Issue(s, r, now, id), rules)
  {
    AllUpIs(s.counts, r.actors);
    forall actor
      ensures Count(Issue(s, r, now, id).counts, actor) <= rules.maxConcurrent
    {
      OnceAtMost(r.actors, actor);
    }
  }

  lemma {:induction false} OnceAtMost(actors: seq<string>, actor: string)
    requires Distinct(actors)
    ensures multiset(actors)[actor] == if actor in actors then 1 else 0
  {
    if actors != [] {
      DropLast(actors);
      OnceAtMost(actors[..|actors| - 1], actor);
      assert actors == actors[..|actors| - 1] + [actors[|actors| - 1]];
    }
  }

  /** Every evaluation of the run names its actors once and passes a list that serves. */
  ghost predicate CarefulRun(s: Desk, rules: Rules, ops: seq<Op>)
    decreases |ops|
  {
    ops == [] || (
      && (ops[0].EvaluateRisk? ==> Distinct(ops[0].r.actors) && ListServes(s, rules, ops[0].active))
      && CarefulRun(Step(s, rules, ops[0]), rules, ops[1..]))
  }

  /** Over any such run no actor is ever in more ACTIVE stored alerts than the limit. */
  lemma {:induction false} LimitHoldsOverRuns(s: Desk, rules: Rules, ops: seq<Op>, actor: string)
    requires Exact(s) && Capped(s, rules) && FreshIds(s, rules, ops) && CarefulRun(s, rules, ops)
    ensures Occurrences(Run(s, rules, ops), actor) <= rules.maxConcurrent
    decreases |ops|
  {
    if ops == [] {
      assert Count(s.counts, actor) == Occurrences(s, actor);
    } else {
      StepKeepsExact(s, rules, ops[0]);
      StepKeepsCap(s, rules, ops[0]);
      LimitHoldsOverRuns(Step(s, rules, ops[0]), rules, ops[1..], actor);
    }
  }

  /** So it is over every such run of a new prioritizer. */
  lemma LimitHoldsFromStart(rules: Rules, ops: seq<Op>, actor: string)
    requires rules.maxConcurrent >= 0 && FreshIds(EMPTY_DESK, rules, ops) && CarefulRun(EMPTY_DESK, rules, ops)
    ensures Occurrences(Run(EMPTY_DESK, rules, ops), actor) <= rules.maxConcurrent
  {
    EmptyIsExact();
    LimitHoldsOverRuns(EMPTY_DESK, rules, ops, actor);
  }

  lemma StepKeepsCap(s: Desk, rules: Rules, op: Op)
    requires Exact(s) && Capped(s, rules) && (op.EvaluateRisk? ==> op.freshId !in s.store.at)
    requires op.EvaluateRisk? ==> Distinct(op.r.actors) && ListServes(s, rules, op.active)
    ensures Capped(Step(s, rules, op), rules)
  {
    match op
    case EvaluateRisk(r, active, now, id) => EvaluateKeepsCap(s, rules, r, active, now, id);
    case Resolve(riskId) =>
      var found := FirstOf(s.store, s.store.keys, riskId);
      if found.Some? {
        ResolveKeepsExact(s, found.value);
      }
  }

  // ---------------------------------------------------------------- what the list must get right

  function Above(l: Level): Level {
    match l
    case Informational => Advisory
    case Advisory => Warning
    case Warning => Critical
    case Critical => Critical
  }

  /** A risk that neither the window nor the hysteresis holds back. */
  function Pressing(s: Desk, rules: Rules, actor: string, level: Level): Risk {
    var score := if "k" in s.scores then s.scores["k"] + MaxReal(0.0, rules.hysteresis) else 0.0;
    Risk("r", score, "k", level, [actor], 1.0, false)
  }

  function Late(s: Desk, rules: Rules): real {
    if "k" in s.log then s.log["k"] + rules.window else 0.0
  }

  /** If no ACTIVE alert of the list is both minor and the actor's, clearing the way for it resolves nothing. */
  lemma {:induction false} NothingToSuppress(s: Desk, actor: string, active: seq<Alert>)
    requires forall a :: a in active && Involves(a, actor) ==> !Minor(a.level)
    ensures SuppressLower(s, [actor], active) == s
  {
    if active != [] {
      var n := |active| - 1;
      assert active == active[..n] + [active[n]];
      NothingToSuppress(s, actor, active[..n]);
    }
  }

  lemma ResolveElsewhere(s: Desk, id: string, actor: string)
    requires Exact(s)
    requires !(id in s.store.at && s.store.at[id].status.Active? && actor in s.store.at[id].actors)
    ensures Count(ResolveStored(s, id).counts, actor) == Count(s.counts, actor)
  {
    if id in s.store.at && s.store.at[id].status.Active? {
      ResolveKeepsExact(s, id);
      LoadResolved(s.store, s.store.keys, id, actor);
      assert Count(s.counts, actor) == Occurrences(s, actor);
      assert Count(ResolveStored(s, id).counts, actor) == Occurrences(ResolveStored(s, id), actor);
      assert multiset(s.store.at[id].actors)[actor] == 0;
    }
  }

  /** A list that names a wrong alert for an actor at its limit lets a risk one level higher push it past. */
  lemma WrongAlertPassesLimit(s: Desk, rules: Rules, active: seq<Alert>, actor: string, freshId: string)
    requires Exact(s) && Count(s.counts, actor) >= rules.maxConcurrent && !GivesUp(s, active, actor)
    ensures
      var r := Pressing(s, rules, actor, Above(Lowest(active, actor).value.level));
      Count(Evaluate(s, rules, r, active, Late(s, rules), freshId).0.counts, actor) > rules.maxConcurrent
  {
    var lowest := Lowest(active, actor).value;
    var r := Pressing(s, rules, actor, Above(lowest.level));
    var scored := s.(scores := s.scores[r.key := r.score]);
    assert Exact(scored) by {
      assert forall a :: Occurrences(scored, a) == Occurrences(s, a);
    }
    LowestIsLowest(active, actor);
    ResolveElsewhere(scored, lowest.id, actor);
    var roomy := ResolveStored(scored, lowest.id);
    assert [actor][1..] == [];
    assert MakeRoom(roomy, rules, r.level, [], active) == (roomy, true);
    assert MakeRoom(scored, rules, r.level, [actor], active) == (roomy, true);
    if r.level.Critical? {
      NothingToSuppress(roomy, actor, active);
    }
    assert Evaluate(s, rules, r, active, Late(s, rules), freshId).0 == Issue(roomy, r, Late(s, rules), freshId);
    AllUpIs(roomy.counts, [actor]);
  }

  lemma {:induction false} SomeFreshId(ids: set<string>) returns (id: string)
    ensures id != "" && forall x :: x in ids ==> |x| < |id|
  {
    if ids == {} {
      id := "x";
    } else {
      var x :| x in ids;
      var shorter := SomeFreshId(ids - {x});
      id := x + shorter;
      assert forall y :: y in ids ==> y == x || y in ids - {x};
    }
  }

  /** Whatever risk with distinct actors comes next, no actor is taken past the limit. */
  ghost predicate StaysCapped(s: Desk, rules: Rules, active: seq<Alert>) {
    forall r: Risk, now: real, id: string {:trigger Evaluate(s, rules, r, active, now, id)} ::
      Distinct(r.actors) && id !in s.store.at ==> Capped(Evaluate(s, rules, r, active, now, id).0, rules)
  }

  /** The limit holds for every next risk if and only if the list gets the given-up alerts right. */
  lemma LimitHoldsIff(s: Desk, rules: Rules, active: seq<Alert>)
    requires Exact(s) && Capped(s, rules)
    ensures StaysCapped(s, rules, active) <==> ListServes(s, rules, active)
  {
    if ListServes(s, rules, active) {
      forall r: Risk, now: real, id: string | Distinct(r.actors) && id !in s.store.at
        ensures Capped(Evaluate(s, rules, r, active, now, id).0, rules)
      {
        EvaluateKeepsCap(s, rules, r, active, now, id);
      }
    }
    if StaysCapped(s, rules, active) {
      forall actor | Count(s.counts, actor) >= rules.maxConcurrent
        ensures GivesUp(s, active, actor)
      {
        if !GivesUp(s, active, actor) {
          var id := SomeFreshId(s.store.at.Keys);
          assert id !in s.store.at;
          WrongAlertPassesLimit(s, rules, active, actor, id);
        }
      }
    }
  }

  // ---------------------------------------------------------------- why actors must be named once

  function Repeated(actor: string, n: nat): seq<string> {
    if n == 0 then [] else Repeated(actor, n - 1) + [actor]
  }

  lemma {:induction false} RepeatedCounts(actor: string, n: nat, other: string)
    ensures multiset(Repeated(actor, n))[other] == if other == actor then n else 0
  {
    if n > 0 {
      RepeatedCounts(actor, n - 1, other);
    }
  }

  lemma NamedTwice(actors: seq<string>) returns (actor: string)
    requires !Distinct(actors)
    ensures multiset(actors)[actor] >= 2
  {
    var i, j :| 0 <= i < j < |actors| && actors[i] == actors[j];
    actor := actors[j];
    assert actors == actors[..j] + [actors[j]] + actors[j + 1..];
    assert actors[..j][i] == actor;
  }

  /** With every named actor below its limit there is room as it is. */
  lemma {:induction false} RoomAsItIs(s: Desk, rules: Rules, level: Level, actors: seq<string>, active: seq<Alert>)
    requires forall actor :: Count(s.counts, actor) < rules.maxConcurrent
    ensures MakeRoom(s, rules, level, actors, active) == (s, true)
    decreases |actors|
  {
    if actors != [] {
      assert Count(s.counts, actors[0]) < rules.maxConcurrent;
      RoomAsItIs(s, rules, level, actors[1..], active);
    }
  }

  /** A new prioritizer's desk after one alert that names the actor up to one below the limit. */
  function AlmostFull(rules: Rules, actor: string, key: string): Desk
    requires rules.maxConcurrent >= 1
  {
    Issue(EMPTY_DESK, Risk("r", 0.0, key, Warning, Repeated(actor, rules.maxConcurrent - 1), 1.0, false), 0.0, "first")
  }

  lemma AlmostFullIs(rules: Rules, actor: string, key: string)
    requires rules.maxConcurrent >= 1
    ensures
      var s := AlmostFull(rules, actor, key);
      && Exact(s) && forall other :: Count(s.counts, other) == if other == actor then rules.maxConcurrent - 1 else 0
  {
    var r := Risk("r", 0.0, key, Warning, Repeated(actor, rules.maxConcurrent - 1), 1.0, false);
    EmptyIsExact();
    IssueKeepsExact(EMPTY_DESK, r, 0.0, "first", AlmostFull(rules, actor, key));
    AllUpIs(EMPTY_DESK.counts, r.actors);
    forall other
      ensures multiset(r.actors)[other] == if other == actor then rules.maxConcurrent - 1 else 0
    {
      RepeatedCounts(actor, rules.maxConcurrent - 1, other);
    }
  }

  /** A risk that names an actor twice takes it from one below the limit past it. */
  lemma NamedTwicePassesLimit(rules: Rules, r: Risk, actor: string, s: Desk, s': Desk)
    requires rules.maxConcurrent >= 1 && multiset(r.actors)[actor] >= 2 && s == AlmostFull(rules, actor, r.key + "x")
    requires s' == Evaluate(s, rules, r, [], 0.0, "second").0
    ensures Count(s'.counts, actor) > rules.maxConcurrent
  {
    var scored := s.(scores := s.scores[r.key := r.score]);
    AlmostFullIs(rules, actor, r.key + "x");
    assert |r.key + "x"| != |r.key| && !Muted(s, rules, r, 0.0) && !Settled(s, rules, r);
    assert forall other :: Count(scored.counts, other) == Count(s.counts, other);
    RoomAsItIs(scored, rules, r.level, r.actors, []);
    assert s' == Issue(scored, r, 0.0, "second");
    AllUpIs(scored.counts, r.actors);
  }

  /** Wherever the list serves, this risk takes no actor past the limit. */
  ghost predicate AlwaysCapped(rules: Rules, r: Risk) {
    forall s: Desk, active: seq<Alert>, now: real, id: string {:trigger Evaluate(s, rules, r, active, now, id)} ::
      Exact(s) && Capped(s, rules) && ListServes(s, rules, active) && id !in s.store.at ==>
        Capped(Evaluate(s, rules, r, active, now, id).0, rules)
  }

  /** That is so if and only if the risk names its actors once. */
  lemma AlwaysCappedIff(rules: Rules, r: Risk)
    requires rules.maxConcurrent >= 1
    ensures AlwaysCapped(rules, r) <==> Distinct(r.actors)
  {
    if Distinct(r.actors) {
      forall s: Desk, active: seq<Alert>, now: real, id: string
        | Exact(s) && Capped(s, rules) && ListServes(s, rules, active) && id !in s.store.at
        ensures Capped(Evaluate(s, rules, r, active, now, id).0, rules)
      {
        EvaluateKeepsCap(s, rules, r, active, now, id);
      }
    } else {
      var actor := NamedTwice(r.actors);
      var s := AlmostFull(rules, actor, r.key + "x");
      AlmostFullIs(rules, actor, r.key + "x");
      NamedTwicePassesLimit(rules, r, actor, s, Evaluate(s, rules, r, [], 0.0, "second").0);
      assert Capped(s, rules) && ListServes(s, rules, []) && "second" !in s.store.at;
    }
  }

  /** An out-of-date list lets an actor past the limit: the alert given up is not in the store. */
  lemma StaleListPassesLimit(rules: Rules, first: Risk, second: Risk, gone: Alert, s1: Desk, s2: Desk)
    requires rules == Rules(0.0, 0.0, 1, false)
    requires first == Risk("r1", 0.5, "k1", Warning, ["car"], 0.9, false)
      && second == Risk("r2", 0.5, "k2", Warning, ["car"], 0.9, false)
    requires gone == Alert("gone", "r0", Informational, Active, ["car"], 0.5, 0.0, false)
    requires s1 == Evaluate(EMPTY_DESK, rules, first, [], 0.0, "a1").0
      && s2 == Evaluate(s1, rules, second, [gone], 1.0, "a2").0
    ensures Count(s1.counts, "car") == 1 && Count(s2.counts, "car") == 2
  {
    var actors := ["car"];
    assert actors[1..] == [] && actors[..0] == [];
    assert s1 == Issue(EMPTY_DESK.(scores := map["k1" := 0.5]), first, 0.0, "a1");
    var scored := s1.(scores := s1.scores["k2" := 0.5]);
    assert Lowest([gone], "car") == Some(gone) by {
      assert LEVELS[0] == Informational;
      assert FirstAt([gone], "car", Informational) == Some(gone);
    }
    assert ResolveStored(scored, "gone") == scored;
    assert MakeRoom(scored, rules, Warning, [], [gone]) == (scored, true);
    assert MakeRoom(scored, rules, Warning, actors, [gone]) == (scored, true);
    assert s2 == Issue(scored, second, 1.0, "a2");
    assert AllUp(scored.counts, actors) == scored.counts["car" := 2];
  }
}
