/** What one evaluation does to the stored alerts: what it issues, what gives way to it, and what it leaves alone. */
module AlertEvaluation {
  import opened Basics
  import opened Alerts
  import opened AlertStore

  /** The stored alert `x` is resolved if it is to go and ACTIVE, and otherwise as it was. */
  ghost predicate LeavesBut(s: Desk, r: Desk, x: string, goes: bool) {
    && (x in r.store.at <==> x in s.store.at)
    && (x in s.store.at ==> r.store.at[x] == if goes && s.store.at[x].status.Active?
                                             then s.store.at[x].(status := Resolved) else s.store.at[x])
  }

  lemma ResolveLeavesOthers(s: Desk, id: string, x: string)
    ensures LeavesBut(s, ResolveStored(s, id), x, x == id)
  {
  }

  // ---------------------------------------------------------------- pre-emption

  /** The list shows `x` as an ACTIVE minor alert of one of these actors. */
  ghost predicate ShownMinor(active: seq<Alert>, actors: seq<string>, x: string) {
    exists a, actor :: a in active && a.id == x && a.status.Active? && (a.level.Advisory? || a.level.Informational?)
                       && actor in actors && actor in a.actors
  }

  lemma ShownMinorSnoc(active: seq<Alert>, actors: seq<string>, x: string)
    requires active != []
    ensures
      var a := active[|active| - 1];
      ShownMinor(active, actors, x) <==>
      ShownMinor(active[..|active| - 1], actors, x)
      || (a.id == x && a.status.Active? && Minor(a.level) && Shares(a, actors))
  {
    assert active == active[..|active| - 1] + [active[|active| - 1]];
  }

  /** Pre-emption resolves exactly the stored alerts that the list shows as ACTIVE minor alerts of the actors. */
  lemma {:induction false} SuppressResolvesIff(s: Desk, actors: seq<string>, active: seq<Alert>, x: string)
    ensures LeavesBut(s, SuppressLower(s, actors, active), x, ShownMinor(active, actors, x))
  {
    if active != [] {
      var n := |active| - 1;
      var before := SuppressLower(s, actors, active[..n]);
      SuppressResolvesIff(s, actors, active[..n], x);
      ShownMinorSnoc(active, actors, x);
      ResolveLeavesOthers(before, active[n].id, x);
    }
  }

  // ---------------------------------------------------------------- making room

  /** An actor at its limit whose lowest shown alert is `x` and ranks below the new one. */
  ghost predicate GivenUp(s: Desk, rules: Rules, level: Level, actors: seq<string>, active: seq<Alert>, x: string) {
    exists actor :: actor in actors && Count(s.counts, actor) >= rules.maxConcurrent
                    && Lowest(active, actor).Some? && Lowest(active, actor).value.id == x
                    && Rank(Lowest(active, actor).value.level) < Rank(level)
  }

  /** `x` went, or stayed as it was. */
  ghost predicate Spared(s: Desk, r: Desk, x: string, safe: bool) {
    LeavesBut(s, r, x, false) || (!safe && LeavesBut(s, r, x, true))
  }

  lemma SparedTwice(s: Desk, next: Desk, r: Desk, x: string, id: string, safe: bool)
    requires LeavesBut(s, next, x, x == id) && Spared(next, r, x, safe) && (safe ==> x != id)
    ensures Spared(s, r, x, safe)
  {
  }

  lemma GivenUpBefore(s: Desk, next: Desk, rules: Rules, level: Level, actor: string, rest: seq<string>,
                      active: seq<Alert>, x: string)
    requires forall other :: Count(next.counts, other) <= Count(s.counts, other)
    requires GivenUp(next, rules, level, rest, active, x)
    ensures GivenUp(s, rules, level, [actor] + rest, active, x)
  {
  }

  /** Room is made only by giving up the lowest alerts of actors at their limit, and only for a higher level. */
  lemma {:induction false} RoomCostsOnlyLowest(s: Desk, rules: Rules, level: Level, actors: seq<string>,
                                               active: seq<Alert>, x: string, safe: bool)
    requires Exact(s) && (safe ==> !GivenUp(s, rules, level, actors, active, x))
    ensures Spared(s, MakeRoom(s, rules, level, actors, active).0, x, safe)
    decreases |actors|
  {
    if actors != [] {
      var actor, rest := actors[0], actors[1..];
      assert actors == [actor] + rest && actor in actors;
      var lowest := Lowest(active, actor);
      var gives := Count(s.counts, actor) >= rules.maxConcurrent;
      if !gives || (lowest.Some? && Rank(level) > Rank(lowest.value.level)) {
        var next := if gives then ResolveStored(s, lowest.value.id) else s;
        if gives {
          ResolveKeepsExact(s, lowest.value.id);
          ResolveLeavesOthers(s, lowest.value.id, x);
        }
        if safe && GivenUp(next, rules, level, rest, active, x) {
          GivenUpBefore(s, next, rules, level, actor, rest, active, x);
        }
        RoomCostsOnlyLowest(next, rules, level, rest, active, x, safe);
        if gives {
          SparedTwice(s, next, MakeRoom(s, rules, level, actors, active).0, x, lowest.value.id, safe);
        }
      }
    }
  }

  /** For a risk to one actor: room as it is below the limit, else by giving up a lower alert, else none. */
  lemma RoomForOne(s: Desk, rules: Rules, level: Level, actor: string, active: seq<Alert>)
    ensures
      var (r, room) := MakeRoom(s, rules, level, [actor], active);
      var lowest := Lowest(active, actor);
      if Count(s.counts, actor) < rules.maxConcurrent then r == s && room
      else if lowest.Some? && Rank(lowest.value.level) < Rank(level) then r == ResolveStored(s, lowest.value.id) && room
      else r == s && !room
  {
    assert [actor][1..] == [];
    var next := if Lowest(active, actor).Some? then ResolveStored(s, Lowest(active, actor).value.id) else s;
    assert MakeRoom(s, rules, level, [], active) == (s, true);
    assert MakeRoom(next, rules, level, [], active) == (next, true);
  }

  // ---------------------------------------------------------------- the whole evaluation

  /** The desk once room is made. */
  function Roomy(s: Desk, rules: Rules, r: Risk, active: seq<Alert>): (Desk, bool) {
    MakeRoom(s.(scores := s.scores[r.key := r.score]), rules, r.level, r.actors, active)
  }

  /** Alerted for the same key within the window, or scored about the same as last time. */
  predicate Repeats(s: Desk, rules: Rules, r: Risk, now: real) {
    || (r.key in s.log && now < s.log[r.key] + rules.window)
    || (r.key in s.scores && s.scores[r.key] - rules.hysteresis < r.score < s.scores[r.key] + rules.hysteresis)
  }

  /** An alert is issued if and only if the risk is no repetition and there is room; it is the ACTIVE alert of that
      risk, to those actors, at that level and time, and is stored as such. */
  lemma IssuesIff(s: Desk, rules: Rules, r: Risk, active: seq<Alert>, now: real, id: string)
    ensures
      var (s', alert) := Evaluate(s, rules, r, active, now, id);
      && (alert.Some? <==> !Repeats(s, rules, r, now) && Roomy(s, rules, r, active).1)
      && (Repeats(s, rules, r, now) ==> s' == s)
      && (alert.Some? ==>
            && alert.value == Alert(id, r.id, r.level, Active, r.actors, r.confidence, now, r.collisionClass)
            && id in s'.store.at && s'.store.at[id] == alert.value && r.key in s'.log && s'.log[r.key] == now)
  {
  }

  /** What an issued alert leaves of the others: a critical one, with pre-emption on, resolves exactly the alerts that
      the list shows as ACTIVE minor alerts of its actors; all others are as making room left them. */
  lemma EvaluationLeaves(s: Desk, rules: Rules, r: Risk, active: seq<Alert>, now: real, id: string, x: string)
    requires Evaluate(s, rules, r, active, now, id).1.Some? && x != id
    ensures LeavesBut(Roomy(s, rules, r, active).0, Evaluate(s, rules, r, active, now, id).0, x,
                      rules.criticalPreempts && r.level.Critical? && ShownMinor(active, r.actors, x))
  {
    SuppressResolvesIff(Roomy(s, rules, r, active).0, r.actors, active, x);
  }

  /** So no minor alert that the list shows to share an actor stays ACTIVE beside a critical one. */
  lemma CriticalStandsAlone(s: Desk, rules: Rules, r: Risk, active: seq<Alert>, now: real, id: string, x: string)
    requires Evaluate(s, rules, r, active, now, id).1.Some? && rules.criticalPreempts && r.level.Critical?
    requires ShownMinor(active, r.actors, x) && x != id
    ensures x in Evaluate(s, rules, r, active, now, id).0.store.at ==>
              !Evaluate(s, rules, r, active, now, id).0.store.at[x].status.Active?
  {
    EvaluationLeaves(s, rules, r, active, now, id, x);
  }

  /** Below the limit a risk that is not critical costs nobody anything. */
  lemma NothingGivenUpBelowLimit(s: Desk, rules: Rules, r: Risk, active: seq<Alert>, now: real, id: string, x: string)
    requires Exact(s) && x != id && !(rules.criticalPreempts && r.level.Critical?)
    requires forall actor :: actor in r.actors ==> Count(s.counts, actor) < rules.maxConcurrent
    ensures LeavesBut(s, Evaluate(s, rules, r, active, now, id).0, x, false)
  {
    var scored := s.(scores := s.scores[r.key := r.score]);
    assert forall actor :: Occurrences(scored, actor) == Occurrences(s, actor);
    RoomCostsOnlyLowest(scored, rules, r.level, r.actors, active, x, true);
    if Evaluate(s, rules, r, active, now, id).1.Some? {
      EvaluationLeaves(s, rules, r, active, now, id, x);
    }
  }

  // ---------------------------------------------------------------- resolving a risk

  /** The alert found is the first stored ACTIVE one of the risk, and none is found exactly when there is none. */
  lemma {:induction false} FirstOfIsFirst(store: Dict<string, Alert>, ids: seq<string>, riskId: string)
    ensures
      var found := FirstOf(store, ids, riskId);
      if found.None? then forall id :: id in ids && id in store.at ==>
                            !(store.at[id].riskId == riskId && store.at[id].status.Active?)
      else exists k :: 0 <= k < |ids| && ids[k] == found.value && OfRisk(store, ids[k], riskId)
                       && forall j :: 0 <= j < k ==> !OfRisk(store, ids[j], riskId)
  {
    if ids != [] {
      FirstOfIsFirst(store, ids[1..], riskId);
      if !OfRisk(store, ids[0], riskId) && FirstOf(store, ids, riskId).Some? {
        var k :| 0 <= k < |ids[1..]| && ids[1..][k] == FirstOf(store, ids, riskId).value
                 && OfRisk(store, ids[1..][k], riskId)
                 && forall j :: 0 <= j < k ==> !OfRisk(store, ids[1..][j], riskId);
        forall j | 0 <= j < k + 1
          ensures !OfRisk(store, ids[j], riskId)
        {
          assert j > 0 ==> ids[j] == ids[1..][j - 1];
        }
        assert ids[k + 1] == ids[1..][k];
      } else if FirstOf(store, ids, riskId).None? {
        assert ids == [ids[0]] + ids[1..];
      }
    }
  }

  predicate OfRisk(store: Dict<string, Alert>, id: string, riskId: string) {
    id in store.at && store.at[id].riskId == riskId && store.at[id].status.Active?
  }

  /** Resolving a risk resolves that alert and no other. */
  lemma ResolveRiskLeavesOthers(s: Desk, rules: Rules, riskId: string, x: string)
    ensures LeavesBut(s, Step(s, rules, AlertStore.Resolve(riskId)), x,
                      FirstOf(s.store, s.store.keys, riskId) == Some(x))
  {
    var found := FirstOf(s.store, s.store.keys, riskId);
    if found.Some? {
      ResolveLeavesOthers(s, found.value, x);
    }
  }

  // ---------------------------------------------------------------- over a run

  lemma {:induction false} RunInTurn(s: Desk, rules: Rules, ops: seq<Op>, more: seq<Op>)
    ensures Run(s, rules, ops + more) == Run(Run(s, rules, ops), rules, more)
    decreases |ops|
  {
    if ops == [] {
      assert ops + more == more;
    } else {
      assert (ops + more)[1..] == ops[1..] + more;
      RunInTurn(Step(s, rules, ops[0]), rules, ops[1..], more);
    }
  }

  /** The k-th call of a new prioritizer's run issues an alert. */
  ghost predicate IssuesAt(rules: Rules, ops: seq<Op>, k: nat)
    requires k < |ops|
  {
    var op := ops[k];
    op.EvaluateRisk?
    && Evaluate(Run(EMPTY_DESK, rules, ops[..k]), rules, op.r, op.active, op.now, op.freshId).1.Some?
  }

  /** In a run of a new prioritizer on a forward clock two calls that issue alerts for the same key are at least a
      window apart. */
  lemma KeyAlertsOnceAWindow(rules: Rules, ops: seq<Op>, i: nat, j: nat)
    requires i < j < |ops| && IssuesAt(rules, ops, i) && IssuesAt(rules, ops, j) && ops[i].r.key == ops[j].r.key
    requires forall k :: i < k < j && ops[k].EvaluateRisk? ==> ops[k].now >= ops[i].now
    ensures ops[j].now - ops[i].now >= rules.window
  {
    var before, between := ops[..i], ops[i + 1..j];
    assert ops[..j] == before + ([ops[i]] + between);
    RunInTurn(EMPTY_DESK, rules, before, [ops[i]] + between);
    assert ([ops[i]] + between)[1..] == between;
    SameKeyAlertsAreApart(Run(EMPTY_DESK, rules, before), rules, ops[i], between, ops[j]);
  }

  // ---------------------------------------------------------------- a refused risk is not free

  /** A risk to two actors that is refused for the second has already cost the first its alert. */
  lemma RefusedRiskCostsAlert(s: Desk, rules: Rules, r: Risk, low: Alert, high: Alert, now: real, id: string)
    requires Exact(s) && rules.maxConcurrent >= 1 && r.level == Warning && r.key !in s.log && r.key !in s.scores
    requires r.actors == ["a", "b"] && low.id != high.id
    requires low.level == Advisory && low.status.Active? && low.actors == ["a"]
    requires high.level == Critical && high.status.Active? && high.actors == ["b"]
    requires Count(s.counts, "a") >= rules.maxConcurrent && Count(s.counts, "b") >= rules.maxConcurrent
    requires low.id in s.store.at && s.store.at[low.id] == low
    ensures
      var (s', alert) := Evaluate(s, rules, r, [low, high], now, id);
      alert == None && low.id in s'.store.at && s'.store.at[low.id].status.Resolved?
  {
    var active := [low, high];
    var scored := s.(scores := s.scores[r.key := r.score]);
    LowestIsLowest(active, "a");
    LowestIsLowest(active, "b");
    assert low in active && high in active;
    assert forall actor :: Occurrences(scored, actor) == Occurrences(s, actor);
    var next := ResolveStored(scored, low.id);
    ResolveElsewhere(scored, low.id, "b");
    assert r.actors[1..] == ["b"] && ["b"][1..] == [];
    assert MakeRoom(next, rules, r.level, ["b"], active) == (next, false);
  }
}
