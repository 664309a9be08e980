/** The prioritiser as an object, proved to follow the steps on values. */
module AlertPrioritizer {
  import opened Basics
  import opened Alerts
  import opened AlertStore

  lemma FrontStep(s: Desk, rules: Rules, level: Level, actors: seq<string>, k: nat, active: seq<Alert>)
    requires k < |actors|
    ensures MakeRoom(s, rules, level, actors[k..], active) ==
            if Count(s.counts, actors[k]) >= rules.maxConcurrent then
              if Lowest(active, actors[k]).Some? && Rank(level) > Rank(Lowest(active, actors[k]).value.level)
              then MakeRoom(ResolveStored(s, Lowest(active, actors[k]).value.id), rules, level, actors[k + 1..], active)
              else (s, false)
            else MakeRoom(s, rules, level, actors[k + 1..], active)
  {
    assert actors[k..][1..] == actors[k + 1..];
  }

  /** `_find_lowest_alert_for_actor`. */
  method FindLowest(actor: string, alerts: seq<Alert>) returns (found: Option<Alert>)
    ensures found == Lowest(alerts, actor)
  {
    assert LEVELS[0..] == LEVELS;
    for l := 0 to |LEVELS|
      invariant Lowest(alerts, actor) == LowestFrom(alerts, actor, LEVELS[l..])
    {
      assert LEVELS[l..][1..] == LEVELS[l + 1..];
      assert alerts[0..] == alerts;
      for k := 0 to |alerts|
        invariant FirstAt(alerts, actor, LEVELS[l]) == FirstAt(alerts[k..], actor, LEVELS[l])
      {
        assert alerts[k..][1..] == alerts[k + 1..];
        if alerts[k].status.Active? && alerts[k].level == LEVELS[l] && actor in alerts[k].actors {
          return Some(alerts[k]);
        }
      }
    }
    return None;
  }

  class Prioritizer {
    const rules: Rules
    var alertStore: Dict<string, Alert>
    var actorCounts: map<string, int>
    var suppressionLog: map<string, real>
    var scoreCache: map<string, real>

    ghost function Model(): Desk
      reads this
    {
      Desk(alertStore, actorCounts, suppressionLog, scoreCache)
    }

    constructor (rules: Rules)
      ensures this.rules == rules && Model() == EMPTY_DESK && Exact(Model())
    {
      this.rules := rules;
      alertStore, actorCounts, suppressionLog, scoreCache := EmptyDict(), map[], map[], map[];
    }

    /** The counter loop of `resolve_risk` and `_resolve_stored_alert`. */
    method CountDown(actors: seq<string>)
      modifies this`actorCounts
      ensures actorCounts == AllDown(old(actorCounts), actors)
    {
      ghost var start := actorCounts;
      for k := 0 to |actors|
        invariant actorCounts == AllDown(start, actors[..k])
      {
        assert actors[..k + 1][..k] == actors[..k];
        var left := (if actors[k] in actorCounts then actorCounts[actors[k]] else 1) - 1;
        actorCounts := actorCounts[actors[k] := if left > 0 then left else 0];
      }
      assert actors[..|actors|] == actors;
    }

    method CountUp(actors: seq<string>)
      modifies this`actorCounts
      ensures actorCounts == AllUp(old(actorCounts), actors)
    {
      ghost var start := actorCounts;
      for k := 0 to |actors|
        invariant actorCounts == AllUp(start, actors[..k])
      {
        assert actors[..k + 1][..k] == actors[..k];
        actorCounts := actorCounts[actors[k] := Count(actorCounts, actors[k]) + 1];
      }
      assert actors[..|actors|] == actors;
    }

    method ResolveStoredAlert(id: string)
      modifies this`alertStore, this`actorCounts
      ensures Model() == ResolveStored(old(Model()), id)
    {
      if id in alertStore.at && alertStore.at[id].status.Active? {
        var alert := alertStore.at[id];
        alertStore := alertStore.Put(id, alert.(status := Resolved));
        CountDown(alert.actors);
      }
    }

    method ResolveRiskById(riskId: string) returns (resolved: Option<Alert>)
      requires Exact(Model())
      modifies this`alertStore, this`actorCounts
      ensures Exact(Model()) && Model() == ResolveRisk(old(Model()), riskId)
      ensures
        var s := old(Model());
        var found := FirstOf(s.store, s.store.keys, riskId);
        resolved.Some? == found.Some?
        && (found.Some? ==> found.value in s.store.at
                            && resolved.value == s.store.at[found.value].(status := Resolved))
    {
      ghost var s := Model();
      StepKeepsExact(s, rules, AlertStore.Resolve(riskId));
      assert alertStore.keys[0..] == alertStore.keys;
      for k := 0 to |alertStore.keys|
        invariant Model() == s
        invariant FirstOf(s.store, s.store.keys, riskId) == FirstOf(s.store, s.store.keys[k..], riskId)
      {
        var id := alertStore.keys[k];
        assert s.store.keys[k..][1..] == s.store.keys[k + 1..];
        assert id in alertStore.keys;
        var alert := alertStore.at[id];
        if alert.riskId == riskId && alert.status.Active? {
          ResolveStoredAlert(id);
          return Some(alert.(status := Resolved));
        }
      }
      return None;
    }

    /** The loop over the affected actors. */
    method MakeRoomFor(level: Level, actors: seq<string>, active: seq<Alert>) returns (room: bool)
      modifies this`alertStore, this`actorCounts
      ensures (Model(), room) == MakeRoom(old(Model()), rules, level, actors, active)
    {
      ghost var s := Model();
      assert actors[0..] == actors;
      for k := 0 to |actors|
        invariant MakeRoom(s, rules, level, actors, active) == MakeRoom(Model(), rules, level, actors[k..], active)
      {
        FrontStep(Model(), rules, level, actors, k, active);
        var count := Count(actorCounts, actors[k]);
        if count >= rules.maxConcurrent {
          var lowest := FindLowest(actors[k], active);
          if lowest.Some? && Rank(level) > Rank(lowest.value.level) {
            ResolveStoredAlert(lowest.value.id);
          } else {
            return false;
          }
        }
      }
      return true;
    }

    method SuppressLowerPriority(actors: seq<string>, active: seq<Alert>)
      modifies this`alertStore, this`actorCounts
      ensures Model() == SuppressLower(old(Model()), actors, active)
    {
      ghost var s := Model();
      for k := 0 to |active|
        invariant Model() == SuppressLower(s, actors, active[..k])
      {
        assert active[..k + 1][..k] == active[..k];
        if active[k].status.Active? {
          if Minor(active[k].level) && Shares(active[k], actors) {
            ResolveStoredAlert(active[k].id);
          }
        }
      }
      assert active[..|active|] == active;
    }

    method EvaluateRiskEvent(r: Risk, active: seq<Alert>, now: real, freshId: string) returns (alert: Option<Alert>)
      requires Exact(Model()) && freshId !in alertStore.at
      modifies this
      ensures Exact(Model()) && (Model(), alert) == Evaluate(old(Model()), rules, r, active, now, freshId)
    {
      EvaluateKeepsExact(Model(), rules, r, active, now, freshId);
      if Muted(Desk(alertStore, actorCounts, suppressionLog, scoreCache), rules, r, now) {
        return None;
      }
      if Settled(Desk(alertStore, actorCounts, suppressionLog, scoreCache), rules, r) {
        return None;
      }
      scoreCache := scoreCache[r.key := r.score];
      var room := MakeRoomFor(r.level, r.actors, active);
      if !room {
        return None;
      }
      var created := NewAlert(r, now, freshId);
      if rules.criticalPreempts && created.level.Critical? {
        SuppressLowerPriority(r.actors, active);
      }
      alertStore := alertStore.Put(freshId, created);
      suppressionLog := suppressionLog[r.key := now];
      CountUp(r.actors);
      return Some(created);
    }
  }
}
