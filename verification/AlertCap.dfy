/** The last two passes over a tick's alerts: critical pre-emption and the cap on concurrent alerts per actor. */
module AlertCap {
  import opened Alerts
  import opened Basics
  import AlertStore

  /** Occurrences of an actor in the ACTIVE alerts of a list. */
  function Tally(alerts: seq<Alert>, actor: string): nat {
    if alerts == [] then 0
    else
      var a := alerts[|alerts| - 1];
      Tally(alerts[..|alerts| - 1], actor) + (if a.status.Active? then multiset(a.actors)[actor] else 0)
  }

  /** How many ACTIVE alerts of a list name the actor. */
  function Members(alerts: seq<Alert>, actor: string): nat {
    if alerts == [] then 0
    else
      var a := alerts[|alerts| - 1];
      Members(alerts[..|alerts| - 1], actor) + (if AlertStore.Involves(a, actor) then 1 else 0)
  }

  ghost predicate OverLimit(before: seq<Alert>, actors: seq<string>, limit: int) {
    exists actor :: actor in actors && Tally(before, actor) >= limit
  }

  /** The result `out` of capping `alerts`: the same alerts in the same order, and an ACTIVE one is suppressed
      exactly when one of its actors is at the limit among the results before it. */
  ghost predicate Capped(alerts: seq<Alert>, out: seq<Alert>, limit: int) {
    && |out| == |alerts|
    && forall i {:trigger out[i]} :: 0 <= i < |out| ==>
         out[i] == if alerts[i].status.Active? && OverLimit(out[..i], alerts[i].actors, limit)
                   then alerts[i].(status := Suppressed) else alerts[i]
  }

  lemma TallySnoc(alerts: seq<Alert>, a: Alert, actor: string)
    ensures Tally(alerts + [a], actor) == Tally(alerts, actor)
      + (if a.status.Active? then multiset(a.actors)[actor] else 0)
    ensures Members(alerts + [a], actor) == Members(alerts, actor) + (if AlertStore.Involves(a, actor) then 1 else 0)
  {
    assert (alerts + [a])[..|alerts|] == alerts;
  }

  /** `_enforce_max_concurrent`. */
  method EnforceMaxConcurrent(alerts: seq<Alert>, limit: int) returns (out: seq<Alert>)
    ensures Capped(alerts, out, limit)
  {
    var counts: map<string, int> := map[];
    out := [];
    for k := 0 to |alerts|
      invariant Capped(alerts[..k], out, limit)
      invariant forall actor :: AlertStore.Count(counts, actor) == Tally(out, actor)
    {
      var a := alerts[k];
      ghost var before := out;
      if !a.status.Active? {
        out := out + [a];
      } else {
        var over := AnyAtLimit(counts, a.actors, limit);
        if over {
          out := out + [a.(status := Suppressed)];
        } else {
          out := out + [a];
          counts := CountUp(counts, a.actors);
        }
      }
      forall actor
        ensures AlertStore.Count(counts, actor) == Tally(out, actor)
      {
        TallySnoc(before, out[k], actor);
      }
      CappedSnoc(alerts, before, out, limit, k);
    }
    assert alerts[..|alerts|] == alerts;
  }

  lemma CappedSnoc(alerts: seq<Alert>, before: seq<Alert>, out: seq<Alert>, limit: int, k: nat)
    requires k < |alerts| && Capped(alerts[..k], before, limit) && |out| == k + 1 && out[..k] == before
    requires out[k] == if alerts[k].status.Active? && OverLimit(before, alerts[k].actors, limit)
                       then alerts[k].(status := Suppressed) else alerts[k]
    ensures Capped(alerts[..k + 1], out, limit)
  {
    forall i | 0 <= i < k
      ensures out[i] == if alerts[i].status.Active? && OverLimit(out[..i], alerts[i].actors, limit)
                        then alerts[i].(status := Suppressed) else alerts[i]
    {
      assert out[i] == before[i] && out[..i] == before[..i];
    }
  }

  method AnyAtLimit(counts: map<string, int>, actors: seq<string>, limit: int) returns (over: bool)
    ensures over <==> exists actor :: actor in actors && AlertStore.Count(counts, actor) >= limit
  {
    for k := 0 to |actors|
      invariant forall actor :: actor in actors[..k] ==> AlertStore.Count(counts, actor) < limit
    {
      if AlertStore.Count(counts, actors[k]) >= limit {
        return true;
      }
    }
    assert actors[..|actors|] == actors;
    return false;
  }

  method CountUp(counts: map<string, int>, actors: seq<string>) returns (r: map<string, int>)
    ensures r == AlertStore.AllUp(counts, actors)
    ensures forall actor :: AlertStore.Count(r, actor) == AlertStore.Count(counts, actor) + multiset(actors)[actor]
  {
    r := counts;
    for k := 0 to |actors|
      invariant r == AlertStore.AllUp(counts, actors[..k])
    {
      assert actors[..k + 1][..k] == actors[..k];
      r := r[actors[k] := AlertStore.Count(r, actors[k]) + 1];
    }
    assert actors[..|actors|] == actors;
    AlertStore.AllUpIs(counts, actors);
  }

  // ---------------------------------------------------------------- what the cap guarantees

  lemma {:induction false} MembersWithinTally(alerts: seq<Alert>, actor: string)
    ensures Members(alerts, actor) <= Tally(alerts, actor)
    ensures (forall i :: 0 <= i < |alerts| ==> Distinct(alerts[i].actors)) ==>
        Members(alerts, actor) == Tally(alerts, actor)
  {
    if alerts != [] {
      var a := alerts[|alerts| - 1];
      MembersWithinTally(alerts[..|alerts| - 1], actor);
      assert actor in a.actors <==> multiset(a.actors)[actor] > 0;
      if Distinct(a.actors) {
        AlertStore.OnceAtMost(a.actors, actor);
      }
    }
  }

  lemma CappedPrefix(alerts: seq<Alert>, out: seq<Alert>, limit: int, k: nat)
    requires Capped(alerts, out, limit) && k <= |out|
    ensures Capped(alerts[..k], out[..k], limit)
  {
    forall i | 0 <= i < k
      ensures out[..k][i] == if alerts[..k][i].status.Active? && OverLimit(out[..k][..i], alerts[..k][i].actors, limit)
                             then alerts[..k][i].(status := Suppressed) else alerts[..k][i]
    {
      assert out[..k][..i] == out[..i];
      assert out[i] == if alerts[i].status.Active? && OverLimit(out[..i], alerts[i].actors, limit)
                       then alerts[i].(status := Suppressed) else alerts[i];
    }
  }

  /** No actor is left in more ACTIVE alerts than the limit. */
  lemma {:induction false} NoActorOverLimit(alerts: seq<Alert>, out: seq<Alert>, limit: int, actor: string)
    requires Capped(alerts, out, limit)
    ensures Members(out, actor) <= if limit > 0 then limit else 0
    decreases |out|
  {
    if out != [] {
      var n := |out| - 1;
      CappedPrefix(alerts, out, limit, n);
      NoActorOverLimit(alerts[..n], out[..n], limit, actor);
      assert out[n] == if alerts[n].status.Active? && OverLimit(out[..n], alerts[n].actors, limit)
                       then alerts[n].(status := Suppressed) else alerts[n];
      MembersWithinTally(out[..n], actor);
    }
  }

  /** An alert is suppressed if and only if one of its actors already occurs `limit` times in ACTIVE alerts before it;
      if no alert names an actor twice, that is `limit` ACTIVE alerts. */
  lemma SuppressedIff(alerts: seq<Alert>, out: seq<Alert>, limit: int, i: nat)
    requires Capped(alerts, out, limit) && i < |out| && alerts[i].status.Active?
    ensures out[i].status.Suppressed? <==> OverLimit(out[..i], alerts[i].actors, limit)
    ensures (forall j :: 0 <= j < |alerts| ==> Distinct(alerts[j].actors)) ==>
              (out[i].status.Suppressed? <==>
               exists actor :: actor in alerts[i].actors && Members(out[..i], actor) >= limit)
  {
    assert out[i] == if alerts[i].status.Active? && OverLimit(out[..i], alerts[i].actors, limit)
                     then alerts[i].(status := Suppressed) else alerts[i];
    if forall j :: 0 <= j < |alerts| ==> Distinct(alerts[j].actors) {
      forall actor
        ensures Members(out[..i], actor) == Tally(out[..i], actor)
      {
        assert forall j :: 0 <= j < i ==> out[..i][j].actors == alerts[j].actors;
        MembersWithinTally(out[..i], actor);
      }
    }
  }

  /** One alert that names its actor twice uses up a limit of two: the next is suppressed after a single ACTIVE one. */
  lemma RepeatedActorUsesUpLimit(twice: Alert, once: Alert, out: seq<Alert>)
    requires twice.status.Active? && once.status.Active? && twice.actors == ["car", "car"] && once.actors == ["car"]
    requires Capped([twice, once], out, 2)
    ensures out[1].status.Suppressed? && Members(out[..1], "car") == 1
  {
    assert out[..0] == [];
    assert out[0] == twice by {
      assert forall actor :: Tally(out[..0], actor) == 0;
    }
    assert out[..1] == [twice] && [twice][..0] == [];
    assert multiset(["car", "car"])["car"] == 2;
    assert Tally([twice], "car") == 2 && Members([twice], "car") == 1;
    assert "car" in once.actors;
    assert out[1] == once.(status := Suppressed);
  }

  // ---------------------------------------------------------------- pre-emption

  predicate Preempting(a: Alert) {
    a.level.Critical? && a.status.Active? && a.collisionClass
  }

  function CriticalActors(alerts: seq<Alert>): set<string> {
    set a, actor | a in alerts && Preempting(a) && actor in a.actors :: actor
  }

  predicate Overlaps(a: Alert, actors: set<string>) {
    exists actor :: actor in a.actors && actor in actors
  }

  function PreemptedOne(a: Alert, critical: set<string>): Alert {
    if !a.level.Critical? && Overlaps(a, critical) && AlertStore.Minor(a.level) then a.(status := Suppressed) else a
  }

  /** `out` is `alerts` after pre-emption, which the configuration may switch off. */
  ghost predicate Preempted(preempts: bool, alerts: seq<Alert>, out: seq<Alert>) {
    |out| == |alerts|
    && forall i :: 0 <= i < |out| ==>
         out[i] == if preempts then PreemptedOne(alerts[i], CriticalActors(alerts)) else alerts[i]
  }

  /** `_apply_preemption`. */
  method ApplyPreemption(preempts: bool, alerts: seq<Alert>) returns (out: seq<Alert>)
    ensures Preempted(preempts, alerts, out)
  {
    if !preempts {
      return alerts;
    }
    var critical: set<string> := {};
    for k := 0 to |alerts|
      invariant critical == CriticalActors(alerts[..k])
    {
      assert forall a :: a in alerts[..k + 1] <==> a in alerts[..k] || a == alerts[k];
      if alerts[k].level.Critical? && alerts[k].status.Active? {
        if alerts[k].collisionClass {
          critical := critical + (set actor | actor in alerts[k].actors);
        }
      }
    }
    assert alerts[..|alerts|] == alerts;
    if critical == {} {
      return alerts;
    }
    out := [];
    for k := 0 to |alerts|
      invariant |out| == k && forall i :: 0 <= i < k ==> out[i] == PreemptedOne(alerts[i], critical)
    {
      var a := alerts[k];
      if a.level.Critical? {
        out := out + [a];
        continue;
      }
      if Overlaps(a, critical) && (a.level.Advisory? || a.level.Informational?) {
        out := out + [a.(status := Suppressed)];
      } else {
        out := out + [a];
      }
    }
  }

  predicate Shares(a: Alert, b: Alert) {
    exists actor :: actor in a.actors && actor in b.actors
  }

  /** No minor alert is ACTIVE beside an ACTIVE critical collision alert of a shared actor. */
  ghost predicate NoMinorBeside(out: seq<Alert>) {
    forall i, j {:trigger out[i], out[j]} :: 0 <= i < |out| && 0 <= j < |out| ==>
      Preempting(out[i]) && AlertStore.Minor(out[j].level) && Shares(out[i], out[j]) ==> !out[j].status.Active?
  }

  /** Pre-emption suppresses exactly the advisory and informational alerts that share an actor with an ACTIVE critical
      collision, and leaves every other alert as it is. */
  lemma PreemptionSuppressesIff(preempts: bool, alerts: seq<Alert>, out: seq<Alert>, j: nat)
    requires Preempted(preempts, alerts, out) && j < |out|
    ensures
      var beside := exists a :: a in alerts && Preempting(a) && Shares(a, alerts[j]);
      out[j] == if preempts && beside && (alerts[j].level.Advisory? || alerts[j].level.Informational?)
                then alerts[j].(status := Suppressed) else alerts[j]
  {
    if a :| a in alerts && Preempting(a) && Shares(a, alerts[j]) {
      var actor :| actor in a.actors && actor in alerts[j].actors;
      assert actor in CriticalActors(alerts);
    }
  }

  /** After both passes, with pre-emption on. */
  lemma NoMinorBesideCritical(alerts: seq<Alert>, preempted: seq<Alert>, out: seq<Alert>, limit: int, i: nat, j: nat)
    requires Preempted(true, alerts, preempted) && Capped(preempted, out, limit) && i < |out| && j < |out|
    requires Preempting(out[i]) && AlertStore.Minor(out[j].level) && Shares(out[i], out[j])
    ensures !out[j].status.Active?
  {
    CapOnlySuppresses(preempted, out, limit, i);
    CapOnlySuppresses(preempted, out, limit, j);
    assert alerts[i] in alerts && Preempting(alerts[i]);
    var actor :| actor in out[i].actors && actor in out[j].actors;
    assert actor in CriticalActors(alerts);
  }

  /** A limit of one leaves only one ACTIVE alert of an actor. */
  lemma OneActivePerActor(alerts: seq<Alert>, out: seq<Alert>, limit: int, i: nat, j: nat)
    requires Capped(alerts, out, limit) && limit <= 1 && i < j < |out|
    requires Shares(out[i], out[j]) && out[i].status.Active?
    ensures !out[j].status.Active?
  {
    CapOnlySuppresses(alerts, out, limit, j);
    var actor :| actor in out[i].actors && actor in out[j].actors;
    ActiveCounts(out[..j], i, actor);
    assert out[j] == if alerts[j].status.Active? && OverLimit(out[..j], alerts[j].actors, limit)
                     then alerts[j].(status := Suppressed) else alerts[j];
  }

  lemma {:induction false} ActiveCounts(alerts: seq<Alert>, i: nat, actor: string)
    requires i < |alerts| && alerts[i].status.Active? && actor in alerts[i].actors
    ensures Tally(alerts, actor) >= 1
  {
    var n := |alerts| - 1;
    if i < n {
      ActiveCounts(alerts[..n], i, actor);
    }
  }

  /** Whatever the alerts, the passes leave no minor alert beside a critical one. */
  ghost predicate AlwaysNoMinorBeside(preempts: bool, limit: int) {
    forall alerts, preempted, out {:trigger Preempted(preempts, alerts, preempted), Capped(preempted, out, limit)} ::
      Preempted(preempts, alerts, preempted) && Capped(preempted, out, limit) ==> NoMinorBeside(out)
  }

  lemma PassesLeaveNoMinor(preempts: bool, limit: int, alerts: seq<Alert>, preempted: seq<Alert>, out: seq<Alert>)
    requires (preempts || limit <= 1) && Preempted(preempts, alerts, preempted) && Capped(preempted, out, limit)
    ensures NoMinorBeside(out)
  {
    forall i, j | 0 <= i < |out| && 0 <= j < |out| && Preempting(out[i]) && AlertStore.Minor(out[j].level)
                  && Shares(out[i], out[j])
      ensures !out[j].status.Active?
    {
      if preempts {
        NoMinorBesideCritical(alerts, preempted, out, limit, i, j);
      } else if i < j {
        OneActivePerActor(preempted, out, limit, i, j);
      } else if out[j].status.Active? {
        var actor :| actor in out[i].actors && actor in out[j].actors;
        assert Shares(out[j], out[i]);
        OneActivePerActor(preempted, out, limit, j, i);
      }
    }
  }

  lemma MinorStaysBeside(critical: Alert, minor: Alert, limit: int)
    requires Preempting(critical) && critical.actors == ["car"] && limit > 1
    requires AlertStore.Minor(minor.level) && minor.status.Active? && minor.actors == ["car"]
    ensures Preempted(false, [critical, minor], [critical, minor])
    ensures Capped([critical, minor], [critical, minor], limit)
    ensures !NoMinorBeside([critical, minor])
  {
    var both := [critical, minor];
    assert both[..0] == [] && both[..1] == [critical] && [critical][..0] == [];
    assert forall actor :: Tally(both[..0], actor) == 0;
    assert Tally(both[..1], "car") == 1;
    assert "car" in critical.actors && "car" in minor.actors;
    assert Preempting(both[0]) && AlertStore.Minor(both[1].level) && both[1].status.Active?;
    assert Shares(both[0], both[1]);
  }

  /** No list of alerts ends with a minor alert ACTIVE beside a critical one if and only if pre-emption is on or the
      limit is at most one. */
  lemma NoMinorBesideCriticalIff(preempts: bool, limit: int)
    ensures AlwaysNoMinorBeside(preempts, limit) <==> preempts || limit <= 1
  {
    if preempts || limit <= 1 {
      forall alerts, preempted, out | Preempted(preempts, alerts, preempted) && Capped(preempted, out, limit)
        ensures NoMinorBeside(out)
      {
        PassesLeaveNoMinor(preempts, limit, alerts, preempted, out);
      }
    } else {
      var critical := Alert("a", "r", Critical, Active, ["car"], 1.0, 0.0, true);
      var minor := Alert("b", "s", Advisory, Active, ["car"], 1.0, 0.0, false);
      MinorStaysBeside(critical, minor, limit);
    }
  }

  lemma CapOnlySuppresses(alerts: seq<Alert>, out: seq<Alert>, limit: int, i: nat)
    requires Capped(alerts, out, limit) && i < |out|
    ensures out[i] == alerts[i] || (alerts[i].status.Active? && out[i] == alerts[i].(status := Suppressed))
  {
    assert out[i] == if alerts[i].status.Active? && OverLimit(out[..i], alerts[i].actors, limit)
                     then alerts[i].(status := Suppressed) else alerts[i];
  }

  /** The sort order of `_alert_sort_key`, highest first: level and activity, then confidence, then time. */
  predicate KeyAtLeast(a: Alert, b: Alert) {
    var ra, rb := Rank(a.level) + (if a.status.Active? then 10 else 0),
        Rank(b.level) + (if b.status.Active? then 10 else 0);
    ra > rb || (ra == rb && (a.confidence > b.confidence || (a.confidence == b.confidence && a.issuedAt >= b.issuedAt)))
  }

  /** The order of the alerts of a tick: ACTIVE ones first, then by level, by confidence, and the latest first. */
  lemma SortKeyDecides(a: Alert, b: Alert)
    ensures a.status.Active? && !b.status.Active? ==> KeyAtLeast(a, b) && !KeyAtLeast(b, a)
    ensures (a.status.Active? <==> b.status.Active?) ==>
              if a.level != b.level then KeyAtLeast(a, b) <==> Rank(a.level) > Rank(b.level)
              else if a.confidence != b.confidence then KeyAtLeast(a, b) <==> a.confidence > b.confidence
              else KeyAtLeast(a, b) <==> a.issuedAt >= b.issuedAt
  {
  }

  ghost predicate SortedByKey(alerts: seq<Alert>) {
    forall i, j :: 0 <= i < j < |alerts| ==> KeyAtLeast(alerts[i], alerts[j])
  }

  /** On sorted alerts the cap never keeps a lower level at a higher one's expense: whatever is ACTIVE before a capped
      alert has at least its level, and at the same level at least its confidence, and is no older at the same one. */
  lemma CapPrefersHigherLevels(preempts: bool, alerts: seq<Alert>, preempted: seq<Alert>, out: seq<Alert>, limit: int,
                               i: nat, j: nat)
    requires SortedByKey(alerts)
    requires Preempted(preempts, alerts, preempted)
    requires Capped(preempted, out, limit) && i < j < |out|
    requires out[i].status.Active? && preempted[j].status.Active? && out[j].status.Suppressed?
    ensures Rank(out[i].level) >= Rank(out[j].level)
    ensures out[i].level == out[j].level ==>
              out[i].confidence > out[j].confidence
              || (out[i].confidence == out[j].confidence && out[i].issuedAt >= out[j].issuedAt)
  {
    CapOnlySuppresses(preempted, out, limit, i);
    CapOnlySuppresses(preempted, out, limit, j);
    assert KeyAtLeast(alerts[i], alerts[j]);
  }
}
