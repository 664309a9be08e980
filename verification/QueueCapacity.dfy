/** Which configurations keep the live messages within the capacity, over all runs. */
module QueueCapacity {
  import opened Basics
  import opened QueueModel
  import opened QueueAccounting

  /** After every run the live messages fit the capacity. */
  ghost predicate AlwaysFits(capacity: int, compaction: bool) {
    forall ops {:trigger Run(Empty(capacity, compaction, false), ops)} ::
      LiveCount(Run(Empty(capacity, compaction, false), ops)) <= Bound(capacity)
  }

  // ---------------------------------------------------------------- without compaction

  lemma {:induction false} ShedLaneKeepsSetting(q: Queue, p: Priority)
    ensures ShedLane(q, p).0.compaction == q.compaction
    decreases |Lane(q, p)|
  {
    if Lane(q, p) != [] && Lane(q, p)[0].seqNo in q.tombs {
      ShedLaneKeepsSetting(PopDead(q, p), p);
    }
  }

  lemma {:induction false} ShedFromKeepsSetting(q: Queue, order: seq<Priority>, incoming: Priority)
    ensures ShedFrom(q, order, incoming).0.compaction == q.compaction
    decreases |order|
  {
    if order != [] {
      ShedLaneKeepsSetting(q, order[0]);
      ShedFromKeepsSetting(ShedLane(q, order[0]).0, order[1..], incoming);
    }
  }

  lemma {:induction false} DequeueLaneKeepsSetting(q: Queue, p: Priority, now: real)
    ensures DequeueLane(q, p, now).0.compaction == q.compaction
    decreases |Lane(q, p)|
  {
    if Lane(q, p) != [] {
      if Lane(q, p)[0].seqNo in q.tombs {
        DequeueLaneKeepsSetting(PopDead(q, p), p, now);
      } else if Expired(Lane(q, p)[0].msg, now) {
        DequeueLaneKeepsSetting(PopSilently(q, p), p, now);
      }
    }
  }

  lemma {:induction false} DequeueFromKeepsSetting(q: Queue, order: seq<Priority>, now: real)
    ensures DequeueFrom(q, order, now).0.compaction == q.compaction
    decreases |order|
  {
    if order != [] {
      DequeueLaneKeepsSetting(q, order[0], now);
      DequeueFromKeepsSetting(DequeueLane(q, order[0], now).0, order[1..], now);
    }
  }

  lemma StepKeepsSetting(q: Queue, op: Op, now: real)
    ensures Step(q, op, now).compaction == q.compaction
    ensures !q.compaction ==> StaleStep(q, op, now) == 0
  {
    match op
    case Take => DequeueFromKeepsSetting(q, DISPATCH_ORDER, now);
    case Put(m) => ShedFromKeepsSetting(q, SHED_ORDER, m.priority);
  }

  lemma {:induction false} NeverStaleUncompacted(q: Queue, ops: seq<(Op, real)>)
    requires !q.compaction
    ensures StaleSteps(q, ops) == 0
    decreases |ops|
  {
    if ops != [] {
      StepKeepsSetting(q, ops[0].0, ops[0].1);
      NeverStaleUncompacted(Step(q, ops[0].0, ops[0].1), ops[1..]);
    }
  }

  // ---------------------------------------------------------------- without capacity

  ghost predicate Idle(q: Queue) {
    q.tombs == {} && forall p {:trigger Lane(q, p)} :: Lane(q, p) == []
  }

  lemma {:induction false} IdleSheds(q: Queue, order: seq<Priority>, incoming: Priority)
    requires Idle(q)
    ensures ShedFrom(q, order, incoming) == (q, false)
    decreases |order|
  {
    if order != [] && Rank(order[0]) > Rank(incoming) {
      assert ShedLane(q, order[0]) == (q, false);
      IdleSheds(q, order[1..], incoming);
    }
  }

  lemma {:induction false} IdleDequeues(q: Queue, order: seq<Priority>, now: real)
    requires Idle(q)
    ensures DequeueFrom(q, order, now) == (q, None)
    decreases |order|
  {
    if order != [] {
      assert DequeueLane(q, order[0], now) == (q, None);
      IdleDequeues(q, order[1..], now);
    }
  }

  lemma StepStaysIdle(q: Queue, op: Op, now: real)
    requires Idle(q) && q.capacity <= 0
    ensures Idle(Step(q, op, now)) && Step(q, op, now).capacity <= 0
  {
    match op
    case Take => IdleDequeues(q, DISPATCH_ORDER, now);
    case Put(m) =>
      IdleSheds(q, SHED_ORDER, m.priority);
      var r := q.(dropped := q.dropped + 1);
      assert TotalSize(q) == 0;
      assert forall p :: Lane(r, p) == Lane(q, p);
  }

  lemma {:induction false} RunStaysIdle(q: Queue, ops: seq<(Op, real)>)
    requires Idle(q) && q.capacity <= 0
    ensures LiveCount(Run(q, ops)) == 0
    decreases |ops|
  {
    if ops != [] {
      StepStaysIdle(q, ops[0].0, ops[0].1);
      RunStaysIdle(Step(q, ops[0].0, ops[0].1), ops[1..]);
    }
  }

  // ---------------------------------------------------------------- with both

  const STALE_MSG := Msg("s", Operational, 0.0, 1, 0)
  const NEXT_MSG := Msg("s", Operational, 10.0, 100, 1)
  const URGENT_MSG := Msg("t", CriticalSafety, 10.0, 100, 2)

  function Filling(n: nat): seq<(Op, real)> {
    if n == 0 then [] else [(Put(URGENT_MSG), 10.0)] + Filling(n - 1)
  }

  /** A message that expires in the queue, its successor from the same sender, and as many others as the capacity. */
  function Overfilling(capacity: nat): seq<(Op, real)> {
    [(Put(STALE_MSG), 0.0), (Take, 5.0), (Put(NEXT_MSG), 10.0)] + Filling(capacity)
  }

  /** The dropped entry is superseded: one live message and one tombstone, which the code counts as nothing. */
  lemma AfterStale(q0: Queue, q1: Queue, q2: Queue, q3: Queue)
    requires q0 == Empty(q0.capacity, true, false) && q0.capacity >= 1
    requires q1 == Step(q0, Put(STALE_MSG), 0.0) && q2 == Step(q1, Take, 5.0) && q3 == Step(q2, Put(NEXT_MSG), 10.0)
    ensures TotalSize(q3) == 0 && q3.capacity == q0.capacity && StaleStep(q2, Put(NEXT_MSG), 10.0) == 1
  {
    assert q1 == Push(q0, STALE_MSG);
    assert Lane(q1, Operational) == [Entry(2, 1, STALE_MSG)];
    Emptied(q1, q2);
    assert q3 == Push(q2, NEXT_MSG) && Lane(q3, Operational) == [Entry(2, 2, NEXT_MSG)] && q3.tombs == {1};
    LaneNumberIff(q2, Operational, 1);
  }

  lemma SkipEmptyLane(q: Queue, order: seq<Priority>, now: real)
    requires order != [] && Lane(q, order[0]) == []
    ensures DequeueFrom(q, order, now) == DequeueFrom(q, order[1..], now)
  {
  }

  /** The message has expired by the time it is its turn; the sender map keeps its number. */
  lemma Emptied(q1: Queue, q2: Queue)
    requires q1 == Push(Empty(q1.capacity, true, false), STALE_MSG) && q2 == Step(q1, Take, 5.0)
    ensures Lane(q2, Operational) == [] && Latest(q2, Operational) == map["s" := 1]
    ensures Lane(q2, CriticalSafety) == Lane(q2, RegionalSafety) == Lane(q2, Analytics) == []
    ensures q2.tombs == {} && q2.capacity == q1.capacity && q2.compaction && q2.last == 1
  {
    assert Lane(q1, Operational) == [Entry(2, 1, STALE_MSG)];
    var popped := PopSilently(q1, Operational);
    assert Lane(popped, Operational) == [];
    assert DequeueLane(q1, Operational, 5.0) == (popped, None);
    var order := DISPATCH_ORDER;
    SkipEmptyLane(q1, order, 5.0);
    SkipEmptyLane(q1, order[1..], 5.0);
    assert order[1..][1..] == [Operational, Analytics] && order[1..][1..][1..] == [Analytics];
    assert DequeueFrom(q1, order[1..][1..], 5.0) == DequeueFrom(popped, [Analytics], 5.0);
    SkipEmptyLane(popped, [Analytics], 5.0);
  }

  /** A critical message is appended to its lane, supersedes nothing and counts as one. */
  lemma FillStep(q: Queue)
    requires TotalSize(q) < q.capacity
    ensures
      var r := Step(q, Put(URGENT_MSG), 10.0);
      TotalSize(r) == TotalSize(q) + 1 && r.capacity == q.capacity
  {
    var r := Push(q, URGENT_MSG);
    assert Step(q, Put(URGENT_MSG), 10.0) == r;
    assert Lane(r, RegionalSafety) == Lane(q, RegionalSafety) && Lane(r, Operational) == Lane(q, Operational);
    assert Lane(r, Analytics) == Lane(q, Analytics) && r.tombs == q.tombs;
  }

  lemma {:induction false} FillsUp(q: Queue, n: nat)
    requires TotalSize(q) + n <= q.capacity
    ensures TotalSize(Run(q, Filling(n))) == TotalSize(q) + n
    decreases n
  {
    if n > 0 {
      FillStep(q);
      assert Filling(n)[1..] == Filling(n - 1);
      FillsUp(Step(q, Put(URGENT_MSG), 10.0), n - 1);
    }
  }

  lemma FirstStep(q: Queue, a: (Op, real), rest: seq<(Op, real)>)
    ensures Run(q, [a] + rest) == Run(Step(q, a.0, a.1), rest)
    ensures StaleSteps(q, [a] + rest) == StaleStep(q, a.0, a.1) + StaleSteps(Step(q, a.0, a.1), rest)
  {
    assert ([a] + rest)[1..] == rest;
  }

  lemma ThreeSteps(q: Queue, a: (Op, real), b: (Op, real), c: (Op, real), rest: seq<(Op, real)>, q1: Queue,
                   q2: Queue, q3: Queue)
    requires q1 == Step(q, a.0, a.1) && q2 == Step(q1, b.0, b.1) && q3 == Step(q2, c.0, c.1)
    ensures Run(q, [a, b, c] + rest) == Run(q3, rest)
    ensures StaleSteps(q, [a, b, c] + rest) >= StaleStep(q2, c.0, c.1)
  {
    FirstStep(q, a, [b, c] + rest);
    FirstStep(q1, b, [c] + rest);
    FirstStep(q2, c, rest);
    assert [a] + ([b, c] + rest) == [a, b, c] + rest && [b] + ([c] + rest) == [b, c] + rest;
  }

  /** For every positive capacity some run ends with more live messages than fit. */
  lemma OverfillingRun(capacity: nat)
    requires capacity >= 1
    ensures
      var r := Run(Empty(capacity, true, false), Overfilling(capacity));
      TotalSize(r) == capacity && LiveCount(r) > capacity
  {
    var q0 := Empty(capacity, true, false);
    var q1 := Step(q0, Put(STALE_MSG), 0.0);
    var q2 := Step(q1, Take, 5.0);
    var q3 := Step(q2, Put(NEXT_MSG), 10.0);
    AfterStale(q0, q1, q2, q3);
    FillsUp(q3, capacity);
    ThreeSteps(q0, (Put(STALE_MSG), 0.0), (Take, 5.0), (Put(NEXT_MSG), 10.0), Filling(capacity), q1, q2, q3);
    AccountingOverRuns(capacity, true, Overfilling(capacity));
  }

  /** Every run fits the capacity if and only if compaction is off or the capacity is not positive. */
  lemma AlwaysFitsIff(capacity: int, compaction: bool)
    ensures AlwaysFits(capacity, compaction) <==> !compaction || capacity <= 0
  {
    var start := Empty(capacity, compaction, false);
    if !compaction {
      forall ops
        ensures LiveCount(Run(start, ops)) <= Bound(capacity)
      {
        NeverStaleUncompacted(start, ops);
        AccountingOverRuns(capacity, compaction, ops);
      }
    } else if capacity <= 0 {
      forall ops
        ensures LiveCount(Run(start, ops)) <= Bound(capacity)
      {
        RunStaysIdle(start, ops);
      }
    } else {
      OverfillingRun(capacity);
    }
  }
}
