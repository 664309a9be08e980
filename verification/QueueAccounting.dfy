/** Size accounting of the message queue: what the code's count misses, by how much, and when. */
module QueueAccounting {
  import opened Basics
  import opened QueueModel

  // ---------------------------------------------------------------- numbers in the lanes

  ghost function LaneNumbers(lane: seq<Entry>): set<nat> {
    set e | e in lane :: e.seqNo
  }

  ghost function Numbers(q: Queue): set<nat> {
    LaneNumbers(Lane(q, CriticalSafety)) + LaneNumbers(Lane(q, RegionalSafety))
    + LaneNumbers(Lane(q, Operational)) + LaneNumbers(Lane(q, Analytics))
  }

  /** Tombstones whose entry has already left its lane. */
  ghost function Ghosts(q: Queue): set<nat> {
    q.tombs - Numbers(q)
  }

  lemma LaneNumberIff(q: Queue, p: Priority, n: nat)
    ensures n in LaneNumbers(Lane(q, p)) <==> exists e :: InLane(q, p, e) && e.seqNo == n
  {
    if n in LaneNumbers(Lane(q, p)) {
      var e :| e in Lane(q, p) && e.seqNo == n;
      assert InLane(q, p, e);
    }
  }

  lemma LaneInNumbers(q: Queue, p: Priority)
    ensures LaneNumbers(Lane(q, p)) <= Numbers(q)
  {
  }

  lemma {:induction false} LaneNumbersSize(lane: seq<Entry>)
    requires Sorted(lane)
    ensures |LaneNumbers(lane)| == |lane|
  {
    if lane != [] {
      var n := |lane| - 1;
      LaneNumbersSize(lane[..n]);
      assert lane == lane[..n] + [lane[n]];
      assert LaneNumbers(lane) == LaneNumbers(lane[..n]) + {lane[n].seqNo};
      assert lane[n].seqNo !in LaneNumbers(lane[..n]);
    }
  }

  lemma OneLanePerNumber(q: Queue, p: Priority, e: Entry, p': Priority, e': Entry)
    requires Valid(q) && InLane(q, p, e) && InLane(q, p', e') && e.seqNo == e'.seqNo
    ensures p == p' && e == e'
  {
    assert EntryOk(q, p, e) && EntryOk(q, p', e');
  }

  lemma LanesDisjoint(q: Queue, p: Priority, p': Priority)
    requires Valid(q) && p != p'
    ensures LaneNumbers(Lane(q, p)) !! LaneNumbers(Lane(q, p'))
  {
    if n :| n in LaneNumbers(Lane(q, p)) && n in LaneNumbers(Lane(q, p')) {
      var e :| e in Lane(q, p) && e.seqNo == n;
      var e' :| e' in Lane(q, p') && e'.seqNo == n;
      OneLanePerNumber(q, p, e, p', e');
    }
  }

  lemma AllLanesDisjoint(q: Queue)
    requires Valid(q)
    ensures LaneNumbers(Lane(q, CriticalSafety)) !! LaneNumbers(Lane(q, RegionalSafety))
            !! LaneNumbers(Lane(q, Operational)) !! LaneNumbers(Lane(q, Analytics))
  {
    LanesDisjoint(q, CriticalSafety, RegionalSafety);
    LanesDisjoint(q, CriticalSafety, Operational);
    LanesDisjoint(q, CriticalSafety, Analytics);
    LanesDisjoint(q, RegionalSafety, Operational);
    LanesDisjoint(q, RegionalSafety, Analytics);
    LanesDisjoint(q, Operational, Analytics);
  }

  lemma NumbersSize(q: Queue)
    requires Valid(q)
    ensures |Numbers(q)| == TotalSize(q) + |q.tombs|
  {
    forall p
      ensures |LaneNumbers(Lane(q, p))| == |Lane(q, p)|
    {
      LaneNumbersSize(Lane(q, p));
    }
    AllLanesDisjoint(q);
  }

  // ---------------------------------------------------------------- live entries

  /** The lane without its tombstoned entries, oldest first. */
  function LiveOf(lane: seq<Entry>, tombs: set<nat>): seq<Entry> {
    if lane == [] then []
    else if lane[0].seqNo in tombs then LiveOf(lane[1..], tombs)
    else [lane[0]] + LiveOf(lane[1..], tombs)
  }

  function Live(q: Queue, p: Priority): seq<Entry> {
    LiveOf(Lane(q, p), q.tombs)
  }

  /** What `get_stats` reports as the total. */
  function LiveCount(q: Queue): nat {
    |Live(q, CriticalSafety)| + |Live(q, RegionalSafety)| + |Live(q, Operational)| + |Live(q, Analytics)|
  }

  lemma {:induction false} LiveOfMembers(lane: seq<Entry>, tombs: set<nat>)
    ensures forall e :: e in LiveOf(lane, tombs) <==> e in lane && e.seqNo !in tombs
  {
    if lane != [] {
      LiveOfMembers(lane[1..], tombs);
      assert lane == [lane[0]] + lane[1..];
    }
  }

  lemma {:induction false} LiveOfSorted(lane: seq<Entry>, tombs: set<nat>)
    requires Sorted(lane)
    ensures Sorted(LiveOf(lane, tombs))
  {
    if lane != [] {
      LiveOfSorted(lane[1..], tombs);
      LiveOfMembers(lane[1..], tombs);
      var rest := LiveOf(lane[1..], tombs);
      forall i | 0 <= i < |rest|
        ensures lane[0].seqNo < rest[i].seqNo
      {
        assert rest[i] in lane[1..];
        var k :| 0 <= k < |lane[1..]| && lane[1..][k] == rest[i];
        assert lane[k + 1] == rest[i];
      }
    }
  }

  lemma LiveSize(lane: seq<Entry>, tombs: set<nat>)
    requires Sorted(lane)
    ensures |LiveOf(lane, tombs)| == |LaneNumbers(lane) - tombs|
  {
    LiveOfMembers(lane, tombs);
    LiveOfSorted(lane, tombs);
    LaneNumbersSize(LiveOf(lane, tombs));
    forall n | n in LaneNumbers(lane) - tombs
      ensures n in LaneNumbers(LiveOf(lane, tombs))
    {
      var e :| e in lane && e.seqNo == n;
      assert e in LiveOf(lane, tombs);
    }
    assert LaneNumbers(LiveOf(lane, tombs)) == LaneNumbers(lane) - tombs;
  }

  lemma TwoDisjointSizes(a: set<nat>, b: set<nat>, t: set<nat>)
    requires a !! b
    ensures |(a + b) - t| == |a - t| + |b - t|
  {
    assert (a + b) - t == (a - t) + (b - t);
  }

  lemma FourDisjointSizes(c: set<nat>, r: set<nat>, o: set<nat>, a: set<nat>, t: set<nat>)
    requires c !! r !! o !! a
    ensures |(c + r + o + a) - t| == |c - t| + |r - t| + |o - t| + |a - t|
  {
    TwoDisjointSizes(c, r, t);
    TwoDisjointSizes(c + r, o, t);
    TwoDisjointSizes(c + r + o, a, t);
  }

  lemma LiveCountIsNumbers(q: Queue)
    requires Valid(q)
    ensures LiveCount(q) == |Numbers(q) - q.tombs|
  {
    forall p
      ensures |Live(q, p)| == |LaneNumbers(Lane(q, p)) - q.tombs|
    {
      LiveSize(Lane(q, p), q.tombs);
    }
    AllLanesDisjoint(q);
    FourDisjointSizes(LaneNumbers(Lane(q, CriticalSafety)), LaneNumbers(Lane(q, RegionalSafety)),
                      LaneNumbers(Lane(q, Operational)), LaneNumbers(Lane(q, Analytics)), q.tombs);
  }

  lemma DifferenceSizes(n: set<nat>, t: set<nat>)
    ensures |n - t| - |t - n| == |n| - |t|
  {
    assert n == (n - t) + (n * t);
    assert t == (t - n) + (n * t);
  }

  /** The live entries are what the code counts plus the tombstones whose entry has left. */
  lemma LiveIsTotalPlusGhosts(q: Queue)
    requires Valid(q)
    ensures LiveCount(q) == TotalSize(q) + |Ghosts(q)|
  {
    NumbersSize(q);
    LiveCountIsNumbers(q);
    DifferenceSizes(Numbers(q), q.tombs);
  }

  // ---------------------------------------------------------------- effect of the steps

  lemma FrontNumber(lane: seq<Entry>)
    requires lane != [] && Sorted(lane)
    ensures LaneNumbers(lane[1..]) == LaneNumbers(lane) - {lane[0].seqNo} && lane[0].seqNo in LaneNumbers(lane)
  {
    assert lane == [lane[0]] + lane[1..];
    assert LaneNumbers(lane) == {lane[0].seqNo} + LaneNumbers(lane[1..]);
    forall e | e in lane[1..]
      ensures e.seqNo != lane[0].seqNo
    {
      var i :| 0 <= i < |lane[1..]| && lane[1..][i] == e;
      assert lane[i + 1].seqNo > lane[0].seqNo;
    }
  }

  lemma PoppedLaneNumbers(q: Queue, p: Priority, r: Queue, p': Priority)
    requires Valid(q) && Popped(q, p, r)
    ensures LaneNumbers(Lane(r, p')) == LaneNumbers(Lane(q, p')) - {Lane(q, p)[0].seqNo}
  {
    FrontNumber(Lane(q, p));
    if p' != p {
      LanesDisjoint(q, p, p');
    }
  }

  lemma PoppedNumbers(q: Queue, p: Priority, r: Queue)
    requires Valid(q) && Popped(q, p, r)
    ensures Numbers(r) == Numbers(q) - {Lane(q, p)[0].seqNo} && Lane(q, p)[0].seqNo in Numbers(q)
  {
    FrontNumber(Lane(q, p));
    LaneInNumbers(q, p);
    PoppedLaneNumbers(q, p, r, CriticalSafety);
    PoppedLaneNumbers(q, p, r, RegionalSafety);
    PoppedLaneNumbers(q, p, r, Operational);
    PoppedLaneNumbers(q, p, r, Analytics);
  }

  lemma PoppedSizes(q: Queue, p: Priority, r: Queue)
    requires Valid(q) && Popped(q, p, r)
    ensures Valid(r) && TotalSize(r) + |r.tombs| == TotalSize(q) + |q.tombs| - 1
  {
    PoppedValid(q, p, r);
    PoppedNumbers(q, p, r);
    NumbersSize(q);
    NumbersSize(r);
  }

  lemma PopDeadAccounts(q: Queue, p: Priority)
    requires Valid(q) && Lane(q, p) != [] && Lane(q, p)[0].seqNo in q.tombs
    ensures Valid(PopDead(q, p)) && TotalSize(PopDead(q, p)) == TotalSize(q) && Ghosts(PopDead(q, p)) == Ghosts(q)
  {
    PopDeadIsPopped(q, p);
    PoppedDeadAccounts(q, p, PopDead(q, p));
  }

  lemma PoppedDeadAccounts(q: Queue, p: Priority, r: Queue)
    requires Valid(q) && Popped(q, p, r) && Lane(q, p)[0].seqNo in q.tombs && r.tombs == q.tombs - {Lane(q, p)[0].seqNo}
    ensures Valid(r) && TotalSize(r) == TotalSize(q) && Ghosts(r) == Ghosts(q)
  {
    PoppedSizes(q, p, r);
    PoppedNumbers(q, p, r);
    GhostsAfterPop(Numbers(q), q.tombs, Lane(q, p)[0].seqNo);
  }

  lemma GhostsAfterPop(numbers: set<nat>, tombs: set<nat>, popped: nat)
    requires popped in numbers && popped in tombs
    ensures (tombs - {popped}) - (numbers - {popped}) == tombs - numbers
    ensures |tombs - {popped}| == |tombs| - 1
  {
  }

  lemma PopLiveAccounts(q: Queue, p: Priority, r: Queue)
    requires Valid(q) && Popped(q, p, r) && Lane(q, p)[0].seqNo !in q.tombs && r.tombs == q.tombs
    ensures Valid(r) && TotalSize(r) == TotalSize(q) - 1 && Ghosts(r) == Ghosts(q)
  {
    PoppedSizes(q, p, r);
    PoppedNumbers(q, p, r);
    GhostsKeptByPop(Numbers(q), q.tombs, Lane(q, p)[0].seqNo);
  }

  lemma GhostsKeptByPop(numbers: set<nat>, tombs: set<nat>, popped: nat)
    requires popped in numbers && popped !in tombs
    ensures tombs - (numbers - {popped}) == tombs - numbers
  {
  }

  /** The sender map names an entry that has already left its lane. */
  ghost predicate StaleOverwrite(q: Queue, m: Msg) {
    Compacting(q, m.priority) && m.sender in Latest(q, m.priority) && Latest(q, m.priority)[m.sender] !in Numbers(q)
  }

  lemma PushLane(q: Queue, m: Msg, p: Priority)
    requires Valid(q)
    ensures LaneNumbers(Lane(Push(q, m), p)) == LaneNumbers(Lane(q, p)) + (if p == m.priority then {q.last + 1} else {})
    ensures q.last + 1 !in LaneNumbers(Lane(q, p))
  {
    NumbersBounded(q);
    LaneNumberIff(q, p, q.last + 1);
    if p == m.priority {
      AppendNumbers(Lane(q, p), Entry(Rank(p), q.last + 1, m));
    }
  }

  lemma PushNumbers(q: Queue, m: Msg)
    requires Valid(q)
    ensures Numbers(Push(q, m)) == Numbers(q) + {q.last + 1} && q.last + 1 !in q.tombs
  {
    PushLane(q, m, CriticalSafety);
    PushLane(q, m, RegionalSafety);
    PushLane(q, m, Operational);
    PushLane(q, m, Analytics);
  }

  lemma AppendNumbers(lane: seq<Entry>, e: Entry)
    ensures LaneNumbers(lane + [e]) == LaneNumbers(lane) + {e.seqNo}
  {
    assert forall x :: x in lane + [e] <==> x in lane || x == e;
  }

  lemma GhostsAfterPush(numbers: set<nat>, tombs: set<nat>, newest: nat, superseded: nat)
    requires newest !in tombs && superseded !in tombs && superseded != newest
    ensures |(tombs + {superseded}) - (numbers + {newest})| == |tombs - numbers|
      + (if superseded in numbers then 0 else 1)
    ensures tombs - (numbers + {newest}) == tombs - numbers
  {
    var before, after := tombs - numbers, (tombs + {superseded}) - (numbers + {newest});
    if superseded in numbers {
      assert after == before;
    } else {
      assert after == before + {superseded};
    }
  }

  lemma PushGhosts(q: Queue, m: Msg)
    requires Valid(q)
    ensures |Ghosts(Push(q, m))| == |Ghosts(q)| + (if StaleOverwrite(q, m) then 1 else 0)
  {
    PushNumbers(q, m);
    PushTombs(q, m);
    if Compacting(q, m.priority) && m.sender in Latest(q, m.priority) {
      GhostsAfterPush(Numbers(q), q.tombs, q.last + 1, Latest(q, m.priority)[m.sender]);
    } else {
      GhostsAfterPush(Numbers(q), q.tombs, q.last + 1, q.last + 2);
    }
  }

  lemma PushAccounts(q: Queue, m: Msg)
    requires Valid(q)
    ensures Valid(Push(q, m)) && TotalSize(Push(q, m)) <= TotalSize(q) + 1
    ensures |Ghosts(Push(q, m))| == |Ghosts(q)| + (if StaleOverwrite(q, m) then 1 else 0)
  {
    PushValid(q, m);
    PushGhosts(q, m);
    PushSize(q, m);
  }

  lemma PushSize(q: Queue, m: Msg)
    requires Valid(q)
    ensures TotalSize(Push(q, m)) <= TotalSize(q) + 1
  {
    PushTombs(q, m);
  }

  lemma PushTombs(q: Queue, m: Msg)
    requires Valid(q)
    ensures q.last + 2 !in q.tombs
    ensures
      if Compacting(q, m.priority) && m.sender in Latest(q, m.priority)
      then Latest(q, m.priority)[m.sender] !in q.tombs && Latest(q, m.priority)[m.sender] <= q.last
           && Push(q, m).tombs == q.tombs + {Latest(q, m.priority)[m.sender]}
      else Push(q, m).tombs == q.tombs
  {
    assert LatestOk(q, m.priority, m.sender);
  }

  lemma RepairedIsNeverStale(q: Queue, m: Msg)
    requires Valid(q) && q.repair
    ensures !StaleOverwrite(q, m)
  {
    if Compacting(q, m.priority) && m.sender in Latest(q, m.priority) {
      assert LatestOk(q, m.priority, m.sender);
      LaneNumberIff(q, m.priority, Latest(q, m.priority)[m.sender]);
      LaneInNumbers(q, m.priority);
    }
  }

  /** `r` is a valid queue with the same ghosts that counts `removed` entries fewer. */
  ghost predicate Shrunk(q: Queue, r: Queue, removed: int) {
    && Valid(r) && r.capacity == q.capacity && r.repair == q.repair
    && Ghosts(r) == Ghosts(q) && TotalSize(r) == TotalSize(q) - removed
  }

  lemma ShrunkTwice(q: Queue, mid: Queue, r: Queue, removed: int, more: int)
    requires Shrunk(q, mid, removed) && Shrunk(mid, r, more)
    ensures Shrunk(q, r, removed + more)
  {
  }

  lemma PopDeadShrinks(q: Queue, p: Priority)
    requires Valid(q) && Lane(q, p) != [] && Lane(q, p)[0].seqNo in q.tombs
    ensures Shrunk(q, PopDead(q, p), 0)
  {
    PopDeadAccounts(q, p);
  }

  lemma PopSilentlyShrinks(q: Queue, p: Priority)
    requires Valid(q) && Lane(q, p) != [] && Lane(q, p)[0].seqNo !in q.tombs
    ensures Shrunk(q, PopSilently(q, p), 1)
  {
    PopSilentlyIsPopped(q, p);
    PopLiveAccounts(q, p, PopSilently(q, p));
  }

  lemma PopTakenShrinks(q: Queue, p: Priority)
    requires Valid(q) && Lane(q, p) != [] && Lane(q, p)[0].seqNo !in q.tombs
    ensures Shrunk(q, ForgetSender(PopFront(q, p), p, Lane(q, p)[0]), 1)
  {
    PopTakenIsPopped(q, p);
    PopLiveAccounts(q, p, ForgetSender(PopFront(q, p), p, Lane(q, p)[0]));
  }

  lemma {:induction false} ShedLaneAccounts(q: Queue, p: Priority)
    requires Valid(q)
    ensures Shrunk(q, ShedLane(q, p).0, if ShedLane(q, p).1 then 1 else 0)
    decreases |Lane(q, p)|
  {
    if Lane(q, p) != [] {
      if Lane(q, p)[0].seqNo in q.tombs {
        PopDeadShrinks(q, p);
        ShedLaneAccounts(PopDead(q, p), p);
        ShrunkTwice(q, PopDead(q, p), ShedLane(q, p).0, 0, if ShedLane(q, p).1 then 1 else 0);
      } else {
        ShedHeadAccounts(q, p);
      }
    }
  }

  lemma ShedHeadAccounts(q: Queue, p: Priority)
    requires Valid(q) && Lane(q, p) != [] && Lane(q, p)[0].seqNo !in q.tombs
    ensures Shrunk(q, PopSilently(q, p).(dropped := q.dropped + 1), 1)
  {
    PopSilentlyShrinks(q, p);
    CountersDoNotMatter(PopSilently(q, p), PopSilently(q, p).enqueued, q.dropped + 1);
  }

  lemma CountersDoNotMatter(q: Queue, enqueued: nat, dropped: nat)
    requires Valid(q)
    ensures Valid(q.(enqueued := enqueued, dropped := dropped))
    ensures Ghosts(q.(enqueued := enqueued, dropped := dropped)) == Ghosts(q)
    ensures TotalSize(q.(enqueued := enqueued, dropped := dropped)) == TotalSize(q)
  {
    var r := q.(enqueued := enqueued, dropped := dropped);
    assert forall p :: Lane(r, p) == Lane(q, p);
    assert forall p, e {:trigger InLane(r, p, e)} {:trigger InLane(q, p, e)} :: InLane(r, p, e) <==> InLane(q, p, e);
    assert forall p, s, n: nat {:trigger Tracks(r, p, s, n)} :: Tracks(r, p, s, n) <==> Tracks(q, p, s, n);
    forall p, e | InLane(r, p, e)
      ensures EntryOk(r, p, e)
    {
      assert EntryOk(q, p, e);
    }
    forall p, s
      ensures LatestOk(r, p, s)
    {
      CountersKeepLatest(q, r, p, s);
    }
  }

  lemma CountersKeepLatest(q: Queue, r: Queue, p: Priority, s: string)
    requires Valid(q) && r == q.(enqueued := r.enqueued, dropped := r.dropped)
    ensures LatestOk(r, p, s)
  {
    assert LatestOk(q, p, s);
    if s in Latest(q, p) && q.repair {
      var e :| InLane(q, p, e) && e.seqNo == Latest(q, p)[s];
      assert InLane(r, p, e);
    }
    forall p', e | InLane(r, p', e) && s in Latest(r, p) && e.seqNo == Latest(r, p)[s]
      ensures p' == p && e.msg.sender == s
    {
      assert InLane(q, p', e);
    }
  }

  lemma {:induction false} ShedFromAccounts(q: Queue, order: seq<Priority>, incoming: Priority)
    requires Valid(q)
    ensures Shrunk(q, ShedFrom(q, order, incoming).0, if ShedFrom(q, order, incoming).1 then 1 else 0)
    decreases |order|
  {
    if order != [] && Rank(order[0]) > Rank(incoming) {
      ShedLaneAccounts(q, order[0]);
      ShedFromAccounts(ShedLane(q, order[0]).0, order[1..], incoming);
    }
  }

  ghost predicate ShrunkSome(q: Queue, r: Queue) {
    exists removed: nat :: Shrunk(q, r, removed)
  }

  lemma ShrunkThen(q: Queue, mid: Queue, r: Queue, removed: nat)
    requires Shrunk(q, mid, removed) && ShrunkSome(mid, r)
    ensures ShrunkSome(q, r)
  {
    var more: nat :| Shrunk(mid, r, more);
    ShrunkTwice(q, mid, r, removed, more);
  }

  lemma {:induction false} DequeueLaneAccounts(q: Queue, p: Priority, now: real)
    requires Valid(q)
    ensures ShrunkSome(q, DequeueLane(q, p, now).0)
    decreases |Lane(q, p)|
  {
    if Lane(q, p) == [] {
      assert Shrunk(q, q, 0);
    } else {
      var head := Lane(q, p)[0];
      if head.seqNo in q.tombs {
        PopDeadShrinks(q, p);
        DequeueLaneAccounts(PopDead(q, p), p, now);
        ShrunkThen(q, PopDead(q, p), DequeueLane(q, p, now).0, 0);
      } else if Expired(head.msg, now) {
        PopSilentlyShrinks(q, p);
        DequeueLaneAccounts(PopSilently(q, p), p, now);
        ShrunkThen(q, PopSilently(q, p), DequeueLane(q, p, now).0, 1);
      } else {
        PopTakenShrinks(q, p);
        assert Shrunk(q, DequeueLane(q, p, now).0, 1);
      }
    }
  }

  lemma {:induction false} DequeueFromAccounts(q: Queue, order: seq<Priority>, now: real)
    requires Valid(q)
    ensures ShrunkSome(q, DequeueFrom(q, order, now).0)
    decreases |order|
  {
    if order == [] {
      assert Shrunk(q, q, 0);
    } else {
      DequeueLaneAccounts(q, order[0], now);
      var mid := DequeueLane(q, order[0], now).0;
      if DequeueLane(q, order[0], now).1.None? {
        var removed: nat :| Shrunk(q, mid, removed);
        DequeueFromAccounts(mid, order[1..], now);
        ShrunkThen(q, mid, DequeueFrom(q, order, now).0, removed);
      }
    }
  }

  // ---------------------------------------------------------------- runs

  datatype Op = Put(m: Msg) | Take

  ghost function Step(q: Queue, op: Op, now: real): Queue {
    match op
    case Put(m) => Enqueue(q, m, now).0
    case Take => Dequeue(q, now).0
  }

  /** The queue the compaction check of an accepted message looks at, after any shedding. */
  ghost function AtPush(q: Queue, m: Msg): Queue {
    if TotalSize(q) < q.capacity then q else ShedFrom(q, SHED_ORDER, m.priority).0
  }

  /** 1 when this call supersedes an entry that is no longer queued. */
  ghost function StaleStep(q: Queue, op: Op, now: real): nat {
    if op.Put? && Enqueue(q, op.m, now).1 && StaleOverwrite(AtPush(q, op.m), op.m) then 1 else 0
  }

  ghost function Run(q: Queue, ops: seq<(Op, real)>): Queue
    decreases |ops|
  {
    if ops == [] then q else Run(Step(q, ops[0].0, ops[0].1), ops[1..])
  }

  ghost function StaleSteps(q: Queue, ops: seq<(Op, real)>): nat
    decreases |ops|
  {
    if ops == [] then 0
    else StaleStep(q, ops[0].0, ops[0].1) + StaleSteps(Step(q, ops[0].0, ops[0].1), ops[1..])
  }

  ghost function Bound(capacity: int): nat {
    if capacity >= 0 then capacity else 0
  }

  /** `r` is a valid queue within capacity with `stale` more ghosts than `q`. */
  ghost predicate Accounted(q: Queue, r: Queue, stale: nat) {
    && Valid(r) && r.capacity == q.capacity && r.repair == q.repair && TotalSize(r) <= Bound(r.capacity)
    && |Ghosts(r)| == |Ghosts(q)| + stale
    && (q.repair ==> stale == 0)
  }

  lemma PushWithinBound(q: Queue, m: Msg)
    requires Valid(q) && TotalSize(q) < Bound(q.capacity)
    ensures Accounted(q, Push(q, m), if StaleOverwrite(q, m) then 1 else 0)
  {
    PushAccounts(q, m);
    if q.repair {
      RepairedIsNeverStale(q, m);
    }
  }

  /** The outcome of a put, in terms of the room there is and of what shedding leaves. */
  lemma PutOutcome(q: Queue, m: Msg, now: real, r: Queue, shed: bool)
    requires !Expired(m, now) && (r, shed) == ShedFrom(q, SHED_ORDER, m.priority)
    ensures AtPush(q, m) == if TotalSize(q) < q.capacity then q else r
    ensures Enqueue(q, m, now) == (if TotalSize(q) < q.capacity then (Push(q, m), true)
                                   else if shed then (Push(r, m), true) else (r.(dropped := r.dropped + 1), false))
  {
  }

  lemma StaleOutcome(q: Queue, m: Msg, now: real)
    ensures StaleStep(q, Put(m), now) == (if Enqueue(q, m, now).1 && StaleOverwrite(AtPush(q, m), m) then 1 else 0)
  {
  }

  lemma AtPushAccounts(q: Queue, m: Msg)
    requires Valid(q) && TotalSize(q) <= Bound(q.capacity)
    ensures Accounted(q, AtPush(q, m), 0)
    ensures TotalSize(q) < q.capacity || ShedFrom(q, SHED_ORDER, m.priority).1 ==>
        TotalSize(AtPush(q, m)) < Bound(q.capacity)
  {
    ShedFromAccounts(q, SHED_ORDER, m.priority);
  }

  lemma AccountedThen(q: Queue, at: Queue, r: Queue, stale: nat)
    requires Accounted(q, at, 0) && Accounted(at, r, stale)
    ensures Accounted(q, r, stale)
  {
  }

  lemma RejectAccounts(q: Queue, at: Queue)
    requires Accounted(q, at, 0)
    ensures Accounted(q, at.(dropped := at.dropped + 1), 0)
  {
    CountersDoNotMatter(at, at.enqueued, at.dropped + 1);
  }

  lemma PutAccepted(q: Queue, at: Queue, m: Msg, stale: nat)
    requires Accounted(q, at, 0) && TotalSize(at) < Bound(at.capacity)
      && stale == (if StaleOverwrite(at, m) then 1 else 0)
    ensures Accounted(q, Push(at, m), stale)
  {
    PushWithinBound(at, m);
    AccountedThen(q, at, Push(at, m), stale);
  }

  /** What a put leaves behind, abstracted from how it was computed. */
  lemma PutAccountsFor(q: Queue, at: Queue, m: Msg, accepted: bool, r: Queue, stale: nat)
    requires Accounted(q, at, 0) && (accepted ==> TotalSize(at) < Bound(at.capacity))
    requires r == if accepted then Push(at, m) else at.(dropped := at.dropped + 1)
    requires stale == if accepted && StaleOverwrite(at, m) then 1 else 0
    ensures Accounted(q, r, stale)
  {
    if accepted {
      PutAccepted(q, at, m, stale);
    } else {
      RejectAccounts(q, at);
    }
  }

  lemma PutAccounts(q: Queue, m: Msg, now: real)
    requires Valid(q) && TotalSize(q) <= Bound(q.capacity) && !Expired(m, now)
    ensures Accounted(q, Enqueue(q, m, now).0, StaleStep(q, Put(m), now))
  {
    var (r, shed) := ShedFrom(q, SHED_ORDER, m.priority);
    PutOutcome(q, m, now, r, shed);
    StaleOutcome(q, m, now);
    AtPushAccounts(q, m);
    PutAccountsFor(q, AtPush(q, m), m, Enqueue(q, m, now).1, Enqueue(q, m, now).0, StaleStep(q, Put(m), now));
  }

  lemma StepAccounts(q: Queue, op: Op, now: real)
    requires Valid(q) && TotalSize(q) <= Bound(q.capacity)
    ensures Accounted(q, Step(q, op, now), StaleStep(q, op, now))
  {
    match op {
      case Take => DequeueFromAccounts(q, DISPATCH_ORDER, now);
      case Put(m) =>
        if !Expired(m, now) {
          PutAccounts(q, m, now);
        }
    }
  }

  lemma {:induction false} RunAccounts(q: Queue, ops: seq<(Op, real)>)
    requires Valid(q) && TotalSize(q) <= Bound(q.capacity)
    ensures Accounted(q, Run(q, ops), StaleSteps(q, ops))
    decreases |ops|
  {
    if ops != [] {
      StepAccounts(q, ops[0].0, ops[0].1);
      RunAccounts(Step(q, ops[0].0, ops[0].1), ops[1..]);
    }
  }

  /** Over any run the code's count stays within capacity, and the live entries exceed it by exactly the
      number of calls that superseded an entry no longer queued. */
  lemma AccountingOverRuns(capacity: int, compaction: bool, ops: seq<(Op, real)>)
    ensures
      var start := Empty(capacity, compaction, false);
      var r := Run(start, ops);
      && TotalSize(r) <= Bound(capacity)
      && LiveCount(r) == TotalSize(r) + StaleSteps(start, ops)
      && (StaleSteps(start, ops) == 0 ==> LiveCount(r) <= Bound(capacity))
  {
    var start := Empty(capacity, compaction, false);
    EmptyIsValid(capacity, compaction, false);
    RunAccounts(start, ops);
    LiveIsTotalPlusGhosts(Run(start, ops));
    assert Ghosts(start) == {};
  }

  /** With the two missing clean-ups in place no call is stale and the live entries fit the capacity. */
  lemma RepairedQueueFitsCapacity(capacity: int, compaction: bool, ops: seq<(Op, real)>)
    ensures LiveCount(Run(Empty(capacity, compaction, true), ops)) <= Bound(capacity)
  {
    var start := Empty(capacity, compaction, true);
    EmptyIsValid(capacity, compaction, true);
    RunAccounts(start, ops);
    LiveIsTotalPlusGhosts(Run(start, ops));
    assert Ghosts(start) == {};
  }
}
