/** The tombstoned, compacted lanes refine four plain first-in first-out queues. */
module QueueFifo {
  import opened Basics
  import opened QueueModel
  import opened QueueAccounting

  // ---------------------------------------------------------------- four plain queues

  /** For each priority, its queued entries, oldest first. */
  type Plain = map<Priority, seq<Entry>>

  ghost function At(pl: Plain, p: Priority): seq<Entry> {
    if p in pl then pl[p] else []
  }

  ghost function Size(pl: Plain): nat {
    |At(pl, CriticalSafety)| + |At(pl, RegionalSafety)| + |At(pl, Operational)| + |At(pl, Analytics)|
  }

  function SkipExpired(s: seq<Entry>, now: real): (r: seq<Entry>)
    ensures |r| <= |s|
  {
    if s != [] && Expired(s[0].msg, now) then SkipExpired(s[1..], now) else s
  }

  function WithoutSender(s: seq<Entry>, sender: string): seq<Entry> {
    if s == [] then []
    else if s[0].msg.sender == sender then WithoutSender(s[1..], sender)
    else [s[0]] + WithoutSender(s[1..], sender)
  }

  /** The first unexpired entry of the first queue, in the given order, that has one. */
  ghost function PlainDequeue(pl: Plain, order: seq<Priority>, now: real): (Plain, Option<Entry>)
    decreases |order|, pl
  {
    if order == [] then (pl, None)
    else
      var rest := SkipExpired(At(pl, order[0]), now);
      if rest == [] then PlainDequeue(pl[order[0] := []], order[1..], now)
      else (pl[order[0] := rest[1..]], Some(rest[0]))
  }

  /** Drops the oldest entry of the first nonempty queue below the incoming priority. */
  ghost function PlainShed(pl: Plain, order: seq<Priority>, incoming: Priority): (Plain, bool)
    decreases |order|, pl
  {
    if order == [] || Rank(order[0]) <= Rank(incoming) then (pl, false)
    else if At(pl, order[0]) == [] then PlainShed(pl, order[1..], incoming)
    else (pl[order[0] := At(pl, order[0])[1..]], true)
  }

  /** Appends; where latest-state compaction applies, the sender's earlier entry goes. */
  ghost function PlainPush(pl: Plain, e: Entry, compact: bool): Plain {
    var p := e.msg.priority;
    pl[p := (if compact then WithoutSender(At(pl, p), e.msg.sender) else At(pl, p)) + [e]]
  }

  ghost function PlainEnqueue(pl: Plain, capacity: int, e: Entry, compact: bool, now: real): (Plain, bool) {
    if Expired(e.msg, now) then (pl, false)
    else if Size(pl) < capacity then (PlainPush(pl, e, compact), true)
    else
      var (pl', shed) := PlainShed(pl, SHED_ORDER, e.msg.priority);
      if shed then (PlainPush(pl', e, compact), true) else (pl', false)
  }

  /** The abstraction: tombstoned entries are not there. */
  ghost function Abs(q: Queue): Plain {
    map p: Priority | true :: Live(q, p)
  }

  // ---------------------------------------------------------------- pops

  lemma {:induction false} LiveIgnores(lane: seq<Entry>, tombs: set<nat>, tombs': set<nat>)
    requires forall e :: e in lane ==> (e.seqNo in tombs <==> e.seqNo in tombs')
    ensures LiveOf(lane, tombs') == LiveOf(lane, tombs)
  {
    if lane != [] {
      assert lane[0] in lane;
      LiveIgnores(lane[1..], tombs, tombs');
    }
  }

  lemma PoppedLive(q: Queue, p: Priority, r: Queue, p': Priority)
    requires Valid(q) && Popped(q, p, r)
    ensures Live(r, p') == if p' == p && Lane(q, p)[0].seqNo !in q.tombs then Live(q, p)[1..] else Live(q, p')
    ensures Lane(q, p)[0].seqNo !in q.tombs ==> Live(q, p) != [] && Live(q, p)[0] == Lane(q, p)[0]
  {
    var head := Lane(q, p)[0];
    forall e | e in Lane(r, p')
      ensures e.seqNo in q.tombs <==> e.seqNo in r.tombs
    {
      assert InLane(r, p', e);
      PoppedEntry(q, p, r, p', e);
    }
    LiveIgnores(Lane(r, p'), q.tombs, r.tombs);
  }

  lemma SameLiveSameAbs(q: Queue, r: Queue)
    requires forall p :: Live(r, p) == Live(q, p)
    ensures Abs(r) == Abs(q)
  {
  }

  lemma OneLaneChangedAbs(q: Queue, p: Priority, r: Queue, rest: seq<Entry>)
    requires forall p' :: Live(r, p') == if p' == p then rest else Live(q, p')
    ensures Abs(r) == Abs(q)[p := rest]
  {
  }

  lemma PopDeadRefines(q: Queue, p: Priority)
    requires Valid(q) && Lane(q, p) != [] && Lane(q, p)[0].seqNo in q.tombs
    ensures Valid(PopDead(q, p)) && Abs(PopDead(q, p)) == Abs(q)
  {
    PopDeadIsPopped(q, p);
    PoppedValid(q, p, PopDead(q, p));
    forall p'
      ensures Live(PopDead(q, p), p') == Live(q, p')
    {
      PoppedLive(q, p, PopDead(q, p), p');
    }
    SameLiveSameAbs(q, PopDead(q, p));
  }

  lemma PopLiveRefines(q: Queue, p: Priority, r: Queue)
    requires Valid(q) && Popped(q, p, r) && Lane(q, p)[0].seqNo !in q.tombs
    ensures Valid(r) && Live(q, p) != [] && Live(q, p)[0] == Lane(q, p)[0]
    ensures Abs(r) == Abs(q)[p := Live(q, p)[1..]]
  {
    PoppedValid(q, p, r);
    PoppedLive(q, p, r, p);
    forall p'
      ensures Live(r, p') == if p' == p then Live(q, p)[1..] else Live(q, p')
    {
      PoppedLive(q, p, r, p');
    }
    OneLaneChangedAbs(q, p, r, Live(q, p)[1..]);
  }

  /** The outcome of shedding from one plain queue. */
  ghost predicate ShedOutcome(pl: Plain, p: Priority, after: Plain, shed: bool) {
    if At(pl, p) == [] then !shed && after == pl else shed && after == pl[p := At(pl, p)[1..]]
  }

  lemma {:induction false} ShedLaneRefines(q: Queue, p: Priority, r: Queue, shed: bool)
    requires Valid(q) && (r, shed) == ShedLane(q, p)
    ensures ShedOutcome(Abs(q), p, Abs(r), shed)
    decreases |Lane(q, p)|
  {
    if Lane(q, p) == [] {
      ShedEmptyRefines(q, p);
    } else if Lane(q, p)[0].seqNo in q.tombs {
      PopDeadRefines(q, p);
      ShedLaneRefines(PopDead(q, p), p, r, shed);
    } else {
      ShedHeadRefines(q, p);
    }
  }

  lemma ShedEmptyRefines(q: Queue, p: Priority)
    requires Lane(q, p) == []
    ensures ShedOutcome(Abs(q), p, Abs(q), false)
  {
  }

  lemma ShedHeadRefines(q: Queue, p: Priority)
    requires Valid(q) && Lane(q, p) != [] && Lane(q, p)[0].seqNo !in q.tombs
    ensures ShedOutcome(Abs(q), p, Abs(PopSilently(q, p).(dropped := q.dropped + 1)), true)
  {
    PopSilentlyIsPopped(q, p);
    PopLiveRefines(q, p, PopSilently(q, p));
    SameLanesSameAbs(PopSilently(q, p), PopSilently(q, p).(dropped := q.dropped + 1));
  }

  lemma SameLanesSameAbs(q: Queue, r: Queue)
    requires r.lanes == q.lanes && r.tombs == q.tombs
    ensures Abs(r) == Abs(q)
  {
    assert forall p :: Live(r, p) == Live(q, p);
    SameLiveSameAbs(q, r);
  }

  /** Shedding drops the oldest entry of the lowest nonempty queue strictly below the incoming priority. */
  lemma {:induction false} ShedFromRefines(q: Queue, order: seq<Priority>, incoming: Priority)
    requires Valid(q)
    ensures (Abs(ShedFrom(q, order, incoming).0), ShedFrom(q, order, incoming).1) == PlainShed(Abs(q), order, incoming)
    decreases |order|
  {
    if order != [] && Rank(order[0]) > Rank(incoming) {
      ShedLaneRefines(q, order[0], ShedLane(q, order[0]).0, ShedLane(q, order[0]).1);
      ShedLaneAccounts(q, order[0]);
      ShedFromRefines(ShedLane(q, order[0]).0, order[1..], incoming);
    }
  }

  /** The outcome of dequeuing from one plain queue. */
  ghost predicate LaneOutcome(pl: Plain, p: Priority, now: real, r: Queue, found: Option<Entry>) {
    var rest := SkipExpired(At(pl, p), now);
    Valid(r) && found == (if rest == [] then None else Some(rest[0]))
        && Abs(r) == pl[p := if rest == [] then [] else rest[1..]]
  }

  lemma SkipOneExpired(pl: Plain, p: Priority, now: real, r: Queue, found: Option<Entry>)
    requires At(pl, p) != [] && Expired(At(pl, p)[0].msg, now) && LaneOutcome(pl[p := At(pl, p)[1..]], p, now, r, found)
    ensures LaneOutcome(pl, p, now, r, found)
  {
  }

  lemma TakeHead(q: Queue, p: Priority, now: real)
    requires Valid(q) && Lane(q, p) != [] && Lane(q, p)[0].seqNo !in q.tombs && !Expired(Lane(q, p)[0].msg, now)
    ensures LaneOutcome(Abs(q), p, now, ForgetSender(PopFront(q, p), p, Lane(q, p)[0]), Some(Lane(q, p)[0]))
  {
    PopTakenIsPopped(q, p);
    PopLiveRefines(q, p, ForgetSender(PopFront(q, p), p, Lane(q, p)[0]));
  }

  /** Backpressure never evicts a message of equal or higher priority than the incoming one. */
  lemma ShedSparesEqualAndHigher(q: Queue, order: seq<Priority>, incoming: Priority, p: Priority)
    requires Valid(q) && Rank(p) <= Rank(incoming)
    ensures Live(ShedFrom(q, order, incoming).0, p) == Live(q, p)
  {
    ShedFromRefines(q, order, incoming);
    PlainShedSpares(Abs(q), order, incoming, p);
    assert At(Abs(q), p) == Live(q, p)
        && At(Abs(ShedFrom(q, order, incoming).0), p) == Live(ShedFrom(q, order, incoming).0, p);
  }

  lemma {:induction false} PlainShedSpares(pl: Plain, order: seq<Priority>, incoming: Priority, p: Priority)
    requires Rank(p) <= Rank(incoming)
    ensures At(PlainShed(pl, order, incoming).0, p) == At(pl, p)
    decreases |order|
  {
    if order != [] && Rank(order[0]) > Rank(incoming) && At(pl, order[0]) == [] {
      PlainShedSpares(pl, order[1..], incoming, p);
    }
  }

  /** A compacting lane holds at most one live entry per sender. */
  lemma OneLivePerSender(q: Queue, p: Priority, e: Entry, e': Entry)
    requires Valid(q) && Compacting(q, p) && e in Live(q, p) && e' in Live(q, p) && e.msg.sender == e'.msg.sender
    ensures e == e'
  {
    LiveIsTracked(q, p, e);
    LiveIsTracked(q, p, e');
    LiveOfMembers(Lane(q, p), q.tombs);
    assert InLane(q, p, e) && InLane(q, p, e');
  }

  lemma {:induction false} DequeueLaneRefines(q: Queue, p: Priority, now: real)
    requires Valid(q)
    ensures LaneOutcome(Abs(q), p, now, DequeueLane(q, p, now).0, DequeueLane(q, p, now).1)
    decreases |Lane(q, p)|
  {
    if Lane(q, p) == [] {
      assert Abs(q)[p := []] == Abs(q);
    } else {
      var head := Lane(q, p)[0];
      if head.seqNo in q.tombs {
        PopDeadRefines(q, p);
        DequeueLaneRefines(PopDead(q, p), p, now);
      } else if Expired(head.msg, now) {
        PopSilentlyIsPopped(q, p);
        PopLiveRefines(q, p, PopSilently(q, p));
        DequeueLaneRefines(PopSilently(q, p), p, now);
        SkipOneExpired(Abs(q), p, now, DequeueLane(q, p, now).0, DequeueLane(q, p, now).1);
      } else {
        TakeHead(q, p, now);
      }
    }
  }

  /** Dequeuing from the lanes is dequeuing from the plain queues. */
  lemma {:induction false} DequeueFromRefines(q: Queue, order: seq<Priority>, now: real)
    requires Valid(q)
    ensures (Abs(DequeueFrom(q, order, now).0), DequeueFrom(q, order, now).1) == PlainDequeue(Abs(q), order, now)
    decreases |order|
  {
    if order != [] {
      DequeueLaneRefines(q, order[0], now);
      if SkipExpired(Live(q, order[0]), now) == [] {
        DequeueFromRefines(DequeueLane(q, order[0], now).0, order[1..], now);
      }
    }
  }

  // ---------------------------------------------------------------- push

  lemma {:induction false} LiveOfAppend(lane: seq<Entry>, e: Entry, tombs: set<nat>)
    ensures LiveOf(lane + [e], tombs) == LiveOf(lane, tombs) + (if e.seqNo in tombs then [] else [e])
  {
    if lane == [] {
      assert [e][1..] == [];
    } else {
      assert (lane + [e])[1..] == lane[1..] + [e];
      LiveOfAppend(lane[1..], e, tombs);
    }
  }

  /** Marking the sender's latest entry removes that sender from the live entries. */
  lemma {:induction false} SupersedeSender(lane: seq<Entry>, tombs: set<nat>, sender: string, n: nat)
    requires forall e :: e in lane && e.seqNo !in tombs ==> (e.msg.sender == sender <==> e.seqNo == n)
    ensures LiveOf(lane, tombs + {n}) == WithoutSender(LiveOf(lane, tombs), sender)
  {
    if lane != [] {
      assert lane[0] in lane;
      SupersedeSender(lane[1..], tombs, sender, n);
    }
  }

  lemma {:induction false} AbsentSender(lane: seq<Entry>, tombs: set<nat>, sender: string)
    requires forall e :: e in lane && e.seqNo !in tombs ==> e.msg.sender != sender
    ensures WithoutSender(LiveOf(lane, tombs), sender) == LiveOf(lane, tombs)
  {
    if lane != [] {
      assert lane[0] in lane;
      AbsentSender(lane[1..], tombs, sender);
    }
  }

  lemma PushSameLane(q: Queue, m: Msg)
    requires Valid(q)
    ensures
      var p := m.priority;
      Live(Push(q, m), p) == (if Compacting(q, p) then WithoutSender(Live(q, p), m.sender) else Live(q, p))
                             + [Entry(Rank(p), q.last + 1, m)]
  {
    var p, r, e := m.priority, Push(q, m), Entry(Rank(m.priority), q.last + 1, m);
    PushTombs(q, m);
    PushNumbers(q, m);
    LiveOfAppend(Lane(q, p), e, r.tombs);
    forall x | x in Lane(q, p)
      ensures EntryOk(q, p, x)
    {
      assert InLane(q, p, x);
    }
    if Compacting(q, p) {
      if m.sender in Latest(q, p) {
        LatestIsOnlyLive(q, p, m.sender);
        SupersedeSender(Lane(q, p), q.tombs, m.sender, Latest(q, p)[m.sender]);
      } else {
        AbsentSender(Lane(q, p), q.tombs, m.sender);
      }
    }
  }

  lemma LatestIsOnlyLive(q: Queue, p: Priority, sender: string)
    requires Valid(q) && Compacting(q, p) && sender in Latest(q, p)
    ensures forall e :: e in Lane(q, p) && e.seqNo !in q.tombs ==>
        (e.msg.sender == sender <==> e.seqNo == Latest(q, p)[sender])
  {
    assert LatestOk(q, p, sender);
    forall e | e in Lane(q, p) && e.seqNo !in q.tombs
      ensures e.msg.sender == sender <==> e.seqNo == Latest(q, p)[sender]
    {
      assert InLane(q, p, e);
    }
  }

  lemma PushOtherLane(q: Queue, m: Msg, p: Priority)
    requires Valid(q) && p != m.priority
    ensures Live(Push(q, m), p) == Live(q, p)
  {
    PushTombs(q, m);
    assert LatestOk(q, m.priority, m.sender);
    forall e | e in Lane(q, p)
      ensures e.seqNo in q.tombs <==> e.seqNo in Push(q, m).tombs
    {
      assert InLane(q, p, e);
    }
    LiveIgnores(Lane(q, p), q.tombs, Push(q, m).tombs);
  }

  lemma PushRefines(q: Queue, m: Msg)
    requires Valid(q)
    ensures Abs(Push(q, m)) == PlainPush(Abs(q), Entry(Rank(m.priority), q.last + 1, m), Compacting(q, m.priority))
  {
    PushSameLane(q, m);
    forall p | p != m.priority
      ensures Live(Push(q, m), p) == Live(q, p)
    {
      PushOtherLane(q, m, p);
    }
  }

  lemma ShedKeepsNumbering(q: Queue, order: seq<Priority>, incoming: Priority)
    ensures ShedFrom(q, order, incoming).0.last == q.last && ShedFrom(q, order, incoming).0.compaction == q.compaction
    decreases |order|
  {
    if order != [] && Rank(order[0]) > Rank(incoming) {
      ShedLaneKeepsNumbering(q, order[0]);
      ShedKeepsNumbering(ShedLane(q, order[0]).0, order[1..], incoming);
    }
  }

  lemma {:induction false} ShedLaneKeepsNumbering(q: Queue, p: Priority)
    ensures ShedLane(q, p).0.last == q.last && ShedLane(q, p).0.compaction == q.compaction
    decreases |Lane(q, p)|
  {
    if Lane(q, p) != [] && Lane(q, p)[0].seqNo in q.tombs {
      ShedLaneKeepsNumbering(PopDead(q, p), p);
    }
  }

  lemma SizeIsLiveCount(q: Queue)
    ensures Size(Abs(q)) == LiveCount(q)
  {
  }

  lemma PlainOutcome(pl: Plain, capacity: int, e: Entry, compact: bool, now: real, pl': Plain, shed: bool)
    requires !Expired(e.msg, now) && (pl', shed) == PlainShed(pl, SHED_ORDER, e.msg.priority)
    ensures PlainEnqueue(pl, capacity, e, compact, now) ==
            (if Size(pl) < capacity || shed then (PlainPush(if Size(pl) < capacity then pl else pl', e, compact), true)
             else (pl', false))
  {
  }

  /** Shedding, and whatever follows it, refines plain shedding and what follows that. */
  lemma AfterShedRefines(q: Queue, m: Msg, order: seq<Priority>, r: Queue, shed: bool)
    requires Valid(q) && r == ShedFrom(q, order, m.priority).0 && shed == ShedFrom(q, order, m.priority).1
    ensures PlainShed(Abs(q), order, m.priority) == (Abs(r), shed)
    ensures Abs(Push(r, m)) == PlainPush(Abs(r), Entry(Rank(m.priority), q.last + 1, m), Compacting(q, m.priority))
    ensures Abs(r.(dropped := r.dropped + 1)) == Abs(r)
  {
    ShedFromRefines(q, order, m.priority);
    ShedStaysValid(q, order, m.priority, r);
    PushLikeRefines(q, r, m);
    DropKeepsAbs(r);
  }

  /** Pushing onto a queue numbered and set like `q`. */
  lemma PushLikeRefines(q: Queue, r: Queue, m: Msg)
    requires Valid(r) && r.last == q.last && r.compaction == q.compaction
    ensures Abs(Push(r, m)) == PlainPush(Abs(r), Entry(Rank(m.priority), q.last + 1, m), Compacting(q, m.priority))
  {
    PushRefines(r, m);
  }

  lemma DropKeepsAbs(r: Queue)
    ensures Abs(r.(dropped := r.dropped + 1)) == Abs(r)
  {
    SameLanesSameAbs(r, r.(dropped := r.dropped + 1));
  }

  lemma ShedStaysValid(q: Queue, order: seq<Priority>, incoming: Priority, r: Queue)
    requires Valid(q) && r == ShedFrom(q, order, incoming).0
    ensures Valid(r) && r.last == q.last && r.compaction == q.compaction
  {
    ShedFromAccounts(q, order, incoming);
    ShedKeepsNumbering(q, order, incoming);
  }

  lemma RoomIsRoom(q: Queue)
    requires Valid(q)
    ensures Size(Abs(q)) < q.capacity + |Ghosts(q)| <==> TotalSize(q) < q.capacity
  {
    LiveIsTotalPlusGhosts(q);
    SizeIsLiveCount(q);
  }

  /** Enqueuing is enqueuing into plain queues whose capacity is larger by the number of ghosts. */
  lemma EnqueueRefines(q: Queue, m: Msg, now: real)
    requires Valid(q)
    ensures
      (Abs(Enqueue(q, m, now).0), Enqueue(q, m, now).1) ==
      PlainEnqueue(Abs(q), q.capacity + |Ghosts(q)|, Entry(Rank(m.priority), q.last + 1, m),
                   Compacting(q, m.priority), now)
  {
    if !Expired(m, now) {
      var (r, shed) := ShedFrom(q, SHED_ORDER, m.priority);
      RoomIsRoom(q);
      PushRefines(q, m);
      AfterShedRefines(q, m, SHED_ORDER, r, shed);
      PutOutcome(q, m, now, r, shed);
      PlainOutcome(Abs(q), q.capacity + |Ghosts(q)|, Entry(Rank(m.priority), q.last + 1, m),
                   Compacting(q, m.priority), now,
                   Abs(r), shed);
    }
  }

  // ---------------------------------------------------------------- what the plain queues promise

  lemma {:induction false} SkipExpiredIsFirst(s: seq<Entry>, now: real) returns (k: nat)
    ensures k <= |s| && SkipExpired(s, now) == s[k..]
    ensures forall i :: 0 <= i < k ==> Expired(s[i].msg, now)
    ensures k < |s| ==> !Expired(s[k].msg, now)
  {
    k := 0;
    if s != [] && Expired(s[0].msg, now) {
      var j := SkipExpiredIsFirst(s[1..], now);
      k := j + 1;
      forall i | 0 <= i < k
        ensures Expired(s[i].msg, now)
      {
        if i > 0 {
          assert s[1..][i - 1] == s[i];
        }
      }
    }
  }

  ghost predicate AllExpired(s: seq<Entry>, now: real) {
    forall i :: 0 <= i < |s| ==> now > s[i].msg.timestamp + s[i].msg.ttl as real
  }

  /** `e` is the oldest unexpired entry of `s`. */
  ghost predicate OldestUnexpired(s: seq<Entry>, e: Entry, now: real) {
    exists k :: 0 <= k < |s| && s[k] == e && now <= e.msg.timestamp + e.msg.ttl as real && AllExpired(s[..k], now)
  }

  /** `found` is the oldest unexpired entry of the first queue in the order that has one. */
  ghost predicate Finds(pl: Plain, order: seq<Priority>, found: Option<Entry>, now: real) {
    match found
    case None => forall p :: p in order ==> AllExpired(At(pl, p), now)
    case Some(e) => exists i :: 0 <= i < |order| && OldestUnexpired(At(pl, order[i]), e, now)
                                && forall j :: 0 <= j < i ==> AllExpired(At(pl, order[j]), now)
  }

  lemma FindsBehind(pl: Plain, pl': Plain, order: seq<Priority>, found: Option<Entry>, now: real)
    requires order != [] && Distinct(order) && AllExpired(At(pl, order[0]), now)
    requires pl' == pl[order[0] := []] && Finds(pl', order[1..], found, now)
    ensures Finds(pl, order, found, now)
  {
    var rest := order[1..];
    assert order == [order[0]] + rest;
    forall p | p in rest
      ensures At(pl', p) == At(pl, p)
    {
    }
    if found.Some? {
      var i :| 0 <= i < |rest| && OldestUnexpired(At(pl', rest[i]), found.value, now)
               && forall j :: 0 <= j < i ==> AllExpired(At(pl', rest[j]), now);
      assert rest[i] in rest;
      forall j | 0 <= j < i + 1
        ensures AllExpired(At(pl, order[j]), now)
      {
        if j > 0 {
          assert rest[j - 1] in rest && AllExpired(At(pl', rest[j - 1]), now);
        }
      }
      assert OldestUnexpired(At(pl, order[i + 1]), found.value, now);
    }
  }

  lemma {:induction false} PlainDequeueIsOldest(pl: Plain, order: seq<Priority>, now: real)
    requires Distinct(order)
    ensures Finds(pl, order, PlainDequeue(pl, order, now).1, now)
    decreases |order|
  {
    if order != [] {
      var s := At(pl, order[0]);
      var k := SkipExpiredIsFirst(s, now);
      if k == |s| {
        PlainDequeueIsOldest(pl[order[0] := []], order[1..], now);
        FindsBehind(pl, pl[order[0] := []], order, PlainDequeue(pl, order, now).1, now);
      } else {
        assert AllExpired(s[..k], now);
        assert OldestUnexpired(s, s[k], now);
      }
    }
  }

  lemma EveryPriorityDispatched(order: seq<Priority>, p: Priority)
    requires order == DISPATCH_ORDER
    ensures p in order && Distinct(order)
  {
    assert order[Rank(p)] == p;
  }

  /** Main result: dequeue returns the oldest live unexpired entry of the highest lane that has one, and
      nothing exactly when no live unexpired entry exists. */
  lemma DequeueIsOldestOfHighest(q: Queue, now: real)
    requires Valid(q)
    ensures Finds(Abs(q), DISPATCH_ORDER, Dequeue(q, now).1, now)
    ensures Dequeue(q, now).1 == None <==> forall p :: AllExpired(Live(q, p), now)
  {
    DispatchFinds(q, DISPATCH_ORDER, now);
    NoneIffAllExpired(q, DISPATCH_ORDER, Dequeue(q, now).1, now);
  }

  lemma DispatchFinds(q: Queue, order: seq<Priority>, now: real)
    requires Valid(q) && order == DISPATCH_ORDER
    ensures Finds(Abs(q), order, DequeueFrom(q, order, now).1, now)
  {
    EveryPriorityDispatched(order, Analytics);
    DequeueFromRefines(q, order, now);
    PlainDequeueIsOldest(Abs(q), order, now);
  }

  lemma NoneIffAllExpired(q: Queue, order: seq<Priority>, found: Option<Entry>, now: real)
    requires order == DISPATCH_ORDER && Finds(Abs(q), order, found, now)
    ensures found == None <==> forall p :: AllExpired(Live(q, p), now)
  {
    forall p
      ensures p in order && At(Abs(q), p) == Live(q, p)
    {
      EveryPriorityDispatched(order, p);
    }
    if found.Some? {
      var i :| 0 <= i < |order| && OldestUnexpired(At(Abs(q), order[i]), found.value, now);
      assert !AllExpired(Live(q, order[i]), now);
    } else {
      forall p
        ensures AllExpired(Live(q, p), now)
      {
        assert AllExpired(At(Abs(q), p), now);
      }
    }
  }

  // ---------------------------------------------------------------- superseded messages

  /** The entries accepted over a run, oldest first. */
  ghost function Accepted(q: Queue, ops: seq<(Op, real)>): seq<Entry>
    decreases |ops|
  {
    if ops == [] then []
    else
      var (op, now) := ops[0];
      (if op.Put? && Enqueue(q, op.m, now).1 then [Entry(Rank(op.m.priority), q.last + 1, op.m)] else [])
      + Accepted(Step(q, op, now), ops[1..])
  }

  /** `e` was overtaken by a later message of its sender in its compacting lane. */
  ghost predicate Superseded(q: Queue, accepted: seq<Entry>, e: Entry) {
    Compacting(q, e.msg.priority) && exists a ::
      a in accepted && a.msg.priority == e.msg.priority && a.msg.sender == e.msg.sender && a.seqNo > e.seqNo
  }

  /** The sender map is at least as recent as every accepted entry. */
  ghost predicate UpToDate(q: Queue, a: Entry) {
    a.seqNo <= q.last && forall n: nat :: Tracks(q, a.msg.priority, a.msg.sender, n) ==> a.seqNo <= n
  }

  /** Steps forget sender records but never turn them back. */
  ghost predicate TracksShrink(q: Queue, r: Queue) {
    r.last == q.last && r.compaction == q.compaction
    && forall p, s, n: nat {:trigger Tracks(r, p, s, n)} :: Tracks(r, p, s, n) ==> Tracks(q, p, s, n)
  }

  lemma ShrinkTwice(q: Queue, mid: Queue, r: Queue)
    requires TracksShrink(q, mid) && TracksShrink(mid, r)
    ensures TracksShrink(q, r)
  {
  }

  lemma PopsShrink(q: Queue, p: Priority)
    requires Lane(q, p) != []
    ensures TracksShrink(q, PopDead(q, p)) && TracksShrink(q, PopSilently(q, p))
    ensures TracksShrink(q, ForgetSender(PopFront(q, p), p, Lane(q, p)[0]))
  {
  }

  lemma {:induction false} ShedLaneTracks(q: Queue, p: Priority)
    ensures TracksShrink(q, ShedLane(q, p).0)
    decreases |Lane(q, p)|
  {
    if Lane(q, p) != [] {
      PopsShrink(q, p);
      if Lane(q, p)[0].seqNo in q.tombs {
        ShedLaneTracks(PopDead(q, p), p);
        ShrinkTwice(q, PopDead(q, p), ShedLane(q, p).0);
      }
    }
  }

  lemma {:induction false} ShedFromTracks(q: Queue, order: seq<Priority>, incoming: Priority)
    ensures TracksShrink(q, ShedFrom(q, order, incoming).0)
    decreases |order|
  {
    if order != [] && Rank(order[0]) > Rank(incoming) {
      ShedLaneTracks(q, order[0]);
      ShedFromTracks(ShedLane(q, order[0]).0, order[1..], incoming);
    }
  }

  lemma {:induction false} DequeueLaneTracks(q: Queue, p: Priority, now: real)
    ensures TracksShrink(q, DequeueLane(q, p, now).0)
    decreases |Lane(q, p)|
  {
    if Lane(q, p) != [] {
      PopsShrink(q, p);
      if Lane(q, p)[0].seqNo in q.tombs {
        DequeueLaneTracks(PopDead(q, p), p, now);
        ShrinkTwice(q, PopDead(q, p), DequeueLane(q, p, now).0);
      } else if Expired(Lane(q, p)[0].msg, now) {
        DequeueLaneTracks(PopSilently(q, p), p, now);
        ShrinkTwice(q, PopSilently(q, p), DequeueLane(q, p, now).0);
      }
    }
  }

  lemma {:induction false} DequeueFromTracks(q: Queue, order: seq<Priority>, now: real)
    ensures TracksShrink(q, DequeueFrom(q, order, now).0)
    decreases |order|
  {
    if order != [] {
      DequeueLaneTracks(q, order[0], now);
      DequeueFromTracks(DequeueLane(q, order[0], now).0, order[1..], now);
    }
  }

  lemma PushUpToDate(q: Queue, m: Msg, a: Entry)
    requires UpToDate(q, a) || a == Entry(Rank(m.priority), q.last + 1, m)
    requires forall p, s, n: nat {:trigger Tracks(q, p, s, n)} :: Tracks(q, p, s, n) ==> Compacting(q, p)
    ensures UpToDate(Push(q, m), a)
  {
    PushTracks(q, m);
    forall n: nat | Tracks(Push(q, m), a.msg.priority, a.msg.sender, n)
      ensures a.seqNo <= n
    {
      if !(a.msg.priority == m.priority && a.msg.sender == m.sender && Compacting(q, m.priority)) {
        assert Tracks(q, a.msg.priority, a.msg.sender, n);
      }
    }
  }

  /** What a shrunk sender map knows is up to date as well. */
  lemma ShrinkUpToDate(q: Queue, r: Queue, a: Entry)
    requires TracksShrink(q, r) && UpToDate(q, a)
    ensures UpToDate(r, a)
  {
  }

  /** Either already overtaken by the sender map, or accepted by this very step. */
  ghost predicate UpToDateOrNew(q: Queue, op: Op, now: real, a: Entry) {
    UpToDate(q, a) || (op.Put? && Enqueue(q, op.m, now).1 && a == Entry(Rank(op.m.priority), q.last + 1, op.m))
  }

  lemma StepUpToDate(q: Queue, op: Op, now: real, a: Entry)
    requires Valid(q)
    requires UpToDateOrNew(q, op, now, a)
    ensures UpToDate(Step(q, op, now), a) && Step(q, op, now).compaction == q.compaction
  {
    match op {
      case Take =>
        DequeueFromTracks(q, DISPATCH_ORDER, now);
        ShrinkUpToDate(q, Dequeue(q, now).0, a);
      case Put(m) =>
        if !Expired(m, now) {
          ShedFromTracks(q, SHED_ORDER, m.priority);
          ShedFromAccounts(q, SHED_ORDER, m.priority);
          if UpToDate(q, a) {
            ShrinkUpToDate(q, ShedFrom(q, SHED_ORDER, m.priority).0, a);
          }
          PutUpToDate(q, AtPush(q, m), m, now, a);
        }
    }
  }

  lemma PutUpToDate(q: Queue, at: Queue, m: Msg, now: real, a: Entry)
    requires !Expired(m, now) && at == AtPush(q, m) && Valid(at)
    requires UpToDate(at, a) || (Enqueue(q, m, now).1 && a == Entry(Rank(m.priority), at.last + 1, m))
    ensures UpToDate(Enqueue(q, m, now).0, a) && Enqueue(q, m, now).0.compaction == at.compaction
  {
    PutOutcome(q, m, now, ShedFrom(q, SHED_ORDER, m.priority).0, ShedFrom(q, SHED_ORDER, m.priority).1);
    if Enqueue(q, m, now).1 {
      TracksNeedCompaction(at);
      PushUpToDate(at, m, a);
    } else {
      CountersUpToDate(at, at.enqueued, at.dropped + 1, a);
    }
  }

  lemma CountersUpToDate(q: Queue, enqueued: nat, dropped: nat, a: Entry)
    requires UpToDate(q, a)
    ensures UpToDate(q.(enqueued := enqueued, dropped := dropped), a)
  {
    var r := q.(enqueued := enqueued, dropped := dropped);
    assert forall n: nat :: Tracks(r, a.msg.priority, a.msg.sender, n) <==> Tracks(q, a.msg.priority, a.msg.sender, n);
  }

  lemma TracksNeedCompaction(q: Queue)
    requires Valid(q)
    ensures forall p, s, n: nat {:trigger Tracks(q, p, s, n)} :: Tracks(q, p, s, n) ==> Compacting(q, p)
  {
    forall p, s, n: nat | Tracks(q, p, s, n)
      ensures Compacting(q, p)
    {
      assert LatestOk(q, p, s);
    }
  }

  lemma AcceptedNowOrLater(q: Queue, ops: seq<(Op, real)>, a: Entry)
    requires ops != [] && (UpToDate(q, a) || a in Accepted(q, ops))
    ensures UpToDateOrNew(q, ops[0].0, ops[0].1, a) || a in Accepted(Step(q, ops[0].0, ops[0].1), ops[1..])
  {
  }

  lemma {:induction false} RunUpToDate(q: Queue, ops: seq<(Op, real)>, a: Entry)
    requires Valid(q) && TotalSize(q) <= Bound(q.capacity) && (UpToDate(q, a) || a in Accepted(q, ops))
    ensures Valid(Run(q, ops)) && UpToDate(Run(q, ops), a)
    decreases |ops|
  {
    if ops != [] {
      var (op, now) := ops[0];
      StepAccounts(q, op, now);
      AcceptedNowOrLater(q, ops, a);
      if UpToDateOrNew(q, op, now, a) {
        StepUpToDate(q, op, now, a);
      }
      RunUpToDate(Step(q, op, now), ops[1..], a);
    }
  }

  /** A live entry of a compacting lane is its sender's latest. */
  lemma LiveIsTracked(q: Queue, p: Priority, e: Entry)
    requires Valid(q) && e in Live(q, p)
    ensures e.msg.priority == p && (Compacting(q, p) ==> Tracks(q, p, e.msg.sender, e.seqNo))
  {
    LiveOfMembers(Lane(q, p), q.tombs);
    assert InLane(q, p, e);
  }

  /** Over any run, dequeue never returns a message that its sender has superseded. */
  lemma DequeueNeverSuperseded(capacity: int, compaction: bool, ops: seq<(Op, real)>, now: real)
    ensures
      var start := Empty(capacity, compaction, false);
      var r := Run(start, ops);
      Dequeue(r, now).1.Some? ==> !Superseded(r, Accepted(start, ops), Dequeue(r, now).1.value)
  {
    var start := Empty(capacity, compaction, false);
    var r := Run(start, ops);
    EmptyIsValid(capacity, compaction, false);
    RunAccounts(start, ops);
    var found := Dequeue(r, now).1;
    if found.Some? {
      var p := FoundIsLive(r, now);
      LiveIsTracked(r, p, found.value);
      forall a | a in Accepted(start, ops) && Compacting(r, p) && a.msg.priority == p
          && a.msg.sender == found.value.msg.sender
        ensures a.seqNo <= found.value.seqNo
      {
        RunUpToDate(start, ops, a);
      }
    }
  }

  lemma FoundIsLive(q: Queue, now: real) returns (p: Priority)
    requires Valid(q) && Dequeue(q, now).1.Some?
    ensures Dequeue(q, now).1.value in Live(q, p)
  {
    DequeueIsOldestOfHighest(q, now);
    var e := Dequeue(q, now).1.value;
    var i :| 0 <= i < |DISPATCH_ORDER| && OldestUnexpired(At(Abs(q), DISPATCH_ORDER[i]), e, now);
    p := DISPATCH_ORDER[i];
  }

  // ---------------------------------------------------------------- the counters

  ghost predicate CountsAre(q: Queue, enqueued: nat, dropped: nat) {
    q.enqueued == enqueued && q.dropped == dropped
  }

  lemma {:induction false} ShedLaneCounts(q: Queue, p: Priority)
    ensures CountsAre(ShedLane(q, p).0, q.enqueued, q.dropped + (if ShedLane(q, p).1 then 1 else 0))
    decreases |Lane(q, p)|
  {
    if Lane(q, p) != [] && Lane(q, p)[0].seqNo in q.tombs {
      ShedLaneCounts(PopDead(q, p), p);
    }
  }

  lemma {:induction false} ShedFromCounts(q: Queue, order: seq<Priority>, incoming: Priority)
    ensures CountsAre(ShedFrom(q, order, incoming).0, q.enqueued,
                      q.dropped + (if ShedFrom(q, order, incoming).1 then 1 else 0))
    decreases |order|
  {
    if order != [] && Rank(order[0]) > Rank(incoming) {
      ShedLaneCounts(q, order[0]);
      ShedFromCounts(ShedLane(q, order[0]).0, order[1..], incoming);
    }
  }

  lemma {:induction false} DequeueLaneCounts(q: Queue, p: Priority, now: real)
    ensures CountsAre(DequeueLane(q, p, now).0, q.enqueued, q.dropped)
    decreases |Lane(q, p)|
  {
    if Lane(q, p) != [] {
      if Lane(q, p)[0].seqNo in q.tombs {
        DequeueLaneCounts(PopDead(q, p), p, now);
      } else if Expired(Lane(q, p)[0].msg, now) {
        DequeueLaneCounts(PopSilently(q, p), p, now);
      }
    }
  }

  lemma {:induction false} DequeueFromCounts(q: Queue, order: seq<Priority>, now: real)
    ensures CountsAre(DequeueFrom(q, order, now).0, q.enqueued, q.dropped)
    decreases |order|
  {
    if order != [] {
      DequeueLaneCounts(q, order[0], now);
      DequeueFromCounts(DequeueLane(q, order[0], now).0, order[1..], now);
    }
  }

  /** The calls of a run that meet a full queue: each costs one message, the shed one or the new one. */
  ghost function Overflows(q: Queue, ops: seq<(Op, real)>): nat
    decreases |ops|
  {
    if ops == [] then 0
    else
      var (op, now) := ops[0];
      (if op.Put? && now <= op.m.timestamp + op.m.ttl as real && TotalSize(q) >= q.capacity then 1 else 0)
      + Overflows(Step(q, op, now), ops[1..])
  }

  lemma StepCounts(q: Queue, op: Op, now: real)
    ensures CountsAre(Step(q, op, now), q.enqueued + |Accepted(q, [(op, now)])|, q.dropped + Overflows(q, [(op, now)]))
  {
    assert [(op, now)][1..] == [];
    match op {
      case Take => DequeueFromCounts(q, DISPATCH_ORDER, now);
      case Put(m) => ShedFromCounts(q, SHED_ORDER, m.priority);
    }
  }

  lemma FirstCall(q: Queue, ops: seq<(Op, real)>)
    requires ops != []
    ensures
      var next := Step(q, ops[0].0, ops[0].1);
      && |Accepted(q, ops)| == |Accepted(q, [ops[0]])| + |Accepted(next, ops[1..])|
      && Overflows(q, ops) == Overflows(q, [ops[0]]) + Overflows(next, ops[1..])
  {
    assert [ops[0]][1..] == [];
  }

  lemma {:induction false} CountersTell(q: Queue, ops: seq<(Op, real)>)
    ensures CountsAre(Run(q, ops), q.enqueued + |Accepted(q, ops)|, q.dropped + Overflows(q, ops))
    decreases |ops|
  {
    if ops != [] {
      FirstCall(q, ops);
      StepCounts(q, ops[0].0, ops[0].1);
      assert (ops[0].0, ops[0].1) == ops[0];
      CountersTell(Step(q, ops[0].0, ops[0].1), ops[1..]);
    }
  }

  /** Over any run a new queue has counted every message it accepted, and one drop for every call that met it full. */
  lemma CountersTellFromStart(capacity: int, compaction: bool, repair: bool, ops: seq<(Op, real)>)
    ensures
      var start := Empty(capacity, compaction, repair);
      CountsAre(Run(start, ops), |Accepted(start, ops)|, Overflows(start, ops))
  {
    CountersTell(Empty(capacity, compaction, repair), ops);
  }
}
