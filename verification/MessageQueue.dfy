/** The priority queue as an object with four heaps, proved to follow the model on values. */
module MessageQueue {
  import opened Basics
  import opened QueueModel
  import opened QueueAccounting

  /** Tuple order of heap entries: lane rank, then sequence number. */
  predicate Before(a: Entry, b: Entry) {
    a.order < b.order || (a.order == b.order && a.seqNo <= b.seqNo)
  }

  /** All a caller may rely on: the first element of a heap is a least one. */
  ghost predicate IsHeap(h: seq<Entry>) {
    forall e :: e in h ==> Before(h[0], e)
  }

  method HeapPush(h: seq<Entry>, e: Entry) returns (r: seq<Entry>)
    requires IsHeap(h)
    ensures IsHeap(r) && multiset(r) == multiset(h) + multiset{e}
  {
    r := if h != [] && Before(h[0], e) then h + [e] else [e] + h;
  }

  method HeapPop(h: seq<Entry>) returns (r: seq<Entry>)
    requires h != []
    ensures IsHeap(r) && multiset(r) == multiset(h) - multiset{h[0]}
  {
    assert h == [h[0]] + h[1..];
    var rest := h[1..];
    if rest == [] {
      return [];
    }
    var least := 0;
    for k := 1 to |rest|
      invariant least < k && forall j :: 0 <= j < k ==> Before(rest[least], rest[j])
    {
      if !Before(rest[least], rest[k]) {
        least := k;
      }
    }
    r := [rest[least]] + rest[..least] + rest[least + 1..];
    assert rest == rest[..least] + [rest[least]] + rest[least + 1..];
    forall e | e in r
      ensures Before(r[0], e)
    {
      assert e in multiset(r) && e in multiset(rest);
      var j :| 0 <= j < |rest| && rest[j] == e;
    }
  }

  /** A heap and an arrival-ordered lane with the same entries have the same first entry. */
  lemma FrontIsOldest(h: seq<Entry>, lane: seq<Entry>)
    requires IsHeap(h) && Sorted(lane) && multiset(h) == multiset(lane)
    requires forall e, e' :: e in lane && e' in lane ==> e.order == e'.order
    ensures h == [] <==> lane == []
    ensures h != [] ==> h[0] == lane[0] && multiset(lane[1..]) == multiset(h) - multiset{h[0]}
  {
    assert |h| == |multiset(h)| == |multiset(lane)| == |lane|;
    if lane != [] {
      assert lane[0] in multiset(lane) && lane[0] in multiset(h);
      assert h[0] in multiset(h) && h[0] in multiset(lane);
      var i :| 0 <= i < |lane| && lane[i] == h[0];
      assert Before(h[0], lane[0]);
      assert lane == [lane[0]] + lane[1..];
    }
  }

  const NO_ENTRIES: map<Priority, seq<Entry>> :=
    map[CriticalSafety := [], RegionalSafety := [], Operational := [], Analytics := []]

  lemma EveryLaneStartsEmpty()
    ensures forall p :: p in NO_ENTRIES && NO_ENTRIES[p] == []
  {
    forall p: Priority
      ensures p in NO_ENTRIES && NO_ENTRIES[p] == []
    {
      match p
      case CriticalSafety =>
      case RegionalSafety =>
      case Operational =>
      case Analytics =>
    }
  }

  lemma {:induction false} LiveOfConcat(a: seq<Entry>, b: seq<Entry>, tombs: set<nat>)
    ensures LiveOf(a + b, tombs) == LiveOf(a, tombs) + LiveOf(b, tombs)
  {
    if a == [] {
      assert a + b == b;
    } else {
      LiveOfConcat(a[1..], b, tombs);
      assert (a + b)[1..] == a[1..] + b;
      ConcatAssociates([a[0]], LiveOf(a[1..], tombs), LiveOf(b, tombs));
    }
  }

  function RemoveAt(s: seq<Entry>, i: nat): seq<Entry>
    requires i < |s|
  {
    s[..i] + s[i + 1..]
  }

  lemma LiveWithout(s: seq<Entry>, i: nat, tombs: set<nat>)
    requires i < |s|
    ensures |LiveOf(s, tombs)| == |LiveOf(RemoveAt(s, i), tombs)| + (if s[i].seqNo in tombs then 0 else 1)
  {
    assert s == s[..i] + ([s[i]] + s[i + 1..]);
    LiveOfConcat(s[..i], [s[i]] + s[i + 1..], tombs);
    LiveOfConcat(s[..i], s[i + 1..], tombs);
    assert ([s[i]] + s[i + 1..])[1..] == s[i + 1..];
  }

  lemma MultisetWithout(s: seq<Entry>, i: nat)
    requires i < |s|
    ensures multiset(RemoveAt(s, i)) == multiset(s) - multiset{s[i]}
  {
    assert s == s[..i] + [s[i]] + s[i + 1..];
  }

  /** Counting live entries does not depend on how the heap is laid out. */
  lemma {:induction false} SameEntriesSameLive(a: seq<Entry>, b: seq<Entry>, tombs: set<nat>)
    requires multiset(a) == multiset(b)
    ensures |LiveOf(a, tombs)| == |LiveOf(b, tombs)|
    decreases |a|
  {
    assert |a| == |multiset(a)| == |multiset(b)| == |b|;
    if a != [] {
      assert a[0] in multiset(b);
      var i :| 0 <= i < |b| && b[i] == a[0];
      MultisetWithout(a, 0);
      MultisetWithout(b, i);
      LiveWithout(a, 0, tombs);
      LiveWithout(b, i, tombs);
      SameEntriesSameLive(RemoveAt(a, 0), RemoveAt(b, i), tombs);
    }
  }

  /** Entries of a heap that are not tombstoned. */
  method CountLive(h: seq<Entry>, tombs: set<nat>) returns (count: nat)
    ensures count == |LiveOf(h, tombs)|
  {
    count := 0;
    for k := 0 to |h|
      invariant count == |LiveOf(h[..k], tombs)|
    {
      assert h[..k + 1] == h[..k] + [h[k]];
      LiveOfConcat(h[..k], [h[k]], tombs);
      if h[k].seqNo !in tombs {
        count := count + 1;
      }
    }
    assert h[..|h|] == h;
  }

  lemma ShedLaneUnfolds(q: Queue, p: Priority)
    requires Lane(q, p) != []
    ensures ShedLane(q, p) == if Lane(q, p)[0].seqNo in q.tombs then ShedLane(PopDead(q, p), p)
                              else (PopSilently(q, p).(dropped := q.dropped + 1), true)
    ensures |Lane(PopDead(q, p), p)| < |Lane(q, p)|
  {
  }

  lemma DequeueLaneUnfolds(q: Queue, p: Priority, now: real)
    requires Lane(q, p) != []
    ensures DequeueLane(q, p, now) ==
            if Lane(q, p)[0].seqNo in q.tombs then DequeueLane(PopDead(q, p), p, now)
            else if Expired(Lane(q, p)[0].msg, now) then DequeueLane(PopSilently(q, p), p, now)
            else (ForgetSender(PopFront(q, p), p, Lane(q, p)[0]), Some(Lane(q, p)[0]))
    ensures |Lane(PopDead(q, p), p)| < |Lane(q, p)| && |Lane(PopSilently(q, p), p)| < |Lane(q, p)|
  {
  }

  lemma ShedFromUnfolds(q: Queue, k: nat, incoming: Priority)
    requires k < |SHED_ORDER|
    ensures ShedFrom(q, SHED_ORDER[k..], incoming) ==
            if Rank(SHED_ORDER[k]) <= Rank(incoming) then (q, false)
            else if ShedLane(q, SHED_ORDER[k]).1 then (ShedLane(q, SHED_ORDER[k]).0, true)
            else ShedFrom(ShedLane(q, SHED_ORDER[k]).0, SHED_ORDER[k + 1..], incoming)
  {
    assert SHED_ORDER[k..][1..] == SHED_ORDER[k + 1..];
  }

  lemma DequeueFromUnfolds(q: Queue, k: nat, now: real)
    requires k < |DISPATCH_ORDER|
    ensures DequeueFrom(q, DISPATCH_ORDER[k..], now) ==
            if DequeueLane(q, DISPATCH_ORDER[k], now).1.Some? then DequeueLane(q, DISPATCH_ORDER[k], now)
            else DequeueFrom(DequeueLane(q, DISPATCH_ORDER[k], now).0, DISPATCH_ORDER[k + 1..], now)
  {
    assert DISPATCH_ORDER[k..][1..] == DISPATCH_ORDER[k + 1..];
  }

  function MessageOf(found: Option<Entry>): Option<Msg> {
    if found.Some? then Some(found.value.msg) else None
  }

  ghost function Arrived(arrivals: map<Priority, seq<Entry>>, p: Priority): seq<Entry> {
    if p in arrivals then arrivals[p] else []
  }

  /** Every heap holds the entries of its lane. */
  ghost predicate Coupled(lanes: map<Priority, seq<Entry>>, arrivals: map<Priority, seq<Entry>>) {
    && (forall p :: p in lanes)
    && forall p {:trigger lanes[p]} :: IsHeap(lanes[p]) && multiset(lanes[p]) == multiset(Arrived(arrivals, p))
  }

  function SendersOf(latest: map<Priority, map<string, nat>>, p: Priority): map<string, nat> {
    if p in latest then latest[p] else map[]
  }

  /** The sender map and tombstones after numbering `m`, from those before. */
  ghost predicate Supersedes(compaction: bool, latest: map<Priority, map<string, nat>>, tombs: set<nat>, m: Msg,
                             seqNo: nat,
                             latest': map<Priority, map<string, nat>>, tombs': set<nat>) {
    var senders := SendersOf(latest, m.priority);
    if compaction && (m.priority == Operational || m.priority == Analytics) then
      && latest' == latest[m.priority := senders[m.sender := seqNo]]
      && tombs' == tombs + (if m.sender in senders then {senders[m.sender]} else {})
    else latest' == latest && tombs' == tombs
  }

  lemma PushIs(q: Queue, m: Msg, r: Queue)
    requires r.capacity == q.capacity && r.compaction == q.compaction && r.repair == q.repair
    requires r.lanes == q.lanes[m.priority := Arrived(q.lanes, m.priority) + [Entry(Rank(m.priority), q.last + 1, m)]]
    requires Supersedes(q.compaction, q.latest, q.tombs, m, q.last + 1, r.latest, r.tombs)
    requires r.last == q.last + 1 && r.enqueued == q.enqueued + 1 && r.dropped == q.dropped
    ensures r == Push(q, m)
  {
  }

  class MessagePriorityQueue {
    const capacity: int
    const compaction: bool
    var lanes: map<Priority, seq<Entry>>
    var latest: map<Priority, map<string, nat>>
    var tombs: set<nat>
    var last: nat
    var enqueued: nat
    var dropped: nat
    /** Each lane's entries in arrival order. */
    ghost var arrivals: map<Priority, seq<Entry>>

    ghost function Model(): Queue
      reads this
    {
      Queue(capacity, compaction, false, arrivals, latest, tombs, last, enqueued, dropped)
    }

    ghost predicate HeapsMatch()
      reads this
    {
      Coupled(lanes, arrivals)
    }

    ghost predicate Valid()
      reads this
    {
      QueueModel.Valid(Model()) && HeapsMatch()
    }

    constructor (capacity: int, compaction: bool)
      ensures Valid()
      ensures Model() == Empty(capacity, compaction, false)
    {
      this.capacity, this.compaction := capacity, compaction;
      lanes, arrivals := NO_ENTRIES, map[];
      latest, tombs, last, enqueued, dropped := map[], {}, 0, 0, 0;
      EveryLaneStartsEmpty();
    }

    lemma HeadOf(p: Priority)
      requires Valid()
      ensures p in lanes && (lanes[p] == [] <==> Lane(Model(), p) == [])
      ensures lanes[p] != [] ==> lanes[p][0] == Lane(Model(), p)[0]
                                 && multiset(Lane(Model(), p)[1..]) == multiset(lanes[p]) - multiset{lanes[p][0]}
    {
      var lane := Lane(Model(), p);
      forall e | e in lane
        ensures e.order == Rank(p)
      {
        assert InLane(Model(), p, e);
      }
      FrontIsOldest(lanes[p], lane);
    }

    /** `_total_size`. */
    method Size() returns (size: int)
      requires Valid()
      ensures size == TotalSize(Model())
    {
      assert forall p :: |lanes[p]| == |multiset(lanes[p])| == |multiset(Lane(Model(), p))| == |Lane(Model(), p)|;
      size := |lanes[CriticalSafety]| + |lanes[RegionalSafety]| + |lanes[Operational]| + |lanes[Analytics]| - |tombs|;
    }

    /** `heappop` on one lane. */
    method PopLane(p: Priority)
      requires Valid() && lanes[p] != []
      modifies this`lanes, this`arrivals
      ensures Lane(old(Model()), p) != [] && old(lanes)[p][0] == Lane(old(Model()), p)[0]
      ensures HeapsMatch() && Model() == PopFront(old(Model()), p)
    {
      HeadOf(p);
      var rest := HeapPop(lanes[p]);
      arrivals := arrivals[p := Lane(Model(), p)[1..]];
      lanes := lanes[p := rest];
    }

    /** A tombstoned head: popped, and its tombstone retired. */
    method PopTombstoned(p: Priority)
      requires Valid() && lanes[p] != [] && lanes[p][0].seqNo in tombs
      modifies this`lanes, this`arrivals, this`tombs
      ensures Lane(old(Model()), p) != [] && Lane(old(Model()), p)[0].seqNo in old(tombs)
      ensures Valid() && Model() == PopDead(old(Model()), p)
    {
      HeadOf(p);
      ghost var before := Model();
      var seqNo := lanes[p][0].seqNo;
      PopLane(p);
      tombs := tombs - {seqNo};
      PopDeadIsPopped(before, p);
      PoppedValid(before, p, Model());
    }

    /** An expired or shed head: popped, the sender map left as it is. */
    method PopUnrecorded(p: Priority)
      requires Valid() && lanes[p] != []
      modifies this`lanes, this`arrivals
      ensures Lane(old(Model()), p) != [] && Lane(old(Model()), p)[0] == old(lanes)[p][0]
      ensures Valid() && Model() == PopSilently(old(Model()), p)
    {
      ghost var before := Model();
      PopLane(p);
      PopSilentlyIsPopped(before, p);
      PoppedValid(before, p, Model());
    }

    /** A live head shed: popped and counted. */
    method ShedHead(p: Priority)
      requires Valid() && lanes[p] != [] && lanes[p][0].seqNo !in tombs
      modifies this`lanes, this`arrivals, this`dropped
      ensures Valid() && ShedLane(old(Model()), p) == (Model(), true)
    {
      ShedLaneUnfolds(Model(), p) by {
        HeadOf(p);
      }
      PopUnrecorded(p);
      CountDrop();
    }

    /** A tombstoned head passed over by `_shed_one`. */
    method SkipTombstone(p: Priority)
      requires Valid() && lanes[p] != [] && lanes[p][0].seqNo in tombs
      modifies this`lanes, this`arrivals, this`tombs
      ensures Valid() && ShedLane(old(Model()), p) == ShedLane(Model(), p)
      ensures |Lane(Model(), p)| < |Lane(old(Model()), p)|
    {
      ShedLaneUnfolds(Model(), p) by {
        HeadOf(p);
      }
      PopTombstoned(p);
    }

    /** The inner loop of `_shed_one`. */
    method ShedOneFrom(p: Priority) returns (shed: bool)
      requires Valid()
      modifies this`lanes, this`arrivals, this`tombs, this`dropped
      ensures Valid() && ShedLane(old(Model()), p) == (Model(), shed)
    {
      ghost var goal := ShedLane(Model(), p);
      HeadOf(p);
      while lanes[p] != []
        invariant Valid() && p in lanes && goal == ShedLane(Model(), p)
        decreases |Lane(Model(), p)|
      {
        if lanes[p][0].seqNo in tombs {
          SkipTombstone(p);
          HeadOf(p);
          continue;
        }
        ShedHead(p);
        return true;
      }
      HeadOf(p);
      return false;
    }

    method ShedOne(incoming: Priority) returns (shed: bool)
      requires Valid()
      modifies this`lanes, this`arrivals, this`tombs, this`dropped
      ensures Valid() && (Model(), shed) == ShedFrom(old(Model()), SHED_ORDER, incoming)
    {
      ghost var start := Model();
      assert SHED_ORDER[0..] == SHED_ORDER;
      for k := 0 to |SHED_ORDER|
        invariant Valid() && ShedFrom(start, SHED_ORDER, incoming) == ShedFrom(Model(), SHED_ORDER[k..], incoming)
      {
        ShedFromUnfolds(Model(), k, incoming);
        if Rank(SHED_ORDER[k]) <= Rank(incoming) {
          return false;
        }
        shed := ShedOneFrom(SHED_ORDER[k]);
        if shed {
          return true;
        }
      }
      return false;
    }

    /** Latest-state compaction: the sender's previous entry becomes a tombstone. */
    method Supersede(m: Msg, seqNo: nat)
      modifies this`latest, this`tombs
      ensures Supersedes(compaction, old(latest), old(tombs), m, seqNo, latest, tombs)
    {
      if compaction && (m.priority == Operational || m.priority == Analytics) {
        var senders: map<string, nat> := SendersOf(latest, m.priority);
        if m.sender in senders {
          tombs := tombs + {senders[m.sender]};
        }
        latest := latest[m.priority := senders[m.sender := seqNo]];
      }
    }

    /** `heappush` on one lane. */
    method PushLane(p: Priority, entry: Entry)
      requires HeapsMatch()
      modifies this`lanes, this`arrivals
      ensures HeapsMatch() && arrivals == old(arrivals)[p := Arrived(old(arrivals), p) + [entry]]
    {
      var heap := HeapPush(lanes[p], entry);
      lanes := lanes[p := heap];
      arrivals := arrivals[p := Arrived(arrivals, p) + [entry]];
    }

    method Append(m: Msg)
      requires HeapsMatch()
      modifies this`lanes, this`arrivals, this`latest, this`tombs, this`last, this`enqueued
      ensures HeapsMatch() && last == old(last) + 1 && enqueued == old(enqueued) + 1
      ensures arrivals == old(arrivals)[m.priority := Arrived(old(arrivals), m.priority)
                                        + [Entry(Rank(m.priority), last, m)]]
      ensures Supersedes(compaction, old(latest), old(tombs), m, last, latest, tombs)
    {
      last := last + 1;
      var entry := Entry(Rank(m.priority), last, m);
      Supersede(m, last);
      PushLane(m.priority, entry);
      enqueued := enqueued + 1;
    }

    method Accept(m: Msg)
      requires Valid()
      modifies this`lanes, this`arrivals, this`latest, this`tombs, this`last, this`enqueued
      ensures Valid() && Model() == Push(old(Model()), m)
    {
      ghost var before := Model();
      PushValid(before, m);
      Append(m);
      PushIs(before, m, Model());
    }

    method CountDrop()
      requires Valid()
      modifies this`dropped
      ensures Valid() && Model() == old(Model()).(dropped := old(dropped) + 1)
    {
      ghost var before := Model();
      dropped := dropped + 1;
      CountersDoNotMatter(before, enqueued, dropped);
    }

    method Enqueue(m: Msg, now: real) returns (accepted: bool)
      requires Valid()
      modifies this
      ensures Valid() && (Model(), accepted) == QueueModel.Enqueue(old(Model()), m, now)
    {
      if Expired(m, now) {
        return false;
      }
      var size := Size();
      if size >= capacity {
        var shed := ShedOne(m.priority);
        if !shed {
          CountDrop();
          return false;
        }
      }
      Accept(m);
      return true;
    }

    /** Forgets the sender if this entry is the sender's latest. */
    method Forget(p: Priority, head: Entry)
      modifies this`latest
      ensures Model() == ForgetSender(old(Model()), p, head)
    {
      if compaction && (p == Operational || p == Analytics) {
        var senders := SendersOf(latest, p);
        if head.msg.sender in senders && senders[head.msg.sender] == head.seqNo {
          latest := latest[p := senders - {head.msg.sender}];
        }
      }
    }

    /** A live head: popped, and its sender forgotten. */
    method TakeHead(p: Priority) returns (head: Entry)
      requires Valid() && lanes[p] != []
      modifies this`lanes, this`arrivals, this`latest
      ensures Lane(old(Model()), p) != [] && head == Lane(old(Model()), p)[0]
      ensures Valid() && Model() == ForgetSender(PopFront(old(Model()), p), p, head)
    {
      ghost var before := Model();
      head := lanes[p][0];
      PopLane(p);
      Forget(p, head);
      PopTakenIsPopped(before, p);
      PoppedValid(before, p, Model());
    }

    /** The inner loop of `dequeue`. */
    method DequeueFromLane(p: Priority, now: real) returns (found: Option<Msg>, ghost taken: Option<Entry>)
      requires Valid()
      modifies this`lanes, this`arrivals, this`latest, this`tombs
      ensures Valid() && (Model(), taken) == DequeueLane(old(Model()), p, now) && found == MessageOf(taken)
    {
      ghost var goal := DequeueLane(Model(), p, now);
      HeadOf(p);
      while lanes[p] != []
        invariant Valid() && p in lanes && goal == DequeueLane(Model(), p, now)
        decreases |Lane(Model(), p)|
      {
        HeadOf(p);
        DequeueLaneUnfolds(Model(), p, now);
        if lanes[p][0].seqNo in tombs {
          PopTombstoned(p);
          continue;
        }
        if Expired(lanes[p][0].msg, now) {
          PopUnrecorded(p);
          continue;
        }
        var head := TakeHead(p);
        return Some(head.msg), Some(head);
      }
      HeadOf(p);
      return None, None;
    }

    method Dequeue(now: real) returns (found: Option<Msg>)
      requires Valid()
      modifies this`lanes, this`arrivals, this`latest, this`tombs
      ensures Valid() && Model() == QueueModel.Dequeue(old(Model()), now).0
      ensures found == MessageOf(QueueModel.Dequeue(old(Model()), now).1)
    {
      ghost var start := Model();
      assert DISPATCH_ORDER[0..] == DISPATCH_ORDER;
      for k := 0 to |DISPATCH_ORDER|
        invariant Valid() && DequeueFrom(start, DISPATCH_ORDER, now) == DequeueFrom(Model(), DISPATCH_ORDER[k..], now)
      {
        DequeueFromUnfolds(Model(), k, now);
        ghost var taken;
        found, taken := DequeueFromLane(DISPATCH_ORDER[k], now);
        if found.Some? {
          return;
        }
      }
      return None;
    }

    /** The totals of `get_stats`: what it reports exceeds what the capacity check counts by the
        tombstones whose entry has left its lane. */
    method GetStats() returns (total: nat, totalEnqueued: nat, totalDropped: nat)
      requires Valid()
      ensures total == LiveCount(Model()) == TotalSize(Model()) + |Ghosts(Model())|
      ensures totalEnqueued == enqueued && totalDropped == dropped
    {
      LiveIsTotalPlusGhosts(Model());
      forall p
        ensures |LiveOf(lanes[p], tombs)| == |Live(Model(), p)|
      {
        SameEntriesSameLive(lanes[p], Lane(Model(), p), tombs);
      }
      var critical := CountLive(lanes[CriticalSafety], tombs);
      var regional := CountLive(lanes[RegionalSafety], tombs);
      var operational := CountLive(lanes[Operational], tombs);
      var analytics := CountLive(lanes[Analytics], tombs);
      return critical + regional + operational + analytics, enqueued, dropped;
    }
  }
}
