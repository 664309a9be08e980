/** The message priority queue on values: four lanes ordered by arrival, tombstones for superseded
    entries, per-sender compaction, shedding and expiry. */
module QueueModel {
  import opened Basics

  datatype Priority = CriticalSafety | RegionalSafety | Operational | Analytics

  function Rank(p: Priority): nat {
    match p
    case CriticalSafety => 0
    case RegionalSafety => 1
    case Operational => 2
    case Analytics => 3
  }

  const DISPATCH_ORDER: seq<Priority> := [CriticalSafety, RegionalSafety, Operational, Analytics]
  const SHED_ORDER: seq<Priority> := [Analytics, Operational, RegionalSafety, CriticalSafety]

  datatype Msg = Msg(sender: string, priority: Priority, timestamp: real, ttl: int, payload: int)

  predicate Expired(m: Msg, now: real) {
    now - m.timestamp > m.ttl as real
  }

  datatype Entry = Entry(order: nat, seqNo: nat, msg: Msg)

  /** `repair` is false for the code as it stands; true adds the sender-map clean-up that the code
      leaves out when an entry expires or is shed. */
  datatype Queue = Queue(
    capacity: int,
    compaction: bool,
    repair: bool,
    lanes: map<Priority, seq<Entry>>,
    latest: map<Priority, map<string, nat>>,
    tombs: set<nat>,
    last: nat,
    enqueued: nat,
    dropped: nat)

  function Lane(q: Queue, p: Priority): seq<Entry> {
    if p in q.lanes then q.lanes[p] else []
  }

  function Latest(q: Queue, p: Priority): map<string, nat> {
    if p in q.latest then q.latest[p] else map[]
  }

  predicate Compacting(q: Queue, p: Priority) {
    q.compaction && (p == Operational || p == Analytics)
  }

  function Empty(capacity: int, compaction: bool, repair: bool): Queue {
    Queue(capacity, compaction, repair, map[], map[], {}, 0, 0, 0)
  }

  /** Lane lengths minus tombstones, as the code counts. */
  function TotalSize(q: Queue): int {
    |Lane(q, CriticalSafety)| + |Lane(q, RegionalSafety)| + |Lane(q, Operational)| + |Lane(q, Analytics)| - |q.tombs|
  }

  // ---------------------------------------------------------------- steps

  function PopFront(q: Queue, p: Priority): Queue
    requires Lane(q, p) != []
  {
    q.(lanes := q.lanes[p := Lane(q, p)[1..]])
  }

  /** Popping a tombstoned entry retires its tombstone. */
  function PopDead(q: Queue, p: Priority): Queue
    requires Lane(q, p) != []
  {
    PopFront(q, p).(tombs := q.tombs - {Lane(q, p)[0].seqNo})
  }

  function ForgetSender(q: Queue, p: Priority, e: Entry): Queue {
    if Compacting(q, p) && e.msg.sender in Latest(q, p) && Latest(q, p)[e.msg.sender] == e.seqNo
    then q.(latest := q.latest[p := Latest(q, p) - {e.msg.sender}])
    else q
  }

  /** Popping an expired or shed entry: the code leaves the sender map as it is. */
  function PopSilently(q: Queue, p: Priority): Queue
    requires Lane(q, p) != []
  {
    if q.repair then ForgetSender(PopFront(q, p), p, Lane(q, p)[0]) else PopFront(q, p)
  }

  /** Sheds the oldest live entry of the lane. */
  function ShedLane(q: Queue, p: Priority): (Queue, bool)
    decreases |Lane(q, p)|
  {
    if Lane(q, p) == [] then (q, false)
    else if Lane(q, p)[0].seqNo in q.tombs then ShedLane(PopDead(q, p), p)
    else (PopSilently(q, p).(dropped := q.dropped + 1), true)
  }

  function ShedFrom(q: Queue, order: seq<Priority>, incoming: Priority): (Queue, bool)
    decreases |order|, q.last
  {
    if order == [] || Rank(order[0]) <= Rank(incoming) then (q, false)
    else
      var (q', shed) := ShedLane(q, order[0]);
      if shed then (q', true) else ShedFrom(q', order[1..], incoming)
  }

  /** Appends an entry and marks the sender's previous one as superseded. */
  function Push(q: Queue, m: Msg): Queue {
    var p := m.priority;
    var e := Entry(Rank(p), q.last + 1, m);
    var tombs := if Compacting(q, p) && m.sender in Latest(q, p) then q.tombs + {Latest(q, p)[m.sender]} else q.tombs;
    var latest := if Compacting(q, p) then q.latest[p := Latest(q, p)[m.sender := e.seqNo]] else q.latest;
    q.(lanes := q.lanes[p := Lane(q, p) + [e]], latest := latest, tombs := tombs,
       last := q.last + 1, enqueued := q.enqueued + 1)
  }

  function Enqueue(q: Queue, m: Msg, now: real): (Queue, bool) {
    if Expired(m, now) then (q, false)
    else if TotalSize(q) < q.capacity then (Push(q, m), true)
    else
      var (q', shed) := ShedFrom(q, SHED_ORDER, m.priority);
      if shed then (Push(q', m), true) else (q'.(dropped := q'.dropped + 1), false)
  }

  function DequeueLane(q: Queue, p: Priority, now: real): (Queue, Option<Entry>)
    decreases |Lane(q, p)|
  {
    if Lane(q, p) == [] then (q, None)
    else
      var head := Lane(q, p)[0];
      if head.seqNo in q.tombs then DequeueLane(PopDead(q, p), p, now)
      else if Expired(head.msg, now) then DequeueLane(PopSilently(q, p), p, now)
      else (ForgetSender(PopFront(q, p), p, head), Some(head))
  }

  function DequeueFrom(q: Queue, order: seq<Priority>, now: real): (Queue, Option<Entry>)
    decreases |order|, q.last
  {
    if order == [] then (q, None)
    else
      var (q', found) := DequeueLane(q, order[0], now);
      if found.Some? then (q', found) else DequeueFrom(q', order[1..], now)
  }

  function Dequeue(q: Queue, now: real): (Queue, Option<Entry>) {
    DequeueFrom(q, DISPATCH_ORDER, now)
  }

  // ---------------------------------------------------------------- invariant

  ghost predicate InLane(q: Queue, p: Priority, e: Entry) {
    e in Lane(q, p)
  }

  ghost predicate Sorted(lane: seq<Entry>) {
    forall i, j :: 0 <= i < j < |lane| ==> lane[i].seqNo < lane[j].seqNo
  }

  ghost predicate EntryOk(q: Queue, p: Priority, e: Entry) {
    && 1 <= e.seqNo <= q.last && e.msg.priority == p && e.order == Rank(p)
    && (e.seqNo in q.tombs ==> Compacting(q, p))
    && (Compacting(q, p) && e.seqNo !in q.tombs ==>
        e.msg.sender in Latest(q, p) && Latest(q, p)[e.msg.sender] == e.seqNo)
  }

  ghost predicate LatestOk(q: Queue, p: Priority, s: string) {
    s in Latest(q, p) ==>
      && Compacting(q, p) && 1 <= Latest(q, p)[s] <= q.last && Latest(q, p)[s] !in q.tombs
      && (forall p', e {:trigger InLane(q, p', e)} :: InLane(q, p', e) && e.seqNo == Latest(q, p)[s] ==>
          p' == p && e.msg.sender == s)
      && (q.repair ==> exists e :: InLane(q, p, e) && e.seqNo == Latest(q, p)[s])
  }

  ghost predicate SameNumberSameEntry(q: Queue) {
    forall p, e, p', e' {:trigger InLane(q, p, e), InLane(q, p', e')} ::
      InLane(q, p, e) && InLane(q, p', e') && e.seqNo == e'.seqNo ==> e == e'
  }

  ghost predicate Tracks(q: Queue, p: Priority, s: string, n: nat) {
    s in Latest(q, p) && Latest(q, p)[s] == n
  }

  /** No number is the latest of two senders. */
  ghost predicate OneSenderPerNumber(q: Queue) {
    forall p, s, p', s', n: nat {:trigger Tracks(q, p, s, n), Tracks(q, p', s', n)} ::
      Tracks(q, p, s, n) && Tracks(q, p', s', n) ==> p == p' && s == s'
  }

  ghost predicate Valid(q: Queue) {
    && OneSenderPerNumber(q)
    && (forall p :: Sorted(Lane(q, p)))
    && (forall p, e {:trigger InLane(q, p, e)} {:trigger EntryOk(q, p, e)} :: InLane(q, p, e) ==> EntryOk(q, p, e))
    && SameNumberSameEntry(q)
    && (forall p, s {:trigger LatestOk(q, p, s)} :: LatestOk(q, p, s))
    && (forall t :: t in q.tombs ==> 1 <= t <= q.last)
  }

  lemma EmptyIsValid(capacity: int, compaction: bool, repair: bool)
    ensures Valid(Empty(capacity, compaction, repair))
  {
  }

  // ---------------------------------------------------------------- every step keeps the invariant

  /** `r` is `q` without the front entry of one lane; its tombstone and its sender record may be gone
      too, and must be when the clean-up is on. */
  ghost predicate Popped(q: Queue, p: Priority, r: Queue) {
    && Lane(q, p) != []
    && r.compaction == q.compaction && r.repair == q.repair && r.last == q.last
    && (forall p' :: Lane(r, p') == if p' == p then Lane(q, p)[1..] else Lane(q, p'))
    && r.tombs <= q.tombs && (forall t :: t in q.tombs && t !in r.tombs ==> t == Lane(q, p)[0].seqNo)
    && (forall p', s, n: nat {:trigger Tracks(r, p', s, n)} {:trigger Tracks(q, p', s, n)} ::
          if n == Lane(q, p)[0].seqNo then Tracks(r, p', s, n) ==> Tracks(q, p', s, n) && !q.repair
          else Tracks(r, p', s, n) <==> Tracks(q, p', s, n))
  }

  lemma PoppedMembers(q: Queue, p: Priority, r: Queue)
    requires Popped(q, p, r) && Sorted(Lane(q, p))
    ensures forall p', e {:trigger InLane(r, p', e)} :: InLane(r, p', e) <==>
        InLane(q, p', e) && (p' == p ==> e != Lane(q, p)[0])
    ensures Sorted(Lane(r, p)) && InLane(q, p, Lane(q, p)[0])
  {
    var lane := Lane(q, p);
    assert lane == [lane[0]] + lane[1..];
    forall e | e in lane[1..]
      ensures e != lane[0]
    {
      var i :| 0 <= i < |lane[1..]| && lane[1..][i] == e;
      assert lane[i + 1].seqNo > lane[0].seqNo;
    }
  }

  lemma PoppedEntry(q: Queue, p: Priority, r: Queue, p': Priority, e: Entry)
    requires Valid(q) && Popped(q, p, r) && InLane(r, p', e)
    ensures EntryOk(r, p', e) && InLane(q, p', e) && e.seqNo != Lane(q, p)[0].seqNo
  {
    PoppedMembers(q, p, r);
    assert EntryOk(q, p', e) && EntryOk(q, p, Lane(q, p)[0]);
    if Compacting(q, p') && e.seqNo !in q.tombs {
      assert Tracks(q, p', e.msg.sender, e.seqNo);
      assert Tracks(r, p', e.msg.sender, e.seqNo);
    }
  }

  lemma PoppedLatest(q: Queue, p: Priority, r: Queue, p': Priority, s: string)
    requires Valid(q) && Popped(q, p, r)
    ensures LatestOk(r, p', s)
  {
    if s in Latest(r, p') {
      var n := Latest(r, p')[s];
      assert Tracks(r, p', s, n);
      assert Tracks(q, p', s, n);
      PoppedMembers(q, p, r);
      assert LatestOk(q, p', s);
      if q.repair {
        var e :| InLane(q, p', e) && e.seqNo == n;
        assert InLane(r, p', e);
      }
    }
  }

  lemma PoppedValid(q: Queue, p: Priority, r: Queue)
    requires Valid(q) && Popped(q, p, r)
    ensures Valid(r)
  {
    PoppedMembers(q, p, r);
    forall p', e | InLane(r, p', e)
      ensures EntryOk(r, p', e)
    {
      PoppedEntry(q, p, r, p', e);
    }
    forall p', s
      ensures LatestOk(r, p', s)
    {
      PoppedLatest(q, p, r, p', s);
    }
  }

  lemma HeadTrack(q: Queue, p: Priority, p': Priority, s: string)
    requires Valid(q) && Lane(q, p) != [] && Tracks(q, p', s, Lane(q, p)[0].seqNo)
    ensures p' == p && s == Lane(q, p)[0].msg.sender && Compacting(q, p) && Lane(q, p)[0].seqNo !in q.tombs
  {
    assert InLane(q, p, Lane(q, p)[0]);
    assert LatestOk(q, p', s);
  }

  lemma PopDeadIsPopped(q: Queue, p: Priority)
    requires Valid(q) && Lane(q, p) != [] && Lane(q, p)[0].seqNo in q.tombs
    ensures Popped(q, p, PopDead(q, p))
  {
    var r, head := PopDead(q, p), Lane(q, p)[0];
    forall p', s, n: nat
      ensures if n == head.seqNo then !Tracks(r, p', s, n) else Tracks(r, p', s, n) <==> Tracks(q, p', s, n)
    {
      if Tracks(q, p', s, head.seqNo) {
        HeadTrack(q, p, p', s);
      }
    }
  }

  lemma PopTakenIsPopped(q: Queue, p: Priority)
    requires Valid(q) && Lane(q, p) != []
    ensures Popped(q, p, ForgetSender(PopFront(q, p), p, Lane(q, p)[0]))
  {
    var head := Lane(q, p)[0];
    var r := ForgetSender(PopFront(q, p), p, head);
    forall p', s, n: nat
      ensures if n == head.seqNo then !Tracks(r, p', s, n) else Tracks(r, p', s, n) <==> Tracks(q, p', s, n)
    {
      if Tracks(q, p', s, head.seqNo) {
        HeadTrack(q, p, p', s);
      }
    }
  }

  lemma PopSilentlyIsPopped(q: Queue, p: Priority)
    requires Valid(q) && Lane(q, p) != []
    ensures Popped(q, p, PopSilently(q, p))
  {
    if q.repair {
      PopTakenIsPopped(q, p);
    } else {
      var r := PopSilently(q, p);
      assert forall p', s, n: nat {:trigger Tracks(r, p', s, n)} {:trigger Tracks(q, p', s, n)} ::
        Tracks(r, p', s, n) <==> Tracks(q, p', s, n);
    }
  }

  lemma PushMembers(q: Queue, m: Msg)
    ensures forall p, e {:trigger InLane(Push(q, m), p, e)} ::
              InLane(Push(q, m), p, e) <==> InLane(q, p, e) || (p == m.priority && e == Entry(Rank(p), q.last + 1, m))
  {
  }

  lemma PushTracks(q: Queue, m: Msg)
    ensures forall p, s, n: nat {:trigger Tracks(Push(q, m), p, s, n)} ::
              Tracks(Push(q, m), p, s, n) <==>
              if p == m.priority && s == m.sender && Compacting(q, p) then n == q.last + 1 else Tracks(q, p, s, n)
  {
  }

  lemma NumbersBounded(q: Queue)
    requires Valid(q)
    ensures forall p, e {:trigger InLane(q, p, e)} :: InLane(q, p, e) ==> 1 <= e.seqNo <= q.last
    ensures forall p, s, n: nat {:trigger Tracks(q, p, s, n)} :: Tracks(q, p, s, n) ==> 1 <= n <= q.last
  {
    forall p, s, n: nat | Tracks(q, p, s, n)
      ensures 1 <= n <= q.last
    {
      assert LatestOk(q, p, s);
    }
    forall p, e | InLane(q, p, e)
      ensures 1 <= e.seqNo <= q.last
    {
      assert EntryOk(q, p, e);
    }
  }

  lemma PushValid(q: Queue, m: Msg)
    requires Valid(q)
    ensures Valid(Push(q, m))
  {
    var r := Push(q, m);
    PushMembers(q, m);
    PushTracks(q, m);
    NumbersBounded(q);
    forall p
      ensures Sorted(Lane(r, p))
    {
      PushSorted(q, m, p);
    }
    forall p, e | InLane(r, p, e)
      ensures EntryOk(r, p, e)
    {
      PushEntry(q, m, p, e);
    }
    forall p, s
      ensures LatestOk(r, p, s)
    {
      PushLatest(q, m, p, s);
    }
    assert Compacting(q, m.priority) && m.sender in Latest(q, m.priority) ==>
             Tracks(q, m.priority, m.sender, Latest(q, m.priority)[m.sender]);
  }

  lemma PushSorted(q: Queue, m: Msg, p: Priority)
    requires Valid(q)
    ensures Sorted(Lane(Push(q, m), p))
  {
    var lane := Lane(q, p);
    NumbersBounded(q);
    forall i | 0 <= i < |lane|
      ensures lane[i].seqNo <= q.last
    {
      assert InLane(q, p, lane[i]);
    }
  }

  lemma PushEntry(q: Queue, m: Msg, p: Priority, e: Entry)
    requires Valid(q) && InLane(Push(q, m), p, e)
    ensures EntryOk(Push(q, m), p, e)
  {
    PushMembers(q, m);
    NumbersBounded(q);
    assert LatestOk(q, m.priority, m.sender);
    if InLane(q, p, e) {
      assert EntryOk(q, p, e);
    }
  }

  lemma PushLatest(q: Queue, m: Msg, p: Priority, s: string)
    requires Valid(q)
    ensures LatestOk(Push(q, m), p, s)
  {
    var r := Push(q, m);
    PushMembers(q, m);
    NumbersBounded(q);
    assert LatestOk(q, p, s) && LatestOk(q, m.priority, m.sender);
    if p == m.priority && s == m.sender && Compacting(q, p) {
      assert InLane(r, p, Entry(Rank(p), q.last + 1, m));
    } else if s in Latest(q, p) {
      PushOtherLatest(q, m, p, s);
    }
  }

  lemma PushOtherLatest(q: Queue, m: Msg, p: Priority, s: string)
    requires Valid(q) && s in Latest(q, p) && !(p == m.priority && s == m.sender && Compacting(q, p))
    ensures LatestOk(Push(q, m), p, s)
  {
    var r := Push(q, m);
    var n := Latest(q, p)[s];
    PushMembers(q, m);
    assert LatestOk(q, p, s) && LatestOk(q, m.priority, m.sender);
    assert Tracks(q, p, s, n);
    if Compacting(q, m.priority) && m.sender in Latest(q, m.priority) && Latest(q, m.priority)[m.sender] == n {
      assert Tracks(q, m.priority, m.sender, n);
    }
    if q.repair {
      var e :| InLane(q, p, e) && e.seqNo == n;
      assert InLane(r, p, e);
    }
  }
}
