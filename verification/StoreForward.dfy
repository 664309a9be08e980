/** Delay-tolerant store-and-forward: entries wait in arrival order until the connectivity permits their
    class, with a deduplication index over message id and schema version. */
module StoreForward {
  import opened Basics

  datatype QueueClass = CriticalLocal | RegionalSafety | Analytics

  datatype Connectivity = Full | DirectOnly | Intermittent | Isolated

  datatype Key = Key(messageId: int, version: string)

  datatype Message = Message(key: Key, timestamp: real, ttl: int, payload: int)

  datatype Entry = Entry(message: Message, queueClass: QueueClass, enqueuedAt: real, retries: nat)

  /** `entries` maps entry ids to entries, `seen` maps a message's key to its entry. */
  datatype Store = Store(entries: Dict<nat, Entry>, seen: map<Key, nat>, stored: nat, forwarded: nat, expired: nat)

  const EMPTY_STORE := Store(EmptyDict(), map[], 0, 0, 0)

  predicate Eligible(c: QueueClass, link: Connectivity) {
    match c
    case CriticalLocal => true
    case RegionalSafety => !link.Isolated?
    case Analytics => link.Full?
  }

  function Rank(c: QueueClass): nat {
    match c
    case CriticalLocal => 0
    case RegionalSafety => 1
    case Analytics => 2
  }

  predicate Past(m: Message, now: real) {
    now - m.timestamp > m.ttl as real
  }

  predicate Expired(e: Entry, now: real) {
    Past(e.message, now)
  }

  // ---------------------------------------------------------------- the steps on values

  /** A duplicate replaces the pending message only if it is newer. */
  function Put(s: Store, m: Message, c: QueueClass, now: real, freshId: nat): Store {
    if m.key in s.seen && s.seen[m.key] in s.entries.at then
      var e := s.entries.at[s.seen[m.key]];
      if m.timestamp > e.message.timestamp
      then s.(entries := s.entries.Put(s.seen[m.key], e.(message := m, queueClass := c, retries := 0)))
      else s
    else
      s.(entries := s.entries.Put(freshId, Entry(m, c, now, 0)), seen := s.seen[m.key := freshId],
         stored := s.stored + 1)
  }

  function Pending(s: Store): set<nat> {
    s.entries.at.Keys
  }

  function ExpiredIds(s: Store, now: real): set<nat> {
    set id | id in s.entries.at && Expired(s.entries.at[id], now)
  }

  function ForwardableIds(s: Store, link: Connectivity, now: real): set<nat> {
    set id | id in s.entries.at && !Expired(s.entries.at[id], now) && Eligible(s.entries.at[id].queueClass, link)
  }

  function OfClass(s: Store, c: QueueClass): set<nat> {
    set id | id in s.entries.at && s.entries.at[id].queueClass == c
  }

  /** Entry ids by class, ties in insertion order. */
  function Ranked(s: Store): seq<nat> {
    Only(s.entries.keys, OfClass(s, CriticalLocal)) + Only(s.entries.keys, OfClass(s, RegionalSafety))
    + Only(s.entries.keys, OfClass(s, Analytics))
  }

  function Forwarded(s: Store, link: Connectivity, now: real): seq<nat> {
    Only(Ranked(s), ForwardableIds(s, link, now))
  }

  function MessagesOf(s: Store, ids: seq<nat>): seq<Message>
    requires forall id :: id in ids ==> id in s.entries.at
  {
    seq(|ids|, i requires 0 <= i < |ids| => s.entries.at[ids[i]].message)
  }

  /** The store with these entries gone from table and index. */
  function Removed(s: Store, gone: set<nat>): Store {
    s.(entries := s.entries.Keep(Pending(s) - gone),
       seen := map k | k in s.seen && s.seen[k] !in gone :: s.seen[k])
  }

  function Flush(s: Store, link: Connectivity, now: real): Store {
    var r := Removed(s, ExpiredIds(s, now) + ForwardableIds(s, link, now));
    r.(expired := s.expired + |ExpiredIds(s, now)|, forwarded := s.forwarded + |ForwardableIds(s, link, now)|)
  }

  function Cleanup(s: Store, now: real): Store {
    Removed(s, ExpiredIds(s, now)).(expired := s.expired + |ExpiredIds(s, now)|)
  }

  // ---------------------------------------------------------------- runs

  datatype Op =
    | StoreOp(m: Message, c: QueueClass, id: nat)
    | FlushOp(link: Connectivity)
    | CleanupOp

  function Step(s: Store, op: Op, now: real): Store {
    match op
    case StoreOp(m, c, id) => Put(s, m, c, now, id)
    case FlushOp(link) => Flush(s, link, now)
    case CleanupOp => Cleanup(s, now)
  }

  function Run(s: Store, ops: seq<(Op, real)>): Store
    decreases |ops|
  {
    if ops == [] then s else Run(Step(s, ops[0].0, ops[0].1), ops[1..])
  }

  /** Entry ids are generated fresh. */
  predicate FreshIds(s: Store, ops: seq<(Op, real)>)
    decreases |ops|
  {
    ops == [] || ((ops[0].0.StoreOp? ==> ops[0].0.id !in s.entries.at)
                  && FreshIds(Step(s, ops[0].0, ops[0].1), ops[1..]))
  }

  // ---------------------------------------------------------------- invariant

  /** The index is the inverse of the table. */
  ghost predicate Indexed(s: Store) {
    && (forall k :: k in s.seen ==> s.seen[k] in s.entries.at && s.entries.at[s.seen[k]].message.key == k)
    && (forall id :: id in s.entries.at ==>
        s.entries.at[id].message.key in s.seen && s.seen[s.entries.at[id].message.key] == id)
  }

  ghost predicate Conserved(s: Store) {
    s.stored == |s.entries.keys| + s.forwarded + s.expired
  }

  ghost predicate OneEntryPerMessage(s: Store) {
    forall id, id' :: id in s.entries.at && id' in s.entries.at && id != id' ==>
                        s.entries.at[id].message.key != s.entries.at[id'].message.key
  }

  ghost predicate Valid(s: Store) {
    s.entries.Ok() && Indexed(s) && Conserved(s)
  }

  lemma {:induction false} DistinctSize(s: seq<nat>, members: set<nat>)
    requires Distinct(s) && forall x :: x in s <==> x in members
    ensures |s| == |members|
  {
    if s != [] {
      assert s == [s[0]] + s[1..];
      DistinctSize(s[1..], members - {s[0]});
    }
  }

  lemma RemovedKeepsInvariant(s: Store, gone: set<nat>)
    requires s.entries.Ok() && Indexed(s) && gone <= Pending(s)
    ensures Removed(s, gone).entries.Ok() && Indexed(Removed(s, gone))
    ensures |Removed(s, gone).entries.keys| == |s.entries.keys| - |gone|
    ensures Pending(Removed(s, gone)) == Pending(s) - gone
  {
    s.entries.KeepOk(Pending(s) - gone);
    OnlyMembers(s.entries.keys, Pending(s) - gone);
    DistinctSize(s.entries.keys, Pending(s));
    DistinctSize(Removed(s, gone).entries.keys, Pending(s) - gone);
  }

  lemma PutKeepsInvariant(s: Store, m: Message, c: QueueClass, now: real, id: nat)
    requires Valid(s) && id !in s.entries.at
    ensures Valid(Put(s, m, c, now, id))
  {
    if m.key in s.seen {
      PutDuplicate(s, m, c, now, id);
    } else {
      PutNew(s, m, c, now, id);
    }
  }

  lemma PutNew(s: Store, m: Message, c: QueueClass, now: real, id: nat)
    requires Valid(s) && id !in s.entries.at && m.key !in s.seen
    ensures Valid(Put(s, m, c, now, id))
  {
    var r := Put(s, m, c, now, id);
    s.entries.PutOk(id, Entry(m, c, now, 0));
    forall x | x in r.entries.at
      ensures r.entries.at[x].message.key in r.seen && r.seen[r.entries.at[x].message.key] == x
    {
    }
  }

  lemma PutDuplicate(s: Store, m: Message, c: QueueClass, now: real, id: nat)
    requires Valid(s) && m.key in s.seen
    ensures Valid(Put(s, m, c, now, id))
  {
    var current := s.seen[m.key];
    s.entries.PutOk(current, s.entries.at[current].(message := m, queueClass := c, retries := 0));
  }

  lemma SweepsAreDisjoint(s: Store, link: Connectivity, now: real)
    ensures |ExpiredIds(s, now) + ForwardableIds(s, link, now)| == |ExpiredIds(s, now)| + |ForwardableIds(s, link, now)|
  {
    assert ExpiredIds(s, now) !! ForwardableIds(s, link, now);
  }

  lemma StepKeepsInvariant(s: Store, op: Op, now: real)
    requires Valid(s) && (op.StoreOp? ==> op.id !in s.entries.at)
    ensures Valid(Step(s, op, now))
  {
    match op
    case StoreOp(m, c, id) => PutKeepsInvariant(s, m, c, now, id);
    case FlushOp(link) =>
      SweepsAreDisjoint(s, link, now);
      RemovedKeepsInvariant(s, ExpiredIds(s, now) + ForwardableIds(s, link, now));
    case CleanupOp => RemovedKeepsInvariant(s, ExpiredIds(s, now));
  }

  /** Over any run, every message stored is pending, forwarded or expired, the index is the exact inverse of
      the table, and so no two pending entries hold the same message version. */
  lemma {:induction false} MessagesAreConserved(s: Store, ops: seq<(Op, real)>)
    requires Valid(s) && FreshIds(s, ops)
    ensures
      var r := Run(s, ops);
      && r.stored == |r.entries.keys| + r.forwarded + r.expired
      && Indexed(r) && r.entries.Ok()
      && OneEntryPerMessage(r)
    decreases |ops|
  {
    if ops != [] {
      StepKeepsInvariant(s, ops[0].0, ops[0].1);
      MessagesAreConserved(Step(s, ops[0].0, ops[0].1), ops[1..]);
    }
  }

  /** No entry ever counts a retry: a flush either delivers a message or leaves it as it was. */
  lemma {:induction false} NothingIsRetried(s: Store, ops: seq<(Op, real)>, id: nat)
    requires Valid(s) && FreshIds(s, ops) && forall x :: x in s.entries.at ==> s.entries.at[x].retries == 0
    ensures id in Run(s, ops).entries.at ==> Run(s, ops).entries.at[id].retries == 0
    decreases |ops|
  {
    if ops != [] {
      var (op, now) := ops[0];
      StepKeepsInvariant(s, op, now);
      forall x | x in Step(s, op, now).entries.at
        ensures Step(s, op, now).entries.at[x].retries == 0
      {
        StepRetriesNothing(s, op, now, x);
      }
      NothingIsRetried(Step(s, op, now), ops[1..], id);
    }
  }

  lemma StepRetriesNothing(s: Store, op: Op, now: real, x: nat)
    requires x in Step(s, op, now).entries.at && forall y :: y in s.entries.at ==> s.entries.at[y].retries == 0
    ensures Step(s, op, now).entries.at[x].retries == 0
  {
  }

  lemma EmptyIsValid()
    ensures Valid(EMPTY_STORE)
  {
  }

  /** So it is over every run of a new manager. */
  lemma ConservedFromStart(ops: seq<(Op, real)>)
    requires FreshIds(EMPTY_STORE, ops)
    ensures
      var r := Run(EMPTY_STORE, ops);
      r.stored == |r.entries.keys| + r.forwarded + r.expired && Indexed(r) && OneEntryPerMessage(r)
  {
    EmptyIsValid();
    MessagesAreConserved(EMPTY_STORE, ops);
  }

  // ---------------------------------------------------------------- what a flush delivers

  /** `a` comes before `b`: by class, then by place in the table. */
  ghost predicate Precedes(s: Store, a: nat, b: nat) {
    && a in s.entries.at && b in s.entries.at
    && (Rank(s.entries.at[a].queueClass) < Rank(s.entries.at[b].queueClass)
        || (s.entries.at[a].queueClass == s.entries.at[b].queueClass && InsertedBefore(s.entries.keys, a, b)))
  }

  ghost predicate InsertedBefore(keys: seq<nat>, a: nat, b: nat) {
    exists i, j :: 0 <= i < j < |keys| && keys[i] == a && keys[j] == b
  }

  ghost predicate InOrder(s: Store, ids: seq<nat>) {
    forall i, j :: 0 <= i < j < |ids| ==> Precedes(s, ids[i], ids[j])
  }

  /** Filtering keeps the order. */
  lemma {:induction false} OnlyKeepsOrder(s: seq<nat>, keep: set<nat>, i: nat, j: nat)
    requires i < j < |Only(s, keep)|
    ensures InsertedBefore(s, Only(s, keep)[i], Only(s, keep)[j])
  {
    var rest := Only(s[1..], keep);
    if s[0] in keep && i == 0 {
      OnlyMembers(s[1..], keep);
      assert rest[j - 1] in s[1..];
      var k :| 0 <= k < |s[1..]| && s[1..][k] == rest[j - 1];
      assert s[0] == Only(s, keep)[i] && s[k + 1] == Only(s, keep)[j];
    } else {
      var d := if s[0] in keep then 1 else 0;
      OnlyKeepsOrder(s[1..], keep, i - d, j - d);
      var k, l :| 0 <= k < l < |s[1..]| && s[1..][k] == rest[i - d] && s[1..][l] == rest[j - d];
      assert s[k + 1] == rest[i - d] && s[l + 1] == rest[j - d];
    }
  }

  lemma {:induction false} OnlyKeepsPairs(s: Store, ids: seq<nat>, keep: set<nat>)
    requires InOrder(s, ids)
    ensures InOrder(s, Only(ids, keep))
  {
    forall i, j | 0 <= i < j < |Only(ids, keep)|
      ensures Precedes(s, Only(ids, keep)[i], Only(ids, keep)[j])
    {
      OnlyKeepsOrder(ids, keep, i, j);
      var k, l :| 0 <= k < l < |ids| && ids[k] == Only(ids, keep)[i] && ids[l] == Only(ids, keep)[j];
    }
  }

  lemma RankedIsInOrder(s: Store)
    requires s.entries.Ok()
    ensures InOrder(s, Ranked(s))
    ensures Distinct(Ranked(s)) && forall id :: id in Ranked(s) <==> id in s.entries.at
  {
    var keys := s.entries.keys;
    var a, b, c := Only(keys, OfClass(s, CriticalLocal)), Only(keys, OfClass(s, RegionalSafety)),
        Only(keys, OfClass(s, Analytics));
    OnlyMembers(keys, OfClass(s, CriticalLocal));
    OnlyMembers(keys, OfClass(s, RegionalSafety));
    OnlyMembers(keys, OfClass(s, Analytics));
    BucketInOrder(s, CriticalLocal);
    BucketInOrder(s, RegionalSafety);
    BucketInOrder(s, Analytics);
    ConcatInOrder(s, a, b);
    ConcatInOrder(s, a + b, c);
    forall id
      ensures id in Ranked(s) <==> id in a || id in b || id in c
      ensures id in s.entries.at ==> id in a || id in b || id in c
    {
      if id in s.entries.at {
        match s.entries.at[id].queueClass
        case CriticalLocal =>
        case RegionalSafety =>
        case Analytics =>
      }
    }
  }

  lemma ConcatInOrder(s: Store, a: seq<nat>, b: seq<nat>)
    requires InOrder(s, a) && InOrder(s, b) && Distinct(a) && Distinct(b)
    requires forall x, y :: x in a && y in b ==>
               x in s.entries.at && y in s.entries.at
                   && Rank(s.entries.at[x].queueClass) < Rank(s.entries.at[y].queueClass)
    ensures InOrder(s, a + b) && Distinct(a + b)
  {
    forall i, j | 0 <= i < j < |a + b|
      ensures Precedes(s, (a + b)[i], (a + b)[j]) && (a + b)[i] != (a + b)[j]
    {
      if i < |a| <= j {
        assert (a + b)[i] in a && (a + b)[j] in b;
      }
    }
  }

  lemma BucketInOrder(s: Store, c: QueueClass)
    requires s.entries.Ok()
    ensures InOrder(s, Only(s.entries.keys, OfClass(s, c)))
  {
    var bucket := Only(s.entries.keys, OfClass(s, c));
    OnlyMembers(s.entries.keys, OfClass(s, c));
    forall i, j | 0 <= i < j < |bucket|
      ensures Precedes(s, bucket[i], bucket[j])
    {
      OnlyKeepsOrder(s.entries.keys, OfClass(s, c), i, j);
      assert bucket[i] in bucket && bucket[j] in bucket;
    }
  }

  /** A flush delivers exactly the unexpired entries whose class the connectivity permits, each once, by class
      and then in the order they were stored. */
  lemma FlushDeliversInOrder(s: Store, link: Connectivity, now: real)
    requires s.entries.Ok()
    ensures InOrder(s, Forwarded(s, link, now)) && Distinct(Forwarded(s, link, now))
    ensures forall id :: id in Forwarded(s, link, now) <==>
              id in s.entries.at && !Expired(s.entries.at[id], now) && Eligible(s.entries.at[id].queueClass, link)
    ensures |Forwarded(s, link, now)| == |ForwardableIds(s, link, now)|
  {
    RankedIsInOrder(s);
    OnlyKeepsPairs(s, Ranked(s), ForwardableIds(s, link, now));
    OnlyMembers(Ranked(s), ForwardableIds(s, link, now));
    DistinctSize(Forwarded(s, link, now), ForwardableIds(s, link, now));
  }

  /** Critical messages pass any link, regional ones any but an isolated one, analytics only a full connection; a
      message expires once it is older than its time to live. */
  lemma FlushPasses(s: Store, link: Connectivity, now: real, id: nat)
    requires s.entries.Ok()
    ensures
      id in Forwarded(s, link, now) <==>
      && id in s.entries.at
      && s.entries.at[id].message.timestamp + s.entries.at[id].message.ttl as real >= now
      && (s.entries.at[id].queueClass.CriticalLocal? || link.Full?
          || (s.entries.at[id].queueClass.RegionalSafety? && !link.Isolated?))
  {
    FlushDeliversInOrder(s, link, now);
  }

  /** What stays is exactly what is neither expired nor permitted: no critical entry waits behind the link,
      and a full connection empties the store. */
  lemma FlushLeavesOnlyBlocked(s: Store, link: Connectivity, now: real)
    requires s.entries.Ok()
    ensures
      var r := Flush(s, link, now);
      && (forall id :: id in r.entries.at ==> id in s.entries.at && r.entries.at[id] == s.entries.at[id])
      && (forall id :: id in s.entries.at ==>
            (id in r.entries.at <==> !Expired(s.entries.at[id], now) && !Eligible(s.entries.at[id].queueClass, link)))
      && (forall id :: id in r.entries.at ==> r.entries.at[id].queueClass != CriticalLocal)
      && (link.Full? ==> r.entries.keys == [])
  {
    var r := Flush(s, link, now);
    s.entries.KeepOk(Pending(s) - (ExpiredIds(s, now) + ForwardableIds(s, link, now)));
    if link.Full? {
      DistinctSize(r.entries.keys, {});
    }
  }

  // ---------------------------------------------------------------- latest version

  /** The newest message with this key, the earlier of two equally new ones. */
  function Newest(ms: seq<(Message, QueueClass)>, k: Key): Option<(Message, QueueClass)> {
    if ms == [] then None
    else
      var last := ms[|ms| - 1];
      var before := Newest(ms[..|ms| - 1], k);
      if last.0.key == k && (before.None? || last.0.timestamp > before.value.0.timestamp) then Some(last) else before
  }

  /** The i-th message is the first of the newest with its key. */
  ghost predicate NewestAt(ms: seq<(Message, QueueClass)>, k: Key, i: nat) {
    && i < |ms| && ms[i].0.key == k
    && forall j :: 0 <= j < |ms| && ms[j].0.key == k ==>
         if j < i then ms[j].0.timestamp < ms[i].0.timestamp else ms[j].0.timestamp <= ms[i].0.timestamp
  }

  lemma {:induction false} NewestIsNewest(ms: seq<(Message, QueueClass)>, k: Key)
    ensures Newest(ms, k).None? <==> forall m :: m in ms ==> m.0.key != k
    ensures Newest(ms, k).Some? ==> exists i: nat :: NewestAt(ms, k, i) && ms[i] == Newest(ms, k).value
  {
    if ms != [] {
      var n := |ms| - 1;
      NewestIsNewest(ms[..n], k);
      assert ms == ms[..n] + [ms[n]];
      if Newest(ms[..n], k).Some? {
        var i: nat :| NewestAt(ms[..n], k, i) && ms[i] == Newest(ms[..n], k).value;
        assert if ms[n].0.key == k && ms[n].0.timestamp > ms[i].0.timestamp then NewestAt(ms, k, n)
            else NewestAt(ms, k, i);
      } else if ms[n].0.key == k {
        assert NewestAt(ms, k, n);
      }
    }
  }

  /** Messages stored one after the other, each with its own fresh entry id. */
  function StoreAll(s: Store, ms: seq<(Message, QueueClass)>, now: real, ids: seq<nat>): Store
    requires |ids| == |ms|
  {
    if ms == [] then s
    else
      var n := |ms| - 1;
      Put(StoreAll(s, ms[..n], now, ids[..n]), ms[n].0, ms[n].1, now, ids[n])
  }

  ghost predicate HoldsNewest(s: Store, ms: seq<(Message, QueueClass)>, k: Key) {
    match Newest(ms, k)
    case None => k !in s.seen
    case Some((m, c)) => k in s.seen && s.seen[k] in s.entries.at
                         && s.entries.at[s.seen[k]].message == m && s.entries.at[s.seen[k]].queueClass == c
  }

  /** However many versions of a message are stored, exactly the newest is pending, with its class. */
  lemma {:induction false} PendingIsNewest(ms: seq<(Message, QueueClass)>, now: real, ids: seq<nat>)
    requires |ids| == |ms| && Distinct(ids)
    ensures
      var s := StoreAll(EMPTY_STORE, ms, now, ids);
      Valid(s) && (forall id :: id in s.entries.at ==> id in ids) && forall k :: HoldsNewest(s, ms, k)
  {
    if ms != [] {
      var n := |ms| - 1;
      PendingIsNewest(ms[..n], now, ids[..n]);
      var s := StoreAll(EMPTY_STORE, ms[..n], now, ids[..n]);
      assert ids[n] !in ids[..n];
      PutKeepsInvariant(s, ms[n].0, ms[n].1, now, ids[n]);
      forall k
        ensures HoldsNewest(Put(s, ms[n].0, ms[n].1, now, ids[n]), ms, k)
      {
        PutHoldsNewest(s, ms, now, ids[n], k);
      }
    }
  }

  lemma PutHoldsNewest(s: Store, ms: seq<(Message, QueueClass)>, now: real, id: nat, k: Key)
    requires ms != [] && Valid(s) && id !in s.entries.at
    requires HoldsNewest(s, ms[..|ms| - 1], k) && HoldsNewest(s, ms[..|ms| - 1], ms[|ms| - 1].0.key)
    ensures HoldsNewest(Put(s, ms[|ms| - 1].0, ms[|ms| - 1].1, now, id), ms, k)
  {
    var m, c := ms[|ms| - 1].0, ms[|ms| - 1].1;
    if k == m.key {
      PutLatest(s, Newest(ms[..|ms| - 1], k), m, c, now, id);
    } else {
      PutKeepsOthers(s, m, c, now, id, k);
    }
  }

  lemma PutKeepsOthers(s: Store, m: Message, c: QueueClass, now: real, id: nat, k: Key)
    requires Valid(s) && id !in s.entries.at && k != m.key
    ensures
      var r := Put(s, m, c, now, id);
      if k in s.seen then k in r.seen && r.seen[k] == s.seen[k] && s.seen[k] in r.entries.at
          && r.entries.at[s.seen[k]] == s.entries.at[s.seen[k]]
      else k !in r.seen
  {
  }

  lemma PutLatest(s: Store, before: Option<(Message, QueueClass)>, m: Message, c: QueueClass, now: real, id: nat)
    requires Valid(s) && id !in s.entries.at
    requires before.Some? <==> m.key in s.seen
    requires before.Some? ==>
               s.entries.at[s.seen[m.key]].message == before.value.0
               && s.entries.at[s.seen[m.key]].queueClass == before.value.1
    ensures
      var r := Put(s, m, c, now, id);
      var newest := if before.None? || m.timestamp > before.value.0.timestamp then (m, c) else before.value;
      m.key in r.seen && r.seen[m.key] in r.entries.at
      && r.entries.at[r.seen[m.key]].message == newest.0 && r.entries.at[r.seen[m.key]].queueClass == newest.1
  {
  }

  // ---------------------------------------------------------------- what is pending over runs

  /** The versions of a message that wait after one more step: it leaves with a flush that finds its newest version
      expired or permitted, and with a clean-up that finds it expired. */
  function WaitingNext(before: seq<(Message, QueueClass)>, op: Op, now: real, k: Key): seq<(Message, QueueClass)> {
    var newest := Newest(before, k);
    match op
    case StoreOp(m, c, _) => if m.key == k then before + [(m, c)] else before
    case FlushOp(link) =>
      if newest.Some? && (Past(newest.value.0, now) || Eligible(newest.value.1, link)) then [] else before
    case CleanupOp => if newest.Some? && Past(newest.value.0, now) then [] else before
  }

  /** The versions of a message stored since it last left the store. */
  function Waiting(ops: seq<(Op, real)>, k: Key): seq<(Message, QueueClass)> {
    if ops == [] then []
    else
      var last := ops[|ops| - 1];
      WaitingNext(Waiting(ops[..|ops| - 1], k), last.0, last.1, k)
  }

  lemma {:induction false} RunSnoc(s: Store, ops: seq<(Op, real)>)
    requires ops != []
    ensures Run(s, ops) == Step(Run(s, ops[..|ops| - 1]), ops[|ops| - 1].0, ops[|ops| - 1].1)
    ensures FreshIds(s, ops) ==> FreshIds(s, ops[..|ops| - 1])
    ensures FreshIds(s, ops) && ops[|ops| - 1].0.StoreOp? ==>
              ops[|ops| - 1].0.id !in Run(s, ops[..|ops| - 1]).entries.at
    decreases |ops|
  {
    var next := Step(s, ops[0].0, ops[0].1);
    if |ops| == 1 {
      assert ops[1..] == [] && ops[..0] == [];
    } else {
      RunSnoc(next, ops[1..]);
      assert ops[1..][..|ops| - 2] == ops[..|ops| - 1][1..];
    }
  }

  /** Removing entries takes exactly their keys out of the index. */
  lemma RemovedHolds(s: Store, gone: set<nat>, ms: seq<(Message, QueueClass)>, k: Key)
    requires Valid(s) && HoldsNewest(s, ms, k)
    ensures HoldsNewest(Removed(s, gone), if k in s.seen && s.seen[k] in gone then [] else ms, k)
  {
  }

  lemma StepHolds(s: Store, op: Op, now: real, ms: seq<(Message, QueueClass)>, k: Key)
    requires Valid(s) && HoldsNewest(s, ms, k) && (op.StoreOp? ==> op.id !in s.entries.at)
    ensures HoldsNewest(Step(s, op, now), WaitingNext(ms, op, now, k), k)
  {
    match op
    case StoreOp(m, c, id) =>
      if m.key == k {
        assert (ms + [(m, c)])[..|ms|] == ms;
        PutLatest(s, Newest(ms, k), m, c, now, id);
      } else {
        PutKeepsOthers(s, m, c, now, id, k);
      }
    case FlushOp(link) => RemovedHolds(s, ExpiredIds(s, now) + ForwardableIds(s, link, now), ms, k);
    case CleanupOp => RemovedHolds(s, ExpiredIds(s, now), ms, k);
  }

  /** Over any run of stores, flushes and clean-ups, what is pending of a message is the newest of the versions stored
      since it last left, with its class, and nothing if there is none; other messages make no difference. */
  lemma {:induction false} PendingOverRuns(ops: seq<(Op, real)>, k: Key)
    requires FreshIds(EMPTY_STORE, ops)
    ensures Valid(Run(EMPTY_STORE, ops)) && HoldsNewest(Run(EMPTY_STORE, ops), Waiting(ops, k), k)
  {
    if ops == [] {
      EmptyIsValid();
    } else {
      var n := |ops| - 1;
      var s := Run(EMPTY_STORE, ops[..n]);
      RunSnoc(EMPTY_STORE, ops);
      PendingOverRuns(ops[..n], k);
      StepKeepsInvariant(s, ops[n].0, ops[n].1);
      StepHolds(s, ops[n].0, ops[n].1, Waiting(ops[..n], k), k);
    }
  }

  /** A flush after any run delivers of each message exactly that version, if it is neither expired nor blocked. */
  lemma FlushDeliversNewest(ops: seq<(Op, real)>, link: Connectivity, now: real, m: Message)
    requires FreshIds(EMPTY_STORE, ops)
    ensures forall id :: id in Forwarded(Run(EMPTY_STORE, ops), link, now) ==> id in Run(EMPTY_STORE, ops).entries.at
    ensures
      var s := Run(EMPTY_STORE, ops);
      var newest := Newest(Waiting(ops, m.key), m.key);
      m in MessagesOf(s, Forwarded(s, link, now)) <==>
      newest.Some? && newest.value.0 == m && !Past(m, now) && Eligible(newest.value.1, link)
  {
    var s := Run(EMPTY_STORE, ops);
    PendingOverRuns(ops, m.key);
    FlushDeliversInOrder(s, link, now);
    DeliveredIff(s, link, now, m);
  }

  lemma DeliveredIff(s: Store, link: Connectivity, now: real, m: Message)
    requires Valid(s)
    requires forall id :: id in Forwarded(s, link, now) <==> id in ForwardableIds(s, link, now)
    ensures m in MessagesOf(s, Forwarded(s, link, now)) <==>
            m.key in s.seen && s.entries.at[s.seen[m.key]].message == m && s.seen[m.key] in ForwardableIds(s, link, now)
  {
    var ids := Forwarded(s, link, now);
    if m in MessagesOf(s, ids) {
      var i :| 0 <= i < |ids| && s.entries.at[ids[i]].message == m;
      assert ids[i] in ids;
    }
    if m.key in s.seen && s.entries.at[s.seen[m.key]].message == m && s.seen[m.key] in ForwardableIds(s, link, now) {
      assert s.seen[m.key] in ids;
      var i :| 0 <= i < |ids| && ids[i] == s.seen[m.key];
      assert MessagesOf(s, ids)[i] == m;
    }
  }

  // ---------------------------------------------------------------- the manager

  /** Dropping entries one by one is the same as keeping the others. */
  lemma {:induction false} OnlyWithout(s: seq<nat>, keep: set<nat>, x: nat)
    ensures Without(Only(s, keep), x) == Only(s, keep - {x})
  {
    if s != [] {
      OnlyWithout(s[1..], keep, x);
    }
  }

  lemma {:induction false} OnlyAll(s: seq<nat>, keep: set<nat>)
    requires forall x :: x in s ==> x in keep
    ensures Only(s, keep) == s
  {
    if s != [] {
      OnlyAll(s[1..], keep);
    }
  }

  lemma RemovedNone(s: Store)
    requires s.entries.Ok()
    ensures Removed(s, {}) == s
  {
    OnlyAll(s.entries.keys, Pending(s) - {});
    assert Removed(s, {}).entries.at == s.entries.at;
    assert Removed(s, {}).seen == s.seen;
  }

  ghost function IdSet(ids: seq<nat>): set<nat> {
    set id | id in ids
  }

  lemma IdSetSnoc(ids: seq<nat>, k: nat)
    requires k < |ids| && Distinct(ids)
    ensures IdSet(ids[..k + 1]) == IdSet(ids[..k]) + {ids[k]} && ids[k] !in IdSet(ids[..k])
  {
  }

  /** Removing one more entry, as the code does: out of the table, and its key out of the index. */
  lemma RemovedOneMore(s: Store, gone: set<nat>, id: nat)
    requires Indexed(s) && id in s.entries.at && id !in gone
    ensures
      var r := Removed(s, gone);
      id in r.entries.at && r.entries.at[id] == s.entries.at[id]
      && r.(entries := r.entries.Drop(id), seen := r.seen - {s.entries.at[id].message.key}) == Removed(s, gone + {id})
  {
    var r, r' := Removed(s, gone), Removed(s, gone + {id});
    OnlyWithout(s.entries.keys, Pending(s) - gone, id);
    assert Pending(s) - gone - {id} == Pending(s) - (gone + {id});
    assert r.entries.at - {id} == r'.entries.at;
    assert r.seen - {s.entries.at[id].message.key} == r'.seen;
  }

  lemma FlushLists(s: Store, link: Connectivity, now: real)
    requires s.entries.Ok()
    ensures
      var toRemove := Only(Ranked(s), ExpiredIds(s, now) + ForwardableIds(s, link, now));
      && Distinct(toRemove) && IdSet(toRemove) == ExpiredIds(s, now) + ForwardableIds(s, link, now)
      && (forall id :: id in toRemove ==> id in s.entries.at) && (forall id :: id in Ranked(s) ==> id in s.entries.at)
      && |Only(Ranked(s), ExpiredIds(s, now))| == |ExpiredIds(s, now)|
      && |Forwarded(s, link, now)| == |ForwardableIds(s, link, now)|
  {
    RankedIsInOrder(s);
    OnlyMembers(Ranked(s), ExpiredIds(s, now) + ForwardableIds(s, link, now));
    OnlyMembers(Ranked(s), ExpiredIds(s, now));
    DistinctSize(Only(Ranked(s), ExpiredIds(s, now)), ExpiredIds(s, now));
    FlushDeliversInOrder(s, link, now);
  }

  function Counted(s: Store, link: Connectivity, now: real): Store {
    s.(expired := s.expired + |ExpiredIds(s, now)|, forwarded := s.forwarded + |ForwardableIds(s, link, now)|)
  }

  lemma CountedKeepsIndex(s: Store, link: Connectivity, now: real)
    requires Indexed(s)
    ensures Indexed(Counted(s, link, now))
  {
  }

  /** Counting first and removing afterwards is the flush. */
  lemma FlushIs(s: Store, link: Connectivity, now: real)
    ensures Removed(Counted(s, link, now), ExpiredIds(s, now) + ForwardableIds(s, link, now)) == Flush(s, link, now)
  {
  }

  class StoreForwardManager {
    var entries: Dict<nat, Entry>
    var seen: map<Key, nat>
    var totalStored: nat
    var totalForwarded: nat
    var totalExpired: nat

    ghost function Model(): Store
      reads this
    {
      Store(entries, seen, totalStored, totalForwarded, totalExpired)
    }

    constructor ()
      ensures Model() == EMPTY_STORE && Valid(Model())
    {
      entries, seen, totalStored, totalForwarded, totalExpired := EmptyDict(), map[], 0, 0, 0;
    }

    method StoreMessage(m: Message, c: QueueClass, now: real, freshId: nat) returns (id: nat)
      requires Valid(Model()) && freshId !in entries.at
      modifies this
      ensures Valid(Model()) && Model() == Put(old(Model()), m, c, now, freshId)
      ensures id in entries.at && entries.at[id].message.key == m.key
    {
      PutKeepsInvariant(Model(), m, c, now, freshId);
      if m.key in seen && seen[m.key] in entries.at {
        id := seen[m.key];
        var existing := entries.at[id];
        if m.timestamp > existing.message.timestamp {
          entries := entries.Put(id, existing.(message := m, queueClass := c, retries := 0));
        }
        return;
      }
      id := freshId;
      entries := entries.Put(id, Entry(m, c, now, 0));
      seen := seen[m.key := id];
      totalStored := totalStored + 1;
    }

    /** `sorted` by class: a stable sort, here by distribution. */
    method SortedIds() returns (ids: seq<nat>)
      requires entries.Ok()
      ensures ids == Ranked(Model())
    {
      var critical, regional, analytics: seq<nat> := [], [], [];
      ghost var keys, s := entries.keys, Model();
      for k := 0 to |entries.keys|
        invariant critical == Only(keys[..k], OfClass(s, CriticalLocal))
        invariant regional == Only(keys[..k], OfClass(s, RegionalSafety))
        invariant analytics == Only(keys[..k], OfClass(s, Analytics))
      {
        var id := entries.keys[k];
        assert id in keys;
        OnlySnoc(keys, OfClass(s, CriticalLocal), k);
        OnlySnoc(keys, OfClass(s, RegionalSafety), k);
        OnlySnoc(keys, OfClass(s, Analytics), k);
        match entries.at[id].queueClass
        case CriticalLocal => critical := critical + [id];
        case RegionalSafety => regional := regional + [id];
        case Analytics => analytics := analytics + [id];
      }
      assert keys[..|keys|] == keys;
      ids := critical + regional + analytics;
    }

    /** Takes the listed entries out of the table and their keys out of the index. */
    method RemoveEntries(toRemove: seq<nat>)
      requires entries.Ok() && Indexed(Model())
      requires Distinct(toRemove) && forall id :: id in toRemove ==> id in entries.at
      modifies this`entries, this`seen
      ensures Model() == Removed(old(Model()), IdSet(toRemove))
    {
      ghost var s := Model();
      RemovedNone(s);
      assert IdSet(toRemove[..0]) == {};
      for k := 0 to |toRemove|
        invariant Model() == Removed(s, IdSet(toRemove[..k]))
      {
        IdSetSnoc(toRemove, k);
        RemovedOneMore(s, IdSet(toRemove[..k]), toRemove[k]);
        RemoveEntry(toRemove[k]);
      }
      assert toRemove[..|toRemove|] == toRemove;
    }

    method RemoveEntry(id: nat)
      modifies this`entries, this`seen
      ensures Model() == if id in old(entries).at
                         then old(Model()).(entries := old(entries).Drop(id),
                                            seen := old(seen) - {old(entries).at[id].message.key})
                         else old(Model())
    {
      if id in entries.at {
        var entry := entries.at[id];
        entries := entries.Drop(id);
        seen := seen - {entry.message.key};
      }
    }

    /** The first loop of `flush`: counts, and lists what is delivered and what leaves. */
    method Select(ids: seq<nat>, link: Connectivity, now: real) returns (delivered: seq<Message>, toRemove: seq<nat>)
      requires forall id :: id in ids ==> id in entries.at
      modifies this`totalExpired, this`totalForwarded
      ensures toRemove == Only(ids, ExpiredIds(old(Model()), now) + ForwardableIds(old(Model()), link, now))
      ensures (forall id :: id in Only(ids, ForwardableIds(old(Model()), link, now)) ==> id in entries.at)
              && delivered == MessagesOf(old(Model()), Only(ids, ForwardableIds(old(Model()), link, now)))
      ensures totalExpired == old(totalExpired) + |Only(ids, ExpiredIds(old(Model()), now))|
      ensures totalForwarded == old(totalForwarded) + |Only(ids, ForwardableIds(old(Model()), link, now))|
    {
      ghost var s := Model();
      ghost var expired, permitted := ExpiredIds(s, now), ForwardableIds(s, link, now);
      delivered, toRemove := [], [];
      for k := 0 to |ids|
        invariant forall id :: id in Only(ids[..k], permitted) ==> id in s.entries.at
        invariant toRemove == Only(ids[..k], expired + permitted)
        invariant delivered == MessagesOf(s, Only(ids[..k], permitted))
        invariant totalExpired == s.expired + |Only(ids[..k], expired)|
        invariant totalForwarded == s.forwarded + |Only(ids[..k], permitted)|
      {
        var id := ids[k];
        assert id in ids;
        OnlySnoc(ids, expired + permitted, k);
        OnlySnoc(ids, expired, k);
        OnlySnoc(ids, permitted, k);
        var entry := entries.at[id];
        if Expired(entry, now) {
          toRemove := toRemove + [id];
          totalExpired := totalExpired + 1;
          continue;
        }
        if Eligible(entry.queueClass, link) {
          delivered := delivered + [entry.message];
          toRemove := toRemove + [id];
          totalForwarded := totalForwarded + 1;
        }
      }
      assert ids[..|ids|] == ids;
    }

    /** What the first loop does to the counters, and what it lists, in terms of the sets of ids. */
    method SelectAll(link: Connectivity, now: real) returns (delivered: seq<Message>, toRemove: seq<nat>)
      requires entries.Ok()
      modifies this`totalExpired, this`totalForwarded
      ensures Model() == Counted(old(Model()), link, now)
      ensures Distinct(toRemove) && IdSet(toRemove) == ExpiredIds(old(Model()), now)
        + ForwardableIds(old(Model()), link, now)
      ensures forall id :: id in toRemove ==> id in entries.at
      ensures (forall id :: id in Forwarded(old(Model()), link, now) ==> id in entries.at)
              && delivered == MessagesOf(old(Model()), Forwarded(old(Model()), link, now))
    {
      FlushLists(Model(), link, now);
      var ids := SortedIds();
      delivered, toRemove := Select(ids, link, now);
    }

    method FlushMessages(link: Connectivity, now: real) returns (delivered: seq<Message>)
      requires Valid(Model())
      modifies this
      ensures Valid(Model()) && Model() == Flush(old(Model()), link, now)
      ensures (forall id :: id in Forwarded(old(Model()), link, now) ==> id in old(entries).at)
              && delivered == MessagesOf(old(Model()), Forwarded(old(Model()), link, now))
    {
      ghost var s := Model();
      var toRemove;
      delivered, toRemove := SelectAll(link, now);
      CountedKeepsIndex(s, link, now);
      RemoveEntries(toRemove);
      FlushIs(s, link, now);
      StepKeepsInvariant(s, FlushOp(link), now);
    }

    method CleanupExpired(now: real) returns (count: nat)
      requires Valid(Model())
      modifies this
      ensures Valid(Model()) && Model() == Cleanup(old(Model()), now) && count == |ExpiredIds(old(Model()), now)|
    {
      ghost var s := Model();
      StepKeepsInvariant(s, CleanupOp, now);
      var expired: seq<nat> := [];
      for k := 0 to |entries.keys|
        invariant Model() == s && expired == Only(s.entries.keys[..k], ExpiredIds(s, now))
      {
        var id := entries.keys[k];
        assert id in s.entries.keys;
        OnlySnoc(s.entries.keys, ExpiredIds(s, now), k);
        if Expired(entries.at[id], now) {
          expired := expired + [id];
        }
      }
      assert s.entries.keys[..|s.entries.keys|] == s.entries.keys;
      OnlyMembers(s.entries.keys, ExpiredIds(s, now));
      DistinctSize(expired, ExpiredIds(s, now));
      assert IdSet(expired) == ExpiredIds(s, now);
      RemoveEntries(expired);
      totalExpired := totalExpired + |expired|;
      count := |expired|;
      assert Model() == Cleanup(s, now);
    }
  }
}
