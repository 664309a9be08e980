/** The bandwidth limiter of the network model: a token bucket refilled by elapsed time. */
module TokenBucket {
  import opened Basics

  /** Tokens gained over a span of time. */
  function Gain(rate: real): real -> real {
    span => span * rate
  }

  datatype Bucket = Bucket(gain: real -> real, capacity: real, tokens: real, lastRefill: real) {
    ghost predicate Valid() {
      Steady(gain) && 0.0 <= tokens <= capacity
    }
  }

  ghost predicate Splits(gain: real -> real, a: real, b: real, c: real) {
    0.0 <= gain(b - a) && 0.0 <= gain(c - b) && gain(b - a) + gain(c - b) == gain(c - a)
  }

  /** A span's gain is the sum of its parts' gains. */
  ghost predicate Steady(gain: real -> real) {
    forall a, b, c {:trigger Splits(gain, a, b, c)} :: a <= b <= c ==> Splits(gain, a, b, c)
  }

  lemma RateIsSteady(rate: real)
    requires 0.0 <= rate
    ensures Steady(Gain(rate))
  {
    forall a, b, c | a <= b <= c
      ensures Splits(Gain(rate), a, b, c)
    {
      assert (c - a) * rate == (b - a) * rate + (c - b) * rate;
    }
  }

  datatype Request = Request(time: real, size: real)

  function Refilled(b: Bucket, now: real): real {
    MinReal(b.capacity, b.tokens + b.gain(now - b.lastRefill))
  }

  predicate Accepts(b: Bucket, r: Request) {
    Refilled(b, r.time) >= r.size
  }

  function Consume(b: Bucket, r: Request): Bucket {
    b.(tokens := Refilled(b, r.time) - Taken(b, r), lastRefill := r.time)
  }

  function Taken(b: Bucket, r: Request): real {
    if Accepts(b, r) then r.size else 0.0
  }

  function After(b: Bucket, requests: seq<Request>): Bucket
    decreases |requests|
  {
    if requests == [] then b else After(Consume(b, requests[0]), requests[1..])
  }

  /** Times never go back and sizes are not negative. */
  ghost predicate Admissible(requests: seq<Request>, since: real) {
    requests == [] || (since <= requests[0].time && 0.0 <= requests[0].size
                       && Admissible(requests[1..], requests[0].time))
  }

  /** Bytes accepted from the i-th request on. */
  function AcceptedFrom(b: Bucket, requests: seq<Request>, i: nat): real
    decreases |requests|
  {
    if requests == [] then 0.0
    else (if i == 0 then Taken(b, requests[0]) else 0.0)
         + AcceptedFrom(Consume(b, requests[0]), requests[1..], if i == 0 then 0 else i - 1)
  }

  /** Bytes accepted between two times, both included. */
  function AcceptedBetween(b: Bucket, requests: seq<Request>, from: real, to: real): real
    decreases |requests|
  {
    if requests == [] then 0.0
    else (if from <= requests[0].time <= to then Taken(b, requests[0]) else 0.0)
         + AcceptedBetween(Consume(b, requests[0]), requests[1..], from, to)
  }

  /** One request keeps the tokens between zero and the capacity. */
  lemma ConsumeKeepsValid(b: Bucket, r: Request)
    requires b.Valid() && b.lastRefill <= r.time && 0.0 <= r.size
    ensures Consume(b, r).Valid()
  {
    assert Splits(b.gain, b.lastRefill, r.time, r.time);
  }

  lemma {:induction false} TokensStayInRange(b: Bucket, requests: seq<Request>)
    requires b.Valid() && Admissible(requests, b.lastRefill)
    ensures After(b, requests).Valid()
    decreases |requests|
  {
    if requests != [] {
      ConsumeKeepsValid(b, requests[0]);
      TokensStayInRange(Consume(b, requests[0]), requests[1..]);
    }
  }

  // ---------------------------------------------------------------- upper bound

  lemma {:induction false} NoneAcceptedLater(b: Bucket, requests: seq<Request>, from: real, to: real)
    requires Admissible(requests, to)
    requires requests != [] ==> to < requests[0].time
    ensures AcceptedBetween(b, requests, from, to) == 0.0
    decreases |requests|
  {
    if requests != [] {
      NoneAcceptedLater(Consume(b, requests[0]), requests[1..], from, to) by {
        AdmissibleEarlier(requests[1..], requests[0].time, to);
      }
    }
  }

  lemma AdmissibleEarlier(requests: seq<Request>, since: real, earlier: real)
    requires Admissible(requests, since) && earlier <= since
    ensures Admissible(requests, earlier)
  {
  }

  /** What is accepted until `to` fits in the tokens at hand plus the refill. */
  lemma {:induction false} AcceptedFitsTokens(b: Bucket, requests: seq<Request>, from: real, to: real)
    requires b.Valid() && Admissible(requests, b.lastRefill) && b.lastRefill <= to
    ensures AcceptedBetween(b, requests, from, to) <= b.tokens + b.gain(to - b.lastRefill)
    decreases |requests|
  {
    assert Splits(b.gain, b.lastRefill, to, to);
    if requests != [] {
      var r := requests[0];
      if r.time <= to {
        ConsumeKeepsValid(b, r);
        AcceptedFitsTokens(Consume(b, r), requests[1..], from, to);
        assert Splits(b.gain, b.lastRefill, r.time, to);
      } else {
        AdmissibleEarlier(requests, b.lastRefill, b.lastRefill);
        NoneAcceptedLater(b, requests, from, to) by {
          assert Admissible(requests, to);
        }
      }
    }
  }

  lemma {:induction false} GainBound(b: Bucket, requests: seq<Request>, from: real, to: real)
    requires b.Valid() && Admissible(requests, b.lastRefill) && from <= to
    ensures AcceptedBetween(b, requests, from, to) <= b.capacity + b.gain(to - from)
    decreases |requests|
  {
    assert Splits(b.gain, from, to, to);
    if requests != [] {
      var r := requests[0];
      if r.time < from {
        ConsumeKeepsValid(b, r);
        GainBound(Consume(b, r), requests[1..], from, to);
      } else if r.time <= to {
        ConsumeKeepsValid(b, r);
        AcceptedFitsTokens(Consume(b, r), requests[1..], from, to);
        assert Splits(b.gain, from, r.time, to);
      } else {
        NoneAcceptedLater(b, requests, from, to);
      }
    }
  }

  lemma FullIsValid(rate: real, capacity: real, start: real)
    requires 0.0 <= rate && 0.0 <= capacity
    ensures Bucket(Gain(rate), capacity, capacity, start).Valid()
  {
    RateIsSteady(rate);
  }

  lemma RunBound(b: Bucket, requests: seq<Request>, from: real, to: real)
    requires b.Valid() && Admissible(requests, b.lastRefill) && from <= to
    ensures AcceptedBetween(b, requests, from, to) <= b.capacity + b.gain(to - from)
    ensures 0.0 <= After(b, requests).tokens <= b.capacity
  {
    GainBound(b, requests, from, to);
    TokensStayInRange(b, requests);
    KeepsSettings(b, requests);
  }

  lemma GainIsRate(rate: real, elapsed: real)
    ensures Gain(rate)(elapsed) == rate * elapsed
  {
  }

  /** No more than the capacity and what the rate refills in the elapsed time. */
  ghost predicate WithinBudget(accepted: real, capacity: real, rate: real, elapsed: real) {
    accepted <= capacity + rate * elapsed
  }

  /** Over any run, between any two times the bucket accepts at most its capacity plus the rate times the
      elapsed time, and its tokens stay between zero and the capacity. */
  lemma RateBound(rate: real, capacity: real, start: real, requests: seq<Request>, from: real, to: real)
    requires 0.0 <= rate && 0.0 <= capacity && Admissible(requests, start) && from <= to
    ensures
      var full := Bucket(Gain(rate), capacity, capacity, start);
      && WithinBudget(AcceptedBetween(full, requests, from, to), capacity, rate, to - from)
      && 0.0 <= After(full, requests).tokens <= capacity
  {
    var full := Bucket(Gain(rate), capacity, capacity, start);
    FullIsValid(rate, capacity, start);
    RunBound(full, requests, from, to);
    GainIsRate(rate, to - from);
    WithinRate(AcceptedBetween(full, requests, from, to), capacity, Gain(rate)(to - from), rate, to - from);
  }

  lemma WithinRate(accepted: real, capacity: real, gained: real, rate: real, elapsed: real)
    requires accepted <= capacity + gained && gained == rate * elapsed
    ensures WithinBudget(accepted, capacity, rate, elapsed)
  {
  }

  lemma {:induction false} KeepsSettings(b: Bucket, requests: seq<Request>)
    ensures After(b, requests).capacity == b.capacity && After(b, requests).gain == b.gain
    decreases |requests|
  {
    if requests != [] {
      KeepsSettings(Consume(b, requests[0]), requests[1..]);
    }
  }

  // ---------------------------------------------------------------- exactness

  /** Room that a window opened by the i-th request, or now, leaves at `now`. */
  function WindowRoom(b: Bucket, requests: seq<Request>, i: nat, now: real): real
    requires i <= |requests|
  {
    var start := if i < |requests| then requests[i].time else now;
    b.capacity + b.gain(now - start) - AcceptedFrom(b, requests, i)
  }

  ghost predicate FitsEveryWindow(b: Bucket, requests: seq<Request>, r: Request) {
    forall i: nat :: i <= |requests| ==> r.size <= WindowRoom(b, requests, i, r.time)
  }

  lemma WindowAfterFirst(b: Bucket, requests: seq<Request>, i: nat, now: real)
    requires requests != [] && 0 < i <= |requests|
    ensures WindowRoom(b, requests, i, now) == WindowRoom(Consume(b, requests[0]), requests[1..], i - 1, now)
  {
  }

  lemma {:induction false} AcceptedIff(b: Bucket, requests: seq<Request>, r: Request)
    requires b.Valid() && Admissible(requests + [r], b.lastRefill)
    ensures Accepts(After(b, requests), r) <==>
              && r.size <= b.tokens + b.gain(r.time - b.lastRefill) - AcceptedFrom(b, requests, 0)
              && FitsEveryWindow(b, requests, r)
    decreases |requests|
  {
    if requests == [] {
      assert Splits(b.gain, r.time, r.time, r.time);
      assert WindowRoom(b, requests, 0, r.time) == b.capacity;
    } else {
      var first := requests[0];
      var b' := Consume(b, first);
      assert (requests + [r])[1..] == requests[1..] + [r];
      ConsumeKeepsValid(b, first);
      AcceptedIff(b', requests[1..], r);
      LastIsLate(requests[1..], r, first.time);
      assert Splits(b.gain, b.lastRefill, first.time, r.time);
      assert FitsEveryWindow(b, requests, r) <==>
          r.size <= WindowRoom(b, requests, 0, r.time) && FitsEveryWindow(b', requests[1..], r) by {
        forall i: nat | 0 < i <= |requests|
          ensures WindowRoom(b, requests, i, r.time) == WindowRoom(b', requests[1..], i - 1, r.time)
        {
          WindowAfterFirst(b, requests, i, r.time);
        }
        forall i: nat | i <= |requests[1..]|
          ensures WindowRoom(b', requests[1..], i, r.time) == WindowRoom(b, requests, i + 1, r.time)
        {
          WindowAfterFirst(b, requests, i + 1, r.time);
        }
      }
    }
  }

  lemma {:induction false} LastIsLate(requests: seq<Request>, r: Request, since: real)
    requires Admissible(requests + [r], since)
    ensures since <= r.time
  {
    if requests != [] {
      assert (requests + [r])[1..] == requests[1..] + [r];
      LastIsLate(requests[1..], r, requests[0].time);
    }
  }

  /** From a full bucket the limiter is exact: it refuses a request if and only if accepting it would push
      some window ending now over capacity plus rate times its length. */
  lemma RefusesOnlyOverrun(rate: real, capacity: real, start: real, requests: seq<Request>, r: Request)
    requires 0.0 <= rate && 0.0 <= capacity && Admissible(requests + [r], start)
    ensures
      var full := Bucket(Gain(rate), capacity, capacity, start);
      Accepts(After(full, requests), r) <==> FitsEveryWindow(full, requests, r)
  {
    var full := Bucket(Gain(rate), capacity, capacity, start);
    RateIsSteady(rate);
    AcceptedIff(full, requests, r);
    FirstWindowIsTightest(full, requests, r);
  }

  /** Before the first request a full bucket gains nothing. */
  lemma FirstWindowIsTightest(full: Bucket, requests: seq<Request>, r: Request)
    requires full.Valid() && full.tokens == full.capacity && Admissible(requests + [r], full.lastRefill)
    ensures WindowRoom(full, requests, 0, r.time)
            <= full.tokens + full.gain(r.time - full.lastRefill) - AcceptedFrom(full, requests, 0)
  {
    LastIsLate(requests, r, full.lastRefill);
    if requests == [] {
      assert Splits(full.gain, full.lastRefill, r.time, r.time);
    } else {
      assert (requests + [r])[1..] == requests[1..] + [r];
      LastIsLate(requests[1..], r, requests[0].time);
      assert Splits(full.gain, full.lastRefill, requests[0].time, r.time);
    }
  }

  class Limiter {
    const rate: real
    const capacity: real
    var tokens: real
    var lastRefill: real

    ghost function Model(): Bucket
      reads this
    {
      Bucket(Gain(rate), capacity, tokens, lastRefill)
    }

    constructor (rate: real, capacity: real, now: real)
      ensures Model() == Bucket(Gain(rate), capacity, capacity, now)
    {
      this.rate, this.capacity := rate, capacity;
      tokens, lastRefill := capacity, now;
    }

    method TryConsume(size: real, now: real) returns (allowed: bool)
      modifies this`tokens, this`lastRefill
      ensures Model() == Consume(old(Model()), Request(now, size))
        && allowed == Accepts(old(Model()), Request(now, size))
    {
      var elapsed := now - lastRefill;
      tokens := MinReal(capacity, tokens + elapsed * rate);
      lastRefill := now;
      if tokens >= size {
        tokens := tokens - size;
        return true;
      }
      return false;
    }
  }
}
