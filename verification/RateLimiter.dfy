/**
 * The token bucket of api_common.c over the reals: time in milliseconds, a tolerance of 1e-9
 * in the comparison that never adds up.
 */
module RateLimiter {
  const SLACK: real := 0.000000001

  datatype Bucket = Bucket(capacity: real, tokens: real, rate: real, last: int)

  datatype Call = Call(cost: real, now: int)

  function Refilled(b: Bucket, now: int): Bucket {
    if now > b.last && b.rate > 0.0 then
      var tokens := b.tokens + (now - b.last) as real / 1000.0 * b.rate;
      b.(tokens := if tokens > b.capacity then b.capacity else tokens, last := now)
    else b
  }

  predicate Allows(b: Bucket, c: Call) {
    c.cost > 0.0 && Refilled(b, c.now).tokens + SLACK >= c.cost
  }

  /** The bucket after a call. */
  function After(b: Bucket, c: Call): Bucket {
    if c.cost <= 0.0 then b
    else
      var r := Refilled(b, c.now);
      if Allows(b, c) then r.(tokens := r.tokens - c.cost) else r
  }

  predicate Ok(b: Bucket) {
    b.capacity > 0.0 && b.rate >= 0.0 && -SLACK <= b.tokens <= b.capacity
  }

  class Limiter {
    var bucket: Bucket

    constructor (capacity: real, rate: real, now: int)
      ensures Ok(bucket) && bucket.last == now && bucket.tokens == bucket.capacity
      ensures bucket.capacity == (if capacity > 0.0 then capacity else 1.0) && bucket.rate == (if rate > 0.0 then rate else 0.0)
    {
      var c := if capacity > 0.0 then capacity else 1.0;
      bucket := Bucket(c, c, if rate > 0.0 then rate else 0.0, now);
    }

    /** gateway_rate_limiter_allow. */
    method Allow(cost: real, now: int) returns (ok: bool)
      requires Ok(bucket)
      modifies this
      ensures Ok(bucket) && ok == Allows(old(bucket), Call(cost, now)) && bucket == After(old(bucket), Call(cost, now))
    {
      AfterKeeps(bucket, Call(cost, now));
      if cost <= 0.0 {
        return false;
      }
      if now > bucket.last && bucket.rate > 0.0 {
        var elapsed := (now - bucket.last) as real / 1000.0;
        bucket := bucket.(tokens := bucket.tokens + elapsed * bucket.rate);
        if bucket.tokens > bucket.capacity {
          bucket := bucket.(tokens := bucket.capacity);
        }
        bucket := bucket.(last := now);
      }
      if bucket.tokens + SLACK < cost {
        return false;
      }
      bucket := bucket.(tokens := bucket.tokens - cost);
      return true;
    }
  }

  lemma AfterKeeps(b: Bucket, c: Call)
    requires Ok(b)
    ensures Ok(After(b, c))
  {
    RefillKeeps(b, c.now);
  }

  lemma RefillKeeps(b: Bucket, now: int)
    requires Ok(b)
    ensures Ok(Refilled(b, now)) && Refilled(b, now).capacity == b.capacity && Refilled(b, now).rate == b.rate
    ensures b.last <= now ==> Refilled(b, now).tokens <= b.tokens + b.rate * Seconds(b.last, now)
  {
    if now > b.last && b.rate > 0.0 {
      NotNegative(Seconds(b.last, now), b.rate);
      assert (now - b.last) as real / 1000.0 * b.rate == b.rate * Seconds(b.last, now);
    } else if b.last <= now {
      NotNegative(Seconds(b.last, now), b.rate);
    }
  }

  function Seconds(from: int, to: int): real {
    (to - from) as real / 1000.0
  }

  lemma NotNegative(x: real, y: real)
    requires x >= 0.0 && y >= 0.0
    ensures x * y >= 0.0
  {
  }

  /** Calls on a clock that does not run backwards, the first not before `from`. */
  ghost predicate Forward(from: int, calls: seq<Call>) {
    (forall i :: 0 <= i < |calls| ==> from <= calls[i].now)
    && forall i, j :: 0 <= i < j < |calls| ==> calls[i].now <= calls[j].now
  }

  function RunCalls(b: Bucket, calls: seq<Call>): Bucket
    decreases |calls|
  {
    if calls == [] then b else After(RunCalls(b, calls[..|calls| - 1]), calls[|calls| - 1])
  }

  /** The cost granted over the calls. */
  function Granted(b: Bucket, calls: seq<Call>): real
    decreases |calls|
  {
    if calls == [] then 0.0
    else
      var n := |calls| - 1;
      Granted(b, calls[..n]) + if Allows(RunCalls(b, calls[..n]), calls[n]) then calls[n].cost else 0.0
  }

  function Max(a: int, b: int): int {
    if a < b then b else a
  }

  /** What is in the bucket and what it gave out is covered by the first fill and the refills since. */
  ghost predicate Covered(b: Bucket, granted: real, r: Bucket, start: int) {
    && Ok(r) && r.capacity == b.capacity && r.rate == b.rate
    && granted + r.tokens <= b.capacity + b.rate * Seconds(start, Max(r.last, start))
    && (b.rate > 0.0 && r.last < start ==> granted == 0.0)
  }

  lemma {:induction false} Conservation(b: Bucket, calls: seq<Call>, start: int)
    requires Ok(b) && b.last <= start && Forward(start, calls)
    ensures Covered(b, Granted(b, calls), RunCalls(b, calls), start)
    ensures RunCalls(b, calls).last <= if calls == [] then start else calls[|calls| - 1].now
    decreases |calls|
  {
    hide Allows, After, Covered;
    if calls == [] {
      NothingGranted(b, start);
    } else {
      var n := |calls| - 1;
      Conservation(b, calls[..n], start);
      CallConserves(b, Granted(b, calls[..n]), RunCalls(b, calls[..n]), calls[n], start);
    }
  }

  lemma NothingGranted(b: Bucket, start: int)
    requires Ok(b) && b.last <= start
    ensures Covered(b, 0.0, b, start)
  {
    assert b.rate * Seconds(start, start) == 0.0;
  }

  /** One more call: its refill is paid for by the time that passed, or the bucket is full. */
  lemma CallConserves(b: Bucket, granted: real, q: Bucket, c: Call, start: int)
    requires Covered(b, granted, q, start) && q.last <= c.now && start <= c.now
    ensures Covered(b, granted + (if Allows(q, c) then c.cost else 0.0), After(q, c), start)
    ensures After(q, c).last <= c.now
  {
    AfterKeeps(q, c);
    RefillKeeps(q, c.now);
    var r := After(q, c);
    TimeAdds(b.rate, start, Max(q.last, start), Max(r.last, start));
    if b.rate == 0.0 {
      assert r.last == q.last;
    } else if q.last < start {
      NotNegative(b.rate, Seconds(start, Max(r.last, start)));
    }
  }

  lemma TimeAdds(rate: real, a: int, b: int, c: int)
    ensures rate * Seconds(a, b) + rate * Seconds(b, c) == rate * Seconds(a, c)
  {
    assert Seconds(a, b) + Seconds(b, c) == Seconds(a, c);
  }

  /**
   * In every window of calls, from any state the limiter can be in, the granted cost is at most
   * the capacity plus what the elapsed time refills, and one tolerance.
   */
  lemma WindowBound(b: Bucket, calls: seq<Call>, start: int)
    requires Ok(b) && b.last <= start && Forward(start, calls) && calls != []
    ensures Granted(b, calls) <= b.capacity + b.rate * Seconds(start, calls[|calls| - 1].now) + SLACK
    ensures Ok(RunCalls(b, calls))
  {
    hide Granted, RunCalls;
    Conservation(b, calls, start);
    var r := RunCalls(b, calls);
    var end := calls[|calls| - 1].now;
    TimeAdds(b.rate, start, Max(r.last, start), end);
    NotNegative(b.rate, Seconds(Max(r.last, start), end));
  }

  /** A full bucket grants every cost it can hold; a call in time is granted whatever came before. */
  lemma GrantedInTime(b: Bucket, c: Call)
    requires Ok(b) && 0.0 < c.cost <= b.capacity && b.last <= c.now
    ensures b.tokens >= b.capacity ==> Allows(b, c)
    ensures b.rate * Seconds(b.last, c.now) >= c.cost + SLACK ==> Allows(b, c)
    ensures Allows(b, c) ==> After(b, c).tokens <= b.tokens + b.rate * Seconds(b.last, c.now) - c.cost
  {
    RefillKeeps(b, c.now);
    NotNegative(b.rate, Seconds(b.last, c.now));
    assert b.rate > 0.0 && c.now > b.last ==> (c.now - b.last) as real / 1000.0 * b.rate == b.rate * Seconds(b.last, c.now);
    assert c.now == b.last ==> Seconds(b.last, c.now) == 0.0;
  }

  /** Calls that each cost no more than is refilled since the one before. */
  ghost predicate Slow(b: Bucket, calls: seq<Call>) {
    && (forall i :: 0 <= i < |calls| ==> 0.0 < calls[i].cost <= b.capacity && b.last <= calls[i].now)
    && (forall i :: 0 < i < |calls| ==> PaidFor(b.rate, calls[i - 1], calls[i]))
  }

  ghost predicate PaidFor(rate: real, before: Call, c: Call) {
    before.now <= c.now && rate * Seconds(before.now, c.now) >= c.cost + SLACK
  }

  /** Such calls on a full bucket are all granted. */
  lemma {:induction false} SlowCallsAreGranted(b: Bucket, calls: seq<Call>)
    requires Ok(b) && b.tokens == b.capacity && b.rate > 0.0 && Slow(b, calls)
    ensures StillGoing(b, RunCalls(b, calls), if calls == [] then b.last else calls[|calls| - 1].now)
    ensures forall i :: 0 <= i < |calls| ==> Allows(RunCalls(b, calls[..i]), calls[i])
    decreases |calls|
  {
    hide Allows, After, Slow, StillGoing, PaidFor;
    if calls == [] {
      AtTheStart(b);
    } else {
      var n := |calls| - 1;
      var before := calls[..n];
      SlowBefore(b, calls);
      SlowCallsAreGranted(b, before);
      forall i | 0 <= i < n ensures Allows(RunCalls(b, calls[..i]), calls[i]) {
        assert before[..i] == calls[..i] && before[i] == calls[i];
      }
      var r := RunCalls(b, before);
      if n == 0 {
        assert before == [] && r == b;
      } else {
        assert before[n - 1] == calls[n - 1];
        NextIsGranted(b, r, calls[n - 1], calls[n]);
      }
      FullGrants(b, calls[n]);
      Goes(b, r, calls[n]);
    }
  }

  lemma AtTheStart(b: Bucket)
    requires Ok(b)
    ensures StillGoing(b, b, b.last)
  {
  }

  lemma NextIsGranted(b: Bucket, r: Bucket, before: Call, c: Call)
    requires StillGoing(b, r, before.now) && b.rate > 0.0 && PaidFor(b.rate, before, c) && 0.0 < c.cost <= b.capacity
    ensures Allows(r, c) && StillGoing(b, r, c.now)
  {
    hide Allows;
    MoreTime(b.rate, r.last, before.now, c.now);
    GrantedInTime(r, c);
  }

  lemma FullGrants(b: Bucket, c: Call)
    requires Ok(b) && b.tokens == b.capacity && 0.0 < c.cost <= b.capacity && b.last <= c.now
    ensures Allows(b, c) && StillGoing(b, b, c.now) && StillGoing(b, b, b.last)
  {
    hide Allows;
    GrantedInTime(b, c);
  }

  ghost predicate StillGoing(b: Bucket, r: Bucket, now: int) {
    Ok(r) && r.rate == b.rate && r.capacity == b.capacity && r.last <= now
  }

  lemma Goes(b: Bucket, r: Bucket, c: Call)
    requires StillGoing(b, r, c.now)
    ensures StillGoing(b, After(r, c), c.now)
  {
    AfterKeeps(r, c);
    RefillKeeps(r, c.now);
  }

  lemma SlowBefore(b: Bucket, calls: seq<Call>)
    requires Slow(b, calls) && calls != []
    ensures var n := |calls| - 1;
      && Slow(b, calls[..n]) && 0.0 < calls[n].cost <= b.capacity && b.last <= calls[n].now
      && (n > 0 ==> PaidFor(b.rate, calls[n - 1], calls[n]))
  {
    hide PaidFor;
    var before := calls[..|calls| - 1];
    forall i | 0 < i < |before| ensures PaidFor(b.rate, before[i - 1], before[i]) {
      assert before[i - 1] == calls[i - 1] && before[i] == calls[i];
    }
  }

  lemma MoreTime(rate: real, a: int, b: int, c: int)
    requires rate > 0.0 && a <= b <= c
    ensures rate * Seconds(a, c) >= rate * Seconds(b, c)
  {
    TimeAdds(rate, a, b, c);
    NotNegative(rate, Seconds(a, b));
  }
}
