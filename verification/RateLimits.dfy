/** The token bucket that limits the flow to and from a peer. */
module RateLimits {
  import opened Base
  import opened Division

  /** What a limiter stores. */
  datatype Bucket = Bucket(capacity: u64, tokens: u64, refillPerSecond: u64, lastRefillTime: u64) {

    ghost predicate Valid() {
      tokens <= capacity
    }

    /** Seconds credited at `now`; a clock that went back credits none. */
    function Elapsed(now: u64): nat {
      Max(0, now - lastRefillTime)
    }

    /** What the bucket could let through at `now`: its tokens and the time not yet credited, within
        its capacity. */
    function Level(now: int): int {
      Min(capacity, tokens + Max(0, now - lastRefillTime) * refillPerSecond)
    }

    /** A refill in unbounded arithmetic. */
    function Refilled(now: u64, extraTokens: u64): Bucket {
      assert 0 <= Elapsed(now) * refillPerSecond;
      this.(tokens := Min(capacity, tokens + extraTokens + Elapsed(now) * refillPerSecond), lastRefillTime := now)
    }

    function Consumed(now: u64, amount: u64): Result<Bucket> {
      var full := Refilled(now, 0);
      if amount <= full.tokens then Ok(full.(tokens := full.tokens - amount)) else Err(RateLimitExceeded)
    }

    function Refill(clock: i64, extraTokens: u64): Result<Bucket> {
      var now :- Seconds(clock);
      Ok(Refilled(now, extraTokens))
    }

    function TryConsume(clock: i64, amount: u64): Result<Bucket> {
      var now :- Seconds(clock);
      Consumed(now, amount)
    }

    function SetRate(clock: i64, newRate: u64): Result<Bucket> {
      var refilled :- Refill(clock, 0);
      Ok(refilled.(refillPerSecond := newRate))
    }

    function SetCapacity(clock: i64, newCapacity: u64): Result<Bucket> {
      var now :- Seconds(clock);
      Ok(Bucket(newCapacity, newCapacity, refillPerSecond, now))
    }
  }

  const DEFAULT_BUCKET := Bucket(0, 0, 0, 0)

  /** The clock as u64; a negative timestamp panics. */
  function Seconds(clock: i64): Result<u64> {
    if 0 <= clock then Ok(clock) else Err(Abort)
  }

  class RateLimiter {
    var capacity: u64
    var tokens: u64
    var refillPerSecond: u64
    var lastRefillTime: u64

    function View(): Bucket
      reads this
    {
      Bucket(capacity, tokens, refillPerSecond, lastRefillTime)
    }

    constructor (bucket: Bucket)
      ensures View() == bucket
    {
      capacity, tokens := bucket.capacity, bucket.tokens;
      refillPerSecond, lastRefillTime := bucket.refillPerSecond, bucket.lastRefillTime;
    }

    /** The nested saturating u64 sums compute the unbounded refill. */
    method Refill(clock: i64, extraTokens: u64) returns (r: Result<()>)
      modifies this
      ensures match old(View()).Refill(clock, extraTokens)
              case Ok(bucket) => r.Ok? && View() == bucket
              case Err(e) => r == Err(e)
    {
      var newTokens := extraTokens;
      var currentTime :- Seconds(clock);
      if currentTime > lastRefillTime {
        var elapsed := currentTime - lastRefillTime;
        newTokens := SaturatingAdd(newTokens, SaturatingMul(elapsed, refillPerSecond));
      }
      tokens := Min(capacity, SaturatingAdd(tokens, newTokens));
      lastRefillTime := currentTime;
      return Ok(());
    }

    method TryConsume(clock: i64, amount: u64) returns (r: Result<()>)
      modifies this
      ensures match old(View()).TryConsume(clock, amount)
              case Ok(bucket) => r.Ok? && View() == bucket
              case Err(e) => r == Err(e)
    {
      var _ :- Refill(clock, 0);
      if amount > tokens {
        return Err(RateLimitExceeded);
      }
      tokens := tokens - amount;
      return Ok(());
    }

    method SetRate(clock: i64, refillPerSecond: u64) returns (r: Result<()>)
      modifies this
      ensures match old(View()).SetRate(clock, refillPerSecond)
              case Ok(bucket) => r.Ok? && View() == bucket
              case Err(e) => r == Err(e)
    {
      var _ :- Refill(clock, 0);
      this.refillPerSecond := refillPerSecond;
      return Ok(());
    }

    method SetCapacity(clock: i64, capacity: u64) returns (r: Result<()>)
      modifies this
      ensures match old(View()).SetCapacity(clock, capacity)
              case Ok(bucket) => r.Ok? && View() == bucket
              case Err(e) => r == Err(e)
    {
      this.capacity := capacity;
      tokens := capacity;
      var now :- Seconds(clock);
      lastRefillTime := now;
      return Ok(());
    }
  }

  datatype RateLimitParams = RateLimitParams(refillPerSecond: Option<u64>, capacity: Option<u64>)

  /** `update_rate_limiter`: no parameters remove the limiter; a capacity fills it up before the
      new rate is set, so a rate change alone keeps what has accrued. */
  function UpdatedLimiter(limiter: Option<Bucket>, params: Option<RateLimitParams>,
          clock: i64): Result<Option<Bucket>> {
    match params
    case None => Ok(None)
    case Some(param) =>
      var current := if limiter.Some? then limiter.value else DEFAULT_BUCKET;
      var sized :- if param.capacity.Some? then current.SetCapacity(clock, param.capacity.value) else Ok(current);
      var rated :- if param.refillPerSecond.Some? then sized.SetRate(clock, param.refillPerSecond.value) else Ok(sized);
      Ok(Some(rated))
  }

  method UpdateRateLimiter(limiter: RateLimiter?, params: Option<RateLimitParams>, clock: i64)
    returns (r: Result<RateLimiter?>)
    ensures var before := if limiter == null then None else Some(limiter.View());
            match UpdatedLimiter(before, params, clock)
            case Ok(None) => r == Ok(null)
            case Ok(Some(bucket)) => r.Ok? && r.value != null && fresh(r.value) && r.value.View() == bucket
            case Err(e) => r == Err(e)
  {
    if params.None? {
      return Ok(null);
    }
    var updated: RateLimiter;
    if limiter == null {
      updated := new RateLimiter(DEFAULT_BUCKET);
    } else {
      updated := new RateLimiter(limiter.View());
    }
    if params.value.capacity.Some? {
      var _ :- updated.SetCapacity(clock, params.value.capacity.value);
    }
    if params.value.refillPerSecond.Some? {
      var _ :- updated.SetRate(clock, params.value.refillPerSecond.value);
    }
    return Ok(updated);
  }

  /** Two refills in a row act as one that is credited both forward moves of the clock. */
  lemma RefillsCompose(bucket: Bucket, t1: u64, extra1: u64, t2: u64, extra2: u64)
    requires bucket.Valid()
    ensures var twice := bucket.Refilled(t1, extra1).Refilled(t2, extra2);
            && twice.tokens == Min(bucket.capacity, bucket.tokens + extra1 + extra2
                                     + (bucket.Elapsed(t1) + Max(0, t2 - t1)) * bucket.refillPerSecond)
            && twice == bucket.(tokens := twice.tokens, lastRefillTime := t2)
  {
    var d1, d2, rate := bucket.Elapsed(t1), Max(0, t2 - t1), bucket.refillPerSecond;
    assert (d1 + d2) * rate == d1 * rate + d2 * rate;
    assert 0 <= d1 * rate && 0 <= d2 * rate;
  }

  /** So on a clock that never goes back two refills are one, whatever moment the first came. */
  lemma RefillsMerge(bucket: Bucket, t1: u64, extra1: u64, t2: u64, extra2: u64)
    requires bucket.Valid() && bucket.lastRefillTime <= t1 <= t2 && extra1 + extra2 < U64_LIMIT
    ensures bucket.Refilled(t1, extra1).Refilled(t2, extra2) == bucket.Refilled(t2, extra1 + extra2)
  {
    RefillsCompose(bucket, t1, extra1, t2, extra2);
    assert bucket.Elapsed(t1) + Max(0, t2 - t1) == bucket.Elapsed(t2);
  }

  /** In general an intermediate refill is harmless exactly when nothing accrues, its clock reading
      lies between the other two, or the bucket is full anyway; otherwise time is paid twice. */
  lemma RefillsMergeIff(bucket: Bucket, t1: u64, extra1: u64, t2: u64, extra2: u64)
    requires bucket.Valid() && extra1 + extra2 < U64_LIMIT
    ensures bucket.Refilled(t1, extra1).Refilled(t2, extra2) == bucket.Refilled(t2, extra1 + extra2)
       <==> || bucket.refillPerSecond == 0
            || bucket.lastRefillTime <= t1 <= t2 || t2 <= t1 <= bucket.lastRefillTime
            || bucket.capacity <= bucket.tokens + extra1 + extra2 + bucket.Elapsed(t2) * bucket.refillPerSecond
  {
    RefillsCompose(bucket, t1, extra1, t2, extra2);
    var twice, once, rate := bucket.Elapsed(t1) + Max(0, t2 - t1), bucket.Elapsed(t2), bucket.refillPerSecond;
    MonotoneProduct(once, twice, rate);
    if once < twice {
      MonotoneProduct(once + 1, twice, rate);
      DistributeDifference(once + 1, 1, rate);
    }
  }

  /** A clock that reads 100, then 50, then 100 again earns the seconds from 50 to 100 twice. */
  lemma ClockGoingBackPaysTwice()
    ensures var bucket := Bucket(2000, 0, 10, 0);
            && bucket.Refilled(100, 0) == Bucket(2000, 1000, 10, 100)
            && bucket.Refilled(100, 0).Refilled(50, 0).Refilled(100, 0) == Bucket(2000, 1500, 10, 100)
  {
    var first := Bucket(2000, 0, 10, 0).Refilled(100, 0);
    assert first == Bucket(2000, 1000, 10, 100);
    var back := first.Refilled(50, 0);
    assert back == Bucket(2000, 1000, 10, 50);
    assert back.Refilled(100, 0) == Bucket(2000, 1500, 10, 100);
  }

  datatype LimiterOp =
    | OpRefill(extraTokens: u64)
    | OpConsume(amount: u64)
    | OpRate(refillPerSecond: u64)
    | OpCapacity(capacity: u64)

  function Apply(bucket: Bucket, clock: i64, op: LimiterOp): Result<Bucket> {
    match op
    case OpRefill(extraTokens) => bucket.Refill(clock, extraTokens)
    case OpConsume(amount) => bucket.TryConsume(clock, amount)
    case OpRate(refillPerSecond) => bucket.SetRate(clock, refillPerSecond)
    case OpCapacity(capacity) => bucket.SetCapacity(clock, capacity)
  }

  /** Every sequence of limiter operations, failed ones being discarded. */
  function ApplyAll(bucket: Bucket, ops: seq<(i64, LimiterOp)>): Bucket {
    if ops == [] then bucket
    else
      var before := ApplyAll(bucket, ops[..|ops| - 1]);
      var last := ops[|ops| - 1];
      var after := Apply(before, last.0, last.1);
      if after.Ok? then after.value else before
  }

  lemma {:induction false} TokensNeverExceedCapacity(bucket: Bucket, ops: seq<(i64, LimiterOp)>)
    requires bucket.Valid()
    ensures ApplyAll(bucket, ops).Valid()
  {
    if ops == [] {
    } else {
      TokensNeverExceedCapacity(bucket, ops[..|ops| - 1]);
    }
  }

  /** What configuring a limiter does, as a later caller sees it at any time `t`: a given capacity is
      there in full; a rate given alone counts from now on, on top of what the old rate had earned;
      with neither nothing changes; a limiter not there before starts from nothing. */
  lemma ConfiguredLevel(limiter: Option<Bucket>, params: RateLimitParams, clock: i64, t: int)
    requires (limiter.Some? ==> limiter.value.Valid()) && 0 <= clock <= t
    ensures UpdatedLimiter(limiter, None, clock) == Ok(None)
    ensures var before := if limiter.Some? then limiter.value else Bucket(0, 0, 0, 0);
            var r := UpdatedLimiter(limiter, Some(params), clock);
            && r.Ok? && r.value.Some?
            && var after := r.value.value;
            && after.capacity == (if params.capacity.Some? then params.capacity.value else before.capacity)
            && after.refillPerSecond
               == (if params.refillPerSecond.Some? then params.refillPerSecond.value else before.refillPerSecond)
            && after.Level(t)
               == if params.capacity.Some? then
                    params.capacity.value
                  else if params.refillPerSecond.Some? then
                    Min(before.capacity, before.Level(clock) + (t - clock) * params.refillPerSecond.value)
                  else
                    before.Level(t)
  {
    var before := if limiter.Some? then limiter.value else DEFAULT_BUCKET;
    var after := UpdatedLimiter(limiter, Some(params), clock).value.value;
    MonotoneProduct(0, t - clock, after.refillPerSecond);
    MonotoneProduct(0, before.Elapsed(clock), before.refillPerSecond);
  }

  /** Setting anything reads the clock, and a clock before 1970 aborts. */
  lemma ConfiguringAbortsIff(limiter: Option<Bucket>, params: Option<RateLimitParams>, clock: i64)
    ensures var r := UpdatedLimiter(limiter, params, clock);
            && (r.Err? <==> && clock < 0 && params.Some?
                            && (params.value.capacity.Some? || params.value.refillPerSecond.Some?))
            && (r.Err? ==> r == Err(Abort))
  {
  }

  lemma UpdatedLimiterIsValid(limiter: Option<Bucket>, params: Option<RateLimitParams>, clock: i64)
    requires limiter.Some? ==> limiter.value.Valid()
    ensures var r := UpdatedLimiter(limiter, params, clock);
            r.Ok? && r.value.Some? ==> r.value.value.Valid()
  {
  }
}
