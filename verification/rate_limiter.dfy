/** A token bucket per API key. Instants and waits are whole nanoseconds, tokens are reals. */
module RateLimiter {
  import opened Times
  import opened Wrappers

  const BURST := 60.0
  /** Nanoseconds in which one token comes back, ten a second. */
  const PER_TOKEN := 100_000_000.0

  datatype Bucket = Bucket(tokens: real, at: int)

  datatype Answer = Answer(bucket: Bucket, granted: bool, wait: int)

  function Min(a: real, b: real): real {
    if a <= b then a else b
  }

  /** Tokens at `now`; a key's first call finds a full bucket. */
  function Refill(b: Option<Bucket>, now: int): real {
    if b.None? then BURST else Min(BURST, b.value.tokens + (now - b.value.at) as real / PER_TOKEN)
  }

  /** The wait is cut to whole nanoseconds, as a conversion to a Go duration does. */
  function Allow(b: Option<Bucket>, now: int): Answer {
    var tokens := Refill(b, now);
    if tokens < 1.0 then Answer(Bucket(tokens, now), false, ((1.0 - tokens) * PER_TOKEN).Floor)
    else Answer(Bucket(tokens - 1.0, now), true, 0)
  }

  class Limiter {
    var buckets: map<nat, Bucket>

    constructor ()
      ensures buckets == map[]
    {
      buckets := map[];
    }

    function Of(id: nat): Option<Bucket>
      reads this
    {
      if id in buckets then Some(buckets[id]) else None
    }

    method AllowKey(id: nat, now: int) returns (ok: bool, wait: int)
      modifies this
      ensures var a := Allow(old(Of(id)), now);
              ok == a.granted && wait == a.wait && buckets == old(buckets)[id := a.bucket]
    {
      var b := if id in buckets then buckets[id] else Bucket(BURST, now);
      var tokens := Min(BURST, b.tokens + (now - b.at) as real / PER_TOKEN);
      if tokens < 1.0 {
        buckets := buckets[id := Bucket(tokens, now)];
        return false, ((1.0 - tokens) * PER_TOKEN).Floor;
      }
      buckets := buckets[id := Bucket(tokens - 1.0, now)];
      return true, 0;
    }

    method Forget(id: nat)
      modifies this
      ensures buckets == old(buckets) - {id}
    {
      buckets := buckets - {id};
    }
  }

  // ---------------------------------------------------------------- runs of calls for one key

  function After(b: Option<Bucket>, calls: seq<int>): Option<Bucket> {
    if calls == [] then b else Some(Allow(After(b, calls[..|calls| - 1]), calls[|calls| - 1]).bucket)
  }

  /** How many of the calls, made at these instants one after the other, were granted. */
  function Granted(b: Option<Bucket>, calls: seq<int>): nat {
    if calls == [] then 0
    else
      var before := calls[..|calls| - 1];
      Granted(b, before) + if Allow(After(b, before), calls[|calls| - 1]).granted then 1 else 0
  }

  ghost predicate Ordered(calls: seq<int>) {
    forall i, j | 0 <= i < j < |calls| :: calls[i] <= calls[j]
  }

  /** Tokens within range and whole in the unit that comes back each nanosecond. */
  ghost predicate Fair(b: Option<Bucket>) {
    b.Some? ==> 0.0 <= b.value.tokens <= BURST && Whole(b.value.tokens)
  }

  function Tokens(units: int): real {
    units as real / PER_TOKEN
  }

  ghost predicate Whole(tokens: real) {
    exists units :: tokens == Tokens(units)
  }

  lemma RefillFair(b: Option<Bucket>, now: int)
    requires Fair(b) && (b.Some? ==> b.value.at <= now)
    ensures 0.0 <= Refill(b, now) <= BURST && Whole(Refill(b, now))
  {
    assert BURST == Tokens(6_000_000_000);
    if b.Some? {
      var units: int :| b.value.tokens == Tokens(units);
      var more := units + (now - b.value.at);
      assert b.value.tokens + (now - b.value.at) as real / PER_TOKEN == Tokens(more);
    }
  }

  lemma AllowFair(b: Option<Bucket>, now: int)
    requires Fair(b) && (b.Some? ==> b.value.at <= now)
    ensures Fair(Some(Allow(b, now).bucket)) && Allow(b, now).bucket.at == now
  {
    RefillFair(b, now);
    var units: int :| Refill(b, now) == Tokens(units);
    assert Refill(b, now) - 1.0 == Tokens(units - 100_000_000);
  }

  /** Grants so far and tokens left never exceed a full bucket and what came back since the window began. */
  lemma {:induction false} Budget(b: Option<Bucket>, calls: seq<int>, start: int)
    requires Fair(b) && Ordered(calls) && calls != [] && start <= calls[0]
    requires b.Some? ==> b.value.at <= calls[0]
    ensures After(b, calls).Some? && Fair(After(b, calls)) && After(b, calls).value.at == calls[|calls| - 1]
    ensures Granted(b, calls) as real + After(b, calls).value.tokens
         <= BURST + (calls[|calls| - 1] - start) as real / PER_TOKEN
  {
    var before, now := calls[..|calls| - 1], calls[|calls| - 1];
    if before == [] {
      AllowFair(b, now);
      RefillFair(b, now);
    } else {
      Budget(b, before, start);
      AllowFair(After(b, before), now);
      RefillFair(After(b, before), now);
      var last := before[|before| - 1];
      assert (last - start) as real + (now - last) as real == (now - start) as real;
    }
  }

  /**
   Any stretch of a run of calls, made within [start, end], is granted at most a burst and
   ten a second.
   */
  lemma RateBound(b: Option<Bucket>, earlier: seq<int>, calls: seq<int>, start: int, end: int)
    requires Fair(b) && Ordered(earlier + calls)
    requires earlier + calls != [] && b.Some? ==> b.value.at <= (earlier + calls)[0]
    requires forall t | t in calls :: start <= t <= end
    requires start <= end
    ensures Granted(After(b, earlier), calls) as real <= BURST + (end - start) as real / PER_TOKEN
  {
    if calls != [] {
      assert forall i | 0 <= i < |calls| :: calls[i] == (earlier + calls)[|earlier| + i];
      assert calls[0] in calls && calls[|calls| - 1] in calls;
      if earlier != [] {
        assert forall i | 0 <= i < |earlier| :: earlier[i] == (earlier + calls)[i];
        Budget(b, earlier, earlier[0]);
      }
      Budget(After(b, earlier), calls, start);
    }
  }

  /** A refused caller that waits with no call in between is granted exactly when it waits as long as it was told. */
  lemma WaitIsExact(b: Option<Bucket>, now: int, d: nat)
    requires Fair(b) && (b.Some? ==> b.value.at <= now)
    requires Refill(b, now) < 1.0
    ensures !Allow(b, now).granted
    ensures Allow(Some(Allow(b, now).bucket), now + d).granted <==> d >= Allow(b, now).wait
    ensures 0 < Allow(b, now).wait <= 100_000_000
  {
    RefillFair(b, now);
    var tokens := Refill(b, now);
    var units: int :| tokens == Tokens(units);
    assert (1.0 - tokens) * PER_TOKEN == (100_000_000 - units) as real;
    assert Allow(b, now).wait == 100_000_000 - units;
    assert tokens + d as real / PER_TOKEN == Tokens(units + d);
  }

  /** The Retry-After header, whole seconds rounded down but at least one. */
  function RetryAfterSeconds(wait: int): int
    requires wait >= 0
  {
    if wait / SECOND < 1 then 1 else wait / SECOND
  }

  /** Rounding the header down never tells a caller to come back too early. */
  lemma HeaderIsEnough(b: Option<Bucket>, now: int)
    requires Fair(b) && (b.Some? ==> b.value.at <= now)
    requires Refill(b, now) < 1.0
    ensures !Allow(b, now).granted
    ensures Allow(b, now).wait >= 0
    ensures Allow(Some(Allow(b, now).bucket), now + RetryAfterSeconds(Allow(b, now).wait) * SECOND).granted
  {
    WaitIsExact(b, now, 0);
    WaitIsExact(b, now, RetryAfterSeconds(Allow(b, now).wait) * SECOND);
  }

  /** A key that was never seen starts with sixty calls: that many at one instant are granted, and no more. */
  lemma {:induction false} BurstIsSixty(calls: seq<int>, now: int)
    requires forall t | t in calls :: t == now
    ensures Granted(None, calls) == if |calls| <= 60 then |calls| else 60
    ensures calls != [] ==>
              After(None, calls) == Some(Bucket(if |calls| <= 60 then (60 - |calls|) as real else 0.0, now))
  {
    if calls != [] {
      var before := calls[..|calls| - 1];
      assert forall t | t in before :: t in calls;
      assert calls[|calls| - 1] in calls;
      BurstIsSixty(before, now);
    }
  }

  /** Calls a tenth of a second apart or more are all granted. */
  lemma {:induction false} TenASecondAlways(b: Option<Bucket>, calls: seq<int>)
    requires Fair(b)
    requires b.Some? && calls != [] ==> calls[0] >= b.value.at + 100_000_000
    requires forall i | 0 < i < |calls| :: calls[i] >= calls[i - 1] + 100_000_000
    ensures Granted(b, calls) == |calls|
    ensures calls != [] ==> After(b, calls).Some? && After(b, calls).value.at == calls[|calls| - 1]
                            && 0.0 <= After(b, calls).value.tokens <= 60.0
  {
    if calls != [] {
      var before, now := calls[..|calls| - 1], calls[|calls| - 1];
      TenASecondAlways(b, before);
      var bucket := After(b, before);
      if bucket.Some? {
        assert now - bucket.value.at >= 100_000_000;
        assert (now - bucket.value.at) as real >= 100_000_000.0;
      }
    }
  }
}
