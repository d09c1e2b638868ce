/** Traffic, limits and the status rule of a device. */
module WgLimits {
  import opened Times
  import opened Wrappers

  datatype Traffic = Traffic(rx: int, tx: int) {
    function Total(): int { rx + tx }

    function Plus(t: Traffic): (sum: Traffic)
      ensures sum.rx == rx + t.rx && sum.tx == tx + t.tx
    {
      Traffic(rx + t.rx, tx + t.tx)
    }

    function Minus(t: Traffic): (rest: Traffic)
      ensures rest.rx == rx - t.rx && rest.tx == tx - t.tx
    {
      Traffic(rx - t.rx, tx - t.tx)
    }

    predicate Covers(t: Traffic) { rx >= t.rx && tx >= t.tx }
    predicate NonNegative() { rx >= 0 && tx >= 0 }
  }

  const ZERO := Traffic(0, 0)

  function Max(a: int, b: int): int {
    if a >= b then a else b
  }

  /** Each direction clamped at zero on its own. */
  function Clamp(t: Traffic): Traffic {
    Traffic(Max(0, t.rx), Max(0, t.tx))
  }

  datatype Period = Monthly | Whole

  /** The part of a device that decides whether it may connect; expiry is stored in whole seconds. */
  datatype Limits = Limits(enabled: bool, dataLimit: int, expiresAt: Option<int>)

  datatype Block = Free | Expired | OverLimit

  datatype Status = Active | Disabled | PastExpiry | LimitReached

  /** Why an enabled device is kept off the tunnel; `now` is an instant in nanoseconds. */
  function Blocked(p: Limits, used: Traffic, now: int): Block {
    if !p.enabled then Free
    else if p.expiresAt.Some? && now >= p.expiresAt.value * SECOND then Expired
    else if p.dataLimit > 0 && used.Total() >= p.dataLimit then OverLimit
    else Free
  }

  function StatusOf(p: Limits, used: Traffic, now: int): Status {
    if !p.enabled then Disabled
    else
      match Blocked(p, used, now)
      case Expired => PastExpiry
      case OverLimit => LimitReached
      case Free => Active
  }

  /** Comparing whole seconds agrees with comparing instants against a whole-second expiry. */
  lemma SecondsAgree(now: int, expiry: int)
    ensures Unix(now) >= expiry <==> now >= expiry * SECOND
  {
    assert now == Unix(now) * SECOND + now % SECOND;
  }

  // ---------------------------------------------------------------- the status filter

  predicate Live(p: Limits, at: int) {
    p.enabled && (p.expiresAt.None? || p.expiresAt.value > at)
  }

  /** The filter's WHERE clause for a status; `used` is its own sum of both directions, `at` is in seconds. */
  predicate Filter(status: Status, p: Limits, used: int, at: int) {
    match status
    case Disabled => !p.enabled
    case PastExpiry => p.enabled && p.expiresAt.Some? && p.expiresAt.value <= at
    case LimitReached => Live(p, at) && p.dataLimit > 0 && used >= p.dataLimit
    case Active => Live(p, at) && (p.dataLimit == 0 || used < p.dataLimit)
  }

  /**
   The four filters agree with the status rule exactly when the limit is not negative, or
   the status was decided before the limit was looked at, or nothing has been used below
   the negative limit.
   */
  lemma FilterAgrees(p: Limits, used: Traffic, now: int)
    ensures (forall s: Status :: Filter(s, p, used.Total(), Unix(now)) <==> StatusOf(p, used, now) == s)
       <==> (p.dataLimit >= 0 || !Live(p, Unix(now)) || used.Total() < p.dataLimit)
  {
    if p.expiresAt.Some? {
      SecondsAgree(now, p.expiresAt.value);
    }
    if !(p.dataLimit >= 0 || !Live(p, Unix(now)) || used.Total() < p.dataLimit) {
      assert StatusOf(p, used, now) == Active;
      assert !Filter(Active, p, used.Total(), Unix(now));
    }
  }

  /** A device is kept off with a reason exactly when its status gives that reason, so never one that is disabled. */
  lemma BlockedIsStatus(p: Limits, used: Traffic, now: int)
    ensures Blocked(p, used, now) == Expired <==> StatusOf(p, used, now) == PastExpiry
    ensures Blocked(p, used, now) == OverLimit <==> StatusOf(p, used, now) == LimitReached
    ensures Blocked(p, used, now) == Free <==> StatusOf(p, used, now) in {Active, Disabled}
    ensures StatusOf(p, used, now) == Disabled <==> !p.enabled
    ensures !p.enabled ==> Blocked(p, used, now) == Free
  {
  }
}
