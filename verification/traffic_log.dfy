/**
 Limit usage as the store derives it, from a peer's total per day and a snapshot taken at
 its last reset, against a plain log of what happened to the peer.
 */
module TrafficLog {
  import opened WgLimits
  import opened Sets

  /** The day before every day: a peer that was never reset. */
  const NEVER := -1

  type Days = map<int, Traffic>

  function At(days: Days, day: int): Traffic {
    if day in days then days[day] else ZERO
  }

  // ---------------------------------------------------------------- sums of rows

  ghost function Sum(days: Days, s: set<int>): Traffic {
    if s == {} then ZERO else
      var d := Pick(s);
      At(days, d).Plus(Sum(days, s - {d}))
  }

  lemma PlusSwap(a: Traffic, b: Traffic, c: Traffic)
    ensures a.Plus(b.Plus(c)) == b.Plus(a.Plus(c))
  {
  }

  lemma PlusMinus(a: Traffic, b: Traffic, c: Traffic)
    ensures a.Plus(b).Minus(c) == a.Minus(c).Plus(b)
  {
  }

  lemma PlusNothing(a: Traffic, b: Traffic)
    requires b.NonNegative() && b.Total() <= 0
    ensures a.Plus(b) == a && b == ZERO
  {
  }

  lemma {:induction false} SumRemove(days: Days, s: set<int>, d: int)
    requires d in s
    ensures Sum(days, s) == At(days, d).Plus(Sum(days, s - {d}))
  {
    var e := Pick(s);
    if e != d {
      var rest := s - {e} - {d};
      assert rest == s - {d} - {e};
      SumRemove(days, s - {e}, d);
      SumRemove(days, s - {d}, e);
      PlusSwap(At(days, e), At(days, d), Sum(days, rest));
    }
  }

  lemma {:induction false} SumSame(a: Days, b: Days, s: set<int>)
    requires forall d | d in s :: At(a, d) == At(b, d)
    ensures Sum(a, s) == Sum(b, s)
  {
    if s != {} {
      var d := Pick(s);
      SumRemove(a, s, d);
      SumRemove(b, s, d);
      SumSame(a, b, s - {d});
    }
  }

  lemma {:induction false} SumNonNegative(days: Days, s: set<int>)
    requires forall d | d in days :: days[d].NonNegative()
    ensures Sum(days, s).NonNegative()
  {
    if s != {} {
      var d := Pick(s);
      SumRemove(days, s, d);
      SumNonNegative(days, s - {d});
    }
  }

  /** SUM over the rows WHERE day >= from. */
  ghost function SumFrom(days: Days, from: int): Traffic {
    Sum(days, set d | d in days && d >= from)
  }

  /** Bytes added to a day count from any day up to it, and from no later one. */
  lemma SumFromAdd(days: Days, day: int, bytes: Traffic, from: int)
    ensures SumFrom(days[day := At(days, day).Plus(bytes)], from) ==
            SumFrom(days, from).Plus(if day >= from then bytes else ZERO)
  {
    var more := days[day := At(days, day).Plus(bytes)];
    var s, s' := set d | d in days && d >= from, set d | d in more && d >= from;
    if day >= from {
      assert s' == s + {day};
      SumRemove(more, s', day);
      SumSame(days, more, s' - {day});
      if day in s {
        SumRemove(days, s, day);
        assert s - {day} == s' - {day};
      } else {
        assert s' - {day} == s;
      }
    } else {
      assert s' == s;
      SumSame(days, more, s);
    }
  }

  /** With no row after its first day, a sum is that day's row. */
  lemma SumFromLast(days: Days, from: int)
    requires forall d | d in days :: d <= from
    ensures SumFrom(days, from) == At(days, from)
  {
    var s := set d | d in days && d >= from;
    if from in days {
      assert s == {from};
      SumRemove(days, s, from);
    } else {
      assert s == {};
    }
  }

  /** SQL's SUM, as a loop over the rows. */
  method SumRows(days: Days, from: int) returns (t: Traffic)
    ensures t == SumFrom(days, from)
  {
    var rest := set d | d in days && d >= from;
    t := ZERO;
    while rest != {}
      invariant rest <= days.Keys
      invariant t.Plus(Sum(days, rest)) == SumFrom(days, from)
      decreases rest
    {
      var d :| d in rest;
      SumRemove(days, rest, d);
      t := t.Plus(days[d]);
      rest := rest - {d};
    }
  }

  // ---------------------------------------------------------------- the stored form

  /** What the store keeps of a peer's usage. */
  datatype Ledger = Ledger(days: Days, period: Period, resetDay: int, resetUsage: Traffic)

  const NEW_LEDGER := Ledger(map[], Monthly, NEVER, ZERO)

  datatype Event = Added(day: nat, bytes: Traffic) | Reset(day: nat) | PeriodSet(period: Period)

  /** The upsert skips a reading that brought nothing. */
  function AddUsage(days: Days, day: int, used: Traffic): Days {
    if used.Total() > 0 then days[day := At(days, day).Plus(used)] else days
  }

  /** These bytes more on one day, and nothing else. */
  ghost predicate Adds(days: Days, day: int, bytes: Traffic, after: Days) {
    At(after, day) == At(days, day).Plus(bytes) && forall d | d != day :: At(after, d) == At(days, d)
  }

  lemma AddUsageAdds(days: Days, day: int, used: Traffic)
    requires used.NonNegative()
    ensures Adds(days, day, used, AddUsage(days, day, used))
  {
    if used.Total() <= 0 {
      PlusNothing(At(days, day), used);
    }
  }

  function Step(l: Ledger, e: Event): Ledger {
    match e
    case Added(day, bytes) => l.(days := AddUsage(l.days, day, bytes))
    case Reset(day) => l.(resetDay := day, resetUsage := At(l.days, day))
    case PeriodSet(period) => l.(period := period)
  }

  /** The day the limit's count begins with; `month` is the current month's first day. */
  function LimitStart(l: Ledger, month: int): int {
    if l.period.Whole? then l.resetDay else Max(month, l.resetDay)
  }

  /** The reset day's bytes from before the reset, when that day is where the count starts. */
  function Before(l: Ledger, month: int): Traffic {
    if l.resetDay == LimitStart(l, month) then l.resetUsage else ZERO
  }

  ghost function LimitUsage(l: Ledger, month: int): Traffic {
    Clamp(SumFrom(l.days, LimitStart(l, month)).Minus(Before(l, month)))
  }

  /** The status filter's own form: both directions summed first, clamped once. */
  ghost function LimitUsed(l: Ledger, month: int): int {
    Max(0, SumFrom(l.days, LimitStart(l, month)).Total() - Before(l, month).Total())
  }

  ghost function MonthUsage(l: Ledger, month: int): Traffic {
    SumFrom(l.days, month)
  }

  // ---------------------------------------------------------------- the plain log

  function Replay(log: seq<Event>): Ledger {
    if log == [] then NEW_LEDGER else Step(Replay(log[..|log| - 1]), log[|log| - 1])
  }

  function PeriodOf(log: seq<Event>): Period {
    if log == [] then Monthly
    else if log[|log| - 1].PeriodSet? then log[|log| - 1].period
    else PeriodOf(log[..|log| - 1])
  }

  /** Every byte added after the last reset, from `month` on when the period is monthly. */
  function LogUsage(log: seq<Event>, period: Period, month: int): Traffic {
    if log == [] then ZERO
    else
      var before, e := log[..|log| - 1], log[|log| - 1];
      match e
      case Reset(_) => ZERO
      case PeriodSet(_) => LogUsage(before, period, month)
      case Added(day, bytes) =>
        LogUsage(before, period, month).Plus(if period.Whole? || day >= month then bytes else ZERO)
  }

  function LogMonth(log: seq<Event>, month: int): Traffic {
    if log == [] then ZERO
    else
      var before, e := log[..|log| - 1], log[|log| - 1];
      if e.Added? && e.day >= month then LogMonth(before, month).Plus(e.bytes) else LogMonth(before, month)
  }

  function LastDay(log: seq<Event>): int {
    if log == [] then NEVER
    else if log[|log| - 1].PeriodSet? then LastDay(log[..|log| - 1])
    else log[|log| - 1].day
  }

  ghost predicate TimeOrdered(log: seq<Event>) {
    log != [] ==>
      && TimeOrdered(log[..|log| - 1])
      && (log[|log| - 1].PeriodSet? || log[|log| - 1].day >= LastDay(log[..|log| - 1]))
  }

  /** recordPeer only ever adds counter growth, which is not negative. */
  ghost predicate Grows(log: seq<Event>) {
    forall e | e in log && e.Added? :: e.bytes.NonNegative()
  }

  // ---------------------------------------------------------------- what the store keeps true

  /** Rows are not negative and a reset's snapshot never exceeds its day's row. */
  ghost predicate Sound(l: Ledger) {
    && (forall d | d in l.days :: d >= 0 && l.days[d].NonNegative())
    && l.resetUsage.NonNegative()
    && At(l.days, l.resetDay).Covers(l.resetUsage)
  }

  lemma {:induction false} ReplaySound(log: seq<Event>)
    requires Grows(log)
    ensures Sound(Replay(log)) && Replay(log).period == PeriodOf(log)
    ensures TimeOrdered(log) ==>
      && (forall d | d in Replay(log).days :: d <= LastDay(log))
      && Replay(log).resetDay <= LastDay(log)
  {
    if log != [] {
      var before, e := log[..|log| - 1], log[|log| - 1];
      assert forall x | x in before :: x in log;
      assert e in log;
      ReplaySound(before);
    }
  }

  /** In a sound ledger neither clamp ever bites, so the two forms of the limit sum agree. */
  lemma ClampNeverBites(l: Ledger, month: int)
    requires Sound(l)
    ensures LimitUsage(l, month) == SumFrom(l.days, LimitStart(l, month)).Minus(Before(l, month))
    ensures LimitUsed(l, month) == LimitUsage(l, month).Total()
  {
    var start := LimitStart(l, month);
    SumFromCovers(l.days, start);
    assert SumFrom(l.days, start).Covers(Before(l, month));
  }

  lemma SumFromCovers(days: Days, from: int)
    requires forall d | d in days :: days[d].NonNegative()
    ensures SumFrom(days, from).NonNegative() && SumFrom(days, from).Covers(At(days, from))
  {
    var s := set d | d in days && d >= from;
    SumNonNegative(days, s);
    if from in days {
      SumRemove(days, s, from);
      SumNonNegative(days, s - {from});
    }
  }

  /** Usage without the clamp. */
  ghost function Raw(l: Ledger, month: int): Traffic {
    SumFrom(l.days, LimitStart(l, month)).Minus(Before(l, month))
  }

  /** A reset starts the count at nothing, whatever the period and month. */
  lemma RawAfterReset(l: Ledger, day: nat, month: int)
    requires forall d | d in l.days :: d <= day
    ensures Raw(Step(l, Reset(day)), month) == ZERO
  {
    var l' := Step(l, Reset(day));
    if LimitStart(l', month) == day {
      SumFromLast(l.days, day);
    } else {
      SumFromLast(l.days, month);
    }
  }

  lemma SumFromAdded(days: Days, day: int, bytes: Traffic, from: int)
    requires bytes.NonNegative()
    ensures SumFrom(AddUsage(days, day, bytes), from) == SumFrom(days, from).Plus(if day >= from then bytes else ZERO)
  {
    if bytes.Total() > 0 {
      SumFromAdd(days, day, bytes, from);
    } else {
      PlusNothing(SumFrom(days, from), bytes);
    }
  }

  /** After the last reset, a day's bytes count exactly when the log's rule says so. */
  lemma RawAfterAdded(l: Ledger, day: nat, bytes: Traffic, month: int)
    requires bytes.NonNegative() && l.resetDay <= day
    ensures Raw(Step(l, Added(day, bytes)), month) ==
            Raw(l, month).Plus(if l.period.Whole? || day >= month then bytes else ZERO)
  {
    var start := LimitStart(l, month);
    var counted := if day >= start then bytes else ZERO;
    SumFromAdded(l.days, day, bytes, start);
    PlusMinus(SumFrom(l.days, start), counted, Before(l, month));
    StartCounts(l, day, month);
  }

  lemma StartCounts(l: Ledger, day: nat, month: int)
    requires l.resetDay <= day
    ensures day >= LimitStart(l, month) <==> l.period.Whole? || day >= month
  {
  }

  lemma {:induction false} RawIsLog(log: seq<Event>, period: Period, month: int)
    requires Grows(log) && TimeOrdered(log)
    ensures Raw(Replay(log).(period := period), month) == LogUsage(log, period, month)
  {
    if log == [] {
      SumFromLast(map[], Max(month, NEVER));
      SumFromLast(map[], NEVER);
    } else {
      var before, e := log[..|log| - 1], log[|log| - 1];
      assert forall x | x in before :: x in log;
      assert e in log;
      RawIsLog(before, period, month);
      ReplaySound(before);
      var was := Replay(before).(period := period);
      match e
      case PeriodSet(_) =>
      case Added(day, bytes) => RawAfterAdded(was, day, bytes, month);
      case Reset(day) => RawAfterReset(was, day, month);
    }
  }

  /** The aggregated form equals the plain log, for every month start, in any time-ordered run. */
  lemma LimitIsLog(log: seq<Event>, month: int)
    requires Grows(log) && TimeOrdered(log)
    ensures LimitUsage(Replay(log), month) == LogUsage(log, PeriodOf(log), month)
    ensures LimitUsed(Replay(log), month) == LogUsage(log, PeriodOf(log), month).Total()
  {
    ReplaySound(log);
    RawIsLog(log, PeriodOf(log), month);
    ClampNeverBites(Replay(log), month);
  }

  /** The month's chart is every byte added since the month began: resets and period changes leave it alone. */
  lemma {:induction false} MonthIsLog(log: seq<Event>, month: int)
    requires Grows(log)
    ensures MonthUsage(Replay(log), month) == LogMonth(log, month)
  {
    if log != [] {
      var before, e := log[..|log| - 1], log[|log| - 1];
      assert forall x | x in before :: x in log;
      assert e in log;
      MonthIsLog(before, month);
      if e.Added? {
        SumFromAdded(Replay(before).days, e.day, e.bytes, month);
      }
    }
  }
}
