/** The peer tables as far as traffic goes: readings in, usage resets, limit sums and the device list out. */
module TrafficStore {
  import opened Wrappers
  import opened Sets
  import opened Times
  import opened WgLimits
  import opened TrafficLog
  import Counters

  type PeerId = nat
  type InstanceId = nat
  type Key = nat

  /** One peer's line in a reading of the interface; handshakes are Unix seconds. */
  datatype Reading = Reading(bytes: Traffic, handshake: Option<int>)

  /** A peer's row, its stored counters and its usage rows: three tables, all keyed by the peer. */
  datatype Peer = Peer(instance: InstanceId, key: Key, limits: Limits, externalId: string,
                       handshake: Option<int>, counter: Option<Traffic>, ledger: Ledger)

  function NewPeer(instance: InstanceId, key: Key, limits: Limits, externalId: string, period: Period): Peer {
    Peer(instance, key, limits, externalId, None, None, NEW_LEDGER.(period := period))
  }

  function Bytes(reading: Option<Reading>): Option<Traffic> {
    if reading.Some? then Some(reading.value.bytes) else None
  }

  function NextHandshake(shaken: Option<int>, reading: Option<Reading>): Option<int> {
    if reading.Some? && reading.value.handshake.Some? && (shaken.None? || reading.value.handshake.value > shaken.value)
    then reading.value.handshake else shaken
  }

  /** What a reading is in the peer's log. */
  function Entry(p: Peer, reading: Option<Reading>, day: nat): Event {
    Added(day, Counters.Used(p.counter, Bytes(reading)))
  }

  function Record(p: Peer, reading: Option<Reading>, day: nat): Peer {
    p.(handshake := NextHandshake(p.handshake, reading),
       counter := Counters.NextCounter(p.counter, Bytes(reading)),
       ledger := Step(p.ledger, Entry(p, reading, day)))
  }

  /** A peer put on another server: only the table is written. */
  function Moved(p: Peer, instance: InstanceId): Peer {
    p.(instance := instance, handshake := None, counter := Some(ZERO))
  }

  /**
   The day's total grows by nothing without two readings in a row, by the difference of the
   two, or by all of the second if either count fell.
   */
  ghost predicate Counts(days: Days, last: Option<Traffic>, now: Option<Traffic>, day: int, after: Days) {
    if last.None? || now.None? then after == days
    else if now.value.rx < last.value.rx || now.value.tx < last.value.tx then Adds(days, day, now.value, after)
    else Adds(days, day, now.value.Minus(last.value), after)
  }

  lemma UsedCounts(days: Days, last: Option<Traffic>, now: Option<Traffic>, day: int)
    requires now.Some? ==> now.value.NonNegative()
    ensures Counts(days, last, now, day, AddUsage(days, day, Counters.Used(last, now)))
  {
    Counters.UsedNonNegative(last, now);
    if last.Some? && now.Some? {
      AddUsageAdds(days, day, Counters.Growth(last.value, now.value));
    }
  }

  lemma RecordCounts(p: Peer, reading: Option<Reading>, day: nat)
    requires reading.Some? ==> reading.value.bytes.NonNegative()
    ensures Counts(p.ledger.days, p.counter, Bytes(reading), day, Record(p, reading, day).ledger.days)
  {
    UsedCounts(p.ledger.days, p.counter, Bytes(reading), day);
  }

  /** recordPeer, statement by statement. */
  method RecordPeer(p: Peer, reading: Option<Reading>, day: nat) returns (p': Peer)
    ensures p' == Record(p, reading, day)
  {
    p' := p;
    if reading.None? {
      // Without a peer on it the interface forgets the counts, so the next ones are all new.
      if p.counter.Some? && p.counter.value != ZERO {
        p' := p'.(counter := Some(ZERO));
      }
      return;
    }
    var st := reading.value;
    // A first reading only sets the mark that later ones are compared with.
    if p.counter.Some? {
      var used := Counters.Growth(p.counter.value, st.bytes);
      if used.Total() > 0 {
        var days := p.ledger.days;
        p' := p'.(ledger := p.ledger.(days := days[day := At(days, day).Plus(used)]));
      }
    }
    if p.counter.None? || p.counter.value != st.bytes {
      p' := p'.(counter := Some(st.bytes));
    }
    if st.handshake.Some? && (p.handshake.None? || st.handshake.value > p.handshake.value) {
      p' := p'.(handshake := st.handshake);
    }
  }

  function ReadingOf(p: Peer, stats: map<Key, Reading>): Option<Reading> {
    if p.key in stats then Some(stats[p.key]) else None
  }

  function PeersOn(peers: map<PeerId, Peer>, instance: InstanceId): set<PeerId> {
    set id | id in peers && peers[id].instance == instance
  }

  /** A peer and its log after one reading of its server. */
  ghost function Recorded(p: Peer, log: seq<Event>, stats: map<Key, Reading>, day: nat): (Peer, seq<Event>) {
    (Record(p, ReadingOf(p, stats), day), log + [Entry(p, ReadingOf(p, stats), day)])
  }

  /** Kernel counters are unsigned. */
  ghost predicate RealReadings(stats: map<Key, Reading>) {
    forall k | k in stats :: stats[k].bytes.NonNegative()
  }

  type Peers = map<PeerId, Peer>
  type Logs = map<PeerId, seq<Event>>

  /** Every peer as one recorded reading would leave it. */
  ghost function Goal(was: Peers, logged: Logs, stats: map<Key, Reading>, day: nat): map<PeerId, (Peer, seq<Event>)> {
    map id | id in was && id in logged :: Recorded(was[id], logged[id], stats, day)
  }

  /** The peers in `done` have reached their goal; nobody else changed. */
  ghost predicate Reached(was: Peers, logged: Logs, peers: Peers, log: Logs, done: set<PeerId>,
                          goal: map<PeerId, (Peer, seq<Event>)>)
  {
    && peers.Keys == log.Keys == was.Keys == logged.Keys == goal.Keys
    && forall id | id in was :: (peers[id], log[id]) == if id in done then goal[id] else (was[id], logged[id])
  }

  lemma OneMore(was: Peers, logged: Logs, peers: Peers, log: Logs, todo: set<PeerId>, all: set<PeerId>,
                goal: map<PeerId, (Peer, seq<Event>)>, id: PeerId)
    requires Reached(was, logged, peers, log, all - todo, goal) && id in was && id in todo && todo <= all
    ensures peers[id] == was[id] && log[id] == logged[id]
    ensures Reached(was, logged, peers[id := goal[id].0], log[id := goal[id].1], all - (todo - {id}), goal)
  {
  }

  /** The server's peers each took the reading of their key, or its absence; nobody else changed. */
  ghost predicate EachRecorded(was: Peers, now: Peers, instance: InstanceId, stats: map<Key, Reading>, day: nat) {
    now.Keys == was.Keys &&
    forall id | id in was ::
      now[id] ==
      if was[id].instance != instance then was[id]
      else if was[id].key in stats then Record(was[id], Some(stats[was[id].key]), day)
      else Record(was[id], None, day)
  }

  lemma ReachedIsEach(was: Peers, logged: Logs, peers: Peers, log: Logs, instance: InstanceId,
                      stats: map<Key, Reading>, day: nat)
    requires Reached(was, logged, peers, log, PeersOn(was, instance), Goal(was, logged, stats, day))
    ensures EachRecorded(was, peers, instance, stats, day)
  {
  }

  // ---------------------------------------------------------------- tables and log

  /** The tables hold what replaying the peer's log gives. */
  ghost predicate Faithful(p: Peer, log: seq<Event>) {
    p.ledger == Replay(log) && Grows(log)
  }

  lemma LogGrows(p: Peer, log: seq<Event>, e: Event)
    requires Faithful(p, log) && (e.Added? ==> e.bytes.NonNegative())
    ensures Faithful(p.(ledger := Step(p.ledger, e)), log + [e])
  {
    assert (log + [e])[..|log|] == log;
  }

  lemma NewFaithful(p: Peer)
    requires p.ledger == NEW_LEDGER.(period := p.ledger.period)
    ensures Faithful(p, [PeriodSet(p.ledger.period)])
  {
    assert [PeriodSet(p.ledger.period)][..0] == [];
  }

  // ---------------------------------------------------------------- the device list

  datatype DeviceFilter = DeviceFilter(after: nat, instance: Option<InstanceId>, externalId: string,
                                       status: Option<Status>, limit: nat)

  /** What API clients are shown as the device's status. */
  ghost function Shown(p: Peer, month: int, now: int): Status {
    StatusOf(p.limits, LimitUsage(p.ledger, month), now)
  }

  /** What a device list with this filter should hold, by the rule for shown statuses. */
  ghost predicate Matches(f: DeviceFilter, p: Peer, month: int, now: int) {
    && (f.instance.Some? ==> p.instance == f.instance.value)
    && (f.externalId != "" ==> p.externalId == f.externalId)
    && (f.status.Some? ==> Shown(p, month, now) == f.status.value)
  }

  /** The SQL filter, with its own limit sum, picks the devices shown with that status. */
  lemma FilterIsShown(p: Peer, status: Status, month: int, now: int)
    requires Sound(p.ledger) && p.limits.dataLimit >= 0
    ensures Filter(status, p.limits, LimitUsed(p.ledger, month), Unix(now)) <==> Shown(p, month, now) == status
  {
    ClampNeverBites(p.ledger, month);
    FilterAgrees(p.limits, LimitUsage(p.ledger, month), now);
  }

  /** The four filters split the devices: each device is in exactly one. */
  lemma FiltersPartition(p: Peer, month: int, now: int) returns (s: Status)
    requires Sound(p.ledger) && p.limits.dataLimit >= 0
    ensures forall t: Status :: Filter(t, p.limits, LimitUsed(p.ledger, month), Unix(now)) <==> t == s
  {
    s := Shown(p, month, now);
    forall t: Status
      ensures Filter(t, p.limits, LimitUsed(p.ledger, month), Unix(now)) <==> t == s
    {
      FilterIsShown(p, t, month, now);
    }
  }

  method SumLimit(l: Ledger, month: int) returns (sum: Traffic, before: Traffic)
    ensures sum == SumFrom(l.days, LimitStart(l, month)) && before == Before(l, month)
  {
    var start := if l.period.Whole? then l.resetDay else Max(month, l.resetDay);
    sum := SumRows(l.days, start);
    before := if l.resetDay == start then l.resetUsage else ZERO;
  }

  method Passes(f: DeviceFilter, p: Peer, month: int, now: int) returns (pass: bool)
    requires Sound(p.ledger) && p.limits.dataLimit >= 0
    ensures pass <==> Matches(f, p, month, now)
  {
    pass := f.instance.None? || p.instance == f.instance.value;
    pass := pass && (f.externalId == "" || p.externalId == f.externalId);
    if pass && f.status.Some? {
      pass := PassesStatus(f.status.value, p, month, now);
    }
  }

  method PassesStatus(status: Status, p: Peer, month: int, now: int) returns (pass: bool)
    requires Sound(p.ledger) && p.limits.dataLimit >= 0
    ensures pass <==> Shown(p, month, now) == status
  {
    var sum, before := SumLimit(p.ledger, month);
    FilterIsShown(p, status, month, now);
    pass := Filter(status, p.limits, Max(0, sum.Total() - before.Total()), Unix(now));
  }

  /** The wanted ids listed so far, in order, and those still to be looked at, all larger. */
  ghost predicate Listed(out: seq<PeerId>, rest: set<PeerId>, wanted: set<PeerId>) {
    && (forall i, j | 0 <= i < j < |out| :: out[i] < out[j])
    && (forall o | o in out :: o in wanted && forall id | id in rest :: o < id)
    && (forall id | id in wanted && id !in out :: id in rest)
  }

  lemma ListedStep(out: seq<PeerId>, rest: set<PeerId>, wanted: set<PeerId>, id: PeerId)
    requires Listed(out, rest, wanted) && id in rest && forall later | later in rest :: id <= later
    ensures Listed(if id in wanted then out + [id] else out, rest - {id}, wanted)
  {
    assert forall i | 0 <= i < |out| :: out[i] in out;
  }

  class Store {
    var peers: map<PeerId, Peer>
    ghost var log: map<PeerId, seq<Event>>

    ghost predicate Valid()
      reads this
    {
      log.Keys == peers.Keys && forall id | id in peers :: Faithful(peers[id], log[id])
    }

    constructor ()
      ensures Valid() && peers == map[]
    {
      peers, log := map[], map[];
    }

    method CreatePeer(id: PeerId, p: Peer)
      requires Valid() && id !in peers
      requires p == NewPeer(p.instance, p.key, p.limits, p.externalId, p.ledger.period)
      modifies this
      ensures Valid() && peers == old(peers)[id := p]
      ensures log == old(log)[id := [PeriodSet(p.ledger.period)]]
    {
      NewFaithful(p);
      peers, log := peers[id := p], log[id := [PeriodSet(p.ledger.period)]];
    }

    /** Deleting a peer takes its counters and usage with it. */
    method DeletePeer(id: PeerId) returns (found: bool)
      requires Valid()
      modifies this
      ensures Valid() && found == (id in old(peers))
      ensures peers == old(peers) - {id} && log == old(log) - {id}
    {
      found := id in peers;
      peers, log := peers - {id}, log - {id};
    }

    method UpdatePeer(id: PeerId, limits: Limits, externalId: string, period: Period) returns (found: bool)
      requires Valid()
      modifies this
      ensures Valid() && found == (id in old(peers))
      ensures !found ==> peers == old(peers) && log == old(log)
      ensures found ==> log == old(log)[id := old(log)[id] + [PeriodSet(period)]]
      ensures found ==> peers == old(peers)[id :=
        old(peers)[id].(limits := limits, externalId := externalId, ledger := old(peers)[id].ledger.(period := period))]
    {
      found := id in peers;
      if found {
        var p := peers[id];
        LogGrows(p, log[id], PeriodSet(period));
        peers := peers[id := p.(limits := limits, externalId := externalId, ledger := p.ledger.(period := period))];
        log := log[id := log[id] + [PeriodSet(period)]];
      }
    }

    /** Writes the table only: neither server's interface changes yet. */
    method MovePeer(id: PeerId, instance: InstanceId) returns (found: bool)
      requires Valid()
      modifies this
      ensures Valid() && found == (id in old(peers)) && log == old(log)
      ensures !found ==> peers == old(peers)
      ensures found ==> peers == old(peers)[id := Moved(old(peers)[id], instance)]
    {
      found := id in peers;
      if found {
        peers := peers[id := peers[id].(instance := instance, handshake := None, counter := Some(ZERO))];
      }
    }

    method ResetPeerUsage(id: PeerId, day: nat) returns (found: bool)
      requires Valid()
      modifies this
      ensures Valid() && found == (id in old(peers))
      ensures !found ==> peers == old(peers) && log == old(log)
      ensures found ==> log == old(log)[id := old(log)[id] + [Reset(day)]]
      ensures found ==> peers == old(peers)[id := old(peers)[id].(ledger := Step(old(peers)[id].ledger, Reset(day)))]
    {
      found := id in peers;
      if found {
        var p := peers[id];
        LogGrows(p, log[id], Reset(day));
        peers := peers[id := p.(ledger := p.ledger.(resetDay := day, resetUsage := At(p.ledger.days, day)))];
        log := log[id := log[id] + [Reset(day)]];
      }
    }

    method RecordOne(id: PeerId, stats: map<Key, Reading>, day: nat)
      requires Valid() && id in peers && RealReadings(stats)
      modifies this
      ensures Valid()
      ensures var (p, l) := Recorded(old(peers)[id], old(log)[id], stats, day);
              peers == old(peers)[id := p] && log == old(log)[id := l]
    {
      var p := peers[id];
      var reading := ReadingOf(p, stats);
      Counters.UsedNonNegative(p.counter, Bytes(reading));
      LogGrows(p, log[id], Entry(p, reading, day));
      var p' := RecordPeer(p, reading, day);
      peers, log := peers[id := p'], log[id := log[id] + [Entry(p, reading, day)]];
    }

    /** One reading of a server's interface: each of its peers is recorded once, nobody else changes. */
    method RecordTraffic(instance: InstanceId, stats: map<Key, Reading>, day: nat)
      requires Valid() && RealReadings(stats)
      modifies this
      ensures Valid()
      ensures Reached(old(peers), old(log), peers, log, PeersOn(old(peers), instance),
                      Goal(old(peers), old(log), stats, day))
      ensures EachRecorded(old(peers), peers, instance, stats, day)
    {
      ghost var was, logged, goal := peers, log, Goal(peers, log, stats, day);
      var all := PeersOn(peers, instance);
      var todo := all;
      while todo != {}
        invariant Valid() && todo <= all
        invariant Reached(was, logged, peers, log, all - todo, goal)
        decreases todo
      {
        var id :| id in todo;
        OneMore(was, logged, peers, log, todo, all, goal, id);
        RecordOne(id, stats, day);
        todo := todo - {id};
      }
      assert all - todo == all;
      ReachedIsEach(was, logged, peers, log, instance, stats, day);
    }

    /** limitUsage's row for one peer: the plain log's sum, whenever time did not run backwards. */
    method PeerLimitUsage(id: PeerId, month: int) returns (t: Traffic)
      requires Valid() && id in peers
      ensures t == TrafficLog.LimitUsage(peers[id].ledger, month)
      ensures TimeOrdered(log[id]) ==> t == LogUsage(log[id], PeriodOf(log[id]), month)
    {
      var sum, before := SumLimit(peers[id].ledger, month);
      t := Clamp(sum.Minus(before));
      if TimeOrdered(log[id]) {
        LimitIsLog(log[id], month);
      }
    }

    /** What counts toward each peer's limit on one server; peers with nothing are absent. */
    method LimitUsage(instance: InstanceId, month: int) returns (used: map<PeerId, Traffic>)
      requires Valid()
      ensures forall id | id in peers && peers[id].instance == instance ::
                id in used <==> TrafficLog.LimitUsage(peers[id].ledger, month).Total() > 0
      ensures forall id | id in used ::
                id in peers && peers[id].instance == instance
                && used[id] == TrafficLog.LimitUsage(peers[id].ledger, month)
    {
      used := map[];
      var all := PeersOn(peers, instance);
      var todo := all;
      while todo != {}
        invariant todo <= all
        invariant forall id | id in all && id !in todo ::
                    id in used <==> TrafficLog.LimitUsage(peers[id].ledger, month).Total() > 0
        invariant forall id | id in used ::
                    id in all && id !in todo && used[id] == TrafficLog.LimitUsage(peers[id].ledger, month)
        decreases todo
      {
        var id :| id in todo;
        var t := PeerLimitUsage(id, month);
        if t.Total() > 0 {
          used := used[id := t];
        }
        todo := todo - {id};
      }
    }

    /** The month's chart for one peer: every byte since the month began, whatever was reset since. */
    method PeerMonthUsage(id: PeerId, month: int) returns (t: Traffic)
      requires Valid() && id in peers
      ensures t == LogMonth(log[id], month)
    {
      MonthIsLog(log[id], month);
      t := SumRows(peers[id].ledger.days, month);
    }

    /** Devices by ascending ID: exactly the first `limit` after the cursor that the filter's rule names. */
    method Devices(f: DeviceFilter, month: int, now: int) returns (out: seq<PeerId>)
      requires Valid() && forall id | id in peers :: peers[id].limits.dataLimit >= 0
      ensures forall i, j | 0 <= i < j < |out| :: out[i] < out[j]
      ensures forall id | id in out :: id in peers && id > f.after && Matches(f, peers[id], month, now)
      ensures |out| <= f.limit
      ensures forall id | id in peers && id > f.after && id !in out && Matches(f, peers[id], month, now) ::
                |out| == f.limit && forall o | o in out :: o < id
    {
      out := [];
      var all := set id | id in peers && id > f.after;
      ghost var wanted := set id | id in all && Matches(f, peers[id], month, now);
      var rest := all;
      while rest != {} && |out| < f.limit
        invariant |out| <= f.limit && rest <= all
        invariant Listed(out, rest, wanted)
        decreases rest
      {
        var id := Least(rest);
        var pass := IsListed(f, id, month, now);
        ListedStep(out, rest, wanted, id);
        rest := rest - {id};
        if pass {
          out := out + [id];
        }
      }
    }

    method IsListed(f: DeviceFilter, id: PeerId, month: int, now: int) returns (pass: bool)
      requires Valid() && id in peers && peers[id].limits.dataLimit >= 0
      ensures pass <==> Matches(f, peers[id], month, now)
    {
      ReplaySound(log[id]);
      pass := Passes(f, peers[id], month, now);
    }
  }

  // ---------------------------------------------------------------- a peer's rows and the wire

  function OnWire(reading: Option<Traffic>): Option<Reading> {
    if reading.Some? then Some(Reading(reading.value, None)) else None
  }

  function RowNext(row: Peer, l: Counters.Link, w: Counters.Wire): Peer {
    match w
    case Read(day) => Record(row, OnWire(Counters.ReadingAt(l)), day)
    case Move(to) => Moved(row, to)
    case _ => row
  }

  /** A peer's rows after everything that happened to it on the wire. */
  function RowsAfter(p: Peer, wires: seq<Counters.Wire>): Peer {
    if wires == [] then p
    else
      var before := wires[..|wires| - 1];
      RowNext(RowsAfter(p, before), Counters.Run(p.instance, before), wires[|wires| - 1])
  }

  /** The rows hold what the wire's account says. */
  ghost predicate Accounts(row: Peer, l: Counters.Link) {
    row.instance == l.server && row.counter == l.last && SumFrom(row.ledger.days, 0) == l.counted
  }

  /** The day rows together hold what was counted, and the counter what was last read. */
  lemma {:induction false} RowsAreCounted(p: Peer, wires: seq<Counters.Wire>)
    requires p.counter.None? && p.ledger.days == map[] && Counters.RealTraffic(wires)
    ensures Accounts(RowsAfter(p, wires), Counters.Run(p.instance, wires))
  {
    if wires == [] {
      SumFromLast(p.ledger.days, 0);
    } else {
      var before := wires[..|wires| - 1];
      assert forall x | x in before :: x in wires;
      RowsAreCounted(p, before);
      Counters.RunKeeps(p.instance, before);
      StepIsCounted(RowsAfter(p, before), Counters.Run(p.instance, before), wires[|wires| - 1]);
    }
  }

  lemma StepIsCounted(row: Peer, l: Counters.Link, w: Counters.Wire)
    requires Accounts(row, l) && Counters.Inv(l)
    ensures Accounts(RowNext(row, l, w), Counters.Step(l, w))
  {
    if w.Read? {
      ReadIsCounted(row, l, w.day);
    }
  }

  lemma ReadIsCounted(row: Peer, l: Counters.Link, day: nat)
    requires Counters.Inv(l) && row.counter == l.last && SumFrom(row.ledger.days, 0) == l.counted
    ensures var next := Record(row, OnWire(Counters.ReadingAt(l)), day);
            next.counter == Counters.Recorded(l).last && SumFrom(next.ledger.days, 0) == Counters.Recorded(l).counted
  {
    var reading := OnWire(Counters.ReadingAt(l));
    assert Bytes(reading) == Counters.ReadingAt(l);
    RecordAdds(row, reading, day);
    Counters.RecordedCounts(l);
  }

  lemma RecordAdds(row: Peer, reading: Option<Reading>, day: nat)
    requires reading.Some? ==> reading.value.bytes.NonNegative()
    ensures SumFrom(Record(row, reading, day).ledger.days, 0) ==
            SumFrom(row.ledger.days, 0).Plus(Counters.Used(row.counter, Bytes(reading)))
  {
    Counters.UsedNonNegative(row.counter, Bytes(reading));
    SumFromAdded(row.ledger.days, day, Counters.Used(row.counter, Bytes(reading)), 0);
  }

  /** The last handshake after a run of readings. */
  function ShakenAfter(shaken: Option<int>, readings: seq<Option<Reading>>): Option<int> {
    if readings == [] then shaken
    else NextHandshake(ShakenAfter(shaken, readings[..|readings| - 1]), readings[|readings| - 1])
  }

  predicate Shook(readings: seq<Option<Reading>>, i: nat)
    requires i < |readings|
  {
    readings[i].Some? && readings[i].value.handshake.Some?
  }

  /** Is the latest that was ever read; readings without one, or with an older one, leave it. */
  lemma {:induction false} HandshakeIsLatest(readings: seq<Option<Reading>>)
    ensures var h := ShakenAfter(None, readings);
            && (h.None? <==> forall i | 0 <= i < |readings| :: !Shook(readings, i))
            && (h.Some? ==> exists i :: 0 <= i < |readings| && Shook(readings, i) && readings[i].value.handshake == h)
            && (forall i | 0 <= i < |readings| && Shook(readings, i) ::
                  h.Some? && readings[i].value.handshake.value <= h.value)
  {
    if readings != [] {
      var n := |readings| - 1;
      var before := readings[..n];
      HandshakeIsLatest(before);
      forall i | 0 <= i < n
        ensures Shook(before, i) == Shook(readings, i) && before[i] == readings[i]
      {
      }
      assert Shook(readings, n) || !Shook(readings, n);
    }
  }
}
