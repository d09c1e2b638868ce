/** Who is online: judged from the bytes a peer sends and the age of its handshake. */
module Activity {
  import opened Sets
  import opened Times
  import opened Wrappers

  /** Times are in nanoseconds. */
  const HANDSHAKE_WINDOW := 180 * SECOND

  /** One look at a peer. */
  datatype Reading = Reading(now: int, rx: nat, handshake: Option<int>, keepalive: nat)

  datatype Sample = Sample(rx: nat, since: int, seen: int, grew: bool, online: bool, onlineSince: int)

  function Window(keepalive: nat): int {
    2 * keepalive * SECOND + 10 * SECOND
  }

  predicate Recent(r: Reading) {
    r.handshake.Some? && r.now - r.handshake.value < HANDSHAKE_WINDOW
  }

  /** Silence proves nothing without a keepalive; with one it does after a while. */
  predicate Online(r: Reading, since: int, grew: bool) {
    if r.keepalive == 0 then Recent(r)
    else if r.now - since >= Window(r.keepalive) then false
    else grew || Recent(r)
  }

  /** What is remembered of a peer after a reading. */
  function Step(was: Option<Sample>, r: Reading): Sample {
    var s :=
      if was.None? || r.rx < was.value.rx then Sample(r.rx, r.now, r.now, false, false, 0)
      else if r.rx > was.value.rx then
        Sample(r.rx, r.now, r.now, r.now - was.value.seen <= Window(r.keepalive), false, 0)
      else was.value.(seen := r.now);
    var online := Online(r, s.since, s.grew);
    var before := if was.Some? then was.value.onlineSince else 0;
    s.(online := online,
       onlineSince := if online && (was.None? || !was.value.online) then r.now else before)
  }

  // ---------------------------------------------------------------- the tracker

  type Key = nat

  datatype PeerStats = PeerStats(rx: nat, handshake: Option<int>, endpoint: string, online: bool)

  datatype PeerChange = PeerChange(instance: nat, key: Key, online: bool, endpoint: string, onlineSince: int)

  type Samples = map<Key, Sample>

  function ReadingOf(st: PeerStats, keepalive: nat, now: int): Reading {
    Reading(now, st.rx, st.handshake, keepalive)
  }

  function Previous(prev: Samples, key: Key): Option<Sample> {
    if key in prev then Some(prev[key]) else None
  }

  function SampleAfter(prev: Samples, key: Key, st: PeerStats, keepalive: nat, now: int): Sample {
    Step(Previous(prev, key), ReadingOf(st, keepalive, now))
  }

  /** A peer is reported when it was there before and its state is another one now. */
  predicate Changed(prev: Samples, next: Samples, key: Key) {
    key in prev && key in next && prev[key].online != next[key].online
  }

  function Of(peers: map<nat, Samples>, instance: nat): Samples {
    if instance in peers then peers[instance] else map[]
  }

  function ChangeOf(instance: nat, next: Samples, stats: map<Key, PeerStats>, key: Key): PeerChange
    requires key in next && key in stats
  {
    PeerChange(instance, key, next[key].online, stats[key].endpoint, next[key].onlineSince)
  }

  /** Every peer of the reading steps; the others are forgotten. */
  function Observed(prev: Samples, stats: map<Key, PeerStats>, keepalive: nat, now: int): (next: Samples)
    ensures next.Keys == stats.Keys
  {
    map key | key in stats :: SampleAfter(prev, key, stats[key], keepalive, now)
  }

  /** Exactly the changed ones among `keys` are reported, once each. */
  ghost predicate Reported(
    changes: seq<PeerChange>, instance: nat, prev: Samples, next: Samples, stats: map<Key, PeerStats>, keys: set<Key>)
    requires next.Keys == stats.Keys
  {
    && (forall key | key in keys && Changed(prev, next, key) :: ChangeOf(instance, next, stats, key) in changes)
    && (forall c | c in changes ::
          c.key in keys && Changed(prev, next, c.key) && c == ChangeOf(instance, next, stats, c.key))
    && (forall i, j | 0 <= i < j < |changes| :: changes[i].key != changes[j].key)
  }

  lemma ReportedStep(
    changes: seq<PeerChange>, instance: nat, prev: Samples, next: Samples, stats: map<Key, PeerStats>, keys: set<Key>,
    key: Key)
    requires next.Keys == stats.Keys && key in next && key !in keys
    requires Reported(changes, instance, prev, next, stats, keys)
    ensures Reported(
              if Changed(prev, next, key) then changes + [ChangeOf(instance, next, stats, key)] else changes,
              instance, prev, next, stats, keys + {key})
  {
  }

  /** The reading as the panel shows it, with who is online filled in. */
  function Shown(stats: map<Key, PeerStats>, next: Samples): map<Key, PeerStats>
    requires next.Keys == stats.Keys
  {
    map key | key in stats :: stats[key].(online := next[key].online)
  }

  /** One pass over a reading. */
  method Look(instance: nat, prev: Samples, stats: map<Key, PeerStats>, keepalive: nat, now: int)
    returns (next: Samples, seen: map<Key, PeerStats>, changes: seq<PeerChange>)
    ensures next == Observed(prev, stats, keepalive, now)
    ensures seen == Shown(stats, next)
    ensures Reported(changes, instance, prev, next, stats, stats.Keys)
  {
    ghost var goal := Observed(prev, stats, keepalive, now);
    ghost var done: set<Key> := {};
    next, changes := map[], [];
    var rest := stats.Keys;
    while rest != {}
      invariant done + rest == stats.Keys && done !! rest
      invariant next.Keys == done && forall key | key in done :: next[key] == goal[key]
      invariant Reported(changes, instance, prev, goal, stats, done)
      decreases rest
    {
      var key := Least(rest);
      var s := SampleAfter(prev, key, stats[key], keepalive, now);
      ReportedStep(changes, instance, prev, goal, stats, done, key);
      rest := rest - {key};
      done := done + {key};
      next := next[key := s];
      if key in prev && s.online != prev[key].online {
        changes := changes + [PeerChange(instance, key, s.online, stats[key].endpoint, s.onlineSince)];
      }
    }
    assert next == goal;
    seen := Shown(stats, next);
  }

  /** What is remembered after all the readings of a peer that stayed. */
  function After(rs: seq<Reading>): Sample
    requires rs != []
  {
    var n := |rs| - 1;
    Step(if n == 0 then None else Some(After(rs[..n])), rs[n])
  }

  /** Every reading of each peer since it was first seen or seen again. */
  type History = map<Key, seq<Reading>>

  /** What is kept of a peer is what all its readings leave. */
  ghost predicate Remembers(samples: Samples, history: History) {
    && samples.Keys == history.Keys
    && forall key | key in samples :: history[key] != [] && samples[key] == After(history[key])
  }

  function ReadingsOf(history: History, key: Key): seq<Reading> {
    if key in history then history[key] else []
  }

  function Extended(history: History, stats: map<Key, PeerStats>, keepalive: nat, now: int): History {
    map key | key in stats :: ReadingsOf(history, key) + [ReadingOf(stats[key], keepalive, now)]
  }

  function HistoryOf(histories: map<nat, History>, instance: nat): History {
    if instance in histories then histories[instance] else map[]
  }

  ghost predicate AllRemember(peers: map<nat, Samples>, histories: map<nat, History>) {
    peers.Keys == histories.Keys && forall i | i in peers :: Remembers(peers[i], histories[i])
  }

  lemma PutRemembers(
    peers: map<nat, Samples>, histories: map<nat, History>, instance: nat, samples: Samples, history: History)
    requires AllRemember(peers, histories) && Remembers(samples, history)
    ensures AllRemember(peers[instance := samples], histories[instance := history])
  {
  }

  lemma OneRemembers(peers: map<nat, Samples>, histories: map<nat, History>, instance: nat)
    requires AllRemember(peers, histories)
    ensures Remembers(Of(peers, instance), HistoryOf(histories, instance))
  {
  }

  lemma ObservedRemembers(prev: Samples, history: History, stats: map<Key, PeerStats>, keepalive: nat, now: int)
    requires Remembers(prev, history)
    ensures Remembers(Observed(prev, stats, keepalive, now), Extended(history, stats, keepalive, now))
  {
    forall key | key in stats
      ensures SampleAfter(prev, key, stats[key], keepalive, now) == After(Extended(history, stats, keepalive, now)[key])
    {
      var rs, r := ReadingsOf(history, key), ReadingOf(stats[key], keepalive, now);
      assert (rs + [r])[..|rs|] == rs;
    }
  }

  class Tracker {
    var peers: map<nat, Samples>
    ghost var histories: map<nat, History>

    ghost predicate Valid()
      reads this
    {
      AllRemember(peers, histories)
    }

    constructor ()
      ensures Valid() && peers == map[] && histories == map[]
    {
      peers, histories := map[], map[];
    }

    method Observe(instance: nat, stats: map<Key, PeerStats>, keepalive: nat, now: int)
      returns (seen: map<Key, PeerStats>, changes: seq<PeerChange>)
      requires Valid()
      modifies this
      ensures Valid()
      ensures histories ==
              old(histories)[instance := Extended(HistoryOf(old(histories), instance), stats, keepalive, now)]
      ensures peers == old(peers)[instance := Observed(Of(old(peers), instance), stats, keepalive, now)]
      ensures seen == Shown(stats, peers[instance])
      ensures Reported(changes, instance, Of(old(peers), instance), peers[instance], stats, stats.Keys)
    {
      var prev, next := Of(peers, instance), map[];
      ghost var history := HistoryOf(histories, instance);
      OneRemembers(peers, histories, instance);
      ObservedRemembers(prev, history, stats, keepalive, now);
      next, seen, changes := Look(instance, prev, stats, keepalive, now);
      PutRemembers(peers, histories, instance, next, Extended(history, stats, keepalive, now));
      histories := histories[instance := Extended(history, stats, keepalive, now)];
      peers := peers[instance := next];
    }

    method Forget(instance: nat)
      requires Valid()
      modifies this
      ensures Valid() && peers == old(peers) - {instance} && histories == old(histories) - {instance}
    {
      peers, histories := peers - {instance}, histories - {instance};
    }
  }

  // ---------------------------------------------------------------- every run of readings of one peer

  predicate OnlineAt(rs: seq<Reading>, i: nat)
    requires i < |rs|
  {
    After(rs[..i + 1]).online
  }

  datatype Report = Report(at: nat, online: bool, since: int)

  /** What was reported, in order. */
  function Reports(rs: seq<Reading>): seq<Report> {
    if |rs| <= 1 then []
    else
      var n := |rs| - 1;
      var s := After(rs);
      Reports(rs[..n]) + if s.online != After(rs[..n]).online then [Report(n, s.online, s.onlineSince)] else []
  }

  /** Nothing is reported at first sight; after that reports alternate, and the last one says how things are. */
  lemma {:induction false} ReportsAlternate(rs: seq<Reading>)
    requires rs != []
    ensures var reports := Reports(rs);
            && (reports == [] ==> After(rs).online == OnlineAt(rs, 0))
            && (reports != [] ==>
                  reports[|reports| - 1].online == After(rs).online && reports[0].online != OnlineAt(rs, 0))
            && (forall k | 0 < k < |reports| :: reports[k].online != reports[k - 1].online)
  {
    if |rs| > 1 {
      var n := |rs| - 1;
      ReportsAlternate(rs[..n]);
      assert rs[..n][..1] == rs[..1];
    } else {
      assert rs[..1] == rs;
    }
  }

  /**
   What a look at an instance reports of a peer is what its readings report: one more
   report where the peer is among the changed ones, with the same state and time, and none
   otherwise.
   */
  lemma ChangesAreReports(
    prev: Samples, history: History, stats: map<Key, PeerStats>, keepalive: nat, now: int, key: Key)
    requires Remembers(prev, history) && key in stats
    ensures var next, rs := Observed(prev, stats, keepalive, now), ReadingsOf(history, key);
            Reports(Extended(history, stats, keepalive, now)[key]) ==
            Reports(rs)
            + if Changed(prev, next, key) then [Report(|rs|, next[key].online, next[key].onlineSince)] else []
  {
    ObservedRemembers(prev, history, stats, keepalive, now);
    var rs, r := ReadingsOf(history, key), ReadingOf(stats[key], keepalive, now);
    assert (rs + [r])[..|rs|] == rs;
  }

  /** A reading starts an online run when the one before it, if any, was offline. */
  predicate StartsRun(rs: seq<Reading>, i: nat)
    requires i < |rs|
  {
    OnlineAt(rs, i) && (i == 0 || !OnlineAt(rs, i - 1))
  }

  /** Readings `i` to `j` form one online run from its start. */
  ghost predicate OnlineRun(rs: seq<Reading>, i: nat, j: nat)
    requires i <= j < |rs|
  {
    StartsRun(rs, i) && forall k: nat | i <= k <= j :: OnlineAt(rs, k)
  }

  lemma OnlineAtPrefix(rs: seq<Reading>, n: nat, i: nat)
    requires i < n <= |rs|
    ensures OnlineAt(rs[..n], i) == OnlineAt(rs, i)
  {
    assert rs[..n][..i + 1] == rs[..i + 1];
  }

  lemma OnlineRunPrefix(rs: seq<Reading>, n: nat, i: nat, j: nat)
    requires i <= j < n <= |rs| && OnlineRun(rs[..n], i, j)
    ensures OnlineRun(rs, i, j)
  {
    forall k: nat | k <= j
      ensures OnlineAt(rs[..n], k) == OnlineAt(rs, k)
    {
      OnlineAtPrefix(rs, n, k);
    }
  }

  /** While a peer is online, and at the reading that finds it gone, the time kept is when that run began. */
  lemma {:induction false} OnlineSinceIsRunStart(rs: seq<Reading>) returns (i: nat)
    requires rs != [] && (After(rs).online || (|rs| > 1 && After(rs[..|rs| - 1]).online))
    ensures var j := if After(rs).online then |rs| - 1 else |rs| - 2;
            i <= j < |rs| && OnlineRun(rs, i, j) && After(rs).onlineSince == rs[i].now
  {
    var n := |rs| - 1;
    assert rs[..n + 1] == rs;
    if n > 0 {
      assert OnlineAt(rs, n - 1) == After(rs[..n]).online;
    }
    if n > 0 && After(rs[..n]).online {
      i := OnlineSinceIsRunStart(rs[..n]);
      OnlineRunPrefix(rs, n, i, n - 1);
    } else {
      i := n;
    }
  }

  /** A disconnect names the first reading of the online run that just ended. */
  lemma {:induction false} DisconnectNamesItsRun(rs: seq<Reading>, k: nat) returns (i: nat)
    requires k < |Reports(rs)| && !Reports(rs)[k].online
    ensures var r := Reports(rs)[k];
            0 < r.at < |rs| && i < r.at && OnlineRun(rs, i, r.at - 1) && !OnlineAt(rs, r.at) && r.since == rs[i].now
  {
    var n := |rs| - 1;
    assert rs[..n + 1] == rs;
    if k < |Reports(rs[..n])| {
      i := DisconnectNamesItsRun(rs[..n], k);
      var at := Reports(rs[..n])[k].at;
      OnlineRunPrefix(rs, n, i, at - 1);
      OnlineAtPrefix(rs, n, at);
    } else {
      i := OnlineSinceIsRunStart(rs);
    }
  }

  // ---------------------------------------------------------------- what the history says

  /** The last reading whose count differs from the one before it; the first reading when none does. */
  function LastChange(rs: seq<Reading>): (c: nat)
    requires rs != []
    ensures c < |rs| && forall k | c <= k < |rs| :: rs[k].rx == rs[c].rx
    ensures c > 0 ==> rs[c].rx != rs[c - 1].rx
  {
    var n := |rs| - 1;
    if n == 0 || rs[n].rx != rs[n - 1].rx then n else LastChange(rs[..n])
  }

  /** The last change was a growth, and followed the reading before it closely. */
  predicate GrewAt(rs: seq<Reading>, c: nat)
    requires c < |rs|
  {
    c > 0 && rs[c].rx > rs[c - 1].rx && rs[c].now - rs[c - 1].now <= Window(rs[c].keepalive)
  }

  /** The sample holds what a look back over all the readings finds. */
  lemma {:induction false} SampleIsHistory(rs: seq<Reading>)
    requires rs != []
    ensures var s, c := After(rs), LastChange(rs);
            && s.rx == rs[|rs| - 1].rx && s.seen == rs[|rs| - 1].now
            && s.since == rs[c].now && s.grew == GrewAt(rs, c)
            && s.online == Online(rs[|rs| - 1], rs[c].now, GrewAt(rs, c))
  {
    var n := |rs| - 1;
    if n > 0 {
      SampleIsHistory(rs[..n]);
    }
  }

  predicate Ordered(rs: seq<Reading>) {
    forall i, j | 0 <= i < j < |rs| :: rs[i].now <= rs[j].now
  }

  /** With a keepalive, a count that stands still over the window means offline. */
  lemma SilenceIsOffline(rs: seq<Reading>, i: nat)
    requires rs != [] && Ordered(rs) && i < |rs|
    requires forall k | i <= k < |rs| :: rs[k].rx == rs[i].rx
    requires var last := rs[|rs| - 1]; last.keepalive > 0 && last.now - rs[i].now >= Window(last.keepalive)
    ensures !After(rs).online
  {
    SampleIsHistory(rs);
    assert LastChange(rs) <= i;
  }

  /** With a keepalive, a peer without a fresh handshake is online only by growth seen within the window. */
  lemma OnlineNeedsEvidence(rs: seq<Reading>)
    requires rs != [] && rs[|rs| - 1].keepalive > 0 && !Recent(rs[|rs| - 1])
    ensures After(rs).online <==>
            var last, c := rs[|rs| - 1], LastChange(rs);
            GrewAt(rs, c) && last.now - rs[c].now < Window(last.keepalive)
  {
    SampleIsHistory(rs);
  }

  /** A handshake of the last three minutes; without a keepalive that is all that counts. */
  lemma HandshakeDecides(rs: seq<Reading>)
    requires rs != [] && rs[|rs| - 1].keepalive == 0
    ensures var last := rs[|rs| - 1];
            After(rs).online <==> last.handshake.Some? && last.now - last.handshake.value < 180_000_000_000
  {
    SampleIsHistory(rs);
  }

  /** With a keepalive, and a fresh handshake, online until the count stood still for two keepalives and ten seconds. */
  lemma FreshUntilSilent(rs: seq<Reading>)
    requires rs != [] && rs[|rs| - 1].keepalive > 0
    requires var last := rs[|rs| - 1];
             last.handshake.Some? && last.now - last.handshake.value < 180_000_000_000
    ensures var last := rs[|rs| - 1];
            After(rs).online <==>
            last.now - rs[LastChange(rs)].now < (2 * last.keepalive + 10) * 1_000_000_000
  {
    SampleIsHistory(rs);
  }
}
