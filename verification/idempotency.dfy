/** Idempotency keys: claim, run the request, then finish or release, with two timeouts. */
module Idempotency {
  import opened Times
  import opened Wrappers

  /** In nanoseconds: how long a reply is replayed, and when a running claim counts as abandoned. */
  const TTL := 86400 * SECOND
  const STALE := 300 * SECOND

  type RequestHash = int

  datatype Reply = Reply(status: nat, contentType: string, body: string)

  const NO_REPLY := Reply(0, "", "")

  /** A row with status 0 belongs to a request without a reply yet; `created` is in Unix seconds. */
  datatype Row = Row(hash: RequestHash, reply: Reply, created: int)

  datatype Claim = Run | Replay(reply: Reply) | Mismatch | Busy

  function Expired(r: Row, now: int): bool {
    r.created < Unix(now - TTL) || (r.reply.status == 0 && r.created < Unix(now - STALE))
  }

  /** A claim on one key: what is stored afterwards, and what the caller is to do. */
  function Claimed(row: Option<Row>, hash: RequestHash, now: int): (Option<Row>, Claim) {
    if row.None? || Expired(row.value, now) then (Some(Row(hash, NO_REPLY, Unix(now))), Run)
    else if row.value.hash != hash then (row, Mismatch)
    else if row.value.reply.status == 0 then (row, Busy)
    else (row, Replay(row.value.reply))
  }

  function Finished(row: Option<Row>, reply: Reply): Option<Row> {
    if row.Some? then Some(row.value.(reply := reply)) else None
  }

  /** A reply that is not kept, so that the same request can be sent once more. */
  predicate Retryable(status: nat) {
    status == 500 || status == 429
  }

  function Purged(row: Option<Row>, before: int): Option<Row> {
    if row.Some? && row.value.created < before then None else row
  }

  // ---------------------------------------------------------------- the table

  type Key = (nat, string)

  function Get(rows: map<Key, Row>, k: Key): Option<Row> {
    if k in rows then Some(rows[k]) else None
  }

  class Store {
    var rows: map<Key, Row>

    constructor ()
      ensures rows == map[]
    {
      rows := map[];
    }

    method ClaimKey(keyId: nat, key: string, hash: RequestHash, now: int) returns (claim: Claim)
      modifies this
      ensures (Get(rows, (keyId, key)), claim) == Claimed(Get(old(rows), (keyId, key)), hash, now)
      ensures rows - {(keyId, key)} == old(rows) - {(keyId, key)}
    {
      var k := (keyId, key);
      if k in rows {
        var row := rows[k];
        if row.created < Unix(now - TTL) || (row.reply.status == 0 && row.created < Unix(now - STALE)) {
          rows := rows - {k};
        }
      }
      if k !in rows {
        rows := rows[k := Row(hash, NO_REPLY, Unix(now))];
        return Run;
      }
      var row := rows[k];
      if row.hash != hash {
        return Mismatch;
      }
      if row.reply.status == 0 {
        return Busy;
      }
      return Replay(row.reply);
    }

    method FinishKey(keyId: nat, key: string, reply: Reply)
      modifies this
      ensures Get(rows, (keyId, key)) == Finished(Get(old(rows), (keyId, key)), reply)
      ensures rows - {(keyId, key)} == old(rows) - {(keyId, key)}
    {
      var k := (keyId, key);
      if k in rows {
        rows := rows[k := rows[k].(reply := reply)];
      }
    }

    method ReleaseKey(keyId: nat, key: string)
      modifies this
      ensures (keyId, key) !in rows
      ensures rows - {(keyId, key)} == old(rows) - {(keyId, key)}
    {
      rows := rows - {(keyId, key)};
    }

    method DeleteBefore(t: int)
      modifies this
      ensures forall k :: Get(rows, k) == Purged(Get(old(rows), k), Unix(t))
    {
      rows := map k | k in rows && rows[k].created >= Unix(t) :: rows[k];
    }

    /** How a request with a key ends: replay, refusal, or a run whose reply is kept or let go. */
    method EndRequest(keyId: nat, key: string, reply: Reply)
      modifies this
      ensures Get(rows, (keyId, key)) ==
        if reply.status == 500 || reply.status == 429 then None else Finished(Get(old(rows), (keyId, key)), reply)
      ensures rows - {(keyId, key)} == old(rows) - {(keyId, key)}
    {
      if reply.status == 500 || reply.status == 429 {
        ReleaseKey(keyId, key);
      } else {
        FinishKey(keyId, key, reply);
      }
    }
  }

  // ---------------------------------------------------------------- every interleaving on one key

  /** A handler that is running, and when it claimed the key. */
  datatype Flight = Flight(hash: RequestHash, claimed: int)

  /** One key's row, the handlers in flight for it and the clock, in nanoseconds. */
  datatype Sys = Sys(now: int, row: Option<Row>, flights: seq<Flight>)

  datatype Action =
    | Request(hash: RequestHash)
    | End(flight: nat, reply: Reply)  // a handler returns
    | Crash                           // the panel stops: no handler ends, the row stays as it is
    | Housekeeping                    // rows past their time go
    | Wait(d: nat)

  function Next(s: Sys, a: Action): Sys {
    match a
    case Request(hash) =>
      var (row, claim) := Claimed(s.row, hash, s.now);
      if claim.Run? then s.(row := row, flights := s.flights + [Flight(hash, s.now)]) else s.(row := row)
    case End(i, reply) =>
      if i >= |s.flights| then s
      else s.(row := if Retryable(reply.status) then None else Finished(s.row, reply),
              flights := s.flights[..i] + s.flights[i + 1..])
    case Crash => s.(flights := [])
    case Housekeeping => s.(row := Purged(s.row, Unix(s.now - TTL)))
    case Wait(d) => s.(now := s.now + d)
  }

  function After(s: Sys, actions: seq<Action>): Sys
    decreases |actions|
  {
    if actions == [] then s else After(Next(s, actions[0]), actions[1..])
  }

  /** Every handler ends less than five minutes after its claim, and with a real status. */
  ghost predicate Prompt(s: Sys, actions: seq<Action>)
    decreases |actions|
  {
    && (forall f | f in s.flights :: s.now - f.claimed < STALE)
    && (actions != [] ==>
          && (actions[0].End? ==> actions[0].reply.status != 0)
          && Prompt(Next(s, actions[0]), actions[1..]))
  }

  ghost predicate Inv(s: Sys) {
    && |s.flights| <= 1
    && (|s.flights| == 1 ==>
          && s.flights[0].claimed <= s.now
          && s.row == Some(Row(s.flights[0].hash, NO_REPLY, Unix(s.flights[0].claimed))))
  }

  /** Within the time limits no rounding to seconds expires a row early. */
  lemma YoungKept(claimed: int, now: int, limit: int)
    requires now - claimed <= limit
    ensures Unix(claimed) >= Unix(now - limit)
  {
  }

  lemma NextKeeps(s: Sys, a: Action)
    requires Inv(s) && (forall f | f in s.flights :: s.now - f.claimed < STALE)
    requires a.End? ==> a.reply.status != 0
    ensures Inv(Next(s, a))
  {
    if |s.flights| == 1 {
      assert s.flights[0] in s.flights;
      YoungKept(s.flights[0].claimed, s.now, STALE);
      YoungKept(s.flights[0].claimed, s.now, TTL);
      assert s.flights[..0] + s.flights[1..] == [];
    }
  }

  /** At most one handler runs at a time, whatever the interleaving. */
  lemma {:induction false} OneInFlight(s: Sys, actions: seq<Action>)
    requires Inv(s) && Prompt(s, actions)
    ensures Inv(After(s, actions)) && |After(s, actions).flights| <= 1
    decreases |actions|
  {
    if actions != [] {
      NextKeeps(s, actions[0]);
      OneInFlight(Next(s, actions[0]), actions[1..]);
    }
  }

  /** What each request of a run was answered, in order. */
  function Answers(s: Sys, actions: seq<Action>): seq<(RequestHash, Claim)>
    decreases |actions|
  {
    if actions == [] then []
    else
      (if actions[0].Request? then [(actions[0].hash, Claimed(s.row, actions[0].hash, s.now).1)] else [])
      + Answers(Next(s, actions[0]), actions[1..])
  }

  function Duration(actions: seq<Action>): nat {
    if actions == [] then 0 else (if actions[0].Wait? then actions[0].d else 0) + Duration(actions[1..])
  }

  /**
   Once a claim made at `claimed` has its reply, then for 24 hours from the claim nothing
   changes the row, no handler runs, and every request gets that one reply or, with another
   hash, a refusal.
   */
  lemma {:induction false} ReplaysForADay(s: Sys, actions: seq<Action>, claimed: int)
    requires s.flights == [] && s.row.Some? && s.row.value.reply.status != 0
    requires s.row.value.created == Unix(claimed) && s.now + Duration(actions) <= claimed + TTL
    ensures After(s, actions) == s.(now := s.now + Duration(actions))
    ensures forall x | x in Answers(s, actions) ::
              x.1 == if x.0 == s.row.value.hash then Replay(s.row.value.reply) else Mismatch
    decreases |actions|
  {
    if actions != [] {
      YoungKept(claimed, s.now, TTL);
      ReplaysForADay(Next(s, actions[0]), actions[1..], claimed);
    }
  }

  /** While only time passes and rows are cleaned up, a key that is free stays free. */
  lemma {:induction false} FreeStaysFree(s: Sys, actions: seq<Action>)
    requires s.row.None? && s.flights == [] && forall a | a in actions :: !a.Request?
    ensures After(s, actions).row.None? && After(s, actions).flights == []
    decreases |actions|
  {
    if actions != [] {
      assert actions[0] in actions;
      FreeStaysFree(Next(s, actions[0]), actions[1..]);
    }
  }

  /** A failed request lets go of the key: the next request with it, whenever and whatever its hash, runs. */
  lemma FailureReleases(s: Sys, reply: Reply, actions: seq<Action>, hash: RequestHash)
    requires Inv(s) && |s.flights| == 1 && reply.status in {500, 429} && forall a | a in actions :: !a.Request?
    ensures var t := After(Next(s, End(0, reply)), actions); t.row.None? && Claimed(t.row, hash, t.now).1 == Run
  {
    assert s.flights[..0] + s.flights[1..] == [];
    FreeStaysFree(Next(s, End(0, reply)), actions);
  }

  /** After the panel stopped during a request, the key is refused for five minutes from its claim. */
  lemma {:induction false} CrashIsBusy(s: Sys, actions: seq<Action>, claimed: int)
    requires s.flights == [] && s.row.Some? && s.row.value.reply.status == 0
    requires s.row.value.created == Unix(claimed) && s.now + Duration(actions) <= claimed + STALE
    ensures After(s, actions) == s.(now := s.now + Duration(actions))
    ensures forall x | x in Answers(s, actions) :: x.1 == if x.0 == s.row.value.hash then Busy else Mismatch
    decreases |actions|
  {
    if actions != [] {
      YoungKept(claimed, s.now, STALE);
      YoungKept(claimed, s.now, TTL);
      CrashIsBusy(Next(s, actions[0]), actions[1..], claimed);
    }
  }

  /** A request that keeps the key meets its own reply again. */
  lemma FinishThenReplay(s: Sys, reply: Reply, actions: seq<Action>)
    requires Inv(s) && |s.flights| == 1 && reply.status !in {500, 429, 0}
    requires s.now + Duration(actions) <= s.flights[0].claimed + TTL
    ensures forall x | x in Answers(Next(s, End(0, reply)), actions) ::
              x.1 == if x.0 == s.flights[0].hash then Replay(reply) else Mismatch
  {
    assert s.flights[..0] + s.flights[1..] == [];
    ReplaysForADay(Next(s, End(0, reply)), actions, s.flights[0].claimed);
  }

  /** A running claim is taken over exactly when it is more than five minutes old in whole seconds. */
  lemma TakeOver(row: Row, hash: RequestHash, now: int)
    requires row.reply.status == 0 && row.created <= Unix(now)
    ensures Claimed(Some(row), hash, now).1 == Run <==> Unix(now) - row.created > 300
  {
    assert Unix(now - STALE) == Unix(now) - 300;
    assert Unix(now - TTL) == Unix(now) - 86400;
  }

  /** A reply is let go of exactly when its claim is over a day old in whole seconds; then the next request runs. */
  lemma ReplyExpires(row: Row, hash: RequestHash, now: int)
    requires row.reply.status != 0
    ensures Claimed(Some(row), hash, now).1 == Run <==> Unix(now) - row.created > 86400
    ensures Claimed(Some(row), hash, now).1 == Run ==>
              Claimed(Some(row), hash, now).0 == Some(Row(hash, NO_REPLY, Unix(now)))
  {
    assert Unix(now - TTL) == Unix(now) - 86400;
  }
}
