/** Webhook deliveries as rows: every change to one, and what holds on every run of changes. */
module Deliveries {
  import opened Wrappers

  datatype State = Pending | Succeeded | Failed

  /** Times are Unix seconds, as they are stored. */
  datatype Delivery = Delivery(
    webhook: nat,
    event: nat,
    kind: string,
    payload: string,
    state: State,
    attempts: nat,
    next: Option<int>,
    last: Option<int>,
    status: nat,
    error: string,
    created: int)

  /** `events` is the stored list of kinds. */
  datatype Webhook = Webhook(url: string, events: string, enabled: bool)

  type Hooks = map<nat, Webhook>

  type Rows = map<nat, Delivery>

  /** What a receiver made of one try; status 0 means that it could not be reached. */
  datatype Answer = Answer(status: nat, error: string) {
    predicate Ok() {
      200 <= status <= 299
    }
  }

  const RETRY_DELAYS: seq<nat> := [60, 300, 1800, 7200, 21600, 43200]
  const TRIES: nat := 7

  function Fresh(webhook: nat, event: nat, kind: string, payload: string, now: int): Delivery {
    Delivery(webhook, event, kind, payload, Pending, 0, Some(now), None, 0, "", now)
  }

  /** When a try that failed is made again, by how many were made before it. */
  function NextTry(attempts: nat, at: int): Option<int> {
    if attempts < |RETRY_DELAYS| then Some(at + RETRY_DELAYS[attempts]) else None
  }

  /** A try at `at`, started when the row had `read` attempts. */
  function Finished(d: Delivery, read: nat, at: int, a: Answer): Delivery {
    var next := if a.Ok() then None else NextTry(read, at);
    d.(state := if a.Ok() then Succeeded else if next.None? then Failed else Pending,
       attempts := d.attempts + 1, next := next, last := Some(at), status := a.status,
       error := if a.Ok() then "" else a.error)
  }

  /** Due again at once, in whatever state it was. */
  function Retried(d: Delivery, now: int): Delivery {
    d.(state := Pending, next := Some(now))
  }

  /** Given up because its webhook is turned off. */
  function Cancelled(d: Delivery): Delivery {
    if d.state.Pending? then d.(state := Failed, next := None, error := "the webhook was turned off") else d
  }

  predicate Due(hooks: Hooks, d: Delivery, now: int) {
    && d.state.Pending? && d.next.Some? && d.next.value <= now
    && d.webhook in hooks && hooks[d.webhook].enabled
  }

  function Updated(rows: Rows, id: nat, enabled: bool): Rows {
    map d | d in rows :: if rows[d].webhook == id && !enabled then Cancelled(rows[d]) else rows[d]
  }

  function Purged(rows: Rows, before: int): Rows {
    map d | d in rows && (rows[d].created >= before || rows[d].state.Pending?) :: rows[d]
  }

  function Without(rows: Rows, webhook: nat): Rows {
    map d | d in rows && rows[d].webhook != webhook :: rows[d]
  }

  // ---------------------------------------------------------------- every run

  /**
   The tables, the tries under way with the attempts their rows had when they were read,
   and how often each delivery was retried by hand.
   */
  datatype Sys = Sys(hooks: Hooks, rows: Rows, nextId: nat, flying: map<nat, nat>, retries: map<nat, nat>)

  datatype Action =
    | SetWebhook(id: nat, hook: Webhook)
    | DeleteWebhook(id: nat)
    | Queue(webhook: nat, event: nat, kind: string, payload: string, now: int)
    | Retry(id: nat, now: int)
    | Start(id: nat, now: int)  // a due delivery is read and its try begins
    | Finish(id: nat, at: int, answer: Answer)
    | Abandon(id: nat)  // the panel stops during a try: nothing is recorded
    | Purge(before: int)

  function Retries(s: Sys, id: nat): nat {
    if id in s.retries then s.retries[id] else 0
  }

  function Next(s: Sys, a: Action): Sys {
    match a
    case SetWebhook(id, hook) => s.(hooks := s.hooks[id := hook], rows := Updated(s.rows, id, hook.enabled))
    case DeleteWebhook(id) => s.(hooks := s.hooks - {id}, rows := Without(s.rows, id))
    case Queue(webhook, event, kind, payload, now) =>
      if webhook !in s.hooks then s
      else s.(rows := s.rows[s.nextId := Fresh(webhook, event, kind, payload, now)], nextId := s.nextId + 1)
    case Retry(id, now) =>
      if id !in s.rows then s
      else s.(rows := s.rows[id := Retried(s.rows[id], now)], retries := s.retries[id := Retries(s, id) + 1])
    case Start(id, now) =>
      if id !in s.rows || id in s.flying || !Due(s.hooks, s.rows[id], now) then s
      else s.(flying := s.flying[id := s.rows[id].attempts])
    case Finish(id, at, answer) =>
      if id !in s.flying then s
      else if id !in s.rows then s.(flying := s.flying - {id})
      else s.(rows := s.rows[id := Finished(s.rows[id], s.flying[id], at, answer)], flying := s.flying - {id})
    case Abandon(id) => s.(flying := s.flying - {id})
    case Purge(before) => s.(rows := Purged(s.rows, before))
  }

  function After(s: Sys, actions: seq<Action>): Sys
    decreases |actions|
  {
    if actions == [] then s else After(Next(s, actions[0]), actions[1..])
  }

  /** One row: pending exactly with a time for the next try, and never tried too often. */
  predicate RowOk(d: Delivery, retries: nat) {
    && (d.state.Pending? <==> d.next.Some?)
    && d.attempts <= TRIES + retries
    && (d.state.Pending? ==> d.attempts < TRIES + retries)
  }

  /** Ids come from one counter, so none is used twice. */
  ghost predicate Numbered(s: Sys) {
    && (forall id | id in s.rows :: id < s.nextId)
    && (forall id | id in s.flying :: id < s.nextId)
    && (forall id | id in s.retries :: id < s.nextId)
  }

  ghost predicate RowsOk(s: Sys) {
    forall id | id in s.rows :: RowOk(s.rows[id], Retries(s, id)) && s.rows[id].webhook in s.hooks
  }

  ghost predicate FlyingOk(s: Sys) {
    forall id | id in s.flying && id in s.rows :: s.rows[id].attempts == s.flying[id] < TRIES + Retries(s, id)
  }

  ghost predicate Inv(s: Sys) {
    Numbered(s) && RowsOk(s) && FlyingOk(s)
  }

  lemma NumberedKeeps(s: Sys, a: Action)
    requires Numbered(s)
    ensures Numbered(Next(s, a))
  {
  }

  lemma RowsKeep(s: Sys, a: Action)
    requires Inv(s)
    ensures RowsOk(Next(s, a))
  {
  }

  lemma FlyingKeeps(s: Sys, a: Action)
    requires Inv(s)
    ensures FlyingOk(Next(s, a))
  {
  }

  lemma NextKeeps(s: Sys, a: Action)
    requires Inv(s)
    ensures Inv(Next(s, a))
  {
    NumberedKeeps(s, a);
    RowsKeep(s, a);
    FlyingKeeps(s, a);
  }

  /** On every run, and whatever else happens during a try, every row stays in order. */
  lemma {:induction false} RunKeeps(s: Sys, actions: seq<Action>)
    requires Inv(s)
    ensures Inv(After(s, actions))
    decreases |actions|
  {
    if actions != [] {
      NextKeeps(s, actions[0]);
      RunKeeps(Next(s, actions[0]), actions[1..]);
    }
  }

  /** Whether an action records a try of a delivery. */
  predicate Records(s: Sys, a: Action, id: nat) {
    a.Finish? && a.id == id && id in s.flying && id in s.rows
  }

  /** How many tries of a delivery a run records. */
  function Tries(s: Sys, actions: seq<Action>, id: nat): nat
    decreases |actions|
  {
    if actions == [] then 0
    else
      (if Records(s, actions[0], id) then 1 else 0)
      + Tries(Next(s, actions[0]), actions[1..], id)
  }

  /** What one action does to one row. */
  lemma RowStep(s: Sys, a: Action, id: nat)
    requires Numbered(s) && id < s.nextId
    ensures id !in s.rows ==> id !in Next(s, a).rows
    ensures id in s.rows && id in Next(s, a).rows ==>
              Next(s, a).rows[id].attempts == s.rows[id].attempts + if Records(s, a, id) then 1 else 0
    ensures Next(s, a).nextId >= s.nextId
  {
  }

  lemma {:induction false} GoneForGood(s: Sys, actions: seq<Action>, id: nat)
    requires Numbered(s) && id !in s.rows && id < s.nextId
    ensures id !in After(s, actions).rows && Tries(s, actions, id) == 0
    decreases |actions|
  {
    if actions != [] {
      NumberedKeeps(s, actions[0]);
      RowStep(s, actions[0], id);
      GoneForGood(Next(s, actions[0]), actions[1..], id);
    }
  }

  /** A row counts its tries, whatever else happens to it. */
  lemma {:induction false} TriesAreCounted(s: Sys, actions: seq<Action>, id: nat)
    requires Numbered(s) && id in s.rows && id in After(s, actions).rows
    ensures After(s, actions).rows[id].attempts == s.rows[id].attempts + Tries(s, actions, id)
    decreases |actions|
  {
    if actions != [] {
      NumberedKeeps(s, actions[0]);
      RowStep(s, actions[0], id);
      if id !in Next(s, actions[0]).rows {
        GoneForGood(Next(s, actions[0]), actions[1..], id);
      }
      TriesAreCounted(Next(s, actions[0]), actions[1..], id);
    }
  }

  predicate RetriesIt(s: Sys, a: Action, id: nat) {
    a.Retry? && a.id == id && id in s.rows
  }

  /** How often a run retries a delivery by hand. */
  function RetriesIn(s: Sys, actions: seq<Action>, id: nat): nat
    decreases |actions|
  {
    if actions == [] then 0
    else (if RetriesIt(s, actions[0], id) then 1 else 0) + RetriesIn(Next(s, actions[0]), actions[1..], id)
  }

  lemma RetriesStep(s: Sys, a: Action, id: nat)
    ensures Retries(Next(s, a), id) == Retries(s, id) + if RetriesIt(s, a, id) then 1 else 0
  {
  }

  /**
   On every run a delivery is tried seven times at most and once more for each retry by
   hand, before the run or in it; and so is one that is gone by its end.
   */
  lemma {:induction false} SevenAtMost(s: Sys, actions: seq<Action>, id: nat)
    requires Inv(s) && id in s.rows
    ensures s.rows[id].attempts + Tries(s, actions, id) <= TRIES + Retries(s, id) + RetriesIn(s, actions, id)
    decreases |actions|
  {
    if actions != [] {
      NextKeeps(s, actions[0]);
      RowStep(s, actions[0], id);
      RetriesStep(s, actions[0], id);
      if id in Next(s, actions[0]).rows {
        SevenAtMost(Next(s, actions[0]), actions[1..], id);
      } else {
        GoneForGood(Next(s, actions[0]), actions[1..], id);
      }
    }
  }

  /** Over, and no try of it is under way. */
  predicate Over(s: Sys, id: nat) {
    id in s.rows && !s.rows[id].state.Pending? && id !in s.flying
  }

  lemma OverStep(s: Sys, a: Action, id: nat)
    requires Over(s, id) && id < s.nextId && (a.Retry? ==> a.id != id)
    ensures id in Next(s, a).rows ==> Over(Next(s, a), id) && Next(s, a).rows[id] == s.rows[id]
  {
  }

  /**
   A delivery that is over, by success, failure or because its webhook was turned off, is
   never touched again unless it is retried by hand: nothing old is sent when a webhook is
   turned on again.
   */
  lemma {:induction false} OverIsOver(s: Sys, actions: seq<Action>, id: nat)
    requires Numbered(s) && Over(s, id)
    requires forall a | a in actions && a.Retry? :: a.id != id
    ensures id in After(s, actions).rows ==> After(s, actions).rows[id] == s.rows[id]
    ensures Tries(s, actions, id) == 0
    decreases |actions|
  {
    if actions != [] {
      assert actions[0] in actions;
      NumberedKeeps(s, actions[0]);
      RowStep(s, actions[0], id);
      OverStep(s, actions[0], id);
      if id in Next(s, actions[0]).rows {
        OverIsOver(Next(s, actions[0]), actions[1..], id);
      } else {
        GoneForGood(Next(s, actions[0]), actions[1..], id);
      }
    }
  }

  /**
   An answer in the two hundreds ends a delivery for good: it is never sent again unless it
   is retried by hand. No other answer makes it a success.
   */
  lemma SuccessIsFinal(s: Sys, id: nat, at: int, a: Answer, actions: seq<Action>)
    requires Inv(s) && Records(s, Finish(id, at, a), id)
    requires forall x | x in actions && x.Retry? :: x.id != id
    ensures var t := Next(s, Finish(id, at, a));
            if 200 <= a.status <= 299 then
              t.rows[id].state.Succeeded? && t.rows[id].next.None? && Tries(t, actions, id) == 0
            else !t.rows[id].state.Succeeded?
  {
    if a.Ok() {
      NextKeeps(s, Finish(id, at, a));
      OverIsOver(Next(s, Finish(id, at, a)), actions, id);
    }
  }

  /** A delivery still to be sent goes only with its webhook. */
  lemma PendingStays(s: Sys, a: Action, id: nat)
    requires Numbered(s) && id in s.rows && s.rows[id].state.Pending?
    requires a.DeleteWebhook? ==> s.rows[id].webhook != a.id
    ensures id in Next(s, a).rows && Next(s, a).rows[id].webhook == s.rows[id].webhook
    ensures Next(s, a).rows[id].payload == s.rows[id].payload && Next(s, a).rows[id].kind == s.rows[id].kind
  {
  }

  /** Turning a webhook off ends every delivery of it. */
  lemma OffEndsAll(s: Sys, id: nat, off: Webhook, d: nat)
    requires !off.enabled && d in s.rows && s.rows[d].webhook == id
    ensures var t := Next(s, SetWebhook(id, off));
            && d in t.rows && !t.rows[d].state.Pending? && t.flying == s.flying
            && (s.rows[d].state.Pending? ==> t.rows[d].state.Failed?)
            && (!s.rows[d].state.Pending? ==> t.rows[d] == s.rows[d])
  {
  }

  /**
   So after a webhook was turned off, nothing it still had to send is ever sent, turned on
   again or not; only a try under way at that time, or a retry by hand, can still be.
   */
  lemma OffSendsNothing(s: Sys, id: nat, off: Webhook, actions: seq<Action>, d: nat)
    requires Inv(s) && !off.enabled && d in s.rows && s.rows[d].webhook == id && d !in s.flying
    requires forall a | a in actions && a.Retry? :: a.id != d
    ensures Tries(Next(s, SetWebhook(id, off)), actions, d) == 0
  {
    NextKeeps(s, SetWebhook(id, off));
    OffEndsAll(s, id, off, d);
    OverIsOver(Next(s, SetWebhook(id, off)), actions, d);
  }

  /** How many tries a delivery still has; one for each retry by hand past the seventh. */
  function Left(d: Delivery): nat {
    if !d.state.Pending? then 0 else if d.attempts < TRIES then TRIES - d.attempts else 1
  }

  /** Every try uses one up, and a success all; when none is left the delivery is over. */
  lemma TryUsesOne(d: Delivery, at: int, a: Answer)
    requires d.state.Pending?
    ensures Left(Finished(d, d.attempts, at, a)) < Left(d)
    ensures Left(Finished(d, d.attempts, at, a)) == 0 <==> !Finished(d, d.attempts, at, a).state.Pending?
    ensures Left(Finished(d, d.attempts, at, a)) ==
            if 200 <= a.status <= 299 || d.attempts >= 6 then 0 else 6 - d.attempts
  {
  }

  /** Tries that all fail, each at the time set for it. */
  function Failing(d: Delivery, answers: seq<Answer>): Delivery
    decreases |answers|
  {
    if answers == [] || d.next.None? then d
    else Failing(Finished(d, d.attempts, d.next.value, answers[0]), answers[1..])
  }

  function Delays(from: nat): nat
    requires from <= |RETRY_DELAYS|
    decreases |RETRY_DELAYS| - from
  {
    if from == |RETRY_DELAYS| then 0 else RETRY_DELAYS[from] + Delays(from + 1)
  }

  lemma AboutADay()
    ensures Delays(0) == 74160
  {
    assert Delays(4) == 64800;
    assert Delays(2) == 73800;
  }

  /** A receiver that never answers is tried seven times over 20 hours and 36 minutes, and then no more. */
  lemma {:induction false} SevenTries(d: Delivery, answers: seq<Answer>)
    requires d.state.Pending? && d.next.Some? && d.attempts < TRIES && |answers| == TRIES - d.attempts
    requires forall a | a in answers :: !a.Ok()
    ensures var end := Failing(d, answers); end.state.Failed? && end.next.None? && end.attempts == TRIES
                                            && end.last == Some(d.next.value + Delays(d.attempts))
                                            && (d.attempts == 0 ==> end.last == Some(d.next.value + 74160))
    decreases |answers|
  {
    AboutADay();
    assert !answers[0].Ok();
    var e := Finished(d, d.attempts, d.next.value, answers[0]);
    if d.attempts < |RETRY_DELAYS| {
      SevenTries(e, answers[1..]);
    } else {
      assert Failing(e, answers[1..]) == e;
    }
  }
}
