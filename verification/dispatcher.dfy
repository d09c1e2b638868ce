/** The store of webhook deliveries and the dispatcher that sends what is due. */
module Dispatching {
  import opened Deliveries
  import opened Sets
  import opened Subscriptions
  import opened Wrappers

  const BATCH_SIZE: nat := 20

  /** The ids of the rows that are due. */
  ghost function DueSet(hooks: Hooks, rows: Rows, now: int): set<nat> {
    set id | id in rows && Due(hooks, rows[id], now)
  }

  function NextOf(rows: Rows, id: nat): int {
    if id in rows && rows[id].next.Some? then rows[id].next.value else 0
  }

  /** Oldest first, then by id. */
  predicate Earlier(rows: Rows, a: nat, b: nat) {
    NextOf(rows, a) < NextOf(rows, b) || (NextOf(rows, a) == NextOf(rows, b) && a <= b)
  }

  /** Waiting, its time has come, and its webhook is on. */
  predicate MayGo(hooks: Hooks, d: Delivery, now: int) {
    match d.state
    case Pending =>
      && d.next.Some? && d.next.value <= now
      && d.webhook in hooks && hooks[d.webhook].enabled
    case _ => false
  }

  /** A batch: distinct due rows in order, before every due row left out, and as many as fit. */
  ghost predicate IsBatch(batch: seq<nat>, hooks: Hooks, rows: Rows, now: int, limit: nat) {
    && (forall i | 0 <= i < |batch| :: batch[i] in DueSet(hooks, rows, now))
    && (forall i, j | 0 <= i < j < |batch| :: batch[i] != batch[j] && Earlier(rows, batch[i], batch[j]))
    && (forall i, id | 0 <= i < |batch| && id in DueSet(hooks, rows, now) && id !in batch ::
          Earlier(rows, batch[i], id))
    && |batch| <= limit
    && (|batch| < limit ==> forall id | id in DueSet(hooks, rows, now) :: id in batch)
  }

  /** Which webhooks an event of this kind goes to. */
  ghost predicate Wants(h: Webhook, kind: string) {
    h.enabled && Subscribed(h.events, kind)
  }

  /** Each webhook that wants the kind, once, in order. */
  ghost predicate AreSubscribers(ids: seq<nat>, hooks: Hooks, kind: string) {
    && (forall i, j | 0 <= i < j < |ids| :: ids[i] < ids[j])
    && (forall h :: h in ids <==> h in hooks && Wants(hooks[h], kind))
  }

  /** One new row for each webhook, with the ids from `from` on. */
  function Inserted(rows: Rows, ids: seq<nat>, from: nat, event: nat, kind: string, payload: string, now: int): Rows {
    if ids == [] then rows
    else
      var n := |ids| - 1;
      Inserted(rows, ids[..n], from, event, kind, payload, now)[from + n := Fresh(ids[n], event, kind, payload, now)]
  }

  /** Still to be sent, at once, and never tried. */
  predicate IsNew(d: Delivery, webhook: nat, event: nat, kind: string, payload: string, now: int) {
    && d.webhook == webhook && d.event == event && d.kind == kind && d.payload == payload && d.created == now
    && d.state.Pending? && d.attempts == 0 && d.next == Some(now) && d.last.None? && d.status == 0 && d.error == ""
  }

  /** The rows from before stay, and the new ones are pending, one for each webhook. */
  lemma {:induction false} InsertedRows(
    rows: Rows, ids: seq<nat>, from: nat, event: nat, kind: string, payload: string, now: int)
    requires forall id | id in rows :: id < from
    ensures var after := Inserted(rows, ids, from, event, kind, payload, now);
            && (forall id :: id in after <==> id in rows || from <= id < from + |ids|)
            && (forall id | id in rows :: after[id] == rows[id])
            && (forall id | from <= id < from + |ids| :: IsNew(after[id], ids[id - from], event, kind, payload, now))
    decreases |ids|
  {
    if ids != [] {
      var n := |ids| - 1;
      InsertedRows(rows, ids[..n], from, event, kind, payload, now);
    }
  }

  class Store {
    var hooks: Hooks
    var rows: Rows
    var nextId: nat

    ghost predicate Valid()
      reads this
    {
      forall id | id in rows :: id < nextId
    }

    /** Looks for the kind in the stored list, position by position. */
    method Contains(text: string, part: string) returns (found: bool)
      ensures found <==> exists p: nat :: FoundAt(text, part, p)
    {
      found := false;
      var p: nat := 0;
      while p + |part| <= |text| && !found
        invariant found <==> exists q: nat :: q < p && FoundAt(text, part, q)
        decreases |text| - p, !found
      {
        found := FoundAt(text, part, p);
        p := p + 1;
      }
    }

    /** The webhooks that want a kind, by id. */
    method Subscribers(kind: string) returns (ids: seq<nat>)
      ensures AreSubscribers(ids, hooks, kind)
    {
      ids := [];
      var rest := hooks.Keys;
      while rest != {}
        invariant rest <= hooks.Keys
        invariant forall i, j | 0 <= i < j < |ids| :: ids[i] < ids[j]
        invariant forall i, h | 0 <= i < |ids| && h in rest :: ids[i] < h
        invariant forall h :: h in ids <==> h in hooks && h !in rest && Wants(hooks[h], kind)
        decreases rest
      {
        var h := Least(rest);
        rest := rest - {h};
        var wanted := hooks[h].events == ALL_EVENTS;
        if !wanted {
          wanted := Contains("," + hooks[h].events + ",", "," + kind + ",");
        }
        if hooks[h].enabled && wanted {
          ids := ids + [h];
        }
      }
    }

    /** One new pending row for each enabled webhook that wants the kind, and no other change. */
    method QueueDeliveries(kind: string, event: nat, payload: string, now: int) returns (ids: seq<nat>)
      requires Valid()
      modifies this`rows, this`nextId
      ensures Valid() && AreSubscribers(ids, hooks, kind)
      ensures nextId == old(nextId) + |ids|
      ensures rows == Inserted(old(rows), ids, old(nextId), event, kind, payload, now)
    {
      ids := Subscribers(kind);
      ghost var was, from := rows, nextId;
      for i := 0 to |ids|
        invariant Valid() && nextId == from + i
        invariant rows == Inserted(was, ids[..i], from, event, kind, payload, now)
      {
        assert ids[..i + 1][..i] == ids[..i];
        rows := rows[nextId := Fresh(ids[i], event, kind, payload, now)];
        nextId := nextId + 1;
      }
      assert ids[..|ids|] == ids;
    }

    /** The due rows of a batch, oldest first. */
    method DueDeliveries(now: int, limit: nat) returns (batch: seq<nat>)
      ensures IsBatch(batch, hooks, rows, now, limit)
      ensures forall id | id in batch :: id in rows && MayGo(hooks, rows[id], now)
      ensures |batch| < limit ==> forall id | id in rows && MayGo(hooks, rows[id], now) :: id in batch
    {
      batch := [];
      var rest := set id | id in rows && Due(hooks, rows[id], now);
      ghost var due := rest;
      while |batch| < limit && rest != {}
        invariant due == DueSet(hooks, rows, now) && rest <= due && |batch| <= limit
        invariant forall id :: id in batch <==> id in due && id !in rest
        invariant forall i, j | 0 <= i < j < |batch| :: batch[i] != batch[j] && Earlier(rows, batch[i], batch[j])
        invariant forall i, id | 0 <= i < |batch| && id in rest :: Earlier(rows, batch[i], id)
        decreases rest
      {
        var first := Oldest(rest, now);
        batch := batch + [first];
        rest := rest - {first};
      }
    }

    method Oldest(ids: set<nat>, now: int) returns (first: nat)
      requires ids != {} && forall id | id in ids :: id in rows && Due(hooks, rows[id], now)
      ensures first in ids && forall id | id in ids :: Earlier(rows, first, id)
    {
      var rest := ids;
      first := Least(rest);
      rest := rest - {first};
      while rest != {}
        invariant rest <= ids && first in ids
        invariant forall id | id in ids && id !in rest :: Earlier(rows, first, id)
        decreases rest
      {
        var id := Least(rest);
        rest := rest - {id};
        if !Earlier(rows, first, id) {
          first := id;
        }
      }
    }

    method FinishAttempt(id: nat, at: int, read: nat, answer: Answer)
      modifies this`rows
      ensures rows == if id in old(rows) then old(rows)[id := Finished(old(rows)[id], read, at, answer)] else old(rows)
      ensures id in old(rows) ==> id !in DueSet(hooks, rows, at)
      ensures id in old(rows) && old(rows)[id].state.Pending? && old(rows)[id].attempts == read ==>
                Left(rows[id]) < Left(old(rows)[id])
    {
      if id in rows {
        TriedIsNotDue(hooks, rows[id], read, at, answer);
        rows := rows[id := Finished(rows[id], read, at, answer)];
      }
    }

    method RetryDelivery(id: nat, now: int) returns (found: bool)
      modifies this`rows
      ensures found <==> id in old(rows)
      ensures rows == if found then old(rows)[id := Retried(old(rows)[id], now)] else old(rows)
      ensures found && rows[id].webhook in hooks && hooks[rows[id].webhook].enabled ==> id in DueSet(hooks, rows, now)
    {
      found := id in rows;
      if found {
        rows := rows[id := Retried(rows[id], now)];
      }
    }

    /** Old deliveries go, but none that is still to be sent. */
    method DeleteDeliveriesBefore(t: int)
      modifies this`rows
      ensures rows == Purged(old(rows), t)
      ensures forall id ::
                id in rows <==> id in old(rows) && (old(rows)[id].state.Pending? || old(rows)[id].created >= t)
      ensures forall id | id in rows :: rows[id] == old(rows)[id]
    {
      rows := Purged(rows, t);
    }

    /** A webhook's deliveries go with it. */
    method DeleteWebhook(id: nat) returns (found: bool)
      modifies this`hooks, this`rows
      ensures found <==> id in old(hooks)
      ensures hooks == old(hooks) - {id} && (!found ==> rows == old(rows))
      ensures found ==> rows == Without(old(rows), id)
      ensures found ==> forall d :: d in rows <==> d in old(rows) && old(rows)[d].webhook != id
      ensures forall d | d in rows :: rows[d] == old(rows)[d]
    {
      found := id in hooks;
      if found {
        hooks := hooks - {id};
        rows := Without(rows, id);
      } else {
        assert hooks - {id} == hooks;
      }
    }

    /** Switched off, a webhook drops every delivery that is pending. */
    method UpdateWebhook(id: nat, hook: Webhook) returns (found: bool)
      modifies this`hooks, this`rows
      ensures found <==> id in old(hooks)
      ensures found ==> hooks == old(hooks)[id := hook] && rows == Updated(old(rows), id, hook.enabled)
      ensures !found ==> hooks == old(hooks) && rows == old(rows)
      ensures found && !hook.enabled ==> forall d | d in rows && rows[d].webhook == id :: !rows[d].state.Pending?
      ensures rows.Keys == old(rows).Keys
      ensures forall d | d in rows && (rows[d].webhook != id || hook.enabled) :: rows[d] == old(rows)[d]
    {
      found := id in hooks;
      if found {
        hooks := hooks[id := hook];
        rows := Updated(rows, id, hook.enabled);
      }
    }
  }

  // ---------------------------------------------------------------- the drain

  /** What receivers answer at the time of the drain, by delivery. */
  type Answers = nat -> Answer

  /** In seconds: a minute, five, half an hour, two hours, six, twelve. */
  function WaitAfter(tries: nat): int {
    if tries == 0 then 60
    else if tries == 1 then 300
    else if tries == 2 then 1800
    else if tries == 3 then 7200
    else if tries == 4 then 21600
    else 43200
  }

  /** What one try leaves: done after an answer in the two hundreds, put off or given up after any other. */
  predicate TriedOnce(was: Delivery, now: int, a: Answer, after: Delivery) {
    && after.webhook == was.webhook && after.event == was.event && after.kind == was.kind
    && after.payload == was.payload && after.created == was.created
    && after.attempts == was.attempts + 1 && after.last == Some(now) && after.status == a.status
    && after.error == (if 200 <= a.status <= 299 then "" else a.error)
    && if 200 <= a.status <= 299 then after.state.Succeeded? && after.next.None?
       else if was.attempts < 6 then after.state.Pending? && after.next == Some(now + WaitAfter(was.attempts))
       else after.state.Failed? && after.next.None?
  }

  lemma FinishedIsTried(d: Delivery, now: int, a: Answer)
    ensures TriedOnce(d, now, a, Finished(d, d.attempts, now, a))
  {
    assert RETRY_DELAYS == [60, 300, 1800, 7200, 21600, 43200];
  }

  lemma DrainedIsTried(hooks: Hooks, rows: Rows, now: int, answers: Answers, id: nat)
    requires id in rows
    ensures var after := Drained(hooks, rows, now, answers)[id];
            if MayGo(hooks, rows[id], now) then TriedOnce(rows[id], now, answers(id), after) else after == rows[id]
  {
    FinishedIsTried(rows[id], now, answers(id));
  }

  /** Every due row tried once, and no other row touched. */
  ghost function Drained(hooks: Hooks, rows: Rows, now: int, answers: Answers): Rows {
    map id | id in rows ::
      if Due(hooks, rows[id], now) then Finished(rows[id], rows[id].attempts, now, answers(id)) else rows[id]
  }

  /** Every retry waits a while, so a row just tried is not due again. */
  lemma TriedIsNotDue(hooks: Hooks, d: Delivery, read: nat, now: int, a: Answer)
    ensures !Due(hooks, Finished(d, read, now, a), now)
  {
    if read < |RETRY_DELAYS| {
      assert RETRY_DELAYS[read] in RETRY_DELAYS;
      assert forall n | n in RETRY_DELAYS :: n > 0;
    }
  }

  /** Rows of `ids` tried, the others as they were. */
  ghost function Tried(rows: Rows, ids: set<nat>, now: int, answers: Answers): Rows {
    map id | id in rows ::
      if id in ids then Finished(rows[id], rows[id].attempts, now, answers(id)) else rows[id]
  }

  lemma TriedDue(hooks: Hooks, rows: Rows, ids: set<nat>, now: int, answers: Answers)
    ensures DueSet(hooks, Tried(rows, ids, now, answers), now) == DueSet(hooks, rows, now) - ids
  {
    forall id | id in rows
      ensures id in DueSet(hooks, Tried(rows, ids, now, answers), now) <==> id in DueSet(hooks, rows, now) && id !in ids
    {
      TriedIsNotDue(hooks, rows[id], rows[id].attempts, now, answers(id));
    }
  }

  lemma TriedTwice(rows: Rows, a: set<nat>, b: set<nat>, now: int, answers: Answers)
    requires a !! b
    ensures Tried(Tried(rows, a, now, answers), b, now, answers) == Tried(rows, a + b, now, answers)
  {
  }

  lemma TriedAll(hooks: Hooks, rows: Rows, now: int, answers: Answers)
    ensures Tried(rows, DueSet(hooks, rows, now), now, answers) == Drained(hooks, rows, now, answers)
  {
  }

  class Dispatcher {
    const store: Store

    constructor (store: Store)
      ensures this.store == store
    {
      this.store := store;
    }

    /** One try: the row is read before it is sent, and what came of it is recorded. */
    method Attempt(id: nat, now: int, answers: Answers)
      requires id in store.rows
      modifies store`rows
      ensures store.rows == Tried(old(store.rows), {id}, now, answers)
    {
      var read := store.rows[id].attempts;
      store.FinishAttempt(id, now, read, answers(id));
    }

    /** Sends one batch and says how many it held. */
    method DeliverDue(now: int, answers: Answers) returns (n: nat, ghost sent: set<nat>)
      modifies store`rows
      ensures sent <= DueSet(store.hooks, old(store.rows), now)
      ensures store.rows == Tried(old(store.rows), sent, now, answers)
      ensures n <= BATCH_SIZE && (n > 0 ==> sent != {})
      ensures n < BATCH_SIZE ==> sent == DueSet(store.hooks, old(store.rows), now)
      ensures forall id | id in sent ::
                id in store.rows && TriedOnce(old(store.rows)[id], now, answers(id), store.rows[id])
    {
      var batch := store.DueDeliveries(now, BATCH_SIZE);
      ghost var before := store.rows;
      sent := {};
      for i := 0 to |batch|
        invariant forall id :: id in sent <==> id in batch[..i]
        invariant store.rows == Tried(before, sent, now, answers)
      {
        assert batch[i] !in batch[..i] && batch[..i + 1] == batch[..i] + [batch[i]];
        assert batch[i] in DueSet(store.hooks, before, now);
        TriedTwice(before, sent, {batch[i]}, now, answers);
        Attempt(batch[i], now, answers);
        sent := sent + {batch[i]};
      }
      assert batch[..|batch|] == batch;
      forall id | id in sent {
        FinishedIsTried(before[id], now, answers(id));
      }
      n := |batch|;
      if n > 0 {
        assert batch[0] in sent;
      }
    }

    /**
     Batches until one is not full. At a fixed time, with every try recorded, this ends,
     every delivery that was due has been tried exactly once, and none is due any more.
     */
    method Drain(now: int, answers: Answers)
      modifies store`rows
      ensures store.rows == Drained(store.hooks, old(store.rows), now, answers)
      ensures DueSet(store.hooks, store.rows, now) == {}
      ensures store.rows.Keys == old(store.rows).Keys
      ensures forall id | id in store.rows ::
                if MayGo(store.hooks, old(store.rows)[id], now) then
                  TriedOnce(old(store.rows)[id], now, answers(id), store.rows[id])
                else store.rows[id] == old(store.rows)[id]
    {
      ghost var before, due := store.rows, DueSet(store.hooks, store.rows, now);
      ghost var sent: set<nat>, all: set<nat> := {}, {};
      var n := BATCH_SIZE;
      while n == BATCH_SIZE
        invariant all <= due && store.rows == Tried(before, all, now, answers)
        invariant n <= BATCH_SIZE && (n < BATCH_SIZE ==> all == due)
        decreases due - all, n == BATCH_SIZE
      {
        n, sent := DeliverDue(now, answers);
        TriedDue(store.hooks, before, all, now, answers);
        TriedTwice(before, all, sent, now, answers);
        all := all + sent;
      }
      TriedDue(store.hooks, before, due, now, answers);
      TriedAll(store.hooks, before, now, answers);
      forall id | id in before {
        DrainedIsTried(store.hooks, before, now, answers, id);
      }
    }
  }
}
