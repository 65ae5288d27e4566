/**
  The webhook tables, the statements that change them, and the worker code between a claim and its marks.
  Times are milliseconds; the database clock and the workers' clocks agree.
 */
module WebhookStore {
  import opened Wrappers

  type DeliveryId = nat

  type HookId = nat

  datatype DeliveryStatus = Pending | Delivering | Delivered | Failed | Abandoned

  datatype HookStatus = Active | Failing | Disabled

  datatype Delivery = Delivery(hook: HookId, status: DeliveryStatus, attempts: nat, nextAt: int, lastAt: Option<int>)

  datatype Hook = Hook(status: HookStatus, failureCount: int)

  type Deliveries = map<DeliveryId, Delivery>

  type Hooks = map<HookId, Hook>

  const MAX_ATTEMPTS := 5

  const CLAIM_TIMEOUT := 300_000

  const RETRY_SCHEDULE := [30_000, 300_000, 1_800_000, 7_200_000]

  /** The wait after a failed attempt; none before the first attempt or from the last one on. */
  function NextRetryDelay(attempt: int): Option<int> {
    if attempt <= 0 || attempt >= MAX_ATTEMPTS then None
    else if attempt - 1 >= |RETRY_SCHEDULE| then None
    else Some(RETRY_SCHEDULE[attempt - 1])
  }

  predicate Stale(d: Delivery, now: int) {
    d.status == Delivering && d.lastAt.Some? && d.lastAt.value <= now - CLAIM_TIMEOUT
  }

  predicate Claimable(d: Delivery, now: int) {
    (d.status == Pending && d.nextAt <= now) || Stale(d, now)
  }

  function ClaimRow(d: Delivery, now: int): Delivery {
    d.(status := Delivering, attempts := d.attempts + 1, lastAt := Some(now))
  }

  function IdsOf(ids: seq<DeliveryId>): set<DeliveryId> {
    set id | id in ids
  }

  function ClaimRows(ds: Deliveries, ids: set<DeliveryId>, now: int): Deliveries {
    map id | id in ds :: if id in ids then ClaimRow(ds[id], now) else ds[id]
  }

  /** The claim's SELECT: distinct due rows, the earliest ones, as many as there are up to the limit. */
  ghost predicate TakesDue(ds: Deliveries, limit: int, now: int, claimed: seq<DeliveryId>) {
    var bound := if limit <= 0 then 50 else limit;
    && (forall i, j :: 0 <= i < j < |claimed| ==> claimed[i] != claimed[j])
    && (forall id :: id in claimed ==> id in ds && Claimable(ds[id], now))
    && |claimed| <= bound
    && (|claimed| < bound ==> forall id :: id in ds && Claimable(ds[id], now) ==> id in claimed)
    && (forall id, other :: id in claimed && other in ds && other !in claimed && Claimable(ds[other], now) ==>
          ds[id].nextAt <= ds[other].nextAt)
  }

  /** What a worker writes about an attempt. */
  datatype Mark = MarkDelivered | MarkRetry(nextAt: int) | MarkAbandoned

  function MarkRow(d: Delivery, mark: Mark): Delivery {
    match mark
    case MarkDelivered => d.(status := Delivered)
    case MarkRetry(nextAt) => d.(status := Pending, nextAt := nextAt)
    case MarkAbandoned => d.(status := Abandoned)
  }

  /** The marks update by id alone: no status guard, and nothing happens when the row is gone. */
  function ApplyMark(ds: Deliveries, id: DeliveryId, mark: Mark): Deliveries {
    if id in ds then ds[id := MarkRow(ds[id], mark)] else ds
  }

  datatype HookMark = HookSucceeded | HookFailing(failureCount: int)

  function ApplyHookMark(hs: Hooks, id: HookId, mark: HookMark): Hooks {
    if id !in hs then hs
    else match mark
      case HookSucceeded => hs[id := Hook(Active, 0)]
      case HookFailing(failureCount) => hs[id := Hook(Failing, failureCount)]
  }

  /** Deliveries reference their hook and go with it. */
  function Cascade(ds: Deliveries, hook: HookId): Deliveries {
    map id | id in ds && ds[id].hook != hook :: ds[id]
  }

  /** How a failed attempt is recorded; the hook turns failing only when it was loaded and the attempts are used up. */
  function FailureMark(attempt: int, now: int): Mark {
    match NextRetryDelay(attempt)
    case Some(delay) => MarkRetry(now + delay)
    case None => MarkAbandoned
  }

  function FailureFollowUp(attempt: int, loadedFailures: Option<int>): Option<HookMark> {
    if NextRetryDelay(attempt).Some? || loadedFailures == None then None
    else Some(HookFailing(loadedFailures.value + 1))
  }

  // ---------------------------------------------------------------- the statements in place

  datatype Job = Job(id: DeliveryId, hook: HookId, attempt: nat, reclaimed: bool)

  /** What the outside world does to one delivery. */
  datatype Outcome = LoadFails | RequestNotBuilt | NoResponse | Responded(httpStatus: int)

  class Store {
    var deliveries: Deliveries
    var hooks: Hooks

    constructor (ds: Deliveries, hs: Hooks)
      ensures deliveries == ds && hooks == hs
    {
      deliveries, hooks := ds, hs;
    }

    /** Claims the due rows with the least next_attempt_at, at most `limit` of them. */
    method ClaimPending(limit: int, now: int) returns (claimed: seq<DeliveryId>)
      modifies this`deliveries
      ensures TakesDue(old(deliveries), limit, now, claimed)
      ensures deliveries == ClaimRows(old(deliveries), IdsOf(claimed), now)
    {
      var bound := if limit <= 0 then 50 else limit;
      var due := set id | id in deliveries && Claimable(deliveries[id], now);
      claimed := [];
      while |claimed| < bound && due != {}
        invariant deliveries == old(deliveries)
        invariant |claimed| <= bound
        invariant forall i, j :: 0 <= i < j < |claimed| ==> claimed[i] != claimed[j]
        invariant forall id :: id in claimed ==> id in deliveries && Claimable(deliveries[id], now) && id !in due
        invariant forall id :: id in due ==> id in deliveries && Claimable(deliveries[id], now)
        invariant forall id :: id in deliveries && Claimable(deliveries[id], now) ==> id in due || id in claimed
        invariant forall id, other :: id in claimed && other in due ==>
                    deliveries[id].nextAt <= deliveries[other].nextAt
        decreases due
      {
        EarliestExists(deliveries, due);
        var next :| next in due && forall other :: other in due ==> deliveries[next].nextAt <= deliveries[other].nextAt;
        claimed := claimed + [next];
        due := due - {next};
      }
      deliveries := ClaimRows(deliveries, IdsOf(claimed), now);
    }

    method MarkDelivery(id: DeliveryId, mark: Mark)
      modifies this`deliveries
      ensures deliveries == ApplyMark(old(deliveries), id, mark)
    {
      if id in deliveries {
        deliveries := deliveries[id := MarkRow(deliveries[id], mark)];
      }
    }

    method MarkHook(id: HookId, mark: HookMark)
      modifies this`hooks
      ensures hooks == ApplyHookMark(old(hooks), id, mark)
    {
      if id in hooks {
        match mark
        case HookSucceeded => hooks := hooks[id := Hook(Active, 0)];
        case HookFailing(failureCount) => hooks := hooks[id := Hook(Failing, failureCount)];
      }
    }

    /** The failure path; the two flags say whether the database drops the respective statement. */
    method RecordFailure(job: Job, loadedFailures: Option<int>, now: int, markLost: bool, hookLost: bool)
      modifies this
      ensures deliveries == if markLost then old(deliveries)
                            else ApplyMark(old(deliveries), job.id, FailureMark(job.attempt, now))
      ensures hooks == var up := FailureFollowUp(job.attempt, loadedFailures);
                       if up == None || hookLost then old(hooks) else ApplyHookMark(old(hooks), job.hook, up.value)
    {
      var delay := NextRetryDelay(job.attempt);
      if delay.Some? {
        if !markLost {
          MarkDelivery(job.id, MarkRetry(now + delay.value));
        }
        return;
      }
      if !markLost {
        MarkDelivery(job.id, MarkAbandoned);
      }
      if loadedFailures.Some? && !hookLost {
        MarkHook(job.hook, HookFailing(loadedFailures.value + 1));
      }
    }

    /** One claimed delivery, from loading its hook to the last statement about it. */
    method ProcessDelivery(job: Job, outcome: Outcome, now: int, markLost: bool, hookLost: bool)
      modifies this
      ensures var w := Written(old(hooks), job, outcome, now);
              && deliveries == (if markLost then old(deliveries) else ApplyMark(old(deliveries), job.id, w.mark))
              && hooks == (if w.followUp == None || hookLost then old(hooks)
                           else ApplyHookMark(old(hooks), job.hook, w.followUp.value))
    {
      if outcome == LoadFails {
        RecordFailure(job, None, now, markLost, hookLost);
        return;
      }
      if job.hook !in hooks {
        if !markLost {
          MarkDelivery(job.id, MarkAbandoned);
        }
        return;
      }
      var hook := hooks[job.hook];
      if hook.status != Active {
        if !markLost {
          MarkDelivery(job.id, MarkAbandoned);
        }
        return;
      }
      if outcome.Responded? && Succeeds(outcome.httpStatus) {
        if !markLost {
          MarkDelivery(job.id, MarkDelivered);
        }
        if !hookLost {
          MarkHook(job.hook, HookSucceeded);
        }
        return;
      }
      RecordFailure(job, Some(hook.failureCount), now, markLost, hookLost);
    }
  }

  datatype Writes = Writes(mark: Mark, followUp: Option<HookMark>)

  /** The answers that count as a delivery. */
  predicate Succeeds(httpStatus: int) {
    200 <= httpStatus < 300
  }

  /** What the worker decides to write about a delivery, given what it loads and what comes back. */
  function Written(hs: Hooks, job: Job, outcome: Outcome, now: int): Writes {
    if outcome == LoadFails then Writes(FailureMark(job.attempt, now), FailureFollowUp(job.attempt, None))
    else if job.hook !in hs || hs[job.hook].status != Active then Writes(MarkAbandoned, None)
    else if outcome.Responded? && Succeeds(outcome.httpStatus) then Writes(MarkDelivered, Some(HookSucceeded))
    else Writes(FailureMark(job.attempt, now), FailureFollowUp(job.attempt, Some(hs[job.hook].failureCount)))
  }

  lemma {:induction false} EarliestExists(ds: Deliveries, due: set<DeliveryId>)
    requires due != {} && forall id :: id in due ==> id in ds
    ensures exists next :: next in due && forall other :: other in due ==> ds[next].nextAt <= ds[other].nextAt
  {
    var x :| x in due;
    if due == {x} {
      assert forall other :: other in due ==> ds[x].nextAt <= ds[other].nextAt;
    } else {
      EarliestExists(ds, due - {x});
      var rest :| rest in due - {x} && forall other :: other in due - {x} ==> ds[rest].nextAt <= ds[other].nextAt;
      var next := if ds[x].nextAt < ds[rest].nextAt then x else rest;
      assert forall other :: other in due ==> other == x || other in due - {x};
      assert next in due && forall other :: other in due ==> ds[next].nextAt <= ds[other].nextAt;
    }
  }

  // ---------------------------------------------------------------- the decisions in numbers

  /** Only an answer whose status starts with a 2, from a hook that exists and is active, makes a delivery delivered. */
  lemma DeliveredIff(hs: Hooks, job: Job, outcome: Outcome, now: int)
    ensures Written(hs, job, outcome, now).mark == MarkDelivered
       <==> job.hook in hs && hs[job.hook].status == Active && outcome.Responded? && outcome.httpStatus / 100 == 2
    ensures Written(hs, job, outcome, now).followUp == Some(HookSucceeded)
       <==> Written(hs, job, outcome, now).mark == MarkDelivered
  {
  }

  /**
    Anything else on an active hook is a failure: attempts one to four are retried 30 seconds, 5 minutes, 30 minutes and
    2 hours later and leave the hook alone, any other attempt is abandoned and, if the hook had been loaded, counts one
    more failure and turns it failing. A hook that is not active or gone has its deliveries abandoned.
   */
  lemma FailedInNumbers(hs: Hooks, job: Job, outcome: Outcome, now: int)
    requires Written(hs, job, outcome, now).mark != MarkDelivered
    ensures var w := Written(hs, job, outcome, now);
            var active := job.hook in hs && hs[job.hook].status == Active;
            && (outcome != LoadFails && !active ==> w == Writes(MarkAbandoned, None))
            && (outcome == LoadFails || active ==>
                  && (job.attempt == 1 ==> w == Writes(MarkRetry(now + 30_000), None))
                  && (job.attempt == 2 ==> w == Writes(MarkRetry(now + 300_000), None))
                  && (job.attempt == 3 ==> w == Writes(MarkRetry(now + 1_800_000), None))
                  && (job.attempt == 4 ==> w == Writes(MarkRetry(now + 7_200_000), None))
                  && (!(1 <= job.attempt <= 4) ==>
                        && w.mark == MarkAbandoned
                        && w.followUp == if outcome == LoadFails then None
                                         else Some(HookFailing(hs[job.hook].failureCount + 1))))
  {
  }

  /** Which rows are due, and what claims and marks leave in the two tables. */
  lemma RowsInNumbers(d: Delivery, now: int, nextAt: int)
    ensures Claimable(d, now)
       <==> || (d.status == Pending && d.nextAt <= now)
            || (d.status == Delivering && d.lastAt.Some? && now - d.lastAt.value >= 300_000)
    ensures ClaimRow(d, now) == Delivery(d.hook, Delivering, d.attempts + 1, d.nextAt, Some(now))
    ensures MarkRow(d, MarkDelivered) == Delivery(d.hook, Delivered, d.attempts, d.nextAt, d.lastAt)
    ensures MarkRow(d, MarkRetry(nextAt)) == Delivery(d.hook, Pending, d.attempts, nextAt, d.lastAt)
    ensures MarkRow(d, MarkAbandoned) == Delivery(d.hook, Abandoned, d.attempts, d.nextAt, d.lastAt)
  {
  }

  /** ... for the row named and for no other; a hook takes its deliveries with it. */
  lemma TablesInNumbers(ds: Deliveries, id: DeliveryId, mark: Mark, hs: Hooks, h: HookId, failures: int)
    ensures ApplyMark(ds, id, mark) == if id in ds then ds[id := MarkRow(ds[id], mark)] else ds
    ensures h in hs ==> ApplyHookMark(hs, h, HookSucceeded) == hs[h := Hook(Active, 0)]
    ensures h in hs ==> ApplyHookMark(hs, h, HookFailing(failures)) == hs[h := Hook(Failing, failures)]
    ensures forall other :: other in Cascade(ds, h) <==> other in ds && ds[other].hook != h
  {
  }
}
