/**
  The delivery queue as a step system: any number of workers and dispatchers over the shared tables, each table
  statement one atomic step, every mark possibly lost, workers crashing at any point, hooks deleted at any point.
 */
module WebhookQueue {
  import opened Wrappers
  import opened WebhookStore
  import opened Aggregation

  /**
    `perItem` bounds the time a live worker spends on one delivery (HTTP timeout plus overhead), in ms.
   */
  datatype Config = Config(batchSize: nat, perItem: nat) {
    predicate WellFormed() {
      batchSize >= 1 && perItem >= 1
    }

    /** A whole batch is finished before its first claim can go stale. */
    predicate LeaseOutlivesBatch() {
      batchSize * perItem < CLAIM_TIMEOUT
    }
  }

  datatype Phase =
    | Loading
    | Loaded(failures: int)
    | Posted(failures: int)
    | Marking(mark: Mark, followUp: Option<HookMark>)
    | Following(hookMark: HookMark)

  datatype Worker =
    | Idle
    | Busy(batch: seq<Job>, index: nat, claimedAt: int, startedAt: int, phase: Phase)

  /** What has happened to a delivery so far; only the proofs look at it. */
  datatype Record = Record(claims: nat, staleClaims: nat, retriedBy: set<nat>, lastPost: Option<int>)

  datatype State = State(
    now: int,
    deliveries: Deliveries,
    hooks: Hooks,
    workers: map<nat, Worker>,
    dispatches: set<(nat, HookId)>,
    records: map<DeliveryId, Record>)

  datatype Action =
    | Tick(dt: nat)
    | FindSubscribed(dispatcher: nat, found: set<HookId>)
    | CreateDelivery(dispatcher: nat, hook: HookId, id: DeliveryId)
    | GiveUpDispatch(dispatcher: nat, hook: HookId)
    | Claim(w: nat, ids: seq<DeliveryId>)
    | LoadHook(w: nat)
    | FailToLoad(w: nat)
    | FailToBuild(w: nat)
    | Post(w: nat)
    | Respond(w: nat, httpStatus: int)
    | NoAnswer(w: nat)
    | WriteMark(w: nat, lost: bool)
    | WriteHook(w: nat, lost: bool)
    | Crash(w: nat)
    | DeleteHook(hook: HookId)

  // ---------------------------------------------------------------- steps

  predicate Working(s: State, w: nat) {
    w in s.workers && s.workers[w].Busy? && s.workers[w].index < |s.workers[w].batch|
  }

  function Current(s: State, w: nat): Job
    requires Working(s, w)
  {
    s.workers[w].batch[s.workers[w].index]
  }

  ghost predicate Enabled(c: Config, s: State, a: Action) {
    match a
    case Tick(dt) => forall w :: Working(s, w) ==> s.now + dt <= s.workers[w].startedAt + c.perItem
    case FindSubscribed(_, found) => forall h :: h in found ==> h in s.hooks && s.hooks[h].status == Active
    case CreateDelivery(d, h, id) => (d, h) in s.dispatches && h in s.hooks && id !in s.records
    case GiveUpDispatch(d, h) => (d, h) in s.dispatches
    // any due rows: rows that a claim at the same time has locked are skipped
    case Claim(w, ids) =>
      && !Working(s, w) && 1 <= |ids| <= c.batchSize && Distinct(ids)
      && forall i :: 0 <= i < |ids| ==> ids[i] in s.deliveries && Claimable(s.deliveries[ids[i]], s.now)
    case LoadHook(w) => Working(s, w) && s.workers[w].phase.Loading?
    case FailToLoad(w) => Working(s, w) && s.workers[w].phase.Loading?
    case FailToBuild(w) => Working(s, w) && s.workers[w].phase.Loaded?
    case Post(w) => Working(s, w) && s.workers[w].phase.Loaded?
    case Respond(w, _) => Working(s, w) && s.workers[w].phase.Posted?
    case NoAnswer(w) => Working(s, w) && s.workers[w].phase.Posted?
    case WriteMark(w, _) => Working(s, w) && s.workers[w].phase.Marking?
    case WriteHook(w, _) => Working(s, w) && s.workers[w].phase.Following?
    case Crash(w) => w in s.workers
    case DeleteHook(h) => true
  }

  function NewJob(s: State, id: DeliveryId): Job
    requires id in s.deliveries
  {
    Job(id, s.deliveries[id].hook, s.deliveries[id].attempts + 1, s.deliveries[id].status == Delivering)
  }

  function RecordOf(s: State, id: DeliveryId): Record {
    if id in s.records then s.records[id] else Record(0, 0, {}, None)
  }

  function ClaimRecord(s: State, id: DeliveryId): Record
    requires id in s.deliveries
  {
    var r := RecordOf(s, id);
    r.(claims := r.claims + 1, staleClaims := r.staleClaims + if s.deliveries[id].status == Delivering then 1 else 0)
  }

  /** On to the next job of the batch, or idle after the last. */
  function Advance(worker: Worker, now: int): Worker
    requires worker.Busy?
  {
    if worker.index + 1 < |worker.batch|
    then Busy(worker.batch, worker.index + 1, worker.claimedAt, now, Loading)
    else Idle
  }

  function SetWorker(s: State, w: nat, worker: Worker): State {
    s.(workers := s.workers[w := worker])
  }

  function SetPhase(s: State, w: nat, phase: Phase): State
    requires Working(s, w)
  {
    SetWorker(s, w, s.workers[w].(phase := phase))
  }

  function Fail(s: State, w: nat, loadedFailures: Option<int>): State
    requires Working(s, w)
  {
    var attempt := Current(s, w).attempt;
    SetPhase(s, w, Marking(FailureMark(attempt, s.now), FailureFollowUp(attempt, loadedFailures)))
  }

  function Next(c: Config, s: State, a: Action): State
    requires Enabled(c, s, a)
  {
    match a
    case Tick(dt) => s.(now := s.now + dt)
    case FindSubscribed(d, found) => s.(dispatches := s.dispatches + set h | h in found :: (d, h))
    case CreateDelivery(d, h, id) =>
      s.(deliveries := s.deliveries[id := Delivery(h, Pending, 0, s.now, None)],
         records := s.records[id := Record(0, 0, {}, None)],
         dispatches := s.dispatches - {(d, h)})
    case GiveUpDispatch(d, h) => s.(dispatches := s.dispatches - {(d, h)})
    case Claim(w, ids) => DoClaim(s, w, ids)
    case LoadHook(w) =>
      var h := Current(s, w).hook;
      if h in s.hooks && s.hooks[h].status == Active then SetPhase(s, w, Loaded(s.hooks[h].failureCount))
      else SetPhase(s, w, Marking(MarkAbandoned, None))
    case FailToLoad(w) => Fail(s, w, None)
    case FailToBuild(w) => Fail(s, w, Some(s.workers[w].phase.failures))
    case Post(w) =>
      var id := Current(s, w).id;
      SetPhase(s, w, Posted(s.workers[w].phase.failures))
        .(records := s.records[id := RecordOf(s, id).(lastPost := Some(s.now))])
    case NoAnswer(w) => Fail(s, w, Some(s.workers[w].phase.failures))
    case Respond(w, httpStatus) =>
      if Succeeds(httpStatus) then SetPhase(s, w, Marking(MarkDelivered, Some(HookSucceeded)))
      else Fail(s, w, Some(s.workers[w].phase.failures))
    case WriteMark(w, lost) => DoMark(s, w, lost)
    case WriteHook(w, lost) =>
      SetWorker(s, w, Advance(s.workers[w], s.now))
        .(hooks := if lost then s.hooks else ApplyHookMark(s.hooks, Current(s, w).hook, s.workers[w].phase.hookMark))
    case Crash(w) => SetWorker(s, w, Idle)
    case DeleteHook(h) => s.(hooks := s.hooks - {h}, deliveries := Cascade(s.deliveries, h))
  }

  function DoClaim(s: State, w: nat, ids: seq<DeliveryId>): State
    requires forall i :: 0 <= i < |ids| ==> ids[i] in s.deliveries
  {
    var jobs := seq(|ids|, i requires 0 <= i < |ids| => NewJob(s, ids[i]));
    var chosen := IdsOf(ids);
    SetWorker(s, w, Busy(jobs, 0, s.now, s.now, Loading))
      .(deliveries := ClaimRows(s.deliveries, chosen, s.now),
        records := map id | id in s.records.Keys + chosen :: if id in chosen then ClaimRecord(s, id) else s.records[id])
  }

  function DoMark(s: State, w: nat, lost: bool): State
    requires Working(s, w) && s.workers[w].phase.Marking?
  {
    var job, phase := Current(s, w), s.workers[w].phase;
    var worker := if phase.followUp.Some? then s.workers[w].(phase := Following(phase.followUp.value))
                  else Advance(s.workers[w], s.now);
    var r := RecordOf(s, job.id);
    if lost then SetWorker(s, w, worker)
    else
      SetWorker(s, w, worker)
        .(deliveries := ApplyMark(s.deliveries, job.id, phase.mark),
          records := if phase.mark.MarkRetry? && job.id in s.deliveries
                     then s.records[job.id := r.(retriedBy := r.retriedBy + {job.attempt})] else s.records)
  }

  // ---------------------------------------------------------------- runs

  /** The queue before any worker or dispatcher has started: only fresh pending deliveries. */
  ghost predicate Initial(s: State) {
    && s.workers == map[] && s.dispatches == {}
    && s.records.Keys == s.deliveries.Keys
    && (forall id :: id in s.deliveries ==>
          && s.deliveries[id].status == Pending && s.deliveries[id].attempts == 0 && s.deliveries[id].lastAt == None
          && s.records[id] == Record(0, 0, {}, None))
  }

  /** `actions` can be taken one after the other from `s`. */
  ghost predicate Run(c: Config, s: State, actions: seq<Action>)
    decreases |actions|, 0
  {
    actions != [] ==>
      var before := actions[..|actions| - 1];
      Run(c, s, before) && Enabled(c, After(c, s, before), actions[|actions| - 1])
  }

  ghost function After(c: Config, s: State, actions: seq<Action>): State
    requires Run(c, s, actions)
    decreases |actions|, 1
  {
    if actions == [] then s
    else Next(c, After(c, s, actions[..|actions| - 1]), actions[|actions| - 1])
  }

  /** Some run leads from `s` to `t`. */
  ghost predicate Reaches(c: Config, s: State, t: State) {
    exists actions :: Run(c, s, actions) && After(c, s, actions) == t
  }

  /** A claim that overlaps no other claim: it skips no locked row, so it takes what the query selects. */
  ghost predicate Unlocked(c: Config, s: State, a: Action) {
    a.Claim? ==> TakesDue(s.deliveries, c.batchSize, s.now, a.ids)
  }

  /** A run in which no two claims overlap. */
  ghost predicate UnlockedRun(c: Config, s: State, actions: seq<Action>) {
    Run(c, s, actions) &&
    (actions != [] ==>
       var before := actions[..|actions| - 1];
       UnlockedRun(c, s, before) && Unlocked(c, After(c, s, before), actions[|actions| - 1]))
  }

  /** Some such run leads from `s` to `t`. */
  ghost predicate ReachesUnlocked(c: Config, s: State, t: State) {
    exists actions :: UnlockedRun(c, s, actions) && After(c, s, actions) == t
  }

  lemma UnlockedReaches(c: Config, s: State, t: State)
    requires ReachesUnlocked(c, s, t)
    ensures Reaches(c, s, t)
  {
  }

  lemma UnlockedSelf(c: Config, s: State)
    ensures ReachesUnlocked(c, s, s)
  {
    assert UnlockedRun(c, s, []) && After(c, s, []) == s;
  }

  lemma UnlockedNext(c: Config, s: State, t: State, a: Action)
    requires ReachesUnlocked(c, s, t) && Enabled(c, t, a) && Unlocked(c, t, a)
    ensures ReachesUnlocked(c, s, Next(c, t, a))
  {
    var actions :| UnlockedRun(c, s, actions) && After(c, s, actions) == t;
    var longer := actions + [a];
    assert longer[..|longer| - 1] == actions;
    assert UnlockedRun(c, s, longer) && After(c, s, longer) == Next(c, t, a);
  }

  lemma ReachesSelf(c: Config, s: State)
    ensures Reaches(c, s, s)
  {
    assert Run(c, s, []) && After(c, s, []) == s;
  }

  lemma ReachesNext(c: Config, s: State, t: State, a: Action)
    requires Reaches(c, s, t) && Enabled(c, t, a)
    ensures Reaches(c, s, Next(c, t, a))
  {
    var actions :| Run(c, s, actions) && After(c, s, actions) == t;
    var longer := actions + [a];
    assert longer[..|longer| - 1] == actions;
    assert Run(c, s, longer) && After(c, s, longer) == Next(c, t, a);
  }

  function Due(ds: Deliveries, now: int): set<DeliveryId> {
    set id | id in ds && Claimable(ds[id], now)
  }

  /** How many rows a claim takes: all that are due, up to the limit, which is fifty unless a positive one is given. */
  lemma ClaimSize(ds: Deliveries, limit: int, now: int, claimed: seq<DeliveryId>)
    requires TakesDue(ds, limit, now, claimed)
    ensures var due, bound := |Due(ds, now)|, if limit > 0 then limit else 50;
            |claimed| == if due <= bound then due else bound
  {
    DistinctSize(claimed);
    SubsetOfSameSize(Elements(claimed), Due(ds, now));
    if |claimed| < (if limit > 0 then limit else 50) {
      assert forall id :: id in Due(ds, now) ==> id in Elements(claimed);
      assert Elements(claimed) == Due(ds, now);
    }
  }
}
