/** A hook that has turned failing: when it stays that way, and what becomes of its deliveries. */
module WebhookFailing {
  import opened Wrappers
  import opened WebhookStore
  import opened WebhookQueue

  /** Worker `w` may still report a success for `hook`: it has loaded it as active and not finished. */
  ghost predicate MayReactivate(s: State, w: nat, hook: HookId) {
    Working(s, w) && Current(s, w).hook == hook
    && match s.workers[w].phase
       case Loading => false
       case Loaded(_) => true
       case Posted(_) => true
       case Marking(_, followUp) => followUp == Some(HookSucceeded)
       case Following(hookMark) => hookMark == HookSucceeded
  }

  ghost predicate NoPostInFlight(s: State, hook: HookId) {
    forall w :: !MayReactivate(s, w, hook)
  }

  ghost predicate NoDispatchInFlight(s: State, hook: HookId) {
    forall d :: (d, hook) !in s.dispatches
  }

  /** Failing, or gone. */
  ghost predicate Silenced(s: State, hook: HookId) {
    hook in s.hooks ==> s.hooks[hook].status == Failing
  }

  ghost predicate NothingNew(s: State, t: State, hook: HookId) {
    forall id :: id in t.deliveries && t.deliveries[id].hook == hook ==>
      id in s.deliveries && s.deliveries[id].hook == hook
  }

  lemma StepSilenced(c: Config, s: State, a: Action, hook: HookId)
    requires Silenced(s, hook) && NoPostInFlight(s, hook) && Enabled(c, s, a)
    ensures Silenced(Next(c, s, a), hook) && NoPostInFlight(Next(c, s, a), hook)
    ensures NoDispatchInFlight(s, hook) ==>
              NoDispatchInFlight(Next(c, s, a), hook) && NothingNew(s, Next(c, s, a), hook)
  {
    forall w
      ensures !MayReactivate(Next(c, s, a), w, hook)
    {
      StepNoReactivation(c, s, a, hook, w);
    }
    StepHooks(c, s, a, hook);
    if NoDispatchInFlight(s, hook) {
      StepDispatches(c, s, a, hook);
    }
  }

  lemma StepNoReactivation(c: Config, s: State, a: Action, hook: HookId, w: nat)
    requires Silenced(s, hook) && NoPostInFlight(s, hook) && Enabled(c, s, a)
    ensures !MayReactivate(Next(c, s, a), w, hook)
  {
    assert !MayReactivate(s, w, hook);
    match a
    case Claim(v, ids) => assert v == w ==> Next(c, s, a).workers[w].phase == Loading;
    case _ =>
  }

  lemma StepHooks(c: Config, s: State, a: Action, hook: HookId)
    requires Silenced(s, hook) && NoPostInFlight(s, hook) && Enabled(c, s, a)
    ensures Silenced(Next(c, s, a), hook)
  {
    match a
    case WriteHook(w, lost) => assert !MayReactivate(s, w, hook);
    case _ =>
  }

  lemma StepDispatches(c: Config, s: State, a: Action, hook: HookId)
    requires Silenced(s, hook) && NoDispatchInFlight(s, hook) && Enabled(c, s, a)
    ensures NoDispatchInFlight(Next(c, s, a), hook) && NothingNew(s, Next(c, s, a), hook)
  {
    match a
    case CreateDelivery(d, h, id) => assert h != hook;
    case _ =>
  }

  lemma {:induction false} RunQueuesNothing(c: Config, s: State, actions: seq<Action>, hook: HookId)
    requires Silenced(s, hook) && NoPostInFlight(s, hook) && NoDispatchInFlight(s, hook) && Run(c, s, actions)
    ensures NothingNew(s, After(c, s, actions), hook)
  {
    RunSilenced(c, s, actions, hook);
  }

  lemma {:induction false} RunSilenced(c: Config, s: State, actions: seq<Action>, hook: HookId)
    requires Silenced(s, hook) && NoPostInFlight(s, hook) && Run(c, s, actions)
    ensures Silenced(After(c, s, actions), hook) && NoPostInFlight(After(c, s, actions), hook)
    ensures NoDispatchInFlight(s, hook) ==>
              NoDispatchInFlight(After(c, s, actions), hook) && NothingNew(s, After(c, s, actions), hook)
    decreases |actions|
  {
    if actions != [] {
      var before := actions[..|actions| - 1];
      RunSilenced(c, s, before, hook);
      StepSilenced(c, After(c, s, before), actions[|actions| - 1], hook);
    }
  }

  /** A worker that still may report a success can go on to do so, and the hook is active again. */
  lemma Reactivation(c: Config, s: State, t: State, w: nat, hook: HookId) returns (end: State)
    requires Reaches(c, s, t) && hook in t.hooks && MayReactivate(t, w, hook)
    ensures Reaches(c, s, end) && hook in end.hooks && end.hooks[hook].status == Active
    ensures end.deliveries.Keys == t.deliveries.Keys
    decreases match t.workers[w].phase { case Loaded(_) => 3 case Posted(_) => 2 case Marking(_, _) => 1 case _ => 0 }
  {
    var step := match t.workers[w].phase
      case Loaded(_) => Post(w)
      case Posted(_) => Respond(w, 200)
      case Marking(_, _) => WriteMark(w, true)
      case _ => WriteHook(w, false);
    ReachesNext(c, s, t, step);
    if t.workers[w].phase.Following? {
      end := Next(c, t, step);
    } else {
      end := Reactivation(c, s, Next(c, t, step), w, hook);
    }
  }

  /** From any state, a failing hook is never reactivated in any run exactly when no post for it is in flight. */
  lemma StaysFailingIff(c: Config, s: State, hook: HookId)
    requires hook in s.hooks && s.hooks[hook].status == Failing
    ensures (forall t :: Reaches(c, s, t) ==> Silenced(t, hook)) <==> NoPostInFlight(s, hook)
  {
    if NoPostInFlight(s, hook) {
      forall t | Reaches(c, s, t)
        ensures Silenced(t, hook)
      {
        var actions :| Run(c, s, actions) && After(c, s, actions) == t;
        RunSilenced(c, s, actions, hook);
      }
    } else {
      var w :| MayReactivate(s, w, hook);
      ReachesSelf(c, s);
      var end := Reactivation(c, s, s, w, hook);
    }
  }

  /** A bound on the ids in use. */
  lemma {:induction false} FreshDelivery(ids: set<DeliveryId>) returns (bound: DeliveryId)
    ensures forall id :: id in ids ==> id < bound
  {
    bound := 0;
    if ids != {} {
      var id :| id in ids;
      var rest := FreshDelivery(ids - {id});
      bound := if id < rest then rest else id + 1;
      assert forall k :: k in ids ==> k == id || k in ids - {id};
    }
  }

  /** A dispatcher that found the hook earlier queues a delivery for it, whatever has become of the hook's status. */
  lemma LateDispatch(c: Config, s: State, t: State, d: nat, hook: HookId) returns (end: State)
    requires Reaches(c, s, t) && (d, hook) in t.dispatches && hook in t.hooks
    ensures Reaches(c, s, end) && !NothingNew(s, end, hook)
  {
    var id := FreshDelivery(s.deliveries.Keys + t.records.Keys);
    ReachesNext(c, s, t, CreateDelivery(d, hook, id));
    end := Next(c, t, CreateDelivery(d, hook, id));
    assert id in end.deliveries && end.deliveries[id].hook == hook;
  }

  /** A hook that is active again is found by the next dispatch. */
  lemma QueuedOnceActive(c: Config, s: State, t: State, hook: HookId) returns (end: State)
    requires Reaches(c, s, t) && hook in t.hooks && t.hooks[hook].status == Active
    ensures Reaches(c, s, end) && !NothingNew(s, end, hook)
  {
    ReachesNext(c, s, t, FindSubscribed(0, {hook}));
    var found := Next(c, t, FindSubscribed(0, {hook}));
    assert (0, hook) in found.dispatches;
    end := LateDispatch(c, s, found, 0, hook);
  }

  /**
    From any state with a failing hook, nothing new is ever queued for it in any run exactly when neither a post for it
    nor a dispatch that found it active is in flight.
   */
  lemma NothingQueuedIff(c: Config, s: State, hook: HookId)
    requires hook in s.hooks && s.hooks[hook].status == Failing
    ensures (forall t :: Reaches(c, s, t) ==> NothingNew(s, t, hook))
       <==> NoPostInFlight(s, hook) && NoDispatchInFlight(s, hook)
  {
    ReachesSelf(c, s);
    if !NoPostInFlight(s, hook) {
      var w :| MayReactivate(s, w, hook);
      var active := Reactivation(c, s, s, w, hook);
      var end := QueuedOnceActive(c, s, active, hook);
    } else if !NoDispatchInFlight(s, hook) {
      var d :| (d, hook) in s.dispatches;
      var end := LateDispatch(c, s, s, d, hook);
    } else {
      forall t | Reaches(c, s, t)
        ensures NothingNew(s, t, hook)
      {
        var actions :| Run(c, s, actions) && After(c, s, actions) == t;
        RunQueuesNothing(c, s, actions, hook);
      }
    }
  }

  /** In every run from there on, no worker is ever about to post to the hook. */
  lemma {:induction false} NeverPosted(c: Config, s: State, actions: seq<Action>, w: nat, hook: HookId)
    requires Silenced(s, hook) && NoPostInFlight(s, hook) && Run(c, s, actions)
    ensures !(Enabled(c, After(c, s, actions), Post(w)) && Current(After(c, s, actions), w).hook == hook)
  {
    RunSilenced(c, s, actions, hook);
    assert !MayReactivate(After(c, s, actions), w, hook);
  }

  /** Worker `w` goes on living and does not write the mark of this job yet. */
  ghost predicate LeavesMark(actions: seq<Action>, w: nat) {
    forall i :: 0 <= i < |actions| ==> actions[i] != Crash(w) && !(actions[i].WriteMark? && actions[i].w == w)
  }

  /** Worker `w` is about to mark `job` abandoned and nothing else. */
  ghost predicate Abandoning(s: State, w: nat, job: Job) {
    Working(s, w) && Current(s, w) == job && s.workers[w].phase == Marking(MarkAbandoned, None)
  }

  lemma StepAbandoning(c: Config, s: State, a: Action, w: nat, job: Job)
    requires Abandoning(s, w, job) && Enabled(c, s, a) && LeavesMark([a], w)
    ensures Abandoning(Next(c, s, a), w, job)
  {
    assert [a][0] == a;
  }

  lemma {:induction false} RunAbandoning(c: Config, s: State, actions: seq<Action>, w: nat, job: Job)
    requires Abandoning(s, w, job) && Run(c, s, actions) && LeavesMark(actions, w)
    ensures Abandoning(After(c, s, actions), w, job)
    decreases |actions|
  {
    if actions != [] {
      var before := actions[..|actions| - 1];
      RunAbandoning(c, s, before, w, job);
      StepAbandoning(c, After(c, s, before), actions[|actions| - 1], w, job);
    }
  }

  /**
    Once a hook is failing with no post in flight: after any run, when a worker loads it for a claimed delivery,
    whatever everybody else does until that worker's mark is written, the mark makes the row abandoned, if it still
    exists, and changes neither another delivery nor any hook.
   */
  lemma {:induction false} ClaimOfFailingHookIsAbandoned(c: Config, s: State, before: seq<Action>, w: nat,
                                                         after: seq<Action>, hook: HookId)
    requires Silenced(s, hook) && NoPostInFlight(s, hook)
    requires Run(c, s, before) && Enabled(c, After(c, s, before), LoadHook(w))
    requires Current(After(c, s, before), w).hook == hook
    requires Run(c, Next(c, After(c, s, before), LoadHook(w)), after) && LeavesMark(after, w)
    ensures var job := Current(After(c, s, before), w);
            var u := After(c, Next(c, After(c, s, before), LoadHook(w)), after);
            && Enabled(c, u, WriteMark(w, false))
            && Next(c, u, WriteMark(w, false)).hooks == u.hooks
            && Next(c, u, WriteMark(w, false)).deliveries
               == if job.id in u.deliveries then u.deliveries[job.id := u.deliveries[job.id].(status := Abandoned)]
                  else u.deliveries
  {
    RunSilenced(c, s, before, hook);
    var t := After(c, s, before);
    RunAbandoning(c, Next(c, t, LoadHook(w)), after, w, Current(t, w));
  }

  // ---------------------------------------------------------------- the worker code is a path of the system

  /** Worker `w` has decided what to write, everything else being as in `s`. */
  ghost predicate Decides(s: State, t: State, w: nat, writes: Writes)
    requires Working(s, w)
  {
    && Working(t, w) && Current(t, w) == Current(s, w)
    && t.workers[w].phase == Marking(writes.mark, writes.followUp)
    && t.deliveries == s.deliveries && t.hooks == s.hooks
  }

  lemma LoadedPath(c: Config, s: State, w: nat, outcome: Outcome) returns (t: State)
    requires Working(s, w) && s.workers[w].phase == Loading && outcome != LoadFails
    requires Current(s, w).hook in s.hooks && s.hooks[Current(s, w).hook].status == Active
    ensures Reaches(c, s, t) && Decides(s, t, w, Written(s.hooks, Current(s, w), outcome, s.now))
  {
    ReachesSelf(c, s);
    ReachesNext(c, s, s, LoadHook(w));
    t := SetPhase(s, w, Loaded(s.hooks[Current(s, w).hook].failureCount));
    if outcome == RequestNotBuilt {
      ReachesNext(c, s, t, FailToBuild(w));
      t := Next(c, t, FailToBuild(w));
    } else {
      ReachesNext(c, s, t, Post(w));
      t := Next(c, t, Post(w));
      var answer := if outcome.Responded? then Respond(w, outcome.httpStatus) else NoAnswer(w);
      ReachesNext(c, s, t, answer);
      t := Next(c, t, answer);
    }
  }

  /** Undisturbed, the steps of a worker reach exactly the writes ProcessDelivery makes. */
  lemma WorkerCodeIsAPath(c: Config, s: State, w: nat, outcome: Outcome) returns (t: State)
    requires Working(s, w) && s.workers[w].phase == Loading
    ensures Reaches(c, s, t) && Decides(s, t, w, Written(s.hooks, Current(s, w), outcome, s.now))
  {
    if outcome == LoadFails {
      ReachesSelf(c, s);
      ReachesNext(c, s, s, FailToLoad(w));
      t := Next(c, s, FailToLoad(w));
    } else if Current(s, w).hook in s.hooks && s.hooks[Current(s, w).hook].status == Active {
      t := LoadedPath(c, s, w, outcome);
    } else {
      ReachesSelf(c, s);
      ReachesNext(c, s, s, LoadHook(w));
      t := Next(c, s, LoadHook(w));
    }
  }
}
