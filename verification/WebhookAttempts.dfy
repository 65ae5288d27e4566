/** Attempt accounting, in every run and with no assumption on timing. */
module WebhookAttempts {
  import opened WebhookStore
  import opened WebhookQueue

  /** Job `i` of worker `w` is still to be finished. */
  ghost predicate Held(s: State, w: nat, i: int) {
    Working(s, w) && s.workers[w].index <= i < |s.workers[w].batch|
  }

  ghost function JobAt(s: State, w: nat, i: int): Job
    requires Held(s, w, i)
  {
    s.workers[w].batch[i]
  }

  /** ... and its outcome has not been written yet. */
  ghost predicate Unmarked(s: State, w: nat, i: int) {
    Held(s, w, i) && (i == s.workers[w].index ==> !s.workers[w].phase.Following?)
  }

  const RETRYABLE := {1, 2, 3, 4}

  ghost predicate RowCounted(d: Delivery, r: Record) {
    && d.attempts == r.claims
    && r.staleClaims <= r.claims
    && r.retriedBy <= RETRYABLE && (forall k :: k in r.retriedBy ==> k <= r.claims)
    && r.claims - r.staleClaims + (if d.status == Pending then 1 else 0) <= 1 + |r.retriedBy|
  }

  ghost predicate JobCounted(s: State, w: nat, i: int)
    requires Held(s, w, i)
  {
    var job := JobAt(s, w, i);
    && job.id in s.records
    && 1 <= job.attempt <= s.records[job.id].claims
    && (Unmarked(s, w, i) ==> job.attempt !in s.records[job.id].retriedBy)
    && (i == s.workers[w].index && s.workers[w].phase.Marking? && s.workers[w].phase.mark.MarkRetry? ==>
          job.attempt in RETRYABLE)
  }

  /** No two held jobs are the same attempt at the same delivery. */
  ghost predicate AttemptsDistinct(s: State) {
    forall w, i, v, j :: Held(s, w, i) && Held(s, v, j) && (w != v || i != j) && JobAt(s, w, i).id == JobAt(s, v, j).id
      ==> JobAt(s, w, i).attempt != JobAt(s, v, j).attempt
  }

  ghost predicate Counted(s: State) {
    && (forall id :: id in s.deliveries ==> id in s.records && RowCounted(s.deliveries[id], s.records[id]))
    && (forall w, i :: Held(s, w, i) ==> JobCounted(s, w, i))
    && AttemptsDistinct(s)
  }

  lemma InitialCounted(s: State)
    requires Initial(s)
    ensures Counted(s)
  {
  }

  predicate ByWorker(a: Action) {
    a.LoadHook? || a.FailToLoad? || a.FailToBuild? || a.Post? || a.Respond? || a.NoAnswer? || a.WriteHook? || a.Crash?
  }

  lemma LoadStepCounted(c: Config, s: State, a: Action)
    requires Counted(s) && Enabled(c, s, a) && (a.LoadHook? || a.FailToLoad? || a.FailToBuild?)
    ensures Counted(Next(c, s, a))
  {
    match a
    case LoadHook(w) => WorkerCounted(s, Next(c, s, a), w);
    case FailToLoad(w) => WorkerCounted(s, Next(c, s, a), w);
    case FailToBuild(w) => WorkerCounted(s, Next(c, s, a), w);
  }

  lemma WorkerStepCounted(c: Config, s: State, a: Action)
    requires Counted(s) && Enabled(c, s, a) && ByWorker(a)
    ensures Counted(Next(c, s, a))
  {
    match a
    case Respond(w, httpStatus) => WorkerCounted(s, Next(c, s, a), w);
    case NoAnswer(w) => WorkerCounted(s, Next(c, s, a), w);
    case Post(w) => WorkerCounted(s, Next(c, s, a), w);
    case WriteHook(w, lost) => WorkerCounted(s, Next(c, s, a), w);
    case Crash(w) => WorkerCounted(s, Next(c, s, a), w);
    case _ => LoadStepCounted(c, s, a);
  }

  lemma TableStepCounted(c: Config, s: State, a: Action)
    requires Counted(s) && Enabled(c, s, a) && !ByWorker(a) && !a.Claim? && !a.WriteMark?
    ensures Counted(Next(c, s, a))
  {
    TablesCounted(s, Next(c, s, a));
  }

  lemma StepCounted(c: Config, s: State, a: Action)
    requires Counted(s) && Enabled(c, s, a)
    ensures Counted(Next(c, s, a))
  {
    match a
    case Claim(w, ids) => ClaimCounted(c, s, w, ids);
    case WriteMark(w, lost) => MarkCounted(c, s, w, lost);
    case _ =>
      if ByWorker(a) {
        WorkerStepCounted(c, s, a);
      } else {
        TableStepCounted(c, s, a);
      }
  }

  /** Steps that leave the workers alone. */
  lemma TablesCounted(s: State, t: State)
    requires Counted(s) && t.workers == s.workers
    requires forall id :: id in s.records ==> id in t.records && t.records[id] == s.records[id]
    requires forall id :: id in t.deliveries ==>
               || (id in s.deliveries && t.deliveries[id] == s.deliveries[id])
               || (id in t.records && RowCounted(t.deliveries[id], t.records[id]))
    ensures Counted(t)
  {
    assert forall w, i :: Held(t, w, i) ==> Held(s, w, i) && JobCounted(s, w, i) && JobAt(t, w, i) == JobAt(s, w, i);
  }

  /** Steps of one worker that keep its batch and touch neither deliveries nor the counts. */
  lemma WorkerCounted(s: State, t: State, w: nat)
    requires Counted(s) && t.deliveries == s.deliveries
    requires t.records.Keys >= s.records.Keys
    requires forall id :: id in s.records ==>
               && t.records[id].claims == s.records[id].claims && t.records[id].staleClaims == s.records[id].staleClaims
               && t.records[id].retriedBy == s.records[id].retriedBy
    requires forall v :: v != w ==> (v in t.workers <==> v in s.workers)
    requires forall v :: v != w && v in s.workers ==> t.workers[v] == s.workers[v]
    requires w in t.workers
    requires t.workers[w].Busy? ==>
               && Working(s, w)
               && t.workers[w].batch == s.workers[w].batch
               && t.workers[w].index >= s.workers[w].index
               && (t.workers[w].index == s.workers[w].index ==>
                     (t.workers[w].phase.Following? || !s.workers[w].phase.Following?))
               && (Working(t, w) && t.workers[w].phase.Marking? && t.workers[w].phase.mark.MarkRetry? ==>
                     Current(t, w).attempt in RETRYABLE)
    ensures Counted(t)
  {
    forall v, i | Held(t, v, i)
      ensures Held(s, v, i) && JobCounted(t, v, i) && JobAt(t, v, i) == JobAt(s, v, i)
      ensures Unmarked(t, v, i) ==> Unmarked(s, v, i)
    {
      assert JobCounted(s, v, i);
    }
  }

  lemma ClaimRowsCounted(c: Config, s: State, w: nat, ids: seq<DeliveryId>, id: DeliveryId)
    requires Counted(s) && Enabled(c, s, Claim(w, ids)) && id in s.deliveries
    ensures var t := DoClaim(s, w, ids);
            id in t.records && RowCounted(t.deliveries[id], t.records[id])
  {
    assert RowCounted(s.deliveries[id], s.records[id]);
  }

  lemma ClaimJobCounted(c: Config, s: State, w: nat, ids: seq<DeliveryId>, v: nat, i: int)
    requires Counted(s) && Enabled(c, s, Claim(w, ids)) && Held(DoClaim(s, w, ids), v, i)
    ensures var t := DoClaim(s, w, ids);
            && JobCounted(t, v, i)
            && (v == w ==> JobAt(t, v, i).id == ids[i] && JobAt(t, v, i).attempt == s.records[ids[i]].claims + 1)
            && (v != w ==> Held(s, v, i) && JobCounted(s, v, i) && JobAt(t, v, i) == JobAt(s, v, i))
  {
    if v == w {
      assert RowCounted(s.deliveries[ids[i]], s.records[ids[i]]);
      assert ids[i] in IdsOf(ids);
    } else {
      assert JobCounted(s, v, i);
    }
  }

  lemma ClaimCounted(c: Config, s: State, w: nat, ids: seq<DeliveryId>)
    requires Counted(s) && Enabled(c, s, Claim(w, ids))
    ensures Counted(DoClaim(s, w, ids))
  {
    var t := DoClaim(s, w, ids);
    forall id | id in t.deliveries
      ensures id in t.records && RowCounted(t.deliveries[id], t.records[id])
    {
      ClaimRowsCounted(c, s, w, ids, id);
    }
    forall v, i | Held(t, v, i)
      ensures JobCounted(t, v, i)
      ensures v == w ==> JobAt(t, v, i).id == ids[i] && JobAt(t, v, i).attempt == s.records[ids[i]].claims + 1
      ensures v != w ==> Held(s, v, i) && JobCounted(s, v, i) && JobAt(t, v, i) == JobAt(s, v, i)
    {
      ClaimJobCounted(c, s, w, ids, v, i);
    }
  }

  lemma MarkRowCounted(c: Config, s: State, w: nat, lost: bool, id: DeliveryId)
    requires Counted(s) && Enabled(c, s, WriteMark(w, lost)) && id in s.deliveries
    ensures var t := DoMark(s, w, lost);
            id in t.deliveries && id in t.records && RowCounted(t.deliveries[id], t.records[id])
  {
    assert Held(s, w, s.workers[w].index) && JobCounted(s, w, s.workers[w].index);
    assert RowCounted(s.deliveries[id], s.records[id]);
  }

  lemma MarkJobCounted(c: Config, s: State, w: nat, lost: bool, v: nat, i: int)
    requires Counted(s) && Enabled(c, s, WriteMark(w, lost)) && Held(DoMark(s, w, lost), v, i)
    ensures Held(s, v, i) && JobAt(DoMark(s, w, lost), v, i) == JobAt(s, v, i)
    ensures JobCounted(DoMark(s, w, lost), v, i)
  {
    var t, k := DoMark(s, w, lost), s.workers[w].index;
    assert Held(s, w, k) && JobCounted(s, w, k);
    assert Held(s, v, i) && JobCounted(s, v, i);
    assert Unmarked(t, v, i) ==> Unmarked(s, v, i) && (v != w || i != k);
  }

  lemma MarkCounted(c: Config, s: State, w: nat, lost: bool)
    requires Counted(s) && Enabled(c, s, WriteMark(w, lost))
    ensures Counted(DoMark(s, w, lost))
  {
    var t := DoMark(s, w, lost);
    forall v, i | Held(t, v, i)
      ensures Held(s, v, i) && JobAt(t, v, i) == JobAt(s, v, i) && JobCounted(t, v, i)
    {
      MarkJobCounted(c, s, w, lost, v, i);
    }
    forall id | id in t.deliveries
      ensures id in t.records && RowCounted(t.deliveries[id], t.records[id])
    {
      MarkRowCounted(c, s, w, lost, id);
    }
  }

  lemma {:induction false} RunCounted(c: Config, s: State, actions: seq<Action>)
    requires Initial(s) && Run(c, s, actions)
    ensures Counted(After(c, s, actions))
    decreases |actions|
  {
    if actions == [] {
      InitialCounted(s);
    } else {
      var before := actions[..|actions| - 1];
      RunCounted(c, s, before);
      StepCounted(c, After(c, s, before), actions[|actions| - 1]);
    }
  }

  lemma AtMostFour(retriedBy: set<nat>)
    requires retriedBy <= RETRYABLE
    ensures |retriedBy| <= 4
  {
    var rest := RETRYABLE - retriedBy;
    assert RETRYABLE == retriedBy + rest;
    assert |RETRYABLE| == 4;
  }

  /**
    attempt_count is the number of claims, and exceeds five only by stale reclaims; without one, a delivery that has
    been claimed five times is never pending again.
   */
  lemma {:induction false} AttemptBound(c: Config, s: State, actions: seq<Action>, id: DeliveryId)
    requires Initial(s) && Run(c, s, actions) && id in After(c, s, actions).deliveries
    ensures var t := After(c, s, actions);
            && id in t.records
            && t.deliveries[id].attempts == t.records[id].claims
            && t.deliveries[id].attempts <= MAX_ATTEMPTS + t.records[id].staleClaims
            && (t.deliveries[id].status == Pending ==>
                  t.deliveries[id].attempts < MAX_ATTEMPTS + t.records[id].staleClaims)
  {
    RunCounted(c, s, actions);
    var t := After(c, s, actions);
    assert RowCounted(t.deliveries[id], t.records[id]);
    AtMostFour(t.records[id].retriedBy);
  }

  /** From the fifth attempt on, a mark that is written ends the delivery. */
  lemma {:induction false} LastMarkIsTerminal(c: Config, s: State, actions: seq<Action>, w: nat)
    requires Initial(s) && Run(c, s, actions) && Enabled(c, After(c, s, actions), WriteMark(w, false))
    requires Current(After(c, s, actions), w).attempt >= MAX_ATTEMPTS
    requires Current(After(c, s, actions), w).id in After(c, s, actions).deliveries
    ensures var t := After(c, s, actions);
            var d := Next(c, t, WriteMark(w, false)).deliveries[Current(t, w).id];
            d.status == Delivered || d.status == Abandoned
  {
    RunCounted(c, s, actions);
    var t := After(c, s, actions);
    assert Held(t, w, t.workers[w].index) && JobCounted(t, w, t.workers[w].index);
  }
}
