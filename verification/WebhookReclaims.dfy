/**
  Runs in which no worker crashes and no mark is lost. If in addition a batch fits into the claim timeout, nothing is
  ever reclaimed, so every delivery is settled by its fifth claim.
 */
module WebhookReclaims {
  import opened WebhookStore
  import opened WebhookQueue
  import opened WebhookAttempts
  import opened WebhookLease
  import opened WebhookSpacing

  /** Workers stay up and the marks of deliveries are written; everything else may still fail. */
  ghost predicate Reliable(a: Action) {
    !a.Crash? && !(a.WriteMark? && a.lost)
  }

  ghost predicate AllReliable(actions: seq<Action>) {
    forall i :: 0 <= i < |actions| ==> Reliable(actions[i])
  }

  ghost predicate Holder(s: State, w: nat, i: int, id: DeliveryId) {
    Unmarked(s, w, i) && JobAt(s, w, i).id == id
  }

  /** Some worker still owes this delivery a mark. */
  ghost predicate Owed(s: State, id: DeliveryId) {
    exists w, i :: Holder(s, w, i, id)
  }

  ghost predicate RowsOwed(s: State) {
    forall id :: id in s.deliveries ==>
      s.deliveries[id].status != Failed && (s.deliveries[id].status == Delivering ==> Owed(s, id))
  }

  ghost predicate NothingReclaimed(s: State) {
    forall id :: id in s.records ==> s.records[id].staleClaims == 0
  }

  /** With the lease in force, a row still owed cannot be claimed, so every claim is of a pending row. */
  lemma ClaimsArePending(c: Config, s: State, w: nat, ids: seq<DeliveryId>)
    requires c.LeaseOutlivesBatch() && LeasesHold(c, s) && RowsOwed(s) && Enabled(c, s, Claim(w, ids))
    ensures forall id :: id in IdsOf(ids) ==> id in s.deliveries && s.deliveries[id].status == Pending
  {
    forall id | id in IdsOf(ids)
      ensures id in s.deliveries && s.deliveries[id].status == Pending
    {
      var k :| 0 <= k < |ids| && ids[k] == id;
      if Owed(s, id) {
        var v, i :| Holder(s, v, i, id);
        HeldIsNotStale(c, s, v, i);
      }
    }
  }

  lemma {:induction false} ClaimReclaimsNothing(c: Config, s: State, w: nat, ids: seq<DeliveryId>)
    requires c.LeaseOutlivesBatch() && LeasesHold(c, s)
    requires RowsOwed(s) && NothingReclaimed(s) && Enabled(c, s, Claim(w, ids))
    ensures NothingReclaimed(DoClaim(s, w, ids))
  {
    ClaimsArePending(c, s, w, ids);
  }

  lemma ClaimKeepsOwed(c: Config, s: State, w: nat, ids: seq<DeliveryId>)
    requires RowsOwed(s) && Enabled(c, s, Claim(w, ids))
    ensures RowsOwed(DoClaim(s, w, ids))
  {
    var t := DoClaim(s, w, ids);
    forall id | id in t.deliveries
      ensures t.deliveries[id].status != Failed && (t.deliveries[id].status == Delivering ==> Owed(t, id))
    {
      if id in IdsOf(ids) {
        var k :| 0 <= k < |ids| && ids[k] == id;
        assert Holder(t, w, k, id);
      } else if Owed(s, id) {
        var v, i :| Holder(s, v, i, id);
        assert Holder(t, v, i, id);
      }
    }
  }

  lemma MarkKeepsOwed(c: Config, s: State, w: nat)
    requires RowsOwed(s) && Enabled(c, s, WriteMark(w, false))
    ensures RowsOwed(DoMark(s, w, false))
  {
    var t := DoMark(s, w, false);
    var done := Current(s, w).id;
    forall id | id in t.deliveries
      ensures t.deliveries[id].status != Failed && (t.deliveries[id].status == Delivering ==> Owed(t, id))
    {
      if id != done && Owed(s, id) {
        var v, i :| Holder(s, v, i, id);
        assert Holder(t, v, i, id);
      }
    }
  }

  /** A worker step that marks nothing keeps every debt. */
  lemma WorkerKeepsOwed(c: Config, s: State, t: State, w: nat)
    requires RowsOwed(s) && Working(s, w) && t.deliveries == s.deliveries
    requires w in t.workers && t.workers == s.workers[w := t.workers[w]]
    requires forall i :: Unmarked(s, w, i) ==> Unmarked(t, w, i) && JobAt(t, w, i) == JobAt(s, w, i)
    ensures RowsOwed(t)
  {
    forall id | id in t.deliveries && t.deliveries[id].status == Delivering
      ensures Owed(t, id)
    {
      var v, i :| Holder(s, v, i, id);
      assert Holder(t, v, i, id);
    }
  }

  lemma TableKeepsOwed(s: State, t: State)
    requires RowsOwed(s) && t.workers == s.workers
    requires forall id :: id in t.deliveries ==>
               (id in s.deliveries && t.deliveries[id] == s.deliveries[id]) || t.deliveries[id].status == Pending
    ensures RowsOwed(t)
  {
    forall id | id in t.deliveries && t.deliveries[id].status == Delivering
      ensures Owed(t, id)
    {
      var v, i :| Holder(s, v, i, id);
      assert Holder(t, v, i, id);
    }
  }

  lemma StepKeepsOwed(c: Config, s: State, a: Action)
    requires RowsOwed(s) && Enabled(c, s, a) && Reliable(a)
    ensures RowsOwed(Next(c, s, a))
  {
    var t := Next(c, s, a);
    match a
    case Claim(w, ids) => ClaimKeepsOwed(c, s, w, ids);
    case WriteMark(w, lost) => MarkKeepsOwed(c, s, w);
    case WriteHook(w, lost) => WorkerKeepsOwed(c, s, t, w);
    case LoadHook(w) => WorkerKeepsOwed(c, s, t, w);
    case FailToLoad(w) => WorkerKeepsOwed(c, s, t, w);
    case FailToBuild(w) => WorkerKeepsOwed(c, s, t, w);
    case Post(w) => WorkerKeepsOwed(c, s, t, w);
    case Respond(w, httpStatus) => WorkerKeepsOwed(c, s, t, w);
    case NoAnswer(w) => WorkerKeepsOwed(c, s, t, w);
    case _ => TableKeepsOwed(s, t);
  }

  lemma StepReclaimsNothing(c: Config, s: State, a: Action)
    requires c.LeaseOutlivesBatch() && LeasesHold(c, s) && RowsOwed(s) && NothingReclaimed(s) && Enabled(c, s, a)
    ensures NothingReclaimed(Next(c, s, a))
  {
    match a
    case Claim(w, ids) => ClaimReclaimsNothing(c, s, w, ids);
    case _ =>
  }

  lemma {:induction false} RunReclaimsNothing(c: Config, s: State, actions: seq<Action>)
    requires c.LeaseOutlivesBatch() && Initial(s) && Run(c, s, actions) && AllReliable(actions)
    ensures RowsOwed(After(c, s, actions)) && NothingReclaimed(After(c, s, actions))
    decreases |actions|
  {
    if actions != [] {
      var before, a := actions[..|actions| - 1], actions[|actions| - 1];
      RunReclaimsNothing(c, s, before);
      RunLeases(c, s, before);
      StepKeepsOwed(c, After(c, s, before), a);
      StepReclaimsNothing(c, After(c, s, before), a);
    }
  }

  /**
    No delivery is claimed more than five times; every claim is a fresh attempt; and after the fifth the delivery is
    delivered or abandoned, unless the worker that holds it is still at it.
   */
  lemma SettledByFifthClaim(c: Config, s: State, actions: seq<Action>, id: DeliveryId)
    requires c.LeaseOutlivesBatch() && Initial(s) && Run(c, s, actions) && AllReliable(actions)
    requires id in After(c, s, actions).deliveries
    ensures var t := After(c, s, actions);
            && id in t.records && t.records[id].staleClaims == 0
            && t.deliveries[id].attempts == t.records[id].claims <= 5
            && (t.deliveries[id].attempts == 5 ==> Terminal(t.deliveries[id]) || Owed(t, id))
            && (t.deliveries[id].status == Delivering ==> Owed(t, id))
  {
    RunReclaimsNothing(c, s, actions);
    AttemptBound(c, s, actions, id);
  }

  ghost predicate FreshClaims(s: State) {
    forall w, i :: Held(s, w, i) ==> !JobAt(s, w, i).reclaimed
  }

  lemma ClaimIsFresh(c: Config, s: State, w: nat, ids: seq<DeliveryId>)
    requires c.LeaseOutlivesBatch() && LeasesHold(c, s) && RowsOwed(s) && FreshClaims(s) && Enabled(c, s, Claim(w, ids))
    ensures FreshClaims(DoClaim(s, w, ids))
  {
    var t := DoClaim(s, w, ids);
    ClaimsArePending(c, s, w, ids);
    forall v, i | Held(t, v, i)
      ensures !JobAt(t, v, i).reclaimed
    {
      if v == w {
        assert ids[i] in IdsOf(ids);
      } else {
        assert Held(s, v, i) && JobAt(t, v, i) == JobAt(s, v, i);
      }
    }
  }

  lemma StepFresh(c: Config, s: State, a: Action)
    requires c.LeaseOutlivesBatch() && LeasesHold(c, s) && RowsOwed(s) && FreshClaims(s) && Enabled(c, s, a)
    ensures FreshClaims(Next(c, s, a))
  {
    var t := Next(c, s, a);
    if a.Claim? {
      ClaimIsFresh(c, s, a.w, a.ids);
    } else {
      forall v, i | Held(t, v, i)
        ensures !JobAt(t, v, i).reclaimed
      {
        assert Held(s, v, i) && JobAt(t, v, i) == JobAt(s, v, i);
      }
    }
  }

  lemma {:induction false} RunFresh(c: Config, s: State, actions: seq<Action>)
    requires c.LeaseOutlivesBatch() && Initial(s) && Run(c, s, actions) && AllReliable(actions)
    ensures FreshClaims(After(c, s, actions))
    decreases |actions|
  {
    if actions != [] {
      var before, a := actions[..|actions| - 1], actions[|actions| - 1];
      RunFresh(c, s, before);
      RunLeases(c, s, before);
      RunReclaimsNothing(c, s, before);
      StepFresh(c, After(c, s, before), a);
    }
  }

  /** A post on the k-th attempt, k = 2..5, comes at least 30 s, 5 min, 30 min or 2 h after the delivery's last post. */
  lemma {:induction false} ScheduledSpacing(c: Config, s: State, actions: seq<Action>, w: nat)
    requires c.LeaseOutlivesBatch() && Initial(s) && Run(c, s, actions) && AllReliable(actions)
    requires Enabled(c, After(c, s, actions), Post(w))
    ensures var t := After(c, s, actions);
            var job := Current(t, w);
            && job.id in t.records
            && (t.records[job.id].lastPost.Some? ==>
                  && 2 <= job.attempt <= 5
                  && t.now - t.records[job.id].lastPost.value
                     >= [30_000, 300_000, 1_800_000, 7_200_000][job.attempt - 2])
  {
    RunFresh(c, s, actions);
    PostSpacing(c, s, actions, w);
    var t := After(c, s, actions);
    assert Held(t, w, t.workers[w].index);
  }
}
