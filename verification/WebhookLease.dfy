/**
  The claim as a lease. If a whole batch fits into the claim timeout, no two workers ever hold one delivery,
  terminal statuses are final although no mark checks them, and posts keep their distance. Otherwise none of
  this holds: a slow worker and a reclaiming one meet on the same row.
 */
module WebhookLease {
  import opened Wrappers
  import opened WebhookStore
  import opened WebhookQueue
  import opened WebhookAttempts

  ghost predicate Terminal(d: Delivery) {
    d.status == Delivered || d.status == Abandoned
  }

  /** No delivery is held twice, by two workers or by one. */
  ghost predicate Exclusive(s: State) {
    forall w, i, v, j :: Held(s, w, i) && Held(s, v, j) && (w != v || i != j) ==> JobAt(s, w, i).id != JobAt(s, v, j).id
  }

  /** A worker is on schedule: each finished job took at most `perItem`, and so far the current one has too. */
  ghost predicate OnSchedule(c: Config, s: State, w: nat)
    requires Working(s, w)
  {
    var k := s.workers[w];
    && |k.batch| <= c.batchSize
    && k.claimedAt <= k.startedAt <= k.claimedAt + k.index * c.perItem
    && k.startedAt <= s.now <= k.startedAt + c.perItem
    && (k.phase.Marking? && k.phase.followUp.Some? ==> !k.phase.mark.MarkRetry?)
  }

  /** A held row still carries its holder's claim. */
  ghost predicate Leased(s: State, w: nat, i: int)
    requires Held(s, w, i)
  {
    var job := JobAt(s, w, i);
    && job.id in s.records
    && (job.id in s.deliveries ==>
          var d := s.deliveries[job.id];
          && d.attempts == job.attempt
          && d.lastAt == Some(s.workers[w].claimedAt)
          && (d.status == Delivering || (!Unmarked(s, w, i) && Terminal(d))))
  }

  ghost predicate LeasesHold(c: Config, s: State) {
    && s.deliveries.Keys <= s.records.Keys
    && (forall w :: Working(s, w) ==> OnSchedule(c, s, w))
    && (forall w, i :: Held(s, w, i) ==> Leased(s, w, i))
    && Exclusive(s)
  }

  lemma {:induction false} ScheduleBound(index: nat, n: nat, perItem: nat)
    requires index < n
    ensures index * perItem + perItem <= n * perItem
    ensures (index + 1) * perItem == index * perItem + perItem
  {
    OneMore(index, perItem);
    if index + 1 < n {
      ScheduleBound(index, n - 1, perItem);
      OneMore(n - 1, perItem);
    }
  }

  lemma OneMore(k: nat, perItem: nat)
    ensures (k + 1) * perItem == k * perItem + perItem
  {
  }

  /** The time a worker can have held its batch stays below the claim timeout. */
  lemma {:induction false} HeldIsNotStale(c: Config, s: State, w: nat, i: int)
    requires c.LeaseOutlivesBatch() && LeasesHold(c, s) && Held(s, w, i)
    ensures s.now <= s.workers[w].claimedAt + c.batchSize * c.perItem < s.workers[w].claimedAt + CLAIM_TIMEOUT
    ensures JobAt(s, w, i).id in s.deliveries ==> !Claimable(s.deliveries[JobAt(s, w, i).id], s.now)
  {
    assert OnSchedule(c, s, w) && Leased(s, w, i);
    ScheduleBound(s.workers[w].index, c.batchSize, c.perItem);
  }

  // ---------------------------------------------------------------- preservation

  lemma StepLeases(c: Config, s: State, a: Action)
    requires c.LeaseOutlivesBatch() && LeasesHold(c, s) && Enabled(c, s, a)
    ensures LeasesHold(c, Next(c, s, a))
  {
    var t := Next(c, s, a);
    match a
    case Claim(w, ids) => ClaimLeases(c, s, w, ids);
    case WriteMark(w, lost) => MarkLeases(c, s, w, lost);
    case WriteHook(w, lost) => WorkerLeases(c, s, t, w);
    case Crash(w) => WorkerLeases(c, s, t, w);
    case LoadHook(w) => WorkerLeases(c, s, t, w);
    case FailToLoad(w) => WorkerLeases(c, s, t, w);
    case FailToBuild(w) => WorkerLeases(c, s, t, w);
    case Respond(w, httpStatus) => WorkerLeases(c, s, t, w);
    case NoAnswer(w) => WorkerLeases(c, s, t, w);
    case Post(w) => WorkerLeases(c, s, t, w);
    case Tick(dt) => TableLeases(c, s, t);
    case FindSubscribed(d, found) => TableLeases(c, s, t);
    case CreateDelivery(d, h, id) => TableLeases(c, s, t);
    case GiveUpDispatch(d, h) => TableLeases(c, s, t);
    case DeleteHook(h) => TableLeases(c, s, t);
  }

  lemma TableLeases(c: Config, s: State, t: State)
    requires LeasesHold(c, s) && t.workers == s.workers && s.now <= t.now
    requires forall w :: Working(s, w) ==> t.now <= s.workers[w].startedAt + c.perItem
    requires s.records.Keys <= t.records.Keys && t.deliveries.Keys <= t.records.Keys
    requires forall id :: id in t.deliveries ==>
               (id in s.deliveries && t.deliveries[id] == s.deliveries[id]) || id !in s.records
    ensures LeasesHold(c, t)
  {
    forall w | Working(t, w)
      ensures OnSchedule(c, t, w)
    {
      assert Working(s, w) && OnSchedule(c, s, w);
    }
    forall w, i | Held(t, w, i)
      ensures Held(s, w, i) && Leased(t, w, i) && JobAt(t, w, i) == JobAt(s, w, i)
    {
      assert Leased(s, w, i);
      assert Unmarked(t, w, i) == Unmarked(s, w, i);
    }
  }

  /** Worker `w` goes from `k` to a later phase of the same job, to the next job, or idle. */
  ghost predicate Moves(c: Config, s: State, w: nat, k: Worker)
    requires Working(s, w)
  {
    k.Busy? ==>
      || (&& k == s.workers[w].(phase := k.phase)
          && (k.phase.Following? || !s.workers[w].phase.Following?)
          && (k.phase.Marking? && k.phase.followUp.Some? ==> !k.phase.mark.MarkRetry?))
      || k == Advance(s.workers[w], s.now)
  }

  lemma MoveKeepsSchedule(c: Config, s: State, t: State, w: nat)
    requires LeasesHold(c, s) && Working(s, w) && Working(t, w) && t.now == s.now && Moves(c, s, w, t.workers[w])
    ensures OnSchedule(c, t, w)
  {
    assert OnSchedule(c, s, w);
    ScheduleBound(s.workers[w].index, |s.workers[w].batch|, c.perItem);
  }

  lemma WorkerLeases(c: Config, s: State, t: State, w: nat)
    requires LeasesHold(c, s)
    requires t.deliveries == s.deliveries && s.records.Keys <= t.records.Keys && t.now == s.now
    requires w in t.workers && t.workers == s.workers[w := t.workers[w]]
    requires t.workers[w].Busy? ==> Working(s, w) && Moves(c, s, w, t.workers[w])
    ensures LeasesHold(c, t)
  {
    forall v | Working(t, v)
      ensures OnSchedule(c, t, v)
    {
      if v == w {
        MoveKeepsSchedule(c, s, t, w);
      } else {
        assert Working(s, v) && OnSchedule(c, s, v);
      }
    }
    forall v, i | Held(t, v, i)
      ensures Held(s, v, i) && Leased(t, v, i) && JobAt(t, v, i) == JobAt(s, v, i)
    {
      assert Held(s, v, i) && Leased(s, v, i);
      assert Unmarked(t, v, i) ==> Unmarked(s, v, i);
    }
  }

  lemma ClaimLeases(c: Config, s: State, w: nat, ids: seq<DeliveryId>)
    requires c.LeaseOutlivesBatch() && LeasesHold(c, s) && Enabled(c, s, Claim(w, ids))
    ensures LeasesHold(c, DoClaim(s, w, ids))
  {
    var t := DoClaim(s, w, ids);
    forall v | Working(t, v)
      ensures OnSchedule(c, t, v)
    {
      if v != w {
        assert Working(s, v) && OnSchedule(c, s, v);
      }
    }
    forall v, i | Held(t, v, i)
      ensures Leased(t, v, i)
      ensures v == w ==> JobAt(t, v, i).id == ids[i]
      ensures v != w ==> Held(s, v, i) && JobAt(t, v, i) == JobAt(s, v, i) && JobAt(t, v, i).id !in ids
    {
      ClaimLeaseAt(c, s, w, ids, v, i);
    }
  }

  lemma ClaimLeaseAt(c: Config, s: State, w: nat, ids: seq<DeliveryId>, v: nat, i: int)
    requires c.LeaseOutlivesBatch() && LeasesHold(c, s)
    requires Enabled(c, s, Claim(w, ids)) && Held(DoClaim(s, w, ids), v, i)
    ensures var t := DoClaim(s, w, ids);
            && Leased(t, v, i)
            && (v == w ==> JobAt(t, v, i).id == ids[i])
            && (v != w ==> Held(s, v, i) && JobAt(t, v, i) == JobAt(s, v, i) && JobAt(t, v, i).id !in ids)
  {
    if v == w {
      assert ids[i] in IdsOf(ids);
    } else {
      assert Held(s, v, i) && Leased(s, v, i);
      HeldIsNotStale(c, s, v, i);
      assert JobAt(s, v, i).id !in IdsOf(ids);
    }
  }

  lemma MarkLeases(c: Config, s: State, w: nat, lost: bool)
    requires LeasesHold(c, s) && Enabled(c, s, WriteMark(w, lost))
    ensures LeasesHold(c, DoMark(s, w, lost))
  {
    var t := DoMark(s, w, lost);
    var k := s.workers[w].index;
    assert Held(s, w, k) && Leased(s, w, k) && OnSchedule(c, s, w);
    forall v | Working(t, v)
      ensures OnSchedule(c, t, v)
    {
      if v == w {
        MoveKeepsSchedule(c, s, t, w);
      } else {
        assert Working(s, v) && OnSchedule(c, s, v);
      }
    }
    forall v, i | Held(t, v, i)
      ensures Held(s, v, i) && Leased(t, v, i) && JobAt(t, v, i) == JobAt(s, v, i)
    {
      assert Held(s, v, i) && Leased(s, v, i);
      if v != w || i != k {
        assert JobAt(s, v, i).id != Current(s, w).id;
      }
    }
  }

  lemma {:induction false} RunLeases(c: Config, s: State, actions: seq<Action>)
    requires c.LeaseOutlivesBatch() && Initial(s) && Run(c, s, actions)
    ensures LeasesHold(c, After(c, s, actions))
    decreases |actions|
  {
    if actions != [] {
      var before := actions[..|actions| - 1];
      RunLeases(c, s, before);
      StepLeases(c, After(c, s, before), actions[|actions| - 1]);
    }
  }

  // ---------------------------------------------------------------- final statuses

  /** A terminal row keeps its status, or disappears with its hook. */
  ghost predicate TerminalStays(s: State, t: State) {
    forall id :: id in s.deliveries && Terminal(s.deliveries[id]) && id in t.deliveries
      ==> t.deliveries[id].status == s.deliveries[id].status
  }

  lemma StepKeepsTerminal(c: Config, s: State, a: Action)
    requires LeasesHold(c, s) && Enabled(c, s, a)
    ensures TerminalStays(s, Next(c, s, a))
  {
    match a
    case WriteMark(w, lost) =>
      assert Held(s, w, s.workers[w].index) && Leased(s, w, s.workers[w].index);
    case _ =>
  }
}
