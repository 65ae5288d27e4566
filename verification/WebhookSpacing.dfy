/** How far apart the posts of one delivery are, when a batch fits into the claim timeout. */
module WebhookSpacing {
  import opened Wrappers
  import opened WebhookStore
  import opened WebhookQueue
  import opened WebhookAttempts
  import opened WebhookLease

  /** The least distance of this claim from the last post: the scheduled delay, or what is left of a stale lease. */
  ghost function Gap(c: Config, job: Job): Option<int> {
    if job.reclaimed then Some(CLAIM_TIMEOUT - c.batchSize * c.perItem) else NextRetryDelay(job.attempt - 1)
  }

  ghost predicate Apart(earlier: Option<int>, gap: Option<int>, later: int) {
    earlier.Some? ==> gap.Some? && later >= earlier.value + gap.value
  }

  ghost predicate RowSpaced(c: Config, s: State, id: DeliveryId)
    requires id in s.deliveries && id in s.records
  {
    var d, last := s.deliveries[id], s.records[id].lastPost;
    && (d.status == Pending ==> Apart(last, NextRetryDelay(d.attempts), d.nextAt))
    && (d.status == Delivering && d.lastAt.Some? && last.Some? ==>
          last.value <= d.lastAt.value + c.batchSize * c.perItem)
  }

  predicate PostAhead(phase: Phase) {
    phase.Loading? || phase.Loaded?
  }

  /** The job's post is still ahead. */
  ghost predicate Unposted(s: State, w: nat, i: int) {
    Held(s, w, i) && (i == s.workers[w].index ==> PostAhead(s.workers[w].phase))
  }

  ghost predicate JobSpaced(c: Config, s: State, w: nat, i: int)
    requires Held(s, w, i)
  {
    var job, k := JobAt(s, w, i), s.workers[w];
    && job.id in s.records
    && (Unposted(s, w, i) ==> Apart(s.records[job.id].lastPost, Gap(c, job), k.claimedAt))
    && (i == k.index && k.phase.Marking? && k.phase.mark.MarkRetry? ==>
          Apart(s.records[job.id].lastPost, NextRetryDelay(job.attempt), k.phase.mark.nextAt))
  }

  ghost predicate Spaced(c: Config, s: State) {
    && (forall id :: id in s.deliveries ==> id in s.records && RowSpaced(c, s, id))
    && (forall id :: id in s.records && s.records[id].lastPost.Some? ==> s.records[id].lastPost.value <= s.now)
    && (forall w, i :: Held(s, w, i) ==> JobSpaced(c, s, w, i))
  }

  lemma StepSpaced(c: Config, s: State, a: Action)
    requires c.LeaseOutlivesBatch() && LeasesHold(c, s) && Spaced(c, s) && Enabled(c, s, a)
    ensures Spaced(c, Next(c, s, a))
  {
    var t := Next(c, s, a);
    match a
    case Claim(w, ids) => ClaimSpaced(c, s, w, ids);
    case WriteMark(w, lost) => MarkSpaced(c, s, w, lost);
    case Post(w) => PostSpaced(c, s, w);
    case WriteHook(w, lost) => WorkerSpaced(c, s, t, w);
    case Crash(w) => WorkerSpaced(c, s, t, w);
    case LoadHook(w) => WorkerSpaced(c, s, t, w);
    case FailToLoad(w) => FailSpaced(c, s, t, w, None);
    case FailToBuild(w) => FailSpaced(c, s, t, w, Some(s.workers[w].phase.failures));
    case NoAnswer(w) => FailSpaced(c, s, t, w, Some(s.workers[w].phase.failures));
    case Respond(w, httpStatus) =>
      if Succeeds(httpStatus) {
        WorkerSpaced(c, s, t, w);
      } else {
        FailSpaced(c, s, t, w, Some(s.workers[w].phase.failures));
      }
    case Tick(dt) => TableSpaced(c, s, t);
    case FindSubscribed(d, found) => TableSpaced(c, s, t);
    case CreateDelivery(d, h, id) => TableSpaced(c, s, t);
    case GiveUpDispatch(d, h) => TableSpaced(c, s, t);
    case DeleteHook(h) => TableSpaced(c, s, t);
  }

  lemma TableSpaced(c: Config, s: State, t: State)
    requires Spaced(c, s) && t.workers == s.workers && s.now <= t.now
    requires forall id :: id in s.records ==> id in t.records && t.records[id] == s.records[id]
    requires forall id :: id in t.records && id !in s.records ==> t.records[id].lastPost == None
    requires t.deliveries.Keys <= t.records.Keys
    requires forall id :: id in t.deliveries ==>
               (id in s.deliveries && t.deliveries[id] == s.deliveries[id]) || id !in s.records
    ensures Spaced(c, t)
  {
    forall id | id in t.deliveries
      ensures RowSpaced(c, t, id)
    {
      assert id in s.deliveries ==> RowSpaced(c, s, id);
    }
    forall w, i | Held(t, w, i)
      ensures JobSpaced(c, t, w, i)
    {
      assert Held(s, w, i) && JobSpaced(c, s, w, i);
    }
  }

  /** Worker steps that write nothing about deliveries and promise no retry. */
  lemma WorkerSpaced(c: Config, s: State, t: State, w: nat)
    requires Spaced(c, s)
    requires t.deliveries == s.deliveries && t.records == s.records && t.now == s.now
    requires w in t.workers && t.workers == s.workers[w := t.workers[w]]
    requires t.workers[w].Busy? ==>
               && Working(s, w)
               && t.workers[w].batch == s.workers[w].batch && t.workers[w].claimedAt == s.workers[w].claimedAt
               && t.workers[w].index >= s.workers[w].index
               && (t.workers[w].phase.Marking? ==> !t.workers[w].phase.mark.MarkRetry?)
               && (t.workers[w].index > s.workers[w].index || !PostAhead(t.workers[w].phase)
                   || PostAhead(s.workers[w].phase))
    ensures Spaced(c, t)
  {
    forall id | id in t.deliveries
      ensures RowSpaced(c, t, id)
    {
      assert RowSpaced(c, s, id);
    }
    forall v, i | Held(t, v, i)
      ensures JobSpaced(c, t, v, i)
    {
      assert Held(s, v, i) && JobSpaced(c, s, v, i);
      assert Unposted(t, v, i) ==> Unposted(s, v, i);
    }
  }

  lemma FailSpaced(c: Config, s: State, t: State, w: nat, loadedFailures: Option<int>)
    requires Spaced(c, s) && Working(s, w) && t == Fail(s, w, loadedFailures)
    ensures Spaced(c, t)
  {
    forall id | id in t.deliveries
      ensures RowSpaced(c, t, id)
    {
      assert RowSpaced(c, s, id);
    }
    forall v, i | Held(t, v, i)
      ensures JobSpaced(c, t, v, i)
    {
      assert Held(s, v, i) && JobSpaced(c, s, v, i);
      assert Unposted(t, v, i) ==> Unposted(s, v, i);
    }
  }

  lemma PostSpaced(c: Config, s: State, w: nat)
    requires c.LeaseOutlivesBatch() && LeasesHold(c, s) && Spaced(c, s) && Enabled(c, s, Post(w))
    ensures Spaced(c, Next(c, s, Post(w)))
  {
    var t := Next(c, s, Post(w));
    var k, id := s.workers[w].index, Current(s, w).id;
    assert Held(s, w, k) && Leased(s, w, k);
    HeldIsNotStale(c, s, w, k);
    forall other | other in t.deliveries
      ensures RowSpaced(c, t, other)
    {
      assert RowSpaced(c, s, other);
      assert other == id ==> s.deliveries[id].status == Delivering;
    }
    forall v, i | Held(t, v, i)
      ensures JobSpaced(c, t, v, i)
    {
      assert Held(s, v, i) && JobSpaced(c, s, v, i);
      assert (v != w || i != k) ==> JobAt(s, v, i).id != id;
    }
  }

  lemma ClaimSpaced(c: Config, s: State, w: nat, ids: seq<DeliveryId>)
    requires c.LeaseOutlivesBatch() && LeasesHold(c, s) && Spaced(c, s) && Enabled(c, s, Claim(w, ids))
    ensures Spaced(c, DoClaim(s, w, ids))
  {
    var t := DoClaim(s, w, ids);
    forall id | id in t.deliveries
      ensures id in t.records && RowSpaced(c, t, id)
    {
      assert RowSpaced(c, s, id);
      assert s.records[id].lastPost == t.records[id].lastPost;
    }
    forall v, i | Held(t, v, i)
      ensures JobSpaced(c, t, v, i)
    {
      if v == w {
        assert RowSpaced(c, s, ids[i]);
        assert ids[i] in IdsOf(ids);
      } else {
        assert Held(s, v, i) && JobSpaced(c, s, v, i);
      }
    }
  }

  lemma MarkSpaced(c: Config, s: State, w: nat, lost: bool)
    requires LeasesHold(c, s) && Spaced(c, s) && Enabled(c, s, WriteMark(w, lost))
    ensures Spaced(c, DoMark(s, w, lost))
  {
    var t := DoMark(s, w, lost);
    var k, id := s.workers[w].index, Current(s, w).id;
    assert Held(s, w, k) && Leased(s, w, k) && JobSpaced(c, s, w, k);
    forall other | other in t.deliveries
      ensures other in t.records && RowSpaced(c, t, other)
    {
      assert RowSpaced(c, s, other);
    }
    forall v, i | Held(t, v, i)
      ensures JobSpaced(c, t, v, i)
    {
      assert Held(s, v, i) && JobSpaced(c, s, v, i);
      assert Unposted(t, v, i) ==> Unposted(s, v, i);
    }
  }

  lemma {:induction false} RunSpaced(c: Config, s: State, actions: seq<Action>)
    requires c.LeaseOutlivesBatch() && Initial(s) && Run(c, s, actions)
    ensures Spaced(c, After(c, s, actions))
    decreases |actions|
  {
    if actions != [] {
      var before := actions[..|actions| - 1];
      RunSpaced(c, s, before);
      RunLeases(c, s, before);
      StepSpaced(c, After(c, s, before), actions[|actions| - 1]);
    }
  }

  /**
    When a worker posts a delivery that has been posted before: after a scheduled retry the previous attempt's delay
    (30 s, 5 min, 30 min, 2 h) has passed since the last post, after a reclaim what a batch leaves of the timeout.
   */
  lemma {:induction false} PostSpacing(c: Config, s: State, actions: seq<Action>, w: nat)
    requires c.LeaseOutlivesBatch() && Initial(s) && Run(c, s, actions)
    requires Enabled(c, After(c, s, actions), Post(w))
    ensures var t := After(c, s, actions);
            var job := Current(t, w);
            && job.id in t.records
            && Apart(t.records[job.id].lastPost, Gap(c, job), t.now)
            && (t.records[job.id].lastPost.Some? ==> Gap(c, job).value > 0)
  {
    RunSpaced(c, s, actions);
    RunLeases(c, s, actions);
    var t := After(c, s, actions);
    assert OnSchedule(c, t, w);
    assert Held(t, w, t.workers[w].index) && JobSpaced(c, t, w, t.workers[w].index);
  }
}
