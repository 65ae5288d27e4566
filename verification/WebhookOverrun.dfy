/** What goes wrong when a batch can outlast the claim timeout, and the exact conditions that follow. */
module WebhookOverrun {
  import opened Wrappers
  import opened WebhookStore
  import opened WebhookQueue
  import opened WebhookAttempts
  import opened WebhookLease

  // ---------------------------------------------------------------- one slow worker

  ghost function Ids(n: nat): (ids: seq<DeliveryId>)
    ensures |ids| == n && forall i :: 0 <= i < n ==> ids[i] == i
  {
    seq(n, i => i)
  }

  /** One active hook and a full batch of deliveries that are due. */
  ghost function Start(c: Config): State {
    State(0, map id: DeliveryId | id in IdsOf(Ids(c.batchSize)) :: Delivery(0, Pending, 0, 0, None),
          map[0 := Hook(Active, 0)], map[], {},
          map id: DeliveryId | id in IdsOf(Ids(c.batchSize)) :: Record(0, 0, {}, None))
  }

  /** The time `n` deliveries take, added up one by one. */
  ghost function Elapsed(c: Config, n: nat): nat {
    if n == 0 then 0 else Elapsed(c, n - 1) + c.perItem
  }

  lemma {:induction false} ElapsedIsProduct(c: Config, n: nat)
    ensures Elapsed(c, n) == n * c.perItem
  {
    if n > 0 {
      ElapsedIsProduct(c, n - 1);
      OneMore(n - 1, c.perItem);
    }
  }

  /** Worker 0 has claimed everything and delivered the first `i`, having used up `perItem` on each. */
  ghost predicate SlowAt(c: Config, s: State, i: nat) {
    && s.now == Elapsed(c, i)
    && 0 in s.workers && s.workers.Keys == {0}
    && s.workers[0].Busy? && |s.workers[0].batch| == c.batchSize
    && s.workers[0].index == i && s.workers[0].startedAt == s.now && s.workers[0].phase == Loading
    && (forall k :: 0 <= k < c.batchSize ==> s.workers[0].batch[k] == Job(k, 0, 1, false))
    && s.deliveries.Keys == IdsOf(Ids(c.batchSize)) && s.records.Keys == s.deliveries.Keys
    && (forall k :: k in s.deliveries ==>
          s.deliveries[k] == Delivery(0, if k < i then Delivered else Delivering, 1, 0, Some(0)))
    && s.hooks == map[0 := Hook(Active, 0)]
  }

  lemma StartRows(c: Config, k: nat)
    requires k < c.batchSize
    ensures k in IdsOf(Ids(c.batchSize))
    ensures k in Start(c).deliveries && Start(c).deliveries[k] == Delivery(0, Pending, 0, 0, None)
    ensures k in Start(c).records
  {
    assert Ids(c.batchSize)[k] in Ids(c.batchSize);
  }

  lemma ClaimedRows(c: Config, s: State)
    requires s == DoClaim(Start(c), 0, Ids(c.batchSize))
    ensures s.deliveries.Keys == IdsOf(Ids(c.batchSize)) && s.records.Keys == s.deliveries.Keys
    ensures forall k :: k in s.deliveries ==> s.deliveries[k] == Delivery(0, Delivering, 1, 0, Some(0))
    ensures forall k :: 0 <= k < c.batchSize ==> s.workers[0].batch[k] == Job(k, 0, 1, false)
  {
    forall k | 0 <= k < c.batchSize
      ensures s.workers[0].batch[k] == Job(k, 0, 1, false)
    {
      StartRows(c, k);
    }
  }

  lemma ClaimedIsSlow(c: Config, s: State)
    requires c.WellFormed() && s == DoClaim(Start(c), 0, Ids(c.batchSize))
    ensures SlowAt(c, s, 0)
  {
    ClaimedRows(c, s);
  }

  lemma StartIsDue(c: Config)
    ensures TakesDue(Start(c).deliveries, c.batchSize, 0, Ids(c.batchSize)) || c.batchSize == 0
    ensures forall k :: 0 <= k < c.batchSize ==> k in Start(c).deliveries && Claimable(Start(c).deliveries[k], 0)
  {
    forall k | 0 <= k < c.batchSize
      ensures k in Start(c).deliveries && Claimable(Start(c).deliveries[k], 0)
    {
      StartRows(c, k);
    }
  }

  /** The first claim takes every row there is, as the query does. */
  lemma FirstClaim(c: Config) returns (s: State)
    requires c.WellFormed()
    ensures ReachesUnlocked(c, Start(c), s) && SlowAt(c, s, 0)
  {
    var ids := Ids(c.batchSize);
    StartIsDue(c);
    UnlockedSelf(c, Start(c));
    UnlockedNext(c, Start(c), Start(c), Claim(0, ids));
    s := DoClaim(Start(c), 0, ids);
    ClaimedIsSlow(c, s);
  }

  /** `u` is `t` except that `w` has moved on within its job, and for what the records say of the last post. */
  ghost predicate Progress(t: State, u: State, w: nat) {
    && Working(t, w) && Working(u, w) && Current(u, w) == Current(t, w)
    && u.workers == t.workers[w := u.workers[w]] && Advance(u.workers[w], t.now) == Advance(t.workers[w], t.now)
    && u.now == t.now && u.deliveries == t.deliveries && u.hooks == t.hooks && u.records.Keys == t.records.Keys
  }

  lemma PostStep(c: Config, t: State, w: nat)
    requires Working(t, w) && t.workers[w].phase.Loaded? && Current(t, w).id in t.records
    ensures Progress(t, Next(c, t, Post(w)), w) && Next(c, t, Post(w)).workers[w].phase.Posted?
  {
  }

  lemma RespondStep(c: Config, t: State, w: nat)
    requires Working(t, w) && t.workers[w].phase.Posted?
    ensures Progress(t, Next(c, t, Respond(w, 200)), w)
    ensures Next(c, t, Respond(w, 200)).workers[w].phase == Marking(MarkDelivered, Some(HookSucceeded))
  {
  }

  lemma ProgressOn(t: State, u: State, v: State, w: nat)
    requires Progress(t, u, w) && Progress(u, v, w)
    ensures Progress(t, v, w)
  {
  }

  lemma PostedPath(c: Config, s: State, t: State, w: nat) returns (u: State)
    requires ReachesUnlocked(c, s, t) && Working(t, w) && t.workers[w].phase.Loaded? && Current(t, w).id in t.records
    ensures ReachesUnlocked(c, s, u) && Progress(t, u, w)
    ensures u.workers[w].phase == Marking(MarkDelivered, Some(HookSucceeded))
  {
    PostStep(c, t, w);
    UnlockedNext(c, s, t, Post(w));
    var posted := Next(c, t, Post(w));
    RespondStep(c, posted, w);
    UnlockedNext(c, s, posted, Respond(w, 200));
    u := Next(c, posted, Respond(w, 200));
    ProgressOn(t, posted, u, w);
  }

  lemma MarkStep(c: Config, t: State, w: nat)
    requires Working(t, w) && t.workers[w].phase == Marking(MarkDelivered, Some(HookSucceeded))
    requires Current(t, w).id in t.deliveries
    ensures var u := Next(c, t, WriteMark(w, false));
            && Working(u, w) && u.workers[w].phase == Following(HookSucceeded) && Current(u, w) == Current(t, w)
            && u.workers == t.workers[w := u.workers[w]] && Advance(u.workers[w], t.now) == Advance(t.workers[w], t.now)
            && u.now == t.now && u.hooks == t.hooks && u.records == t.records
            && u.deliveries == t.deliveries[Current(t, w).id := t.deliveries[Current(t, w).id].(status := Delivered)]
  {
  }

  lemma HookStep(c: Config, t: State, w: nat)
    requires Working(t, w) && t.workers[w].phase == Following(HookSucceeded)
    requires Current(t, w).hook in t.hooks && t.hooks[Current(t, w).hook] == Hook(Active, 0)
    ensures Next(c, t, WriteHook(w, false)) == t.(workers := t.workers[w := Advance(t.workers[w], t.now)])
  {
    assert t.hooks[Current(t, w).hook := Hook(Active, 0)] == t.hooks;
  }

  lemma MarkedPath(c: Config, s: State, t: State, w: nat) returns (u: State)
    requires ReachesUnlocked(c, s, t)
    requires Working(t, w) && t.workers[w].phase == Marking(MarkDelivered, Some(HookSucceeded))
    requires Current(t, w).id in t.deliveries
    requires Current(t, w).hook in t.hooks && t.hooks[Current(t, w).hook] == Hook(Active, 0)
    ensures ReachesUnlocked(c, s, u) && Delivers(t, u, w)
  {
    MarkStep(c, t, w);
    UnlockedNext(c, s, t, WriteMark(w, false));
    var marked := Next(c, t, WriteMark(w, false));
    HookStep(c, marked, w);
    UnlockedNext(c, s, marked, WriteHook(w, false));
    u := Next(c, marked, WriteHook(w, false));
  }

  /** From a loaded hook over a successful post to the two statements that follow it. */
  lemma DeliveredPath(c: Config, s: State, t: State, w: nat) returns (u: State)
    requires ReachesUnlocked(c, s, t) && Working(t, w) && t.workers[w].phase.Loaded?
    requires Current(t, w).id in t.deliveries && Current(t, w).id in t.records
    requires Current(t, w).hook in t.hooks && t.hooks[Current(t, w).hook] == Hook(Active, 0)
    ensures ReachesUnlocked(c, s, u) && Delivers(t, u, w)
  {
    var answered := PostedPath(c, s, t, w);
    u := MarkedPath(c, s, answered, w);
  }

  /** `u` is `t` with the current delivery of `w` delivered and the worker at its next. */
  ghost predicate Delivers(t: State, u: State, w: nat) {
    && Working(t, w) && Current(t, w).id in t.deliveries
    && u.now == t.now && u.hooks == t.hooks && u.records.Keys == t.records.Keys
    && u.workers == t.workers[w := Advance(t.workers[w], t.now)]
    && u.deliveries == t.deliveries[Current(t, w).id := t.deliveries[Current(t, w).id].(status := Delivered)]
  }

  /** `t` is `s` after the worker has used up its time and loaded the hook. */
  ghost predicate Loads(c: Config, s: State, t: State) {
    && Working(s, 0)
    && t == SetPhase(s, 0, Loaded(0)).(now := s.now + c.perItem)
  }

  lemma LoadedLate(c: Config, start: State, s: State, i: nat) returns (t: State)
    requires c.WellFormed() && i < c.batchSize
    requires ReachesUnlocked(c, start, s) && SlowAt(c, s, i)
    ensures ReachesUnlocked(c, start, t) && Loads(c, s, t)
  {
    UnlockedNext(c, start, s, Tick(c.perItem));
    t := Next(c, s, Tick(c.perItem));
    UnlockedNext(c, start, t, LoadHook(0));
    t := Next(c, t, LoadHook(0));
  }

  lemma StaysSlow(c: Config, s: State, i: nat, t: State, u: State)
    requires c.WellFormed() && i + 1 < c.batchSize && SlowAt(c, s, i) && Loads(c, s, t) && Delivers(t, u, 0)
    ensures SlowAt(c, u, i + 1)
  {
    assert Current(t, 0) == Job(i, 0, 1, false);
  }

  /** One delivery later: it took `perItem`, and was delivered and marked. */
  lemma OneSlower(c: Config, start: State, s: State, i: nat) returns (t: State)
    requires c.WellFormed() && i + 1 < c.batchSize
    requires ReachesUnlocked(c, start, s) && SlowAt(c, s, i)
    ensures ReachesUnlocked(c, start, t) && SlowAt(c, t, i + 1)
  {
    StartRows(c, i);
    var loaded := LoadedLate(c, start, s, i);
    assert Current(loaded, 0) == s.workers[0].batch[i] == Job(i, 0, 1, false);
    t := DeliveredPath(c, start, loaded, 0);
    StaysSlow(c, s, i, loaded, t);
  }

  lemma {:induction false} SlowRun(c: Config, i: nat) returns (s: State)
    requires c.WellFormed() && i < c.batchSize
    ensures ReachesUnlocked(c, Start(c), s) && SlowAt(c, s, i)
  {
    if i == 0 {
      s := FirstClaim(c);
    } else {
      s := SlowRun(c, i - 1);
      s := OneSlower(c, Start(c), s, i - 1);
    }
  }

  /** Worker 0 is still at the delivery that worker 1 has just claimed as well. */
  ghost predicate Overlapped(s: State) {
    && s.workers.Keys == {0, 1}
    && Working(s, 0) && s.workers[0].phase == Loading && Current(s, 0).attempt == 1
    && Working(s, 1) && s.workers[1].phase == Loading
    && Current(s, 0).id == Current(s, 1).id && Current(s, 1).id in s.deliveries
    && Current(s, 0).id in s.records
    && Current(s, 1).hook in s.hooks && s.hooks[Current(s, 1).hook] == Hook(Active, 0)
  }

  /** With everything before it delivered, the last row is the only one that is due, and it is. */
  lemma OnlyLastIsDue(c: Config, s: State, late: State)
    requires c.WellFormed() && SlowAt(c, s, c.batchSize - 1) && Elapsed(c, c.batchSize) >= CLAIM_TIMEOUT
    requires late == s.(now := s.now + c.perItem)
    ensures TakesDue(late.deliveries, c.batchSize, late.now, [c.batchSize - 1])
  {
    var last := c.batchSize - 1;
    StartRows(c, last);
    forall k | k in late.deliveries && Claimable(late.deliveries[k], late.now)
      ensures k == last
    {
      assert k in Ids(c.batchSize);
    }
  }

  lemma ClaimOverlaps(c: Config, s: State, t: State)
    requires c.WellFormed() && SlowAt(c, s, c.batchSize - 1) && t == s.(now := s.now + c.perItem)
    ensures c.batchSize - 1 in t.deliveries && Overlapped(DoClaim(t, 1, [c.batchSize - 1]))
  {
    var last := c.batchSize - 1;
    StartRows(c, last);
    assert NewJob(t, last) == Job(last, 0, 2, true);
    assert [last][0] in IdsOf([last]);
  }

  lemma ClaimDue(c: Config, s: State, t: State, w: nat, ids: seq<DeliveryId>)
    requires c.WellFormed() && ReachesUnlocked(c, s, t) && !Working(t, w)
    requires ids != [] && TakesDue(t.deliveries, c.batchSize, t.now, ids)
    ensures forall i :: 0 <= i < |ids| ==> ids[i] in t.deliveries
    ensures ReachesUnlocked(c, s, DoClaim(t, w, ids))
  {
    assert forall i :: 0 <= i < |ids| ==> ids[i] in ids;
    UnlockedNext(c, s, t, Claim(w, ids));
  }

  lemma LateTick(c: Config, start: State, s: State, i: nat, late: State)
    requires ReachesUnlocked(c, start, s) && SlowAt(c, s, i) && late == s.(now := s.now + c.perItem)
    ensures ReachesUnlocked(c, start, late) && !Working(late, 1)
  {
    UnlockedNext(c, start, s, Tick(c.perItem));
  }

  /**
    At the end of the overrun, worker 1 reclaims the delivery worker 0 is still working on, by a claim like any other.
   */
  lemma Overrun(c: Config) returns (s: State)
    requires c.WellFormed() && !c.LeaseOutlivesBatch()
    ensures ReachesUnlocked(c, Start(c), s) && Overlapped(s)
  {
    TimeRunsOut(c);
    var slow := SlowRun(c, c.batchSize - 1);
    s := OverrunFrom(c, Start(c), slow);
  }

  lemma TimeRunsOut(c: Config)
    requires !c.LeaseOutlivesBatch()
    ensures Elapsed(c, c.batchSize) >= CLAIM_TIMEOUT
  {
    ElapsedIsProduct(c, c.batchSize);
  }

  lemma OverrunFrom(c: Config, start: State, slow: State) returns (s: State)
    requires c.WellFormed() && Elapsed(c, c.batchSize) >= CLAIM_TIMEOUT
    requires ReachesUnlocked(c, start, slow) && SlowAt(c, slow, c.batchSize - 1)
    ensures ReachesUnlocked(c, start, s) && Overlapped(s)
  {
    var late := slow.(now := slow.now + c.perItem);
    ClaimOverlaps(c, slow, late);
    s := DoClaim(late, 1, [c.batchSize - 1]);
    LateClaim(c, start, slow, late);
  }

  lemma LateClaim(c: Config, start: State, slow: State, late: State)
    requires c.WellFormed() && Elapsed(c, c.batchSize) >= CLAIM_TIMEOUT
    requires ReachesUnlocked(c, start, slow) && SlowAt(c, slow, c.batchSize - 1)
    requires late == slow.(now := slow.now + c.perItem) && c.batchSize - 1 in late.deliveries
    ensures ReachesUnlocked(c, start, DoClaim(late, 1, [c.batchSize - 1]))
  {
    LateTick(c, start, slow, c.batchSize - 1, late);
    OnlyLastIsDue(c, slow, late);
    ClaimDue(c, start, late, 1, [c.batchSize - 1]);
  }

  lemma OverlapIsNotExclusive(s: State)
    requires Overlapped(s)
    ensures !Exclusive(s)
  {
    assert Held(s, 0, s.workers[0].index) && Held(s, 1, s.workers[1].index);
  }

  /**
    Every reachable state is exclusive exactly when a batch fits into the claim timeout, whether claims may skip rows
    that others have locked or never overlap.
   */
  lemma ExclusiveIff(c: Config)
    requires c.WellFormed()
    ensures (forall s, t :: Initial(s) && Reaches(c, s, t) ==> Exclusive(t)) <==> c.batchSize * c.perItem < 300_000
    ensures (forall s, t :: Initial(s) && ReachesUnlocked(c, s, t) ==> Exclusive(t))
       <==> c.batchSize * c.perItem < 300_000
  {
    if c.LeaseOutlivesBatch() {
      forall s, t | Initial(s) && Reaches(c, s, t)
        ensures Exclusive(t)
      {
        var actions :| Run(c, s, actions) && After(c, s, actions) == t;
        RunLeases(c, s, actions);
      }
      forall s, t | Initial(s) && ReachesUnlocked(c, s, t)
        ensures Exclusive(t)
      {
        UnlockedReaches(c, s, t);
      }
    } else {
      var t := Overrun(c);
      OverlapIsNotExclusive(t);
      UnlockedReaches(c, Start(c), t);
      assert Initial(Start(c));
    }
  }

  /** Worker 1 delivers, then worker 0 puts the delivered row back to pending. */
  lemma Undelivered(c: Config) returns (s: State)
    requires c.WellFormed() && !c.LeaseOutlivesBatch()
    ensures ReachesUnlocked(c, Start(c), s) && Enabled(c, s, WriteMark(0, false))
    ensures !TerminalStays(s, Next(c, s, WriteMark(0, false)))
  {
    var overlap := Overrun(c);
    var id := Current(overlap, 0).id;
    UnlockedNext(c, Start(c), overlap, LoadHook(1));
    s := DeliveredPath(c, Start(c), Next(c, overlap, LoadHook(1)), 1);
    UnlockedNext(c, Start(c), s, FailToLoad(0));
    s := Next(c, s, FailToLoad(0));
    assert s.deliveries[id].status == Delivered;
    assert Next(c, s, WriteMark(0, false)).deliveries[id].status == Pending;
  }

  /** Delivered and abandoned are final in every run exactly under the same condition, the marks being unguarded. */
  lemma TerminalIffLease(c: Config)
    requires c.WellFormed()
    ensures (forall s, t, a :: Initial(s) && Reaches(c, s, t) && Enabled(c, t, a) ==> TerminalStays(t, Next(c, t, a)))
       <==> c.batchSize * c.perItem < 300_000
    ensures (forall s, t, a :: Initial(s) && ReachesUnlocked(c, s, t) && Enabled(c, t, a) && Unlocked(c, t, a) ==>
               TerminalStays(t, Next(c, t, a)))
       <==> c.batchSize * c.perItem < 300_000
  {
    if c.LeaseOutlivesBatch() {
      forall s, t, a | Initial(s) && Reaches(c, s, t) && Enabled(c, t, a)
        ensures TerminalStays(t, Next(c, t, a))
      {
        var actions :| Run(c, s, actions) && After(c, s, actions) == t;
        RunLeases(c, s, actions);
        StepKeepsTerminal(c, t, a);
      }
      forall s, t, a | Initial(s) && ReachesUnlocked(c, s, t) && Enabled(c, t, a) && Unlocked(c, t, a)
        ensures TerminalStays(t, Next(c, t, a))
      {
        UnlockedReaches(c, s, t);
      }
    } else {
      var t := Undelivered(c);
      UnlockedReaches(c, Start(c), t);
      assert Unlocked(c, t, WriteMark(0, false));
      assert Initial(Start(c));
    }
  }

  /** The shipped defaults (batches of 50, 30 seconds per post) do not meet the condition. */
  lemma DefaultsOverrun(overhead: nat)
    ensures !(50 * (30_000 + overhead) < 300_000) && !Config(50, 30_000 + overhead).LeaseOutlivesBatch()
  {
  }
}
