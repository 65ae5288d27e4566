/**
  When exactly the cache agrees with the table. With nothing cached, whether every resolve until the next write decides
  as a direct look at the table depends only on the cache writes still pending.
 */
module RedirectAgreement {
  import opened Wrappers
  import opened UrlCache
  import opened RedirectCache

  /** Serving this row decides as the table does at every instant from `from` on and before `until`. */
  ghost predicate DecidesAlike(row: Row, db: DbValue, from: int, until: int) {
    forall t :: from <= t < until ==> SameKind(DecisionFor(row, t), Direct(db, t))
  }

  /** A pending fill that can do no harm whenever it lands and for as long as it then lives. */
  ghost predicate Harmless(c: Config, s: State, f: Fill) {
    match f
    case FillPositive(row, readAt) => DecidesAlike(row, s.db, s.now, readAt + c.fillDelay + c.cacheTtl)
    case FillNegative(_, _) => !Redirectable(s.db, s.now)
  }

  ghost predicate PendingHarmless(c: Config, s: State) {
    && (forall f :: f in s.fills ==> Harmless(c, s, s.fills[f]))
    && (forall w :: w in s.writers && s.writers[w].Warming? ==> Harmless(c, s, WarmingFill(s.writers[w])))
  }

  /** No pending cache write is overdue. */
  ghost predicate InTime(c: Config, s: State) {
    && (forall f :: f in s.fills ==> s.now <= s.fills[f].readAt + c.fillDelay)
    && (forall w :: w in s.writers && s.writers[w].Warming? ==> s.now <= s.writers[w].insertedAt + c.fillDelay)
  }

  ghost predicate CachedHarmless(s: State) {
    && (s.positive.Some? ==> DecidesAlike(s.positive.value.row, s.db, s.now, s.positive.value.expiresAt))
    && (LiveNegative(s.negative, s.now) ==> !Redirectable(s.db, s.now))
  }

  ghost predicate Agreeing(c: Config, s: State) {
    InTime(c, s) && PendingHarmless(c, s) && CachedHarmless(s)
  }

  // ---------------------------------------------------------------- harmless is enough

  lemma StepInTime(c: Config, s: State, a: Action)
    requires InTime(c, s) && Enabled(c, s, a)
    ensures InTime(c, Next(c, s, a))
  {
  }

  lemma HarmlessPersists(c: Config, s: State, t: State, f: Fill)
    requires Harmless(c, s, f) && t.db == s.db && s.now <= t.now
    ensures Harmless(c, t, f)
  {
  }

  lemma FreshFillIsHarmless(c: Config, s: State)
    ensures Harmless(c, s, FillFor(s.db, s.now))
  {
  }

  lemma StepPendingHarmless(c: Config, s: State, a: Action)
    requires PendingHarmless(c, s) && Enabled(c, s, a) && !Writes(a)
    ensures PendingHarmless(c, Next(c, s, a))
  {
    var t := Next(c, s, a);
    assert t.db == s.db && s.now <= t.now;
    forall f | f in t.fills
      ensures Harmless(c, t, t.fills[f])
    {
      FillOrigin(c, s, a, f);
      if f in s.fills {
        HarmlessPersists(c, s, t, s.fills[f]);
      } else {
        FreshFillIsHarmless(c, t);
      }
    }
    forall w | w in t.writers && t.writers[w].Warming?
      ensures Harmless(c, t, WarmingFill(t.writers[w]))
    {
      assert t.writers[w] == s.writers[w];
      HarmlessPersists(c, s, t, WarmingFill(s.writers[w]));
    }
  }

  lemma LandingHarmless(c: Config, s: State, f: Fill)
    requires CachedHarmless(s) && Harmless(c, s, f) && s.now <= f.readAt + c.fillDelay
    ensures CachedHarmless(Land(c, s, f))
  {
  }

  lemma StepCachedHarmless(c: Config, s: State, a: Action)
    requires Agreeing(c, s) && Enabled(c, s, a) && !Writes(a)
    ensures CachedHarmless(Next(c, s, a))
  {
    match a
    case LandFill(f, fine) => LandingHarmless(c, s, s.fills[f]);
    case WarmCache(w, fine) => LandingHarmless(c, s, WarmingFill(s.writers[w]));
    case _ =>
  }

  lemma {:induction false} RunAgreeing(c: Config, s: State, actions: seq<Action>)
    requires Agreeing(c, s) && Run(c, s, actions) && NoWrites(actions)
    ensures Agreeing(c, After(c, s, actions))
    decreases |actions|
  {
    if actions != [] {
      var before, a := actions[..|actions| - 1], actions[|actions| - 1];
      RunAgreeing(c, s, before);
      StepInTime(c, After(c, s, before), a);
      StepPendingHarmless(c, After(c, s, before), a);
      StepCachedHarmless(c, After(c, s, before), a);
    }
  }

  /** Every resolve from `s` on, until the next write, decides as the table does. */
  ghost predicate AgreesUntilWrite(c: Config, s: State) {
    forall t, a :: QuietlyReaches(c, s, t) && Enabled(c, t, a) && Answer(t, a).Some?
      ==> SameKind(Answer(t, a).value, Direct(t.db, t.now))
  }

  lemma HarmlessAgrees(c: Config, s: State)
    requires Agreeing(c, s)
    ensures AgreesUntilWrite(c, s)
  {
    forall t, a | QuietlyReaches(c, s, t) && Enabled(c, t, a) && Answer(t, a).Some?
      ensures SameKind(Answer(t, a).value, Direct(t.db, t.now))
    {
      var actions :| Run(c, s, actions) && NoWrites(actions) && After(c, s, actions) == t;
      RunAgreeing(c, s, actions);
    }
  }

  // ---------------------------------------------------------------- and needed

  /** A number no request or fill of the state has. */
  ghost function Fresh(s: State): nat
    ensures Fresh(s) !in s.requests && Fresh(s) !in s.fills
  {
    FreshKey(s.requests.Keys + s.fills.Keys);
    var q :| q !in s.requests.Keys + s.fills.Keys;
    q
  }

  lemma {:induction false} FreshKey(keys: set<nat>)
    ensures exists q: nat :: q !in keys
  {
    var bound := Bound(keys);
    assert bound !in keys;
  }

  lemma {:induction false} Bound(keys: set<nat>) returns (bound: nat)
    ensures forall q :: q in keys ==> q < bound
  {
    bound := 0;
    if keys != {} {
      var q :| q in keys;
      var rest := Bound(keys - {q});
      bound := if q < rest then rest else q + 1;
      assert forall k :: k in keys ==> k == q || k in keys - {q};
    }
  }

  lemma {:induction false} DropFills(c: Config, s: State, t: State, drop: set<nat>) returns (u: State)
    requires QuietlyReaches(c, s, t) && drop <= t.fills.Keys
    ensures QuietlyReaches(c, s, u) && u == t.(fills := t.fills - drop)
    decreases drop
  {
    if drop == {} {
      assert t.fills - drop == t.fills;
      u := t;
    } else {
      var f :| f in drop;
      ReachesNext(c, s, t, LandFill(f, false));
      u := DropFills(c, s, Next(c, t, LandFill(f, false)), drop - {f});
      assert t.fills - {f} - (drop - {f}) == t.fills - drop;
    }
  }

  lemma {:induction false} DropWarmings(c: Config, s: State, t: State, drop: set<nat>) returns (u: State)
    requires QuietlyReaches(c, s, t) && drop <= t.writers.Keys && forall w :: w in drop ==> t.writers[w].Warming?
    ensures QuietlyReaches(c, s, u) && u == t.(writers := t.writers - drop)
    decreases drop
  {
    if drop == {} {
      assert t.writers - drop == t.writers;
      u := t;
    } else {
      var w :| w in drop;
      ReachesNext(c, s, t, WarmCache(w, false));
      u := DropWarmings(c, s, Next(c, t, WarmCache(w, false)), drop - {w});
      assert t.writers - {w} - (drop - {w}) == t.writers - drop;
    }
  }

  ghost predicate NothingPending(s: State) {
    s.fills == map[] && forall w :: w in s.writers ==> !s.writers[w].Warming?
  }

  /** A cached row that decides differently at some instant of its life is served at that instant. */
  lemma ServedLate(c: Config, s: State, t: State, at: int)
    requires QuietlyReaches(c, s, t) && NothingPending(t) && t.positive.Some?
    requires t.now <= at < t.positive.value.expiresAt
    requires !SameKind(DecisionFor(t.positive.value.row, at), Direct(t.db, at))
    ensures !AgreesUntilWrite(c, s)
  {
    ReachesNext(c, s, t, Tick(at - t.now));
    var u := Next(c, t, Tick(at - t.now));
    var q := Fresh(u);
    ReachesNext(c, s, u, Begin(q));
    u := Next(c, u, Begin(q));
    assert Enabled(c, u, GetPositive(q, Fine)) && Answer(u, GetPositive(q, Fine)).Some?;
  }

  /** The last moment a fill may land at and still be there at `at`. */
  function LandingTime(c: Config, readAt: int, at: int): int {
    if at <= readAt + c.fillDelay then at else readAt + c.fillDelay
  }

  lemma LateFillDisagrees(c: Config, s: State, f: nat, at: int)
    requires c.WellFormed() && f in s.fills && s.fills[f].FillPositive? && s.now <= s.fills[f].readAt + c.fillDelay
    requires s.now <= at < s.fills[f].readAt + c.fillDelay + c.cacheTtl
    requires !SameKind(DecisionFor(s.fills[f].row, at), Direct(s.db, at))
    ensures !AgreesUntilWrite(c, s)
  {
    ReachesSelf(c, s);
    var t := DropFills(c, s, s, s.fills.Keys - {f});
    t := DropWarmings(c, s, t, set w | w in t.writers && t.writers[w].Warming?);
    var dt := LandingTime(c, s.fills[f].readAt, at) - s.now;
    ReachesNext(c, s, t, Tick(dt));
    t := Next(c, t, Tick(dt));
    ReachesNext(c, s, t, LandFill(f, true));
    ServedLate(c, s, Next(c, t, LandFill(f, true)), at);
  }

  lemma LateWarmingDisagrees(c: Config, s: State, w: nat, at: int)
    requires c.WellFormed() && w in s.writers && s.writers[w].Warming? && s.now <= s.writers[w].insertedAt + c.fillDelay
    requires s.now <= at < s.writers[w].insertedAt + c.fillDelay + c.cacheTtl
    requires !SameKind(DecisionFor(s.writers[w].row, at), Direct(s.db, at))
    ensures !AgreesUntilWrite(c, s)
  {
    ReachesSelf(c, s);
    var t := DropFills(c, s, s, s.fills.Keys);
    assert t.fills == map[];
    t := DropWarmings(c, s, t, set v | v in t.writers && v != w && t.writers[v].Warming?);
    var dt := LandingTime(c, s.writers[w].insertedAt, at) - s.now;
    ReachesNext(c, s, t, Tick(dt));
    t := Next(c, t, Tick(dt));
    ReachesNext(c, s, t, WarmCache(w, true));
    ServedLate(c, s, Next(c, t, WarmCache(w, true)), at);
  }

  lemma LateNegativeDisagrees(c: Config, s: State, f: nat)
    requires c.WellFormed() && s.positive == None && f in s.fills && s.fills[f].FillNegative?
    requires Redirectable(s.db, s.now)
    ensures !AgreesUntilWrite(c, s)
  {
    var q := Fresh(s);
    ReachesSelf(c, s);
    ReachesNext(c, s, s, LandFill(f, true));
    var t := MissPath(c, s, Next(c, s, LandFill(f, true)), q, Fine);
    assert Enabled(c, t, CheckNegative(q, true)) && Answer(t, CheckNegative(q, true)).Some?;
  }

  lemma AgreementNeedsHarmless(c: Config, s: State)
    requires c.WellFormed() && s.positive == None && InTime(c, s) && AgreesUntilWrite(c, s)
    ensures PendingHarmless(c, s)
  {
    forall f | f in s.fills
      ensures Harmless(c, s, s.fills[f])
    {
      if s.fills[f].FillPositive? {
        forall at | s.now <= at < s.fills[f].readAt + c.fillDelay + c.cacheTtl
          ensures SameKind(DecisionFor(s.fills[f].row, at), Direct(s.db, at))
        {
          if !SameKind(DecisionFor(s.fills[f].row, at), Direct(s.db, at)) {
            LateFillDisagrees(c, s, f, at);
          }
        }
      } else if Redirectable(s.db, s.now) {
        LateNegativeDisagrees(c, s, f);
      }
    }
    forall w | w in s.writers && s.writers[w].Warming?
      ensures Harmless(c, s, WarmingFill(s.writers[w]))
    {
      forall at | s.now <= at < s.writers[w].insertedAt + c.fillDelay + c.cacheTtl
        ensures SameKind(DecisionFor(s.writers[w].row, at), Direct(s.db, at))
      {
        if !SameKind(DecisionFor(s.writers[w].row, at), Direct(s.db, at)) {
          LateWarmingDisagrees(c, s, w, at);
        }
      }
    }
  }

  /**
    In any reachable state, after an invalidation that reached Redis: every resolve until the next write agrees with the
    table if and only if each pending cache write is harmless at every instant it could still be served.
   */
  lemma InvalidationCoherentIff(c: Config, s: State, actions: seq<Action>, w: nat)
    requires c.WellFormed() && Initial(s) && Run(c, s, actions) && Enabled(c, After(c, s, actions), Invalidate(w, true))
    ensures var t := Next(c, After(c, s, actions), Invalidate(w, true));
            AgreesUntilWrite(c, t) <==> PendingHarmless(c, t)
  {
    RunSourced(c, s, actions);
    var t := Next(c, After(c, s, actions), Invalidate(w, true));
    StepSourced(c, After(c, s, actions), Invalidate(w, true));
    assert InTime(c, t) by {
      forall v | v in t.writers && t.writers[v].Warming?
        ensures t.now <= t.writers[v].insertedAt + c.fillDelay
      {
        assert FillSound(c, t, WarmingFill(t.writers[v]));
      }
    }
    if PendingHarmless(c, t) {
      HarmlessAgrees(c, t);
    }
    if AgreesUntilWrite(c, t) {
      AgreementNeedsHarmless(c, t);
    }
  }

  /** Any request that has missed both keys reads the table and leaves a fill. */
  lemma SmoothRead(c: Config, s: State, q: nat) returns (t: State)
    requires Initial(s)
    ensures SmoothlyReaches(c, s, t)
    ensures t == s.(fills := s.fills[q := FillFor(s.db, s.now)])
  {
    SmoothlySelf(c, s);
    SmoothlyNext(c, s, s, Begin(q));
    t := Next(c, s, Begin(q));
    SmoothlyNext(c, s, t, GetPositive(q, Fine));
    t := Next(c, t, GetPositive(q, Fine));
    SmoothlyNext(c, s, t, CheckNegative(q, true));
    t := Next(c, t, CheckNegative(q, true));
    SmoothlyNext(c, s, t, ReadDatabase(q, true, q));
    t := Next(c, t, ReadDatabase(q, true, q));
    assert t.requests == s.requests;
  }

  lemma SmoothUpdate(c: Config, s: State, t: State, w: nat, patch: Patch) returns (u: State)
    requires SmoothlyReaches(c, s, t) && w !in t.writers && t.db.Live?
    ensures SmoothlyReaches(c, s, u)
    ensures Wrote(t, u, w, Live(ApplyPatch(t.db.row, patch)))
  {
    SmoothlyNext(c, s, t, ReadForUpdate(w, patch));
    u := Next(c, t, ReadForUpdate(w, patch));
    SmoothlyNext(c, s, u, WriteUpdate(w));
    u := Next(c, u, WriteUpdate(w));
  }

  /**
    The condition does fail, in runs without any failure: a request reads the table, the url is given another target,
    and the successful invalidation comes before the request's fill has landed.
   */
  lemma HarmfulFillIsReachable(c: Config, s: State, target: string) returns (t: State)
    requires c.WellFormed() && Initial(s) && Redirectable(s.db, s.now) && target != s.db.row.target
    ensures SmoothlyReaches(c, s, t) && Enabled(c, t, Invalidate(0, true))
    ensures !PendingHarmless(c, Next(c, t, Invalidate(0, true)))
    ensures !AgreesUntilWrite(c, Next(c, t, Invalidate(0, true)))
  {
    var read := SmoothRead(c, s, 0);
    t := SmoothUpdate(c, s, read, 0, Patch(Some(target), None));
    var end := Next(c, t, Invalidate(0, true));
    assert end.fills[0] == FillPositive(s.db.row, s.now) && end.now == s.now;
    assert !SameKind(DecisionFor(s.db.row, end.now), Direct(end.db, end.now));
    LateFillDisagrees(c, end, 0, end.now);
  }

  // ---------------------------------------------------------------- the reason of a refusal

  /** Every resolve until the next write answers what the table says, reason included. */
  ghost predicate SameAnswerUntilWrite(c: Config, s: State) {
    forall t, a :: QuietlyReaches(c, s, t) && Enabled(c, t, a) && Answer(t, a).Some?
      ==> Answer(t, a).value == Direct(t.db, t.now)
  }

  /** The table never refuses this code with a reason of its own: it never expires and is not disabled. */
  predicate NeverOwnReason(db: DbValue) {
    db.Live? ==> db.row.expiresAt == None && db.row.status != Disabled
  }

  lemma NeverOwnReasonIff(db: DbValue, now: int)
    ensures NeverOwnReason(db) <==> forall at :: at >= now ==> !OwnReason(Direct(db, at))
  {
    if !NeverOwnReason(db) {
      var at := if db.row.expiresAt.Some? && db.row.expiresAt.value >= now then db.row.expiresAt.value + 1 else now;
      assert OwnReason(Direct(db, at));
    }
  }

  /** A refusal with a reason of its own is given once from the table; the next request is told not found. */
  lemma RefusalReasonDrifts(c: Config, s: State, t: State) returns (first: State, q: nat, second: State, r: nat)
    requires c.WellFormed() && QuietlyReaches(c, s, t)
    requires t.positive == None && t.negative == None && OwnReason(Direct(t.db, t.now))
    ensures QuietlyReaches(c, s, first) && Enabled(c, first, ReadDatabase(q, true, q))
    ensures Answer(first, ReadDatabase(q, true, q)) == Some(Direct(t.db, t.now))
    ensures QuietlyReaches(c, s, second) && Enabled(c, second, CheckNegative(r, true))
    ensures second.db == t.db && second.now == t.now && Answer(second, CheckNegative(r, true)) == Some(NotFound)
  {
    q := Fresh(t);
    first := MissPath(c, s, t, q, Fine);
    ReachesNext(c, s, first, CheckNegative(q, true));
    first := Next(c, first, CheckNegative(q, true));
    ReachesNext(c, s, first, ReadDatabase(q, true, q));
    second := Next(c, first, ReadDatabase(q, true, q));
    ReachesNext(c, s, second, LandFill(q, true));
    second := Next(c, second, LandFill(q, true));
    r := Fresh(second);
    second := MissPath(c, s, second, r, Fine);
  }

  /** Drop whatever is pending, let time pass. */
  lemma WaitQuietly(c: Config, s: State, at: int) returns (t: State)
    requires at >= s.now
    ensures QuietlyReaches(c, s, t)
    ensures t.now == at && t.db == s.db && t.positive == s.positive && t.negative == s.negative
  {
    ReachesSelf(c, s);
    t := DropFills(c, s, s, s.fills.Keys);
    t := DropWarmings(c, s, t, set w | w in t.writers && t.writers[w].Warming?);
    ReachesNext(c, s, t, Tick(at - s.now));
    t := Next(c, t, Tick(at - s.now));
  }

  /**
    With nothing cached and nothing outdated pending, every answer until the next write carries the table's reason if
    and only if the row can never be expired or disabled: that is, if there is no live row, or it has no expiry and is
    not disabled.
   */
  lemma ReasonKeptIff(c: Config, s: State)
    requires c.WellFormed() && s.positive == None && s.negative == None && FillsUpToDate(s)
    ensures SameAnswerUntilWrite(c, s) <==> NeverOwnReason(s.db)
    ensures SameAnswerUntilWrite(c, s) <==> forall at :: at >= s.now ==> !OwnReason(Direct(s.db, at))
  {
    NeverOwnReasonIff(s.db, s.now);
    if NeverOwnReason(s.db) {
      forall t, a | QuietlyReaches(c, s, t) && Enabled(c, t, a) && Answer(t, a).Some?
        ensures Answer(t, a).value == Direct(t.db, t.now)
      {
        var actions :| Run(c, s, actions) && NoWrites(actions) && After(c, s, actions) == t;
        RunCoherent(c, s, actions);
        NeverOwnReasonIff(t.db, t.now);
      }
    } else {
      var at :| at >= s.now && OwnReason(Direct(s.db, at));
      var t := WaitQuietly(c, s, at);
      var first, q, second, r := RefusalReasonDrifts(c, s, t);
    }
  }
}
