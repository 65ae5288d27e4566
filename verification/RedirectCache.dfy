/**
  The redirect cache as a step system for one short code: resolving requests, detached fills that land late or
  never, writers whose invalidation may fail, lookups that fail, and status changes made elsewhere.
  Every statement or Redis command is one step; a request's own code runs at the instant of its last lookup.
 */
module RedirectCache {
  import opened Wrappers
  import opened UrlCache

  /** Both TTLs, and a bound on how long a decided cache write stays pending. */
  datatype Config = Config(cacheTtl: int, negativeTtl: int, fillDelay: nat) {
    predicate WellFormed() {
      cacheTtl > 0 && negativeTtl > 0
    }
  }

  /** `sinceMs` is when this value replaced the one before; the last version is current. */
  datatype Version = Version(db: DbValue, sinceMs: int)

  datatype Request = AtPositive | AtNegative | AtDatabase

  datatype Writer =
    | Warming(row: Row, insertedAt: int)
    | Updating(read: Row, patch: Patch)
    | Deleting
    | Invalidating

  datatype State = State(
    now: int,
    db: DbValue,
    history: seq<Version>,
    positive: Option<Positive>,
    negative: Option<Negative>,
    fills: map<nat, Fill>,
    requests: map<nat, Request>,
    writers: map<nat, Writer>)

  datatype Action =
    | Tick(dt: nat)
    | Begin(q: nat)
    | GetPositive(q: nat, health: Health)
    | CheckNegative(q: nat, fine: bool)
    | ReadDatabase(q: nat, fine: bool, fill: nat)
    | LandFill(fill: nat, fine: bool)
    | Insert(w: nat, row: Row)
    | WarmCache(w: nat, fine: bool)
    | ReadForUpdate(w: nat, patch: Patch)
    | ReadForDelete(w: nat)
    | WriteUpdate(w: nat)
    | WriteDelete(w: nat)
    | Invalidate(w: nat, fine: bool)
    | ChangeElsewhere(row: Row)
    | ClearNegative

  // ---------------------------------------------------------------- steps

  ghost predicate Enabled(c: Config, s: State, a: Action) {
    match a
    case Tick(dt) =>
      && (forall f :: f in s.fills ==> s.now + dt <= s.fills[f].readAt + c.fillDelay)
      && (forall w :: w in s.writers && s.writers[w].Warming? ==> s.now + dt <= s.writers[w].insertedAt + c.fillDelay)
    case Begin(q) => q !in s.requests
    case GetPositive(q, _) => q in s.requests && s.requests[q] == AtPositive
    case CheckNegative(q, _) => q in s.requests && s.requests[q] == AtNegative
    case ReadDatabase(q, _, f) => q in s.requests && s.requests[q] == AtDatabase && f !in s.fills
    case LandFill(f, _) => f in s.fills
    case Insert(w, row) => w !in s.writers && s.db == Absent && row.status == Active
    case WarmCache(w, _) => w in s.writers && s.writers[w].Warming?
    case ReadForUpdate(w, _) => w !in s.writers && s.db.Live?
    case ReadForDelete(w) => w !in s.writers && s.db.Live?
    case WriteUpdate(w) => w in s.writers && s.writers[w].Updating?
    case WriteDelete(w) => w in s.writers && s.writers[w].Deleting?
    case Invalidate(w, _) => w in s.writers && s.writers[w].Invalidating?
    case ChangeElsewhere(row) => s.db.Live?
    // a lookup of the code whose positive key is this code's negative key cannot decode what it finds and deletes it
    case ClearNegative => true
  }

  function WriteDb(s: State, db: DbValue): State {
    s.(db := db, history := s.history + [Version(db, s.now)])
  }

  function Land(c: Config, s: State, fill: Fill): State {
    match fill
    case FillPositive(row, readAt) => s.(positive := Some(Positive(row, s.now + c.cacheTtl, readAt)))
    case FillNegative(seen, readAt) => s.(negative := Some(Negative(s.now + c.negativeTtl, seen, readAt)))
  }

  function Next(c: Config, s: State, a: Action): State
    requires Enabled(c, s, a)
  {
    match a
    case Tick(dt) => s.(now := s.now + dt)
    case Begin(q) => s.(requests := s.requests[q := AtPositive])
    case GetPositive(q, health) =>
      if health == Fine && LivePositive(s.positive, s.now) then s.(requests := s.requests - {q})
      else s.(requests := s.requests[q := AtNegative],
              positive := if health == Corrupt then None else s.positive)
    case CheckNegative(q, fine) =>
      if fine && LiveNegative(s.negative, s.now) then s.(requests := s.requests - {q})
      else s.(requests := s.requests[q := AtDatabase])
    case ReadDatabase(q, fine, f) =>
      s.(requests := s.requests - {q},
         fills := if fine then s.fills[f := FillFor(s.db, s.now)] else s.fills)
    case LandFill(f, fine) =>
      (if fine then Land(c, s, s.fills[f]) else s).(fills := s.fills - {f})
    case Insert(w, row) => WriteDb(s, Live(row)).(writers := s.writers[w := Warming(row, s.now)])
    case WarmCache(w, fine) =>
      (if fine then Land(c, s, FillPositive(s.writers[w].row, s.writers[w].insertedAt)) else s)
        .(writers := s.writers - {w})
    case ReadForUpdate(w, patch) => s.(writers := s.writers[w := Updating(s.db.row, patch)])
    case ReadForDelete(w) => s.(writers := s.writers[w := Deleting])
    case WriteUpdate(w) =>
      if s.db.Live? then
        WriteDb(s, Live(ApplyPatch(s.writers[w].read, s.writers[w].patch))).(writers := s.writers[w := Invalidating])
      else s.(writers := s.writers - {w})
    case WriteDelete(w) =>
      if s.db.Live? then WriteDb(s, SoftDeleted(s.db.row.(status := Deleted))).(writers := s.writers[w := Invalidating])
      else s.(writers := s.writers - {w})
    case Invalidate(w, fine) =>
      (if fine then s.(positive := None, negative := None) else s).(writers := s.writers - {w})
    case ChangeElsewhere(row) => WriteDb(s, Live(row))
    case ClearNegative => s.(negative := None)
  }

  /** The answer a step gives to its caller, if it gives one. */
  function Answer(s: State, a: Action): Option<Decision> {
    match a
    case GetPositive(_, health) =>
      if health == Fine && LivePositive(s.positive, s.now) then Some(DecisionFor(s.positive.value.row, s.now)) else None
    case CheckNegative(_, fine) => if fine && LiveNegative(s.negative, s.now) then Some(NotFound) else None
    case ReadDatabase(_, fine, _) => if fine then Some(Direct(s.db, s.now)) else None
    case _ => None
  }

  // ---------------------------------------------------------------- runs

  ghost predicate Initial(s: State) {
    && s.history == [Version(s.db, s.now)]
    && s.positive == None && s.negative == None && s.fills == map[] && s.requests == map[] && s.writers == map[]
  }

  ghost predicate Run(c: Config, s: State, actions: seq<Action>)
    decreases |actions|, 0
  {
    actions != [] ==>
      var before := actions[..|actions| - 1];
      Run(c, s, before) && Enabled(c, After(c, s, before), actions[|actions| - 1])
  }

  ghost function After(c: Config, s: State, actions: seq<Action>): State
    requires Run(c, s, actions)
    decreases |actions|, 1
  {
    if actions == [] then s
    else Next(c, After(c, s, actions[..|actions| - 1]), actions[|actions| - 1])
  }

  // ---------------------------------------------------------------- provenance

  /** The table held `db` for this code at some moment of instant `t`. */
  ghost predicate WasAt(s: State, db: DbValue, t: int) {
    t <= s.now && exists i :: VersionAt(s, i, t) && s.history[i].db == db
  }

  ghost predicate VersionAt(s: State, i: int, t: int) {
    0 <= i < |s.history| && s.history[i].sinceMs <= t && (i + 1 < |s.history| ==> t <= s.history[i + 1].sinceMs)
  }

  ghost predicate FillSound(c: Config, s: State, f: Fill) {
    && s.now <= f.readAt + c.fillDelay
    && match f
       case FillPositive(row, readAt) => WasAt(s, Live(row), readAt)
       case FillNegative(seen, readAt) => WasAt(s, seen, readAt) && !Redirectable(seen, readAt)
  }

  ghost predicate PositiveSound(c: Config, s: State, p: Positive) {
    WasAt(s, Live(p.row), p.readAt) && p.expiresAt <= p.readAt + c.fillDelay + c.cacheTtl
  }

  ghost predicate NegativeSound(c: Config, s: State, n: Negative) {
    && WasAt(s, n.seen, n.readAt) && !Redirectable(n.seen, n.readAt)
    && n.expiresAt <= n.readAt + c.fillDelay + c.negativeTtl
  }

  ghost predicate HistorySound(s: State) {
    && |s.history| > 0 && s.history[|s.history| - 1].db == s.db
    && (forall i :: 0 <= i < |s.history| ==> s.history[i].sinceMs <= s.now)
  }

  /** The fill a warming writer will perform. */
  function WarmingFill(w: Writer): Fill
    requires w.Warming?
  {
    FillPositive(w.row, w.insertedAt)
  }

  ghost predicate PendingSound(c: Config, s: State) {
    && (forall f :: f in s.fills ==> FillSound(c, s, s.fills[f]))
    && (forall w :: w in s.writers && s.writers[w].Warming? ==> FillSound(c, s, WarmingFill(s.writers[w])))
  }

  /** Everything cached or about to be cached was the table's value when it was read, recently enough. */
  ghost predicate Sourced(c: Config, s: State) {
    && HistorySound(s)
    && PendingSound(c, s)
    && (s.positive.Some? ==> PositiveSound(c, s, s.positive.value))
    && (s.negative.Some? ==> NegativeSound(c, s, s.negative.value))
  }

  lemma CurrentWasAt(s: State)
    requires HistorySound(s)
    ensures WasAt(s, s.db, s.now)
  {
    assert VersionAt(s, |s.history| - 1, s.now);
  }

  ghost predicate Continues(s: State, t: State) {
    s.now <= t.now && (t.history == s.history || t.history == s.history + [Version(t.db, s.now)])
  }

  /** A step writes the table and its history together, or neither. */
  lemma StepHistory(c: Config, s: State, a: Action)
    requires Enabled(c, s, a)
    ensures var t := Next(c, s, a);
            && s.now <= t.now
            && ((t.db == s.db && t.history == s.history) || t == WriteDb(s, t.db).(writers := t.writers))
  {
  }

  lemma StepContinues(c: Config, s: State, a: Action)
    requires HistorySound(s) && Enabled(c, s, a)
    ensures Continues(s, Next(c, s, a)) && HistorySound(Next(c, s, a))
  {
    StepHistory(c, s, a);
  }

  /** What was true of an instant stays true of it. */
  lemma WasAtPersists(s: State, t: State, db: DbValue, at: int)
    requires WasAt(s, db, at) && Continues(s, t)
    ensures WasAt(t, db, at)
  {
    var i :| VersionAt(s, i, at) && s.history[i].db == db;
    assert VersionAt(t, i, at) && t.history[i].db == db;
  }

  lemma FillPersists(c: Config, s: State, t: State, f: Fill)
    requires FillSound(c, s, f) && Continues(s, t) && t.now <= f.readAt + c.fillDelay
    ensures FillSound(c, t, f)
  {
    match f
    case FillPositive(row, readAt) => WasAtPersists(s, t, Live(row), readAt);
    case FillNegative(seen, readAt) => WasAtPersists(s, t, seen, readAt);
  }

  lemma FillForIsSound(c: Config, s: State)
    requires HistorySound(s)
    ensures FillSound(c, s, FillFor(s.db, s.now))
  {
    CurrentWasAt(s);
  }

  /** A pending fill was pending before, in time, or was just decided by a read of the table. */
  lemma FillOrigin(c: Config, s: State, a: Action, f: nat)
    requires Enabled(c, s, a) && f in Next(c, s, a).fills
    ensures var t := Next(c, s, a);
            || (f in s.fills && t.fills[f] == s.fills[f]
                && (t.now == s.now || t.now <= s.fills[f].readAt + c.fillDelay))
            || (f !in s.fills && t.fills[f] == FillFor(t.db, t.now))
  {
  }

  lemma StepFill(c: Config, s: State, a: Action, f: nat)
    requires c.WellFormed() && Sourced(c, s) && Enabled(c, s, a) && f in Next(c, s, a).fills
    ensures FillSound(c, Next(c, s, a), Next(c, s, a).fills[f])
  {
    StepContinues(c, s, a);
    FillOrigin(c, s, a, f);
    if f in s.fills {
      FillPersists(c, s, Next(c, s, a), s.fills[f]);
    } else {
      FillForIsSound(c, Next(c, s, a));
    }
  }

  /** A writer that is about to warm the cache was so before, in time, or has just inserted what the table now holds. */
  lemma WarmingOrigin(c: Config, s: State, a: Action, w: nat)
    requires Enabled(c, s, a) && w in Next(c, s, a).writers && Next(c, s, a).writers[w].Warming?
    ensures var t := Next(c, s, a);
            || (w in s.writers && t.writers[w] == s.writers[w]
                && (t.now == s.now || t.now <= s.writers[w].insertedAt + c.fillDelay))
            || (w !in s.writers && t.writers[w].insertedAt == t.now && t.db == Live(t.writers[w].row))
  {
  }

  lemma StepWarming(c: Config, s: State, a: Action, w: nat)
    requires c.WellFormed() && Sourced(c, s) && Enabled(c, s, a)
    requires w in Next(c, s, a).writers && Next(c, s, a).writers[w].Warming?
    ensures FillSound(c, Next(c, s, a), WarmingFill(Next(c, s, a).writers[w]))
  {
    StepContinues(c, s, a);
    WarmingOrigin(c, s, a, w);
    if w in s.writers {
      FillPersists(c, s, Next(c, s, a), WarmingFill(s.writers[w]));
    } else {
      CurrentWasAt(Next(c, s, a));
    }
  }

  /** A positive entry is as it was, or has just landed from something pending. */
  lemma PositiveOrigin(c: Config, s: State, a: Action)
    requires Enabled(c, s, a) && Next(c, s, a).positive.Some?
    ensures var t := Next(c, s, a);
            || t.positive == s.positive
            || (t.now == s.now && a.LandFill? && s.fills[a.fill].FillPositive?
                && t.positive == Land(c, s, s.fills[a.fill]).positive)
            || (t.now == s.now && a.WarmCache? && t.positive == Land(c, s, WarmingFill(s.writers[a.w])).positive)
  {
  }

  lemma StepPositive(c: Config, s: State, a: Action)
    requires c.WellFormed() && Sourced(c, s) && Enabled(c, s, a) && Next(c, s, a).positive.Some?
    ensures PositiveSound(c, Next(c, s, a), Next(c, s, a).positive.value)
  {
    var t := Next(c, s, a);
    StepContinues(c, s, a);
    PositiveOrigin(c, s, a);
    if t.positive == s.positive {
      WasAtPersists(s, t, Live(s.positive.value.row), s.positive.value.readAt);
    } else if a.LandFill? {
      FillPersists(c, s, t, s.fills[a.fill]);
    } else {
      FillPersists(c, s, t, WarmingFill(s.writers[a.w]));
    }
  }

  /** A negative entry is as it was, or has just landed. */
  lemma NegativeOrigin(c: Config, s: State, a: Action)
    requires Enabled(c, s, a) && Next(c, s, a).negative.Some?
    ensures var t := Next(c, s, a);
            || t.negative == s.negative
            || (t.now == s.now && a.LandFill? && s.fills[a.fill].FillNegative?
                && t.negative == Land(c, s, s.fills[a.fill]).negative)
  {
  }

  lemma StepNegative(c: Config, s: State, a: Action)
    requires c.WellFormed() && Sourced(c, s) && Enabled(c, s, a) && Next(c, s, a).negative.Some?
    ensures NegativeSound(c, Next(c, s, a), Next(c, s, a).negative.value)
  {
    var t := Next(c, s, a);
    StepContinues(c, s, a);
    NegativeOrigin(c, s, a);
    if t.negative == s.negative {
      WasAtPersists(s, t, s.negative.value.seen, s.negative.value.readAt);
    } else {
      FillPersists(c, s, t, s.fills[a.fill]);
    }
  }

  lemma StepSourced(c: Config, s: State, a: Action)
    requires c.WellFormed() && Sourced(c, s) && Enabled(c, s, a)
    ensures Sourced(c, Next(c, s, a))
  {
    var t := Next(c, s, a);
    StepContinues(c, s, a);
    forall f | f in t.fills
      ensures FillSound(c, t, t.fills[f])
    {
      StepFill(c, s, a, f);
    }
    forall w | w in t.writers && t.writers[w].Warming?
      ensures FillSound(c, t, WarmingFill(t.writers[w]))
    {
      StepWarming(c, s, a, w);
    }
    if t.positive.Some? {
      StepPositive(c, s, a);
    }
    if t.negative.Some? {
      StepNegative(c, s, a);
    }
  }

  lemma {:induction false} RunSourced(c: Config, s: State, actions: seq<Action>)
    requires c.WellFormed() && Initial(s) && Run(c, s, actions)
    ensures Sourced(c, After(c, s, actions))
    decreases |actions|
  {
    if actions != [] {
      var before := actions[..|actions| - 1];
      RunSourced(c, s, before);
      StepSourced(c, After(c, s, before), actions[|actions| - 1]);
    }
  }

  /**
    In every run, whatever fails or is late: a served target was this code's live row at an instant less than
    cacheTtl + fillDelay ago, or is now; the row was active, and its expiry has not passed at the time of serving.
   */
  lemma BoundedStaleness(c: Config, s: State, actions: seq<Action>, a: Action, target: string)
    requires c.WellFormed() && Initial(s) && Run(c, s, actions) && Enabled(c, After(c, s, actions), a)
    requires Answer(After(c, s, actions), a) == Some(Redirect(target))
    ensures var t := After(c, s, actions);
            exists row: Row, at: int ::
              && WasAt(t, Live(row), at) && t.now < at + c.cacheTtl + c.fillDelay
              && row.target == target && row.status == Active
              && (row.expiresAt.Some? ==> t.now <= row.expiresAt.value)
  {
    RunSourced(c, s, actions);
    var t := After(c, s, actions);
    CurrentWasAt(t);
    if a.GetPositive? {
      var p := t.positive.value;
      assert WasAt(t, Live(p.row), p.readAt) && t.now < p.readAt + c.cacheTtl + c.fillDelay;
    } else {
      assert WasAt(t, Live(t.db.row), t.now) && t.now < t.now + c.cacheTtl + c.fillDelay;
    }
  }

  /** The table held only redirectable values for this code from instant `from` on. */
  ghost predicate RedirectableSince(s: State, from: int) {
    forall db, at :: WasAt(s, db, at) && at >= from ==> Redirectable(db, at)
  }

  /**
    In every run, a negative entry answers only within negativeTtl + fillDelay of an instant at which the table held
    nothing redirectable; so a row that has been redirectable for that long is no longer hidden.
   */
  lemma BoundedHiding(c: Config, s: State, actions: seq<Action>, q: nat, from: int)
    requires c.WellFormed() && Initial(s) && Run(c, s, actions)
    requires Enabled(c, After(c, s, actions), CheckNegative(q, true))
    requires Answer(After(c, s, actions), CheckNegative(q, true)) == Some(NotFound)
    ensures var t := After(c, s, actions);
            exists db: DbValue, at: int ::
              WasAt(t, db, at) && !Redirectable(db, at) && t.now < at + c.negativeTtl + c.fillDelay
    ensures var t := After(c, s, actions);
            RedirectableSince(t, from) ==> t.now < from + c.negativeTtl + c.fillDelay
  {
    RunSourced(c, s, actions);
    var t := After(c, s, actions);
    var n := t.negative.value;
    assert WasAt(t, n.seen, n.readAt) && !Redirectable(n.seen, n.readAt);
  }

  // ---------------------------------------------------------------- quiescent coherence

  predicate Writes(a: Action) {
    a.Insert? || a.WriteUpdate? || a.WriteDelete? || a.ChangeElsewhere?
  }

  /** The same target, or a refusal on both sides. */
  predicate SameKind(x: Decision, y: Decision) {
    x == y || (!x.Redirect? && !y.Redirect?)
  }

  /** A refusal with a reason of its own, which a negative entry cannot give. */
  predicate OwnReason(d: Decision) {
    d == UrlExpired || d == UrlDisabled
  }

  /** The fill carries what the table holds: its row, or that nothing is redirectable. */
  predicate UpToDate(s: State, f: Fill) {
    match f
    case FillPositive(row, _) => s.db == Live(row)
    case FillNegative(_, _) => !Redirectable(s.db, s.now)
  }

  predicate FillsUpToDate(s: State) {
    && (forall f :: f in s.fills ==> UpToDate(s, s.fills[f]))
    && (forall w :: w in s.writers && s.writers[w].Warming? ==> UpToDate(s, WarmingFill(s.writers[w])))
  }

  ghost predicate Coherent(s: State) {
    && FillsUpToDate(s)
    && (s.positive.Some? ==> s.db == Live(s.positive.value.row))
    && (s.negative.Some? ==> !Redirectable(s.db, s.now))
  }

  lemma StepUpToDate(c: Config, s: State, a: Action)
    requires FillsUpToDate(s) && Enabled(c, s, a) && !Writes(a)
    ensures FillsUpToDate(Next(c, s, a)) && Next(c, s, a).db == s.db
  {
    var t := Next(c, s, a);
    assert t.db == s.db && s.now <= t.now;
    forall f | f in t.fills
      ensures UpToDate(t, t.fills[f])
    {
      assert f in s.fills ==> UpToDate(s, s.fills[f]);
    }
    forall w | w in t.writers && t.writers[w].Warming?
      ensures UpToDate(t, WarmingFill(t.writers[w]))
    {
      assert t.writers[w] == s.writers[w];
    }
  }

  lemma StepCoherent(c: Config, s: State, a: Action)
    requires Coherent(s) && Enabled(c, s, a) && !Writes(a)
    ensures Coherent(Next(c, s, a)) && Next(c, s, a).db == s.db
  {
    StepUpToDate(c, s, a);
    match a
    case LandFill(f, fine) => assert UpToDate(s, s.fills[f]);
    case WarmCache(w, fine) => assert UpToDate(s, WarmingFill(s.writers[w]));
    case _ =>
  }

  ghost predicate NoWrites(actions: seq<Action>) {
    forall i :: 0 <= i < |actions| ==> !Writes(actions[i])
  }

  lemma {:induction false} RunCoherent(c: Config, s: State, actions: seq<Action>)
    requires Coherent(s) && Run(c, s, actions) && NoWrites(actions)
    ensures Coherent(After(c, s, actions)) && After(c, s, actions).db == s.db
    decreases |actions|
  {
    if actions != [] {
      var before := actions[..|actions| - 1];
      RunCoherent(c, s, before);
      StepCoherent(c, After(c, s, before), actions[|actions| - 1]);
    }
  }

  /**
    After an invalidation that reached Redis, if no pending fill carries anything out of date, every resolve until the
    next write decides as the table does, as time passes over the row's expiry and whatever lookups fail; the answer
    itself is the table's, except where a negative entry stands in for an expired or disabled url.
   */
  lemma QuiescentCoherence(c: Config, s: State, w: nat, actions: seq<Action>, a: Action)
    requires Enabled(c, s, Invalidate(w, true)) && FillsUpToDate(s)
    requires Run(c, Next(c, s, Invalidate(w, true)), actions) && NoWrites(actions)
    requires Enabled(c, After(c, Next(c, s, Invalidate(w, true)), actions), a)
    ensures var t := After(c, Next(c, s, Invalidate(w, true)), actions);
            && t.db == s.db
            && (Answer(t, a).Some? ==>
                  && SameKind(Answer(t, a).value, Direct(t.db, t.now))
                  && (Answer(t, a).value == Direct(t.db, t.now)
                      <==> !(a.CheckNegative? && OwnReason(Direct(t.db, t.now)))))
  {
    RunCoherent(c, Next(c, s, Invalidate(w, true)), actions);
  }

  /** Some run without writes leads from `s` to `t`. */
  ghost predicate QuietlyReaches(c: Config, s: State, t: State) {
    exists actions :: Run(c, s, actions) && NoWrites(actions) && After(c, s, actions) == t
  }

  lemma ReachesSelf(c: Config, s: State)
    ensures QuietlyReaches(c, s, s)
  {
    assert Run(c, s, []) && NoWrites([]) && After(c, s, []) == s;
  }

  lemma ReachesNext(c: Config, s: State, t: State, a: Action)
    requires QuietlyReaches(c, s, t) && Enabled(c, t, a) && !Writes(a)
    ensures QuietlyReaches(c, s, Next(c, t, a))
  {
    var actions :| Run(c, s, actions) && NoWrites(actions) && After(c, s, actions) == t;
    var longer := actions + [a];
    assert longer[..|longer| - 1] == actions;
    assert Run(c, s, longer) && NoWrites(longer) && After(c, s, longer) == Next(c, t, a);
  }

  /** A request whose positive lookup gives nothing goes on to the negative key. */
  lemma MissPath(c: Config, s: State, t: State, q: nat, health: Health) returns (u: State)
    requires QuietlyReaches(c, s, t) && q !in t.requests && !(health == Fine && LivePositive(t.positive, t.now))
    ensures QuietlyReaches(c, s, u)
    ensures u == t.(requests := t.requests[q := AtNegative],
                    positive := if health == Corrupt then None else t.positive)
  {
    ReachesNext(c, s, t, Begin(q));
    u := Next(c, t, Begin(q));
    ReachesNext(c, s, u, GetPositive(q, health));
    u := Next(c, u, GetPositive(q, health));
    assert t.requests[q := AtPositive][q := AtNegative] == t.requests[q := AtNegative];
  }

  // ---------------------------------------------------------------- read-modify-write

  /**
    An update writes every field, so it amounts to patching the row as it stands exactly when nobody has changed an
    unpatched field since the read; a status changed in between is always put back.
   */
  lemma UpdateIsPatchIff(c: Config, s: State, w: nat)
    requires Enabled(c, s, WriteUpdate(w)) && s.db.Live?
    ensures Next(c, s, WriteUpdate(w)).db == Live(ApplyPatch(s.db.row, s.writers[w].patch))
       <==> && s.db.row.status == s.writers[w].read.status
            && (s.writers[w].patch.target.Some? || s.db.row.target == s.writers[w].read.target)
            && (s.writers[w].patch.expiresAt.Some? || s.db.row.expiresAt == s.writers[w].read.expiresAt)
  {
  }

  /** No lookup, write or cache command of this step fails. */
  predicate Faultless(a: Action) {
    match a
    case GetPositive(_, health) => health == Fine
    case CheckNegative(_, fine) => fine
    case ReadDatabase(_, fine, _) => fine
    case LandFill(_, fine) => fine
    case WarmCache(_, fine) => fine
    case Invalidate(_, fine) => fine
    case _ => true
  }

  ghost predicate AllFaultless(actions: seq<Action>) {
    forall i :: 0 <= i < |actions| ==> Faultless(actions[i])
  }

  /** Some run in which nothing fails leads from `s` to `t`. */
  ghost predicate SmoothlyReaches(c: Config, s: State, t: State) {
    exists actions :: Run(c, s, actions) && AllFaultless(actions) && After(c, s, actions) == t
  }

  lemma SmoothlySelf(c: Config, s: State)
    ensures SmoothlyReaches(c, s, s)
  {
    assert Run(c, s, []) && After(c, s, []) == s;
  }

  lemma SmoothlyNext(c: Config, s: State, t: State, a: Action)
    requires SmoothlyReaches(c, s, t) && Enabled(c, t, a) && Faultless(a)
    ensures SmoothlyReaches(c, s, Next(c, t, a))
  {
    var actions :| Run(c, s, actions) && AllFaultless(actions) && After(c, s, actions) == t;
    var longer := actions + [a];
    assert longer[..|longer| - 1] == actions;
    assert Run(c, s, longer) && After(c, s, longer) == Next(c, t, a);
  }

  /**
    The condition does fail: a row disabled while an update is under way is active again afterwards, in a run without
    failures.
   */
  lemma LostUpdate(c: Config, s: State, w: nat, patch: Patch) returns (t: State)
    requires Initial(s) && s.db.Live? && s.db.row.status == Active
    ensures SmoothlyReaches(c, s, t) && Enabled(c, t, WriteUpdate(w))
    ensures t.db == Live(s.db.row.(status := Disabled))
    ensures Next(c, t, WriteUpdate(w)).db == Live(ApplyPatch(s.db.row, patch))
    ensures ApplyPatch(s.db.row, patch).status == Active
    ensures Next(c, t, WriteUpdate(w)).db != Live(ApplyPatch(t.db.row, patch))
  {
    SmoothlySelf(c, s);
    SmoothlyNext(c, s, s, ReadForUpdate(w, patch));
    t := Next(c, s, ReadForUpdate(w, patch));
    var disabled := s.db.row.(status := Disabled);
    SmoothlyNext(c, s, t, ChangeElsewhere(disabled));
    t := Next(c, t, ChangeElsewhere(disabled));
  }

  function ReplyOf(answer: Option<Decision>): Reply {
    if answer.Some? then Decided(answer.value) else ServerError
  }

  /** Undisturbed, the steps of a request answer and leave behind exactly what Handle does. */
  lemma HandleIsAPath(c: Config, s: State, q: nat, f: nat, health: Health, existsFine: bool, dbFine: bool)
    returns (t: State, last: Action)
    requires q !in s.requests && f !in s.fills
    ensures QuietlyReaches(c, s, t) && Enabled(c, t, last)
    ensures var hit := if health == Fine && LivePositive(s.positive, s.now) then Some(s.positive.value.row) else None;
            var resolved := Resolve(hit, LiveNegative(s.negative, s.now), s.db, s.now, existsFine, dbFine);
            && ReplyOf(Answer(t, last)) == resolved.reply
            && Next(c, t, last).fills == (if resolved.fill.Some? then s.fills[f := resolved.fill.value] else s.fills)
  {
    ReachesSelf(c, s);
    if health == Fine && LivePositive(s.positive, s.now) {
      ReachesNext(c, s, s, Begin(q));
      t, last := Next(c, s, Begin(q)), GetPositive(q, health);
    } else {
      t := MissPath(c, s, s, q, health);
      last := CheckNegative(q, existsFine);
      if !(existsFine && LiveNegative(s.negative, s.now)) {
        ReachesNext(c, s, t, last);
        t, last := Next(c, t, last), ReadDatabase(q, dbFine, f);
      }
    }
  }

  /**
    The converse of BoundedStaleness: an undisturbed request for a live row is redirected to its target if the row is
    active and not past its expiry, with the row in the cache or only in the table; else it is told why not.
   */
  lemma UndisturbedRequest(c: Config, s: State, q: nat, f: nat, row: Row) returns (t: State, last: Action)
    requires q !in s.requests && f !in s.fills
    requires || (s.positive.Some? && s.positive.value.row == row && s.now < s.positive.value.expiresAt)
             || (s.positive == None && s.negative == None && s.db == Live(row))
    ensures QuietlyReaches(c, s, t) && Enabled(c, t, last)
    ensures Answer(t, last) == Some(
              if row.expiresAt.Some? && s.now > row.expiresAt.value then UrlExpired
              else if row.status == Active then Redirect(row.target)
              else if row.status == Disabled then UrlDisabled
              else NotFound)
  {
    DecisionsInFields(row, s.now);
    t, last := HandleIsAPath(c, s, q, f, Fine, true, true);
  }

  // ---------------------------------------------------------------- the writers' code takes these steps

  lemma RunAppend(c: Config, s: State, actions: seq<Action>, a: Action)
    requires Run(c, s, actions) && Enabled(c, After(c, s, actions), a)
    ensures Run(c, s, actions + [a]) && After(c, s, actions + [a]) == Next(c, After(c, s, actions), a)
  {
    assert (actions + [a])[..|actions|] == actions;
  }

  /** Shorten, undisturbed, once it has found its code free: the insert, and the warm-up unless Redis fails. */
  lemma ShortenIsAPath(c: Config, s: State, w: nat, row: Row, warmFine: bool) returns (actions: seq<Action>)
    requires w !in s.writers && s.db == Absent && row.status == Active
    ensures Run(c, s, actions)
    ensures var t := After(c, s, actions);
            && t.db == Live(row) && t.negative == s.negative && t.writers == s.writers
            && t.positive == if warmFine then Some(Positive(row, s.now + c.cacheTtl, s.now)) else s.positive
  {
    RunAppend(c, s, [], Insert(w, row));
    RunAppend(c, s, [Insert(w, row)], WarmCache(w, warmFine));
    actions := [Insert(w, row), WarmCache(w, warmFine)];
    assert [] + [Insert(w, row)] == [Insert(w, row)];
    assert [Insert(w, row)] + [WarmCache(w, warmFine)] == actions;
    assert s.writers[w := Warming(row, s.now)] - {w} == s.writers;
  }

  /** `t` is `s` with another row and writer `w` about to invalidate. */
  ghost predicate Wrote(s: State, t: State, w: nat, db: DbValue) {
    t == WriteDb(s, db).(writers := s.writers[w := Invalidating])
  }

  lemma InvalidateEnds(c: Config, s: State, t: State, w: nat, db: DbValue, deleteFine: bool)
    requires w !in s.writers && Wrote(s, t, w, db)
    ensures var u := Next(c, t, Invalidate(w, deleteFine));
            && u.db == db && u.writers == s.writers
            && u.positive == (if deleteFine then None else s.positive)
            && u.negative == (if deleteFine then None else s.negative)
  {
    assert s.writers[w := Invalidating] - {w} == s.writers;
  }

  /** Update, undisturbed: the patched row is written, and both keys are deleted unless Redis fails. */
  lemma UpdateIsAPath(c: Config, s: State, w: nat, patch: Patch, deleteFine: bool) returns (actions: seq<Action>)
    requires w !in s.writers && s.db.Live?
    ensures Run(c, s, actions)
    ensures var t := After(c, s, actions);
            && t.db == Live(ApplyPatch(s.db.row, patch)) && t.writers == s.writers
            && t.positive == (if deleteFine then None else s.positive)
            && t.negative == (if deleteFine then None else s.negative)
  {
    var read := [] + [ReadForUpdate(w, patch)];
    RunAppend(c, s, [], ReadForUpdate(w, patch));
    RunAppend(c, s, read, WriteUpdate(w));
    var t := After(c, s, read + [WriteUpdate(w)]);
    assert Wrote(s, t, w, Live(ApplyPatch(s.db.row, patch)));
    RunAppend(c, s, read + [WriteUpdate(w)], Invalidate(w, deleteFine));
    InvalidateEnds(c, s, t, w, t.db, deleteFine);
    actions := read + [WriteUpdate(w)] + [Invalidate(w, deleteFine)];
  }

  /** Delete, undisturbed: the row is soft-deleted, and both keys are deleted unless Redis fails. */
  lemma DeleteIsAPath(c: Config, s: State, w: nat, deleteFine: bool) returns (actions: seq<Action>)
    requires w !in s.writers && s.db.Live?
    ensures Run(c, s, actions)
    ensures var t := After(c, s, actions);
            && t.db == SoftDeleted(s.db.row.(status := Deleted)) && t.writers == s.writers
            && t.positive == (if deleteFine then None else s.positive)
            && t.negative == (if deleteFine then None else s.negative)
  {
    var read := [] + [ReadForDelete(w)];
    RunAppend(c, s, [], ReadForDelete(w));
    RunAppend(c, s, read, WriteDelete(w));
    var t := After(c, s, read + [WriteDelete(w)]);
    assert Wrote(s, t, w, SoftDeleted(s.db.row.(status := Deleted)));
    RunAppend(c, s, read + [WriteDelete(w)], Invalidate(w, deleteFine));
    InvalidateEnds(c, s, t, w, t.db, deleteFine);
    actions := read + [WriteDelete(w)] + [Invalidate(w, deleteFine)];
  }
}
