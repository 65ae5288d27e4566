/** The methods of the service as paths of the step system. */
module IngestionPaths {
  import opened Wrappers
  import opened Aggregation
  import opened IngestionStore
  import opened Ingestion

  ghost predicate Reaches(s: State, t: State) {
    exists actions :: Run(s, actions) && After(s, actions) == t
  }

  lemma ReachesSelf(s: State)
    ensures Reaches(s, s)
  {
    assert Run(s, []) && After(s, []) == s;
  }

  lemma ReachesNext(s: State, t: State, a: Action)
    requires Reaches(s, t) && Enabled(t, a)
    ensures Reaches(s, Next(t, a))
  {
    var actions :| Run(s, actions) && After(s, actions) == t;
    assert (actions + [a])[..|actions|] == actions;
    assert Run(s, actions + [a]) && After(s, actions + [a]) == Next(t, a);
  }

  /** The tables after the updates of some codes, in this order. */
  ghost function CountUpAll(db: Tables, counts: map<string, nat>, order: seq<string>): Tables
    requires forall code :: code in order ==> code in counts
  {
    if order == [] then db
    else
      var done := order[|order| - 1];
      assert done in order;
      CountUp(CountUpAll(db, counts, order[..|order| - 1]), done, counts[done])
  }

  lemma OneMoreIncrement(db: Tables, clicks: map<string, nat>, counts: map<string, nat>, applied: set<string>,
                         code: string)
    requires code in counts && code !in applied && db.clicks == Incremented(clicks, db.live, counts, applied)
    ensures CountUp(db, code, counts[code]).clicks == Incremented(clicks, db.live, counts, applied + {code})
  {
  }

  lemma {:induction false} CountUpAllKeeps(db: Tables, counts: map<string, nat>, order: seq<string>)
    requires forall code :: code in order ==> code in counts
    ensures var after := CountUpAll(db, counts, order);
            after == db.(clicks := after.clicks, missed := after.missed)
  {
    if order != [] {
      CountUpAllKeeps(db, counts, order[..|order| - 1]);
    }
  }

  lemma {:induction false} CountUpAllIncrements(db: Tables, counts: map<string, nat>, order: seq<string>)
    requires Distinct(order) && forall code :: code in order ==> code in counts
    ensures CountUpAll(db, counts, order).clicks == Incremented(db.clicks, db.live, counts, Elements(order))
  {
    if order == [] {
      assert Elements(order) == {};
    } else {
      var init, done := order[..|order| - 1], order[|order| - 1];
      assert order == init + [done];
      CountUpAllIncrements(db, counts, init);
      CountUpAllKeeps(db, counts, init);
      assert Elements(order) == Elements(init) + {done};
      OneMoreIncrement(CountUpAll(db, counts, init), db.clicks, counts, Elements(init), done);
    }
  }

  /** The flush of the drainer or, at shutdown, the final one. */
  function FlushOf(s: State, final: bool): Option<Flush> {
    if final && s.shutdown.FinalFlush? then Some(s.shutdown.flush)
    else if !final && s.drainer.Flushing? then Some(s.drainer.flush)
    else None
  }

  function SetFlush(s: State, final: bool, flush: Flush): State
    requires FlushOf(s, final).Some?
  {
    if final then s.(shutdown := FinalFlush(flush)) else s.(drainer := Flushing(flush, s.drainer.last))
  }

  function EndFlush(s: State, final: bool): State
    requires FlushOf(s, final).Some?
  {
    if final then s.(shutdown := Done(false)) else s.(drainer := AfterFlush(s.drainer.last))
  }

  function CountStep(final: bool, code: string, fine: bool): Action {
    if final then ShutdownCount(code, fine) else DrainerCount(code, fine)
  }

  lemma CountStepIs(s: State, final: bool, counts: map<string, nat>, code: string)
    requires FlushOf(s, final) == Some(Counting(counts)) && code in counts
    ensures Enabled(s, CountStep(final, code, true)) && Enabled(s, CountStep(final, code, false))
    ensures Next(s, CountStep(final, code, true))
         == SetFlush(s, final, Counting(counts - {code})).(db := CountUp(s.db, code, counts[code]))
    ensures Next(s, CountStep(final, code, false)) == EndFlush(s, final).(db := MissAll(s.db, counts))
  {
  }

  lemma SetFlushTwice(s: State, final: bool, first: Flush, second: Flush, db: Tables, later: Tables)
    requires FlushOf(s, final).Some?
    ensures var t := SetFlush(s, final, first).(db := db);
            && FlushOf(t, final) == Some(first)
            && SetFlush(t, final, second).(db := later) == SetFlush(s, final, second).(db := later)
  {
  }

  /** The updates of a flush in any order reach the state where exactly these have been applied. */
  lemma {:induction false} CountPath(s: State, t: State, final: bool, counts: map<string, nat>, order: seq<string>)
    returns (u: State)
    requires Reaches(s, t) && FlushOf(t, final) == Some(Counting(counts))
    requires Distinct(order) && forall code :: code in order ==> code in counts
    ensures Reaches(s, u)
    ensures u == SetFlush(t, final, Counting(counts - Elements(order))).(db := CountUpAll(t.db, counts, order))
  {
    if order == [] {
      assert counts - Elements(order) == counts;
      u := t;
    } else {
      var init, done := order[..|order| - 1], order[|order| - 1];
      assert order == init + [done] && done !in init;
      var v := CountPath(s, t, final, counts, init);
      var left := counts - Elements(init);
      assert left - {done} == counts - Elements(order);
      var db := CountUpAll(t.db, counts, init);
      SetFlushTwice(t, final, Counting(left), Counting(left - {done}), db, CountUp(db, done, counts[done]));
      u := OneCount(s, v, final, left, done);
    }
  }

  lemma OneCount(s: State, t: State, final: bool, counts: map<string, nat>, code: string) returns (u: State)
    requires Reaches(s, t) && FlushOf(t, final) == Some(Counting(counts)) && code in counts
    ensures Reaches(s, u)
    ensures u == SetFlush(t, final, Counting(counts - {code})).(db := CountUp(t.db, code, counts[code]))
  {
    CountStepIs(t, final, counts, code);
    ReachesNext(s, t, CountStep(final, code, true));
    u := Next(t, CountStep(final, code, true));
  }

  /** What IngestionService.Flush leaves behind, when the updates in `order` succeed and the next one, if any, fails. */
  ghost predicate Flushes(t: State, u: State, batch: seq<Event>, fine: bool, order: seq<string>) {
    && u.captured == t.captured && u.channel == t.channel
    && (if fine then
          && u.written == t.written + batch && u.writtenCount == t.writtenCount + |batch|
          && u.lost == t.lost && u.droppedCount == t.droppedCount
          && Counted(t.db, u.db, TallyOf(batch), order)
        else
          && u.lost == t.lost + batch && u.droppedCount == t.droppedCount + |batch|
          && u.written == t.written && u.writtenCount == t.writtenCount && u.db == t.db)
  }

  /** The updates in `order` have been applied to the live rows, and nothing else has changed in the tables. */
  ghost predicate Counted(db: Tables, after: Tables, counts: map<string, nat>, order: seq<string>) {
    after == db.(clicks := Incremented(db.clicks, db.live, counts, Elements(order)), missed := after.missed)
  }

  /** The flush is over: the drainer is idle or stopped, or shutdown is done, and the other of the two is as before. */
  ghost predicate FlushOver(t: State, u: State, final: bool)
    requires FlushOf(t, final).Some?
  {
    u.drainer == EndFlush(t, final).drainer && u.shutdown == EndFlush(t, final).shutdown && u.cancelled == t.cancelled
  }

  lemma FlushEnds(s: State, t: State, final: bool, counts: map<string, nat>) returns (u: State)
    requires Reaches(s, t) && FlushOf(t, final) == Some(Counting(counts))
    ensures Reaches(s, u) && u == EndFlush(t, final).(db := u.db) && u.db == t.db.(missed := u.db.missed)
  {
    if counts == map[] {
      ReachesNext(s, t, if final then ShutdownCounted else DrainerCounted);
      u := Next(t, if final then ShutdownCounted else DrainerCounted);
    } else {
      var code :| code in counts;
      CountStepIs(t, final, counts, code);
      ReachesNext(s, t, CountStep(final, code, false));
      u := Next(t, CountStep(final, code, false));
    }
  }

  /** The rest of a flush once its batch is in, whichever update fails first. */
  lemma {:induction false} CountedPath(s: State, t: State, final: bool, counts: map<string, nat>, order: seq<string>)
    returns (u: State)
    requires Reaches(s, t) && FlushOf(t, final) == Some(Counting(counts))
    requires Distinct(order) && forall code :: code in order ==> code in counts
    ensures Reaches(s, u) && u == EndFlush(t, final).(db := u.db) && Counted(t.db, u.db, counts, order)
  {
    var v := CountPath(s, t, final, counts, order);
    CountUpAllKeeps(t.db, counts, order);
    CountUpAllIncrements(t.db, counts, order);
    u := FlushEnds(s, v, final, counts - Elements(order));
  }

  /** IngestionService.Flush is a path, of the drainer or of shutdown, whether the insert succeeds or not. */
  lemma {:induction false} FlushIsAPath(s: State, t: State, final: bool, batch: seq<Event>, fine: bool,
                                        order: seq<string>)
    returns (u: State)
    requires Reaches(s, t) && FlushOf(t, final) == Some(Writing(batch))
    requires Distinct(order) && forall code :: code in order ==> code in TallyOf(batch)
    ensures Reaches(s, u) && Flushes(t, u, batch, fine, order) && FlushOver(t, u, final)
  {
    var write := if final then ShutdownWrite(fine) else DrainerWrite(fine);
    ReachesNext(s, t, write);
    u := Next(t, write);
    if fine {
      assert u == SetFlush(Write(t, batch, true), final, Counting(TallyOf(batch)));
      u := CountedPath(s, u, final, TallyOf(batch), order);
    }
  }

  /** IngestionService.Receive is a path of the drainer. */
  lemma {:induction false} ReceiveIsAPath(s: State, fine: bool, order: seq<string>) returns (u: State)
    requires s.drainer.Receiving? && s.channel != []
    requires Distinct(order) && forall code :: code in order ==> code in TallyOf(s.drainer.batch + [s.channel[0]])
    ensures var grown, rest := s.drainer.batch + [s.channel[0]], s.(channel := s.channel[1..]);
            && Reaches(s, u)
            && (if |grown| >= BATCH_SIZE then u.drainer == Receiving([]) && Flushes(rest, u, grown, fine, order)
                else u == rest.(drainer := Receiving(grown)))
  {
    ReachesSelf(s);
    ReachesNext(s, s, Receive);
    u := Next(s, Receive);
    if u.drainer.Flushing? {
      u := FlushIsAPath(s, u, false, u.drainer.flush.batch, fine, order);
    }
  }

  /** IngestionService.FlushPending is a path of the drainer, on a tick or when it is stopped. */
  lemma {:induction false} FlushPendingIsAPath(s: State, stop: bool, fine: bool, order: seq<string>) returns (u: State)
    requires s.drainer.Receiving? && (stop ==> s.cancelled) && (s.drainer.batch != [] || stop)
    requires Distinct(order) && forall code :: code in order ==> code in TallyOf(s.drainer.batch)
    ensures Reaches(s, u) && u.drainer == AfterFlush(stop)
    ensures if s.drainer.batch == [] then u == s.(drainer := Stopped) else Flushes(s, u, s.drainer.batch, fine, order)
  {
    ReachesSelf(s);
    ReachesNext(s, s, if stop then Stop else Tick);
    u := Next(s, if stop then Stop else Tick);
    if s.drainer.batch != [] {
      u := FlushIsAPath(s, u, false, s.drainer.batch, fine, order);
    }
  }

  lemma {:induction false} CollectPath(s: State, t: State) returns (u: State)
    requires Reaches(s, t) && t.shutdown.Collecting?
    ensures Reaches(s, u) && u == t.(channel := [], shutdown := Collecting(t.shutdown.remaining + t.channel))
    decreases |t.channel|
  {
    if t.channel == [] {
      assert t.shutdown.remaining + t.channel == t.shutdown.remaining;
      u := t;
    } else {
      ReachesNext(s, t, Collect);
      u := CollectPath(s, Next(t, Collect));
      assert t.shutdown.remaining + [t.channel[0]] + t.channel[1..] == t.shutdown.remaining + t.channel;
    }
  }

  /** IngestionService.FlushRemaining is a path of shutdown, once the drainer has stopped. */
  lemma {:induction false} FlushRemainingIsAPath(s: State, fine: bool, order: seq<string>) returns (u: State)
    requires s.shutdown == Waiting && s.drainer == Stopped
    requires Distinct(order) && forall code :: code in order ==> code in TallyOf(s.channel)
    ensures Reaches(s, u) && u.shutdown == Done(false)
    ensures if s.channel == [] then u == s.(shutdown := Done(false))
            else Flushes(s.(channel := []), u, s.channel, fine, order)
  {
    ReachesSelf(s);
    ReachesNext(s, s, DrainerIsDone);
    u := CollectPath(s, Next(s, DrainerIsDone));
    assert [] + s.channel == s.channel;
    ReachesNext(s, u, CollectedAll);
    u := Next(u, CollectedAll);
    if s.channel != [] {
      u := FlushIsAPath(s, u, true, s.channel, fine, order);
    }
  }
}
