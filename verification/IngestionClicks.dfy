/** The click counter against the event table, over runs of the pipeline and of other services on the same tables. */
module IngestionClicks {
  import opened IngestionStore
  import opened Ingestion

  function PendingCount(f: Flush, code: string): nat {
    if f.Counting? then CountOf(f.counts, code) else 0
  }

  function Pending(s: State, code: string): nat {
    (if s.drainer.Flushing? then PendingCount(s.drainer.flush, code) else 0)
    + (if s.shutdown.FinalFlush? then PendingCount(s.shutdown.flush, code) else 0)
  }

  /** Counts of this code known to the tables: on the row, still to come from elsewhere, or missed. */
  function Known(db: Tables, code: string): nat {
    CountOf(db.clicks, code) + CountOf(db.owed, code) + CountOf(db.missed, code)
  }

  /**
    Persisted non-bot events are counted, or about to be, here or elsewhere, or known to be missed, or among the
    `before` that were missed before this service started.
   */
  ghost predicate ClicksAgree(s: State, code: string, before: nat) {
    Known(s.db, code) + Pending(s, code) + before == NonBot(s.written, code) + NonBot(s.db.elsewhere, code)
  }

  lemma WriteClicks(s: State, batch: seq<Event>, code: string)
    ensures NonBot(s.written + batch, code) == NonBot(s.written, code) + CountOf(TallyOf(batch), code)
  {
    NonBotConcat(s.written, batch, code);
  }

  /** A counter update moves its count to the row, or to the missed ones. */
  lemma CountUpKnown(db: Tables, done: string, k: nat, code: string)
    ensures Known(CountUp(db, done, k), code) == Known(db, code) + if code == done then k else 0
    ensures Known(Miss(db, done, k), code) == Known(db, code) + if code == done then k else 0
    ensures CountUp(db, done, k).elsewhere == Miss(db, done, k).elsewhere == db.elsewhere
  {
  }

  lemma MissAllKnown(db: Tables, counts: map<string, nat>, code: string)
    ensures Known(MissAll(db, counts), code) == Known(db, code) + CountOf(counts, code)
  {
    AddAllCounts(db.missed, counts, code);
  }

  lemma DrainerWriteClicks(s: State, fine: bool, code: string, before: nat)
    requires ClicksAgree(s, code, before) && Enabled(s, DrainerWrite(fine))
    ensures ClicksAgree(Next(s, DrainerWrite(fine)), code, before)
  {
    WriteClicks(s, s.drainer.flush.batch, code);
  }

  lemma DrainerCountClicks(s: State, done: string, fine: bool, code: string, before: nat)
    requires ClicksAgree(s, code, before) && Enabled(s, DrainerCount(done, fine))
    ensures ClicksAgree(Next(s, DrainerCount(done, fine)), code, before)
  {
    CountUpKnown(s.db, done, s.drainer.flush.counts[done], code);
    MissAllKnown(s.db, s.drainer.flush.counts, code);
  }

  lemma ShutdownWriteClicks(s: State, fine: bool, code: string, before: nat)
    requires ClicksAgree(s, code, before) && Enabled(s, ShutdownWrite(fine))
    ensures ClicksAgree(Next(s, ShutdownWrite(fine)), code, before)
  {
    WriteClicks(s, s.shutdown.flush.batch, code);
  }

  lemma ShutdownCountClicks(s: State, done: string, fine: bool, code: string, before: nat)
    requires ClicksAgree(s, code, before) && Enabled(s, ShutdownCount(done, fine))
    ensures ClicksAgree(Next(s, ShutdownCount(done, fine)), code, before)
  {
    CountUpKnown(s.db, done, s.shutdown.flush.counts[done], code);
    MissAllKnown(s.db, s.shutdown.flush.counts, code);
  }

  lemma ElsewhereInsertClicks(s: State, batch: seq<Event>, code: string, before: nat)
    requires ClicksAgree(s, code, before) && Enabled(s, ElsewhereInsert(batch))
    ensures ClicksAgree(Next(s, ElsewhereInsert(batch)), code, before)
  {
    NonBotConcat(s.db.elsewhere, batch, code);
    AddAllCounts(s.db.owed, TallyOf(batch), code);
  }

  lemma AddAllCounts(m: map<string, nat>, counts: map<string, nat>, code: string)
    ensures CountOf(AddAll(m, counts), code) == CountOf(m, code) + CountOf(counts, code)
  {
  }

  lemma ElsewhereCountClicks(s: State, done: string, k: nat, fine: bool, code: string, before: nat)
    requires ClicksAgree(s, code, before) && Enabled(s, ElsewhereCount(done, k, fine))
    ensures ClicksAgree(Next(s, ElsewhereCount(done, k, fine)), code, before)
  {
    CountUpKnown(s.db.(owed := s.db.owed[done := s.db.owed[done] - k]), done, k, code);
  }

  lemma RowClicks(s: State, a: Action, code: string, before: nat)
    requires ClicksAgree(s, code, before) && Enabled(s, a) && (a.CreateRow? || a.DeleteRow?)
    ensures ClicksAgree(Next(s, a), code, before)
  {
  }

  predicate TouchesClicks(a: Action) {
    a.DrainerWrite? || a.DrainerCount? || a.ShutdownWrite? || a.ShutdownCount?
    || a.ElsewhereInsert? || a.ElsewhereCount? || a.CreateRow? || a.DeleteRow?
  }

  lemma OtherClicks(s: State, a: Action, code: string)
    requires Enabled(s, a) && !TouchesClicks(a)
    ensures Next(s, a).db == s.db && Next(s, a).written == s.written && Pending(Next(s, a), code) == Pending(s, code)
  {
  }

  lemma StepClicks(s: State, a: Action, code: string, before: nat)
    requires ClicksAgree(s, code, before) && Enabled(s, a)
    ensures ClicksAgree(Next(s, a), code, before)
  {
    match a
    case DrainerWrite(fine) => DrainerWriteClicks(s, fine, code, before);
    case DrainerCount(done, fine) => DrainerCountClicks(s, done, fine, code, before);
    case ShutdownWrite(fine) => ShutdownWriteClicks(s, fine, code, before);
    case ShutdownCount(done, fine) => ShutdownCountClicks(s, done, fine, code, before);
    case ElsewhereInsert(batch) => ElsewhereInsertClicks(s, batch, code, before);
    case ElsewhereCount(done, k, fine) => ElsewhereCountClicks(s, done, k, fine, code, before);
    case CreateRow(_) => RowClicks(s, a, code, before);
    case DeleteRow(_) => RowClicks(s, a, code, before);
    case _ => OtherClicks(s, a, code);
  }

  lemma {:induction false} AgreeOverRun(s: State, actions: seq<Action>, code: string, before: nat)
    requires ClicksAgree(s, code, before) && Run(s, actions)
    ensures ClicksAgree(After(s, actions), code, before)
    decreases |actions|
  {
    if actions != [] {
      AgreeOverRun(s, actions[..|actions| - 1], code, before);
      StepClicks(After(s, actions[..|actions| - 1]), actions[|actions| - 1], code, before);
    }
  }

  /**
    From a start on any tables, with other services at work on them: click_count never exceeds the persisted non-bot
    events, for any order of the counter updates and any failure; once no service has updates to make, it equals them
    exactly when none was missed, since or before.
   */
  lemma {:induction false} ClickCountAgreement(s: State, actions: seq<Action>, code: string, before: nat)
    requires Run(s, actions) && ClicksAgree(s, code, before)
    ensures var t := After(s, actions);
            && CountOf(t.db.clicks, code) <= NonBot(EventTable(t), code)
            && (Pending(t, code) == 0 && CountOf(t.db.owed, code) == 0 ==>
                  (CountOf(t.db.clicks, code) == NonBot(EventTable(t), code)
                   <==> CountOf(t.db.missed, code) == 0 && before == 0))
  {
    AgreeOverRun(s, actions, code, before);
    NonBotConcat(After(s, actions).db.elsewhere, After(s, actions).written, code);
  }

  /**
    Whenever the service stops, and another starts on the tables it leaves, the updates it still had to make are
    missed.
   */
  lemma {:induction false} RestartAgrees(s: State, t: State, code: string, before: nat)
    requires ClicksAgree(s, code, before) && Initial(t)
    requires t.db == s.db.(missed := map[], elsewhere := EventTable(s))
    ensures ClicksAgree(t, code, before + CountOf(s.db.missed, code) + Pending(s, code))
  {
    NonBotConcat(s.db.elsewhere, s.written, code);
  }

  /** Nothing was done that can lose a count of `code`: no update failed, and its row was never deleted. */
  ghost predicate NoMiss(actions: seq<Action>, code: string) {
    forall i :: 0 <= i < |actions| ==>
      && actions[i] != DeleteRow(code)
      && !(actions[i].DrainerCount? && !actions[i].fine)
      && !(actions[i].ShutdownCount? && !actions[i].fine)
      && !(actions[i].ElsewhereCount? && !actions[i].fine)
  }

  lemma StepMissesNothing(s: State, a: Action, code: string)
    requires Enabled(s, a) && NoMiss([a], code)
    requires code in s.db.clicks && code in s.db.live && CountOf(s.db.missed, code) == 0
    ensures code in Next(s, a).db.clicks && code in Next(s, a).db.live && CountOf(Next(s, a).db.missed, code) == 0
  {
    assert [a][0] == a;
  }

  /** Without failures, and with the row there from before the first event to after the last update, none is missed. */
  lemma {:induction false} NothingMissed(s: State, actions: seq<Action>, code: string)
    requires Run(s, actions) && NoMiss(actions, code)
    requires code in s.db.clicks && code in s.db.live && CountOf(s.db.missed, code) == 0
    ensures var t := After(s, actions);
            code in t.db.clicks && code in t.db.live && CountOf(t.db.missed, code) == 0
    decreases |actions|
  {
    if actions != [] {
      NothingMissed(s, actions[..|actions| - 1], code);
      StepMissesNothing(After(s, actions[..|actions| - 1]), actions[|actions| - 1], code);
    }
  }

  /**
    If the row is there before the first of its events is persisted, stays, and no update fails, then click_count is the
    number of persisted non-bot events whenever no service has updates to make.
   */
  lemma {:induction false} ClicksMatchEvents(s: State, actions: seq<Action>, code: string)
    requires code in s.db.clicks && code in s.db.live && s.db.clicks[code] == 0
    requires Pending(s, code) == 0 && CountOf(s.db.owed, code) == 0 && CountOf(s.db.missed, code) == 0
    requires NonBot(EventTable(s), code) == 0
    requires Run(s, actions) && NoMiss(actions, code)
    ensures var t := After(s, actions);
            && code in t.db.clicks
            && t.db.clicks[code] + Pending(t, code) + CountOf(t.db.owed, code) == NonBot(EventTable(t), code)
  {
    NonBotConcat(s.db.elsewhere, s.written, code);
    NothingMissed(s, actions, code);
    AgreeOverRun(s, actions, code, 0);
    NonBotConcat(After(s, actions).db.elsewhere, After(s, actions).written, code);
  }
}
