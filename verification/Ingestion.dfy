/**
  The analytics pipeline as a step system: producers, the drainer, and a shutdown that waits for the drainer, with
  writes and counter updates that may fail, and url rows appearing and disappearing meanwhile. The tables are shared:
  `elsewhere` holds the events of all other services, past and present, and `owed` the updates these are still to make.
 */
module Ingestion {
  import opened OnConflict
  import opened IngestionStore

  /** A flush in progress: the insert still to do, or counter updates still to do. */
  datatype Flush = Writing(batch: seq<Event>) | Counting(counts: map<string, nat>)

  datatype Drainer = Receiving(batch: seq<Event>) | Flushing(flush: Flush, last: bool) | Stopped

  datatype Shutdown =
    | NotCalled
    | Waiting
    | Collecting(remaining: seq<Event>)
    | FinalFlush(flush: Flush)
    | Done(timedOut: bool)

  /**
    The url rows with their counters, and what others have put and are to put into the tables; `missed` is
    bookkeeping.
   */
  datatype Tables = Tables(
    clicks: map<string, nat>,
    live: set<string>,
    missed: map<string, nat>,
    elsewhere: seq<Event>,
    owed: map<string, nat>)

  datatype State = State(
    captured: seq<Event>,
    channel: seq<Event>,
    drainer: Drainer,
    cancelled: bool,
    shutdown: Shutdown,
    written: seq<Event>,
    lost: seq<Event>,
    writtenCount: nat,
    droppedCount: nat,
    db: Tables)

  datatype Action =
    | Capture(evt: Event)
    | Cancel
    | Receive
    | Tick
    | Stop
    | DrainerWrite(fine: bool)
    | DrainerCount(code: string, fine: bool)
    | DrainerCounted
    | CallShutdown
    | TimeOut
    | DrainerIsDone
    | Collect
    | CollectedAll
    | ShutdownWrite(fine: bool)
    | ShutdownCount(code: string, fine: bool)
    | ShutdownCounted
    | CreateRow(code: string)
    | DeleteRow(code: string)
    | ElsewhereInsert(batch: seq<Event>)
    | ElsewhereCount(code: string, k: nat, fine: bool)

  // ---------------------------------------------------------------- steps

  predicate Counts(f: Flush, code: string) {
    f.Counting? && code in f.counts
  }

  ghost predicate Enabled(s: State, a: Action) {
    match a
    case Capture(evt) => DistinctIds(s.captured + [evt] + s.db.elsewhere)
    case Cancel => true
    case Receive => s.drainer.Receiving? && s.channel != []
    case Tick => s.drainer.Receiving? && s.drainer.batch != []
    case Stop => s.drainer.Receiving? && s.cancelled
    case DrainerWrite(_) => s.drainer.Flushing? && s.drainer.flush.Writing?
    case DrainerCount(code, _) => s.drainer.Flushing? && Counts(s.drainer.flush, code)
    case DrainerCounted => s.drainer.Flushing? && s.drainer.flush == Counting(map[])
    case CallShutdown => s.shutdown == NotCalled
    case TimeOut => s.shutdown == Waiting
    case DrainerIsDone => s.shutdown == Waiting && s.drainer == Stopped
    case Collect => s.shutdown.Collecting? && s.channel != []
    case CollectedAll => s.shutdown.Collecting? && s.channel == []
    case ShutdownWrite(_) => s.shutdown.FinalFlush? && s.shutdown.flush.Writing?
    case ShutdownCount(code, _) => s.shutdown.FinalFlush? && Counts(s.shutdown.flush, code)
    case ShutdownCounted => s.shutdown.FinalFlush? && s.shutdown.flush == Counting(map[])
    case CreateRow(code) => code !in s.db.clicks
    case DeleteRow(code) => true
    case ElsewhereInsert(batch) => DistinctIds(s.captured + (s.db.elsewhere + batch))
    case ElsewhereCount(code, k, _) => code in s.db.owed && k <= s.db.owed[code]
  }

  /** The totals of a batch, as the aggregation loop leaves them. */
  ghost function TallyOf(batch: seq<Event>): (counts: map<string, nat>)
    ensures Tallies(counts, batch)
  {
    if batch == [] then map[]
    else
      var counts := TallyOf(batch[..|batch| - 1]);
      var evt := batch[|batch| - 1];
      assert forall code :: NonBot(batch, code) == NonBot(batch[..|batch| - 1], code) + One(evt, code);
      if evt.bot then counts else counts[evt.code := CountOf(counts, evt.code) + 1]
  }

  function AfterFlush(last: bool): Drainer {
    if last then Stopped else Receiving([])
  }

  /** The insert of a batch, which either persists all of it or drops all of it. */
  function Write(s: State, batch: seq<Event>, fine: bool): State {
    if fine then s.(written := s.written + batch, writtenCount := s.writtenCount + |batch|)
    else s.(lost := s.lost + batch, droppedCount := s.droppedCount + |batch|)
  }

  /** One counter update: it takes effect on a live row; without one the count goes nowhere. */
  function CountUp(db: Tables, code: string, k: nat): Tables {
    if code in db.live && code in db.clicks then db.(clicks := db.clicks[code := db.clicks[code] + k])
    else Miss(db, code, k)
  }

  function Miss(db: Tables, code: string, k: nat): Tables {
    db.(missed := db.missed[code := CountOf(db.missed, code) + k])
  }

  function MissAll(db: Tables, counts: map<string, nat>): Tables {
    db.(missed := AddAll(db.missed, counts))
  }

  function AddAll(m: map<string, nat>, counts: map<string, nat>): map<string, nat> {
    map code | code in m.Keys + counts.Keys :: CountOf(m, code) + CountOf(counts, code)
  }

  /** What happens to the tables without this service. */
  ghost function NextTables(db: Tables, a: Action): Tables
    requires a.ElsewhereCount? ==> a.code in db.owed && a.k <= db.owed[a.code]
  {
    match a
    case CreateRow(code) => db.(clicks := db.clicks[code := 0], live := db.live + {code})
    case DeleteRow(code) => db.(live := db.live - {code})
    case ElsewhereInsert(batch) =>
      db.(elsewhere := db.elsewhere + batch, owed := AddAll(db.owed, TallyOf(batch)))
    case ElsewhereCount(code, k, fine) =>
      var paid := db.(owed := db.owed[code := db.owed[code] - k]);
      if fine then CountUp(paid, code, k) else Miss(paid, code, k)
    case _ => db
  }

  ghost function Next(s: State, a: Action): State
    requires Enabled(s, a)
  {
    match a
    case Capture(evt) =>
      var t := s.(captured := s.captured + [evt]);
      if |s.channel| < CHANNEL_SIZE then t.(channel := s.channel + [evt])
      else t.(lost := s.lost + [evt], droppedCount := s.droppedCount + 1)
    case Cancel => s.(cancelled := true)
    case Receive =>
      var batch := s.drainer.batch + [s.channel[0]];
      s.(channel := s.channel[1..],
         drainer := if |batch| >= BATCH_SIZE then Flushing(Writing(batch), false) else Receiving(batch))
    case Tick => s.(drainer := Flushing(Writing(s.drainer.batch), false))
    case Stop => s.(drainer := if s.drainer.batch == [] then Stopped else Flushing(Writing(s.drainer.batch), true))
    case DrainerWrite(fine) =>
      var batch := s.drainer.flush.batch;
      Write(s, batch, fine)
        .(drainer := if fine then Flushing(Counting(TallyOf(batch)), s.drainer.last) else AfterFlush(s.drainer.last))
    case DrainerCount(code, fine) =>
      var counts := s.drainer.flush.counts;
      if fine then s.(db := CountUp(s.db, code, counts[code]),
                      drainer := Flushing(Counting(counts - {code}), s.drainer.last))
      else s.(db := MissAll(s.db, counts), drainer := AfterFlush(s.drainer.last))
    case DrainerCounted => s.(drainer := AfterFlush(s.drainer.last))
    case CallShutdown => s.(shutdown := Waiting, cancelled := true)
    case TimeOut => s.(shutdown := Done(true))
    case DrainerIsDone => s.(shutdown := Collecting([]))
    case Collect => s.(shutdown := Collecting(s.shutdown.remaining + [s.channel[0]]), channel := s.channel[1..])
    case CollectedAll =>
      s.(shutdown := if s.shutdown.remaining == [] then Done(false) else FinalFlush(Writing(s.shutdown.remaining)))
    case ShutdownWrite(fine) =>
      var batch := s.shutdown.flush.batch;
      Write(s, batch, fine).(shutdown := if fine then FinalFlush(Counting(TallyOf(batch))) else Done(false))
    case ShutdownCount(code, fine) =>
      var counts := s.shutdown.flush.counts;
      if fine then s.(db := CountUp(s.db, code, counts[code]), shutdown := FinalFlush(Counting(counts - {code})))
      else s.(db := MissAll(s.db, counts), shutdown := Done(false))
    case ShutdownCounted => s.(shutdown := Done(false))
    case _ => s.(db := NextTables(s.db, a))
  }

  // ---------------------------------------------------------------- runs

  /** The service starts, on tables in any condition. */
  ghost predicate Initial(s: State) {
    && s.captured == [] && s.channel == [] && s.drainer == Receiving([]) && !s.cancelled && s.shutdown == NotCalled
    && s.written == [] && s.lost == [] && s.writtenCount == 0 && s.droppedCount == 0
    && s.db.missed == map[] && DistinctIds(s.db.elsewhere)
  }

  ghost predicate Run(s: State, actions: seq<Action>)
    decreases |actions|, 0
  {
    actions != [] ==>
      var before := actions[..|actions| - 1];
      Run(s, before) && Enabled(After(s, before), actions[|actions| - 1])
  }

  ghost function After(s: State, actions: seq<Action>): State
    requires Run(s, actions)
    decreases |actions|, 1
  {
    if actions == [] then s
    else Next(After(s, actions[..|actions| - 1]), actions[|actions| - 1])
  }

  // ---------------------------------------------------------------- conservation

  function Unwritten(f: Flush): seq<Event> {
    if f.Writing? then f.batch else []
  }

  /** Events the drainer has received and not yet written or lost. */
  function InDrainer(s: State): seq<Event> {
    match s.drainer
    case Receiving(batch) => batch
    case Flushing(flush, _) => Unwritten(flush)
    case Stopped => []
  }

  function InShutdown(s: State): seq<Event> {
    match s.shutdown
    case Collecting(remaining) => remaining
    case FinalFlush(flush) => Unwritten(flush)
    case _ => []
  }

  ghost predicate Balanced(s: State) {
    multiset(s.captured) == multiset(s.channel) + multiset(InDrainer(s)) + multiset(InShutdown(s))
                            + multiset(s.written) + multiset(s.lost)
  }

  ghost predicate Bounded(s: State) {
    && s.writtenCount == |s.written| && s.droppedCount == |s.lost|
    && |s.channel| <= CHANNEL_SIZE
    && (s.drainer.Receiving? ==> |s.drainer.batch| < BATCH_SIZE)
    && |InDrainer(s)| <= BATCH_SIZE
    && (s.shutdown.Collecting? || s.shutdown.FinalFlush? || s.shutdown == Done(false) ==> s.drainer == Stopped)
  }

  ghost predicate Conserved(s: State) {
    Balanced(s) && Bounded(s) && DistinctIds(s.captured + s.db.elsewhere)
  }

  lemma HeadAndTail(channel: seq<Event>)
    requires channel != []
    ensures multiset(channel) == multiset{channel[0]} + multiset(channel[1..])
  {
    assert channel == [channel[0]] + channel[1..];
  }

  lemma {:induction false} BalancedCapture(s: State, evt: Event)
    requires Balanced(s) && Enabled(s, Capture(evt))
    ensures Balanced(Next(s, Capture(evt)))
  {
    var t := Next(s, Capture(evt));
    assert InDrainer(t) == InDrainer(s) && InShutdown(t) == InShutdown(s) && t.written == s.written;
    OneMore(s.captured, evt);
    if |s.channel| < CHANNEL_SIZE {
      OneMore(s.channel, evt);
      assert t.lost == s.lost;
    } else {
      OneMore(s.lost, evt);
      assert t.channel == s.channel;
    }
  }

  lemma OneMore(events: seq<Event>, evt: Event)
    ensures multiset(events + [evt]) == multiset(events) + multiset{evt}
  {
  }

  lemma BalancedReceive(s: State)
    requires Balanced(s) && Enabled(s, Receive)
    ensures Balanced(Next(s, Receive))
  {
    HeadAndTail(s.channel);
  }

  lemma BalancedCollect(s: State)
    requires Balanced(s) && Enabled(s, Collect)
    ensures Balanced(Next(s, Collect))
  {
    HeadAndTail(s.channel);
  }

  lemma BalancedDrainerWrite(s: State, fine: bool)
    requires Balanced(s) && Enabled(s, DrainerWrite(fine))
    ensures Balanced(Next(s, DrainerWrite(fine)))
  {
  }

  lemma BalancedShutdownWrite(s: State, fine: bool)
    requires Balanced(s) && Enabled(s, ShutdownWrite(fine))
    ensures Balanced(Next(s, ShutdownWrite(fine)))
  {
  }

  predicate MovesEvents(a: Action) {
    a.Capture? || a.Receive? || a.Collect? || a.DrainerWrite? || a.ShutdownWrite?
  }

  predicate ByShutdown(a: Action) {
    a.CallShutdown? || a.TimeOut? || a.DrainerIsDone? || a.CollectedAll? || a.ShutdownCount? || a.ShutdownCounted?
  }

  ghost predicate SameEvents(s: State, t: State) {
    && t.captured == s.captured && t.channel == s.channel && t.written == s.written && t.lost == s.lost
    && InDrainer(t) == InDrainer(s) && InShutdown(t) == InShutdown(s)
    && t.writtenCount == s.writtenCount && t.droppedCount == s.droppedCount
  }

  lemma ShutdownMovesNothing(s: State, a: Action)
    requires Enabled(s, a) && ByShutdown(a)
    ensures SameEvents(s, Next(s, a))
  {
  }

  lemma OthersMoveNothing(s: State, a: Action)
    requires Enabled(s, a) && !MovesEvents(a) && !ByShutdown(a)
    ensures SameEvents(s, Next(s, a))
  {
  }

  /** All other steps move no event. */
  lemma NothingMoves(s: State, a: Action)
    requires Enabled(s, a) && !MovesEvents(a)
    ensures SameEvents(s, Next(s, a))
  {
    if ByShutdown(a) {
      ShutdownMovesNothing(s, a);
    } else {
      OthersMoveNothing(s, a);
    }
  }

  lemma {:induction false} StepBalanced(s: State, a: Action)
    requires Balanced(s) && Enabled(s, a)
    ensures Balanced(Next(s, a))
  {
    match a
    case Capture(evt) => BalancedCapture(s, evt);
    case Receive => BalancedReceive(s);
    case Collect => BalancedCollect(s);
    case DrainerWrite(fine) => BalancedDrainerWrite(s, fine);
    case ShutdownWrite(fine) => BalancedShutdownWrite(s, fine);
    case _ => NothingMoves(s, a);
  }

  lemma StepBounded(s: State, a: Action)
    requires Bounded(s) && Enabled(s, a)
    ensures Bounded(Next(s, a))
  {
    if !MovesEvents(a) {
      NothingMoves(s, a);
    }
  }

  lemma {:induction false} InitialConserved(s: State)
    requires Initial(s)
    ensures Conserved(s)
  {
    assert s.captured + s.db.elsewhere == s.db.elsewhere;
  }

  lemma StepDistinct(s: State, a: Action)
    requires DistinctIds(s.captured + s.db.elsewhere) && Enabled(s, a)
    ensures DistinctIds(Next(s, a).captured + Next(s, a).db.elsewhere)
  {
    assert !a.Capture? ==> Next(s, a).captured == s.captured;
    assert !a.ElsewhereInsert? ==> Next(s, a).db.elsewhere == s.db.elsewhere;
  }

  lemma CapturedIsDistinct(s: State)
    requires DistinctIds(s.captured + s.db.elsewhere)
    ensures DistinctIds(s.captured)
  {
    var all := s.captured + s.db.elsewhere;
    assert forall i :: 0 <= i < |s.captured| ==> s.captured[i] == all[i];
  }

  lemma {:induction false} StepConserved(s: State, a: Action)
    requires Conserved(s) && Enabled(s, a)
    ensures Conserved(Next(s, a))
  {
    StepBalanced(s, a);
    StepBounded(s, a);
    StepDistinct(s, a);
  }

  lemma {:induction false} RunConserved(s: State, actions: seq<Action>)
    requires Conserved(s) && Run(s, actions)
    ensures Conserved(After(s, actions))
    decreases |actions|
  {
    if actions != [] {
      RunConserved(s, actions[..|actions| - 1]);
      StepConserved(After(s, actions[..|actions| - 1]), actions[|actions| - 1]);
    }
  }

  lemma {:induction false} DistinctOccurOnce(events: seq<Event>, e: Event)
    requires DistinctIds(events)
    ensures multiset(events)[e] <= 1
  {
    if events != [] {
      var init, last := events[..|events| - 1], events[|events| - 1];
      DistinctOccurOnce(init, e);
      assert events == init + [last];
      assert forall i :: 0 <= i < |init| ==> init[i].id != last.id;
      assert last !in init;
    }
  }

  /**
    In every reachable state each captured event is in exactly one place: channel, drainer, shutdown, written or lost;
    in particular it is written at most once. Channel and batch stay within their bounds.
   */
  lemma {:induction false} EveryEventInOnePlace(s: State, actions: seq<Action>, e: Event)
    requires Initial(s) && Run(s, actions)
    ensures var t := After(s, actions);
            multiset(t.channel)[e] + multiset(InDrainer(t))[e] + multiset(InShutdown(t))[e]
              + multiset(t.written)[e] + multiset(t.lost)[e] == if e in t.captured then 1 else 0
    ensures |After(s, actions).channel| <= 2048 && |InDrainer(After(s, actions))| <= 100
  {
    InitialConserved(s);
    RunConserved(s, actions);
    var t := After(s, actions);
    CapturedIsDistinct(t);
    DistinctOccurOnce(t.captured, e);
    assert e in t.captured <==> multiset(t.captured)[e] > 0;
  }

  /** A part of events with distinct ids has distinct ids. */
  lemma {:induction false} PartIsDistinct(part: seq<Event>, all: seq<Event>)
    requires DistinctIds(all) && multiset(part) <= multiset(all)
    ensures DistinctIds(part)
  {
    forall i, j | 0 <= i < j < |part|
      ensures part[i].id != part[j].id
    {
      assert part == part[..i] + [part[i]] + part[i + 1..j] + [part[j]] + part[j + 1..];
      assert part[i] in multiset(part) && part[j] in multiset(part);
      assert part[i] in all && part[j] in all;
      if part[i] == part[j] {
        assert multiset(part)[part[i]] >= 2;
        DistinctOccurOnce(all, part[i]);
      }
    }
  }

  /** What the event table holds, up to order. */
  function EventTable(s: State): seq<Event> {
    s.db.elsewhere + s.written
  }

  lemma {:induction false} NewToTheTable(s: State, batch: seq<Event>)
    requires DistinctIds(s.captured + s.db.elsewhere) && multiset(s.written) + multiset(batch) <= multiset(s.captured)
    ensures Insert(Key(), EventTable(s), batch) == EventTable(s) + batch
  {
    PartIsDistinct(EventTable(s) + batch, s.captured + s.db.elsewhere);
    NothingSkipped(EventTable(s), batch);
  }

  /**
    A batch about to be inserted holds events new to the table, whoever writes to it, so the insert skips none of
    them.
   */
  lemma {:induction false} BatchIsNew(s: State, actions: seq<Action>)
    requires Initial(s) && Run(s, actions)
    ensures var t := After(s, actions);
            && Insert(Key(), EventTable(t), InDrainer(t)) == EventTable(t) + InDrainer(t)
            && Insert(Key(), EventTable(t), InShutdown(t)) == EventTable(t) + InShutdown(t)
  {
    InitialConserved(s);
    RunConserved(s, actions);
    NewToTheTable(After(s, actions), InDrainer(After(s, actions)));
    NewToTheTable(After(s, actions), InShutdown(After(s, actions)));
  }

  /**
    When events are lost and when batches go out: a capture is dropped only if 2048 events are waiting, a received event
    starts a flush exactly when it is the hundredth of its batch, and an update counts on live rows only.
   */
  lemma PipelineNumbers(s: State, evt: Event, db: Tables, code: string, k: nat)
    ensures Enabled(s, Capture(evt)) ==>
              var t := Next(s, Capture(evt));
              && t.captured == s.captured + [evt]
              && (|s.channel| < 2048 ==> t == s.(captured := t.captured, channel := s.channel + [evt]))
              && (|s.channel| >= 2048 ==>
                    t == s.(captured := t.captured, lost := s.lost + [evt], droppedCount := s.droppedCount + 1))
    ensures Enabled(s, Receive) ==>
              (Next(s, Receive).drainer.Flushing? <==> |s.drainer.batch| + 1 >= 100)
    ensures CountUp(db, code, k).clicks
         == if code in db.live && code in db.clicks then db.clicks[code := db.clicks[code] + k] else db.clicks
  {
  }

  // ---------------------------------------------------------------- shutdown

  ghost predicate NoCaptures(actions: seq<Action>) {
    forall i :: 0 <= i < |actions| ==> !actions[i].Capture?
  }

  ghost predicate EmptyOnceCollected(s: State) {
    s.shutdown.FinalFlush? || s.shutdown == Done(false) ==> s.channel == []
  }

  lemma StepStaysEmpty(s: State, a: Action)
    requires EmptyOnceCollected(s) && Enabled(s, a) && !a.Capture?
    ensures EmptyOnceCollected(Next(s, a))
  {
  }

  lemma {:induction false} CollectedStaysEmpty(s: State, actions: seq<Action>)
    requires EmptyOnceCollected(s) && Run(s, actions) && NoCaptures(actions)
    ensures EmptyOnceCollected(After(s, actions))
    decreases |actions|
  {
    if actions != [] {
      CollectedStaysEmpty(s, actions[..|actions| - 1]);
      StepStaysEmpty(After(s, actions[..|actions| - 1]), actions[|actions| - 1]);
    }
  }

  lemma AccountedWhenConserved(t: State)
    requires Conserved(t) && t.shutdown == Done(false)
    ensures |t.captured| == t.writtenCount + t.droppedCount <==> t.channel == []
    ensures t.channel == [] ==> multiset(t.captured) == multiset(t.written) + multiset(t.lost)
  {
    assert |multiset(t.captured)| == |t.captured|;
    assert |multiset(t.channel) + multiset(t.written) + multiset(t.lost)| == |t.channel| + |t.written| + |t.lost|;
    assert multiset(t.captured) == multiset(t.channel) + multiset(t.written) + multiset(t.lost);
  }

  /**
    When shutdown ends without timing out, the counters account for every capture exactly when the channel is empty.
   */
  lemma {:induction false} AccountedIff(s: State, actions: seq<Action>)
    requires Initial(s) && Run(s, actions) && After(s, actions).shutdown == Done(false)
    ensures var t := After(s, actions);
            && (|t.captured| == t.writtenCount + t.droppedCount <==> t.channel == [])
            && (t.channel == [] ==> multiset(t.captured) == multiset(t.written) + multiset(t.lost))
  {
    InitialConserved(s);
    RunConserved(s, actions);
    AccountedWhenConserved(After(s, actions));
  }

  /** ... which it is when nobody captures any more once shutdown has been called. */
  lemma QuietShutdownAccountsForAll(s: State, before: seq<Action>, after: seq<Action>)
    requires Initial(s) && Run(s, before)
    requires After(s, before).shutdown == NotCalled || After(s, before).shutdown == Waiting
    requires Run(After(s, before), after) && NoCaptures(after)
    requires After(After(s, before), after).shutdown == Done(false)
    ensures var t := After(After(s, before), after);
            && |t.captured| == t.writtenCount + t.droppedCount
            && multiset(t.captured) == multiset(t.written) + multiset(t.lost)
  {
    InitialConserved(s);
    RunConserved(s, before);
    RunConserved(After(s, before), after);
    CollectedStaysEmpty(After(s, before), after);
    AccountedWhenConserved(After(After(s, before), after));
  }
}
