/**
  The audit pipeline: a bounded channel with two consumers, because Shutdown drains it without waiting for the
  drainer, which is told to stop but may go on receiving.
 */
module Audit {
  import opened Aggregation

  /** An audit event; ids are ULIDs, fresh for every event. */
  datatype Event = Event(id: nat)

  const CHANNEL_SIZE := 2048

  const BATCH_SIZE := 50

  // ---------------------------------------------------------------- the code in place

  /** The database: every WriteMany call with its batch, successful or not. */
  class AuditWriter {
    var calls: seq<seq<Event>>

    constructor ()
      ensures calls == []
    {
      calls := [];
    }

    method WriteMany(events: seq<Event>, fine: bool) returns (ok: bool)
      modifies this
      ensures calls == old(calls) + [events] && ok == fine
    {
      calls := calls + [events];
      ok := fine;
    }
  }

  class AuditService {
    const writer: AuditWriter
    var channel: seq<Event>
    var batch: seq<Event>
    var droppedEvents: nat

    ghost predicate Valid()
      reads this
    {
      |channel| <= CHANNEL_SIZE && |batch| < BATCH_SIZE
    }

    constructor (writer: AuditWriter)
      ensures Valid() && channel == [] && batch == [] && droppedEvents == 0 && this.writer == writer
    {
      this.writer := writer;
      channel, batch := [], [];
      droppedEvents := 0;
    }

    method Capture(evt: Event)
      requires Valid()
      modifies this`channel, this`droppedEvents
      ensures Valid()
      ensures channel == if |old(channel)| < CHANNEL_SIZE then old(channel) + [evt] else old(channel)
      ensures droppedEvents == if |old(channel)| < CHANNEL_SIZE then old(droppedEvents) else old(droppedEvents) + 1
    {
      if |channel| < CHANNEL_SIZE {
        channel := channel + [evt];
      } else {
        droppedEvents := droppedEvents + 1;
      }
    }

    /** The drainer's flush: nothing for an empty batch, else one call, and the batch is emptied either way. */
    method Flush(fine: bool)
      modifies this`batch, this`droppedEvents, writer
      ensures batch == []
      ensures writer.calls == if old(batch) == [] then old(writer.calls) else old(writer.calls) + [old(batch)]
      ensures droppedEvents == if old(batch) == [] || fine then old(droppedEvents)
                               else old(droppedEvents) + |old(batch)|
    {
      if |batch| == 0 {
        return;
      }
      var ok := writer.WriteMany(batch, fine);
      if !ok {
        droppedEvents := droppedEvents + |batch|;
      }
      batch := batch[..0];
    }

    method Receive(fine: bool)
      requires Valid() && channel != []
      modifies this`channel, this`batch, this`droppedEvents, writer
      ensures Valid()
      ensures channel == old(channel)[1..]
      ensures var grown := old(batch) + [old(channel)[0]];
              if |grown| < BATCH_SIZE then batch == grown && writer.calls == old(writer.calls)
              else batch == [] && writer.calls == old(writer.calls) + [grown]
      ensures droppedEvents == if |old(batch)| + 1 < BATCH_SIZE || fine then old(droppedEvents)
                               else old(droppedEvents) + |old(batch)| + 1
    {
      batch := batch + [channel[0]];
      channel := channel[1..];
      if |batch| >= BATCH_SIZE {
        Flush(fine);
      }
    }

    /**
      Shutdown with nobody else at the channel: one call with everything that was left, and no counter for a failure.
     */
    method Shutdown(fine: bool)
      requires Valid()
      modifies this`channel, writer
      ensures channel == []
      ensures writer.calls == if old(channel) == [] then old(writer.calls) else old(writer.calls) + [old(channel)]
    {
      var remaining: seq<Event> := [];
      while |channel| > 0
        invariant remaining + channel == old(channel) && writer.calls == old(writer.calls)
        decreases |channel|
      {
        remaining := remaining + [channel[0]];
        channel := channel[1..];
      }
      assert remaining == old(channel);
      if |remaining| == 0 {
        return;
      }
      var _ := writer.WriteMany(remaining, fine);
    }
  }

  // ---------------------------------------------------------------- every interleaving

  datatype Drainer = Receiving(batch: seq<Event>) | Flushing(batch: seq<Event>, last: bool) | Stopped

  datatype Shutdown = NotCalled | Collecting(remaining: seq<Event>) | Writing(remaining: seq<Event>) | Done

  /** `accepted` and `rejected` split the captures by whether they entered the channel. */
  datatype State = State(
    accepted: seq<Event>,
    rejected: seq<Event>,
    channel: seq<Event>,
    drainer: Drainer,
    cancelled: bool,
    shutdown: Shutdown,
    calls: seq<seq<Event>>,
    droppedCount: nat)

  datatype Action =
    | Capture(evt: Event)
    | Cancel
    | Receive
    | Tick
    | Stop
    | DrainerWrite(fine: bool)
    | CallShutdown
    | Collect
    | CollectedAll
    | ShutdownWrite(fine: bool)

  ghost predicate Enabled(s: State, a: Action) {
    match a
    case Capture(evt) => forall i :: 0 <= i < |s.accepted| ==> s.accepted[i] != evt
    case Cancel => true
    case Receive => s.drainer.Receiving? && s.channel != []
    case Tick => s.drainer.Receiving? && s.drainer.batch != []
    case Stop => s.drainer.Receiving? && s.cancelled
    case DrainerWrite(_) => s.drainer.Flushing?
    case CallShutdown => s.shutdown == NotCalled
    case Collect => s.shutdown.Collecting? && s.channel != []
    case CollectedAll => s.shutdown.Collecting? && s.channel == []
    case ShutdownWrite(_) => s.shutdown.Writing?
  }

  ghost function Next(s: State, a: Action): State
    requires Enabled(s, a)
  {
    match a
    case Capture(evt) =>
      if |s.channel| < CHANNEL_SIZE then s.(accepted := s.accepted + [evt], channel := s.channel + [evt])
      else s.(rejected := s.rejected + [evt], droppedCount := s.droppedCount + 1)
    case Cancel => s.(cancelled := true)
    case Receive =>
      var batch := s.drainer.batch + [s.channel[0]];
      s.(channel := s.channel[1..],
         drainer := if |batch| >= BATCH_SIZE then Flushing(batch, false) else Receiving(batch))
    case Tick => s.(drainer := Flushing(s.drainer.batch, false))
    case Stop => s.(drainer := if s.drainer.batch == [] then Stopped else Flushing(s.drainer.batch, true))
    case DrainerWrite(fine) =>
      var batch := s.drainer.batch;
      var t := s.(calls := s.calls + [batch], drainer := if s.drainer.last then Stopped else Receiving([]));
      if fine then t else t.(droppedCount := s.droppedCount + |batch|)
    case CallShutdown => s.(shutdown := Collecting([]))
    case Collect => s.(shutdown := Collecting(s.shutdown.remaining + [s.channel[0]]), channel := s.channel[1..])
    case CollectedAll => s.(shutdown := if s.shutdown.remaining == [] then Done else Writing(s.shutdown.remaining))
    case ShutdownWrite(fine) => s.(calls := s.calls + [s.shutdown.remaining], shutdown := Done)
  }

  ghost predicate Initial(s: State) {
    && s.accepted == [] && s.rejected == [] && s.channel == [] && s.drainer == Receiving([]) && !s.cancelled
    && s.shutdown == NotCalled && s.calls == [] && s.droppedCount == 0
  }

  ghost predicate Run(s: State, actions: seq<Action>)
    decreases |actions|, 0
  {
    actions != [] ==>
      var before := actions[..|actions| - 1];
      Run(s, before) && Enabled(After(s, before), actions[|actions| - 1])
  }

  ghost function After(s: State, actions: seq<Action>): State
    requires Run(s, actions)
    decreases |actions|, 1
  {
    if actions == [] then s
    else Next(After(s, actions[..|actions| - 1]), actions[|actions| - 1])
  }

  // ---------------------------------------------------------------- who holds what

  function HeldByDrainer(s: State): seq<Event> {
    if s.drainer == Stopped then [] else s.drainer.batch
  }

  function HeldByShutdown(s: State): seq<Event> {
    if s.shutdown.Collecting? || s.shutdown.Writing? then s.shutdown.remaining else []
  }

  /** All events of all calls, in order. */
  ghost function Entered(calls: seq<seq<Event>>): seq<Event> {
    if calls == [] then [] else Entered(calls[..|calls| - 1]) + calls[|calls| - 1]
  }

  ghost predicate Balanced(s: State) {
    multiset(s.accepted) == multiset(s.channel) + multiset(HeldByDrainer(s)) + multiset(HeldByShutdown(s))
                            + multiset(Entered(s.calls))
  }

  ghost predicate Bounded(s: State) {
    && |s.channel| <= CHANNEL_SIZE && |HeldByDrainer(s)| <= BATCH_SIZE
    && (s.drainer.Receiving? ==> |s.drainer.batch| < BATCH_SIZE)
  }

  ghost predicate Sane(s: State) {
    Balanced(s) && Bounded(s) && Distinct(s.accepted)
  }

  lemma HeadAndTail(channel: seq<Event>)
    requires channel != []
    ensures multiset(channel) == multiset{channel[0]} + multiset(channel[1..])
  {
    assert channel == [channel[0]] + channel[1..];
  }

  lemma OneMoreCall(calls: seq<seq<Event>>, batch: seq<Event>)
    ensures multiset(Entered(calls + [batch])) == multiset(Entered(calls)) + multiset(batch)
  {
    assert (calls + [batch])[..|calls|] == calls;
  }

  lemma OneMore(events: seq<Event>, evt: Event)
    ensures multiset(events + [evt]) == multiset(events) + multiset{evt}
  {
  }

  lemma CaptureBalanced(s: State, evt: Event)
    requires Balanced(s) && Enabled(s, Capture(evt))
    ensures Balanced(Next(s, Capture(evt)))
  {
    if |s.channel| < CHANNEL_SIZE {
      OneMore(s.accepted, evt);
      OneMore(s.channel, evt);
    }
  }

  lemma ReceiveBalanced(s: State)
    requires Balanced(s) && Enabled(s, Receive)
    ensures Balanced(Next(s, Receive))
  {
    HeadAndTail(s.channel);
  }

  lemma CollectBalanced(s: State)
    requires Balanced(s) && Enabled(s, Collect)
    ensures Balanced(Next(s, Collect))
  {
    HeadAndTail(s.channel);
  }

  lemma DrainerWriteBalanced(s: State, fine: bool)
    requires Balanced(s) && Enabled(s, DrainerWrite(fine))
    ensures Balanced(Next(s, DrainerWrite(fine)))
  {
    OneMoreCall(s.calls, s.drainer.batch);
  }

  lemma ShutdownWriteBalanced(s: State, fine: bool)
    requires Balanced(s) && Enabled(s, ShutdownWrite(fine))
    ensures Balanced(Next(s, ShutdownWrite(fine)))
  {
    OneMoreCall(s.calls, s.shutdown.remaining);
  }

  predicate MovesEvents(a: Action) {
    a.Capture? || a.Receive? || a.DrainerWrite? || a.Collect? || a.ShutdownWrite?
  }

  lemma NothingMoves(s: State, a: Action)
    requires Enabled(s, a) && !MovesEvents(a)
    ensures var t := Next(s, a);
            && t.accepted == s.accepted && t.channel == s.channel && t.calls == s.calls
            && HeldByDrainer(t) == HeldByDrainer(s) && HeldByShutdown(t) == HeldByShutdown(s)
  {
  }

  lemma {:induction false} StepBalanced(s: State, a: Action)
    requires Balanced(s) && Enabled(s, a)
    ensures Balanced(Next(s, a))
  {
    match a
    case Capture(evt) => CaptureBalanced(s, evt);
    case Receive => ReceiveBalanced(s);
    case Collect => CollectBalanced(s);
    case DrainerWrite(fine) => DrainerWriteBalanced(s, fine);
    case ShutdownWrite(fine) => ShutdownWriteBalanced(s, fine);
    case _ => NothingMoves(s, a);
  }

  lemma StepBounded(s: State, a: Action)
    requires Bounded(s) && Enabled(s, a)
    ensures Bounded(Next(s, a))
  {
  }

  lemma StepDistinct(s: State, a: Action)
    requires Distinct(s.accepted) && Enabled(s, a)
    ensures Distinct(Next(s, a).accepted)
  {
  }

  lemma {:induction false} StepSane(s: State, a: Action)
    requires Sane(s) && Enabled(s, a)
    ensures Sane(Next(s, a))
  {
    StepBalanced(s, a);
    StepBounded(s, a);
    StepDistinct(s, a);
  }

  lemma {:induction false} RunSane(s: State, actions: seq<Action>)
    requires Sane(s) && Run(s, actions)
    ensures Sane(After(s, actions))
    decreases |actions|
  {
    if actions != [] {
      RunSane(s, actions[..|actions| - 1]);
      StepSane(After(s, actions[..|actions| - 1]), actions[|actions| - 1]);
    }
  }

  /** An event is rejected only if 2048 are waiting, and the drainer writes when it holds fifty. */
  lemma {:induction false} AuditNumbers(s: State, actions: seq<Action>, evt: Event)
    requires Initial(s) && Run(s, actions)
    ensures var t := After(s, actions);
            && |t.channel| <= 2048 && |HeldByDrainer(t)| <= 50
            && (Enabled(t, Capture(evt)) ==>
                  var u, full := Next(t, Capture(evt)), |t.channel| == 2048;
                  && u.rejected == (if full then t.rejected + [evt] else t.rejected)
                  && u.accepted == (if full then t.accepted else t.accepted + [evt]))
            && (Enabled(t, Receive) ==> (Next(t, Receive).drainer.Flushing? <==> |t.drainer.batch| == 49))
  {
    RunSane(s, actions);
  }

  lemma {:induction false} DistinctOccurOnce(events: seq<Event>, e: Event)
    requires Distinct(events)
    ensures multiset(events)[e] == if e in events then 1 else 0
  {
    if events != [] {
      var init, last := events[..|events| - 1], events[|events| - 1];
      DistinctOccurOnce(init, e);
      assert events == init + [last];
      assert last !in init;
    }
  }

  // ---------------------------------------------------------------- writes

  /** How many calls, counted with repetition inside a call, an event has entered. */
  ghost function TimesEntered(calls: seq<seq<Event>>, e: Event): nat {
    multiset(Entered(calls))[e]
  }

  lemma {:induction false} InTwoCallsCountsTwice(calls: seq<seq<Event>>, i: nat, j: nat, e: Event)
    requires i < j < |calls| && e in calls[i] && e in calls[j]
    ensures TimesEntered(calls, e) >= 2
  {
    var init, last := calls[..|calls| - 1], calls[|calls| - 1];
    if j < |calls| - 1 {
      InTwoCallsCountsTwice(init, i, j, e);
    } else {
      InOneCallCountsOnce(init, i, e);
    }
  }

  lemma {:induction false} InOneCallCountsOnce(calls: seq<seq<Event>>, i: nat, e: Event)
    requires i < |calls| && e in calls[i]
    ensures TimesEntered(calls, e) >= 1
  {
    if i < |calls| - 1 {
      InOneCallCountsOnce(calls[..|calls| - 1], i, e);
    }
  }

  /**
    In every interleaving, no event enters two WriteMany calls, nor one call twice, and only accepted events enter
    any.
   */
  lemma NoDoubleWrite(s: State, actions: seq<Action>, e: Event)
    requires Initial(s) && Run(s, actions)
    ensures var t := After(s, actions);
            && TimesEntered(t.calls, e) <= (if e in t.accepted then 1 else 0)
            && (forall i, j :: 0 <= i < j < |t.calls| ==> !(e in t.calls[i] && e in t.calls[j]))
  {
    RunSane(s, actions);
    var t := After(s, actions);
    DistinctOccurOnce(t.accepted, e);
    forall i, j | 0 <= i < j < |t.calls| && e in t.calls[i] && e in t.calls[j]
      ensures false
    {
      InTwoCallsCountsTwice(t.calls, i, j, e);
    }
  }

  /** Both consumers have stopped. */
  predicate Finished(s: State) {
    s.drainer == Stopped && s.shutdown == Done
  }

  /**
    Once both consumers have stopped, every accepted event has entered exactly one call if and only if the channel is
    empty.
   */
  lemma AllWrittenIff(t: State)
    requires Sane(t) && Finished(t)
    ensures (forall e :: e in t.accepted ==> TimesEntered(t.calls, e) == 1) <==> t.channel == []
  {
    forall e | e in t.accepted
      ensures TimesEntered(t.calls, e) + multiset(t.channel)[e] == 1
    {
      DistinctOccurOnce(t.accepted, e);
    }
    if t.channel != [] {
      var e := t.channel[0];
      assert multiset(t.channel)[e] > 0;
      assert multiset(t.accepted)[e] > 0;
      assert e in t.accepted && TimesEntered(t.calls, e) != 1;
    }
  }

  ghost predicate NoCaptures(actions: seq<Action>) {
    forall i :: 0 <= i < |actions| ==> !actions[i].Capture?
  }

  ghost predicate EmptyOnceCollected(s: State) {
    s.shutdown.Writing? || s.shutdown == Done ==> s.channel == []
  }

  lemma StepStaysEmpty(s: State, a: Action)
    requires EmptyOnceCollected(s) && Enabled(s, a) && !a.Capture?
    ensures EmptyOnceCollected(Next(s, a))
  {
  }

  lemma {:induction false} CollectedStaysEmpty(s: State, actions: seq<Action>)
    requires EmptyOnceCollected(s) && Run(s, actions) && NoCaptures(actions)
    ensures EmptyOnceCollected(After(s, actions))
    decreases |actions|
  {
    if actions != [] {
      CollectedStaysEmpty(s, actions[..|actions| - 1]);
      StepStaysEmpty(After(s, actions[..|actions| - 1]), actions[|actions| - 1]);
    }
  }

  /** If captures end by the time shutdown finds the channel empty, every accepted event enters exactly one call. */
  lemma QuietShutdownWritesAll(s: State, before: seq<Action>, after: seq<Action>, e: Event)
    requires Initial(s) && Run(s, before)
    requires After(s, before).shutdown == NotCalled || After(s, before).shutdown.Collecting?
    requires Run(After(s, before), after) && NoCaptures(after) && Finished(After(After(s, before), after))
    ensures var t := After(After(s, before), after);
            e in t.accepted ==> TimesEntered(t.calls, e) == 1
  {
    RunSane(s, before);
    RunSane(After(s, before), after);
    CollectedStaysEmpty(After(s, before), after);
    AllWrittenIff(After(After(s, before), after));
  }

  // ---------------------------------------------------------------- what the drop counter accounts for

  /**
    How the calls of a run went: events in successful ones, in failed ones of the drainer, and in a failed final one.
   */
  datatype Outcome = Outcome(persisted: nat, lostByDrainer: nat, lostAtShutdown: nat)

  ghost function StepOutcome(s: State, a: Action): Outcome
    requires Enabled(s, a)
  {
    match a
    case DrainerWrite(fine) =>
      if fine then Outcome(|s.drainer.batch|, 0, 0) else Outcome(0, |s.drainer.batch|, 0)
    case ShutdownWrite(fine) =>
      if fine then Outcome(|s.shutdown.remaining|, 0, 0) else Outcome(0, 0, |s.shutdown.remaining|)
    case _ => Outcome(0, 0, 0)
  }

  function Plus(x: Outcome, y: Outcome): Outcome {
    Outcome(x.persisted + y.persisted, x.lostByDrainer + y.lostByDrainer, x.lostAtShutdown + y.lostAtShutdown)
  }

  ghost function OutcomeOf(s: State, actions: seq<Action>): Outcome
    requires Run(s, actions)
  {
    if actions == [] then Outcome(0, 0, 0)
    else
      var before := actions[..|actions| - 1];
      Plus(OutcomeOf(s, before), StepOutcome(After(s, before), actions[|actions| - 1]))
  }

  /** Events that are still to be written. */
  function Unwritten(s: State): nat {
    |s.channel| + |HeldByDrainer(s)| + |HeldByShutdown(s)|
  }

  lemma StepAccounts(s: State, a: Action)
    requires Enabled(s, a)
    ensures var t, o := Next(s, a), StepOutcome(s, a);
            && |t.accepted| - |s.accepted|
               == Unwritten(t) - Unwritten(s) + o.persisted + o.lostByDrainer + o.lostAtShutdown
            && t.droppedCount - s.droppedCount == |t.rejected| - |s.rejected| + o.lostByDrainer
  {
  }

  /**
    The counter knows the rejected events and the failed batches of the drainer; every accepted event is accounted
    for.
   */
  lemma {:induction false} DropCounterIsExact(s: State, actions: seq<Action>)
    requires Initial(s) && Run(s, actions)
    ensures var t, o := After(s, actions), OutcomeOf(s, actions);
            && t.droppedCount == |t.rejected| + o.lostByDrainer
            && |t.accepted| == Unwritten(t) + o.persisted + o.lostByDrainer + o.lostAtShutdown
    decreases |actions|
  {
    if actions != [] {
      DropCounterIsExact(s, actions[..|actions| - 1]);
      StepAccounts(After(s, actions[..|actions| - 1]), actions[|actions| - 1]);
    }
  }

  /**
    Once both consumers have stopped, captures = persisted + dropped if and only if nothing is left in the channel and
    the final write, if there was one, did not fail.
   */
  lemma {:induction false} AccountedIff(s: State, actions: seq<Action>)
    requires Initial(s) && Run(s, actions) && Finished(After(s, actions))
    ensures var t, o := After(s, actions), OutcomeOf(s, actions);
            |t.accepted| + |t.rejected| == o.persisted + t.droppedCount <==> t.channel == [] && o.lostAtShutdown == 0
  {
    DropCounterIsExact(s, actions);
  }

  lemma CaptureCancelStop(s: State, evt: Event)
    requires Initial(s)
    ensures var captured := s.(accepted := [evt], channel := [evt]);
            var cancelled := captured.(cancelled := true);
            && Enabled(s, Capture(evt)) && Next(s, Capture(evt)) == captured
            && Enabled(captured, Cancel) && Next(captured, Cancel) == cancelled
            && Enabled(cancelled, Stop) && Next(cancelled, Stop) == cancelled.(drainer := Stopped)
  {
    assert s.accepted + [evt] == [evt] && s.channel + [evt] == [evt];
  }

  /** The drainer is told to stop, and does so before it has received the event. */
  lemma CapturedThenCancelled(s: State, evt: Event)
    requires Initial(s)
    ensures Reaches(s, s.(accepted := [evt], channel := [evt], cancelled := true, drainer := Stopped))
  {
    CaptureCancelStop(s, evt);
    var captured := s.(accepted := [evt], channel := [evt]);
    ReachesSelf(s);
    ReachesNext(s, s, Capture(evt));
    ReachesNext(s, captured, Cancel);
    ReachesNext(s, captured.(cancelled := true), Stop);
  }

  lemma CollectThenFail(t: State, evt: Event)
    requires t.channel == [evt] && t.shutdown == NotCalled
    ensures var called := t.(shutdown := Collecting([]));
            var collected := t.(shutdown := Collecting([evt]), channel := []);
            var writing := collected.(shutdown := Writing([evt]));
            && Enabled(t, CallShutdown) && Next(t, CallShutdown) == called
            && Enabled(called, Collect) && Next(called, Collect) == collected
            && Enabled(collected, CollectedAll) && Next(collected, CollectedAll) == writing
            && Enabled(writing, ShutdownWrite(false))
            && Next(writing, ShutdownWrite(false)) == writing.(shutdown := Done, calls := t.calls + [[evt]])
            && StepOutcome(writing, ShutdownWrite(false)) == Outcome(0, 0, 1)
  {
    assert [] + [evt] == [evt];
  }

  /** Shutdown has collected the one event there is, and is about to write it. */
  lemma CollectedAlone(s: State, evt: Event) returns (t: State)
    requires Initial(s)
    ensures Reaches(s, t)
    ensures t == s.(accepted := [evt], cancelled := true, drainer := Stopped, shutdown := Writing([evt]))
  {
    var stopped := s.(accepted := [evt], channel := [evt], cancelled := true, drainer := Stopped);
    var collected := stopped.(shutdown := Collecting([evt]), channel := []);
    CapturedThenCancelled(s, evt);
    CollectThenFail(stopped, evt);
    ReachesNext(s, stopped, CallShutdown);
    ReachesNext(s, stopped.(shutdown := Collecting([])), Collect);
    ReachesNext(s, collected, CollectedAll);
    t := collected.(shutdown := Writing([evt]));
  }

  lemma OneMoreOutcome(s: State, actions: seq<Action>, a: Action)
    requires Run(s, actions) && Enabled(After(s, actions), a)
    ensures Run(s, actions + [a]) && After(s, actions + [a]) == Next(After(s, actions), a)
    ensures OutcomeOf(s, actions + [a]) == Plus(OutcomeOf(s, actions), StepOutcome(After(s, actions), a))
  {
    assert (actions + [a])[..|actions|] == actions;
  }

  /**
    Events do get lost without a trace: both consumers stopped, channel empty, one event captured, none persisted, none
    dropped.
   */
  lemma LostAtShutdown(s: State, evt: Event) returns (actions: seq<Action>)
    requires Initial(s)
    ensures Run(s, actions) && Finished(After(s, actions))
    ensures var t, o := After(s, actions), OutcomeOf(s, actions);
            && t.accepted == [evt] && t.rejected == [] && t.channel == []
            && o == Outcome(0, 0, 1) && t.droppedCount == 0
  {
    var writing := CollectedAlone(s, evt);
    var before :| Run(s, before) && After(s, before) == writing;
    actions := before + [ShutdownWrite(false)];
    FailedWrite(s, before, writing);
    OutcomeOfOne(s, actions);
  }

  lemma FailedWrite(s: State, before: seq<Action>, t: State)
    requires Run(s, before) && After(s, before) == t && t.shutdown.Writing?
    ensures Run(s, before + [ShutdownWrite(false)])
    ensures After(s, before + [ShutdownWrite(false)])
         == t.(shutdown := Done, calls := t.calls + [t.shutdown.remaining])
    ensures OutcomeOf(s, before + [ShutdownWrite(false)]).lostAtShutdown >= |t.shutdown.remaining|
  {
    OneMoreOutcome(s, before, ShutdownWrite(false));
  }

  /** One event, nothing left to write, nothing dropped, something lost at shutdown: so it was that one. */
  lemma OutcomeOfOne(s: State, actions: seq<Action>)
    requires Initial(s) && Run(s, actions)
    requires |After(s, actions).accepted| == 1 && |After(s, actions).rejected| == 0
    requires After(s, actions).droppedCount == 0 && Unwritten(After(s, actions)) == 0
    requires OutcomeOf(s, actions).lostAtShutdown >= 1
    ensures OutcomeOf(s, actions) == Outcome(0, 0, 1)
  {
    DropCounterIsExact(s, actions);
  }

  // ---------------------------------------------------------------- the code takes these steps

  ghost predicate Reaches(s: State, t: State) {
    exists actions :: Run(s, actions) && After(s, actions) == t
  }

  lemma ReachesSelf(s: State)
    ensures Reaches(s, s)
  {
    assert Run(s, []) && After(s, []) == s;
  }

  lemma ReachesNext(s: State, t: State, a: Action)
    requires Reaches(s, t) && Enabled(t, a)
    ensures Reaches(s, Next(t, a))
  {
    var actions :| Run(s, actions) && After(s, actions) == t;
    assert (actions + [a])[..|actions|] == actions;
    assert Run(s, actions + [a]) && After(s, actions + [a]) == Next(t, a);
  }

  /** AuditService.Receive is a path of the drainer: same channel, batch, calls and drop counter as in its contract. */
  lemma ReceiveIsAPath(s: State, fine: bool) returns (t: State)
    requires s.drainer.Receiving? && s.channel != []
    ensures var grown := s.drainer.batch + [s.channel[0]];
            var full := |grown| >= BATCH_SIZE;
            && Reaches(s, t)
            && t == s.(channel := s.channel[1..],
                       drainer := Receiving(if full then [] else grown),
                       calls := if full then s.calls + [grown] else s.calls,
                       droppedCount := if full && !fine then s.droppedCount + |grown| else s.droppedCount)
  {
    ReachesSelf(s);
    ReachesNext(s, s, Receive);
    t := Next(s, Receive);
    if t.drainer.Flushing? {
      ReachesNext(s, t, DrainerWrite(fine));
      t := Next(t, DrainerWrite(fine));
    }
  }

  lemma {:induction false} CollectPath(s: State, t: State) returns (u: State)
    requires Reaches(s, t) && t.shutdown.Collecting?
    ensures Reaches(s, u) && u == t.(channel := [], shutdown := Collecting(t.shutdown.remaining + t.channel))
    decreases |t.channel|
  {
    if t.channel == [] {
      assert t.shutdown.remaining + t.channel == t.shutdown.remaining;
      u := t;
    } else {
      ReachesNext(s, t, Collect);
      u := CollectPath(s, Next(t, Collect));
      assert t.shutdown.remaining + [t.channel[0]] + t.channel[1..] == t.shutdown.remaining + t.channel;
    }
  }

  /** AuditService.Shutdown is a path too: one call with the whole channel, and no count of a failure. */
  lemma ShutdownIsAPath(s: State, fine: bool) returns (t: State)
    requires s.shutdown == NotCalled
    ensures Reaches(s, t)
    ensures t == s.(channel := [], shutdown := Done,
                    calls := if s.channel == [] then s.calls else s.calls + [s.channel])
  {
    ReachesSelf(s);
    ReachesNext(s, s, CallShutdown);
    t := CollectPath(s, Next(s, CallShutdown));
    assert [] + s.channel == s.channel;
    ReachesNext(s, t, CollectedAll);
    t := Next(t, CollectedAll);
    if t.shutdown.Writing? {
      ReachesNext(s, t, ShutdownWrite(fine));
      t := Next(t, ShutdownWrite(fine));
    }
  }
}
