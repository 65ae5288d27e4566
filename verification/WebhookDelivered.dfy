/** What it takes for a delivery to be recorded as delivered. */
module WebhookDelivered {
  import opened WebhookStore
  import opened WebhookQueue

  /** The delivery a step gives a successful answer for, if it does. */
  ghost function NewlyAnswered(s: State, a: Action): set<DeliveryId> {
    if a.Respond? && a.httpStatus / 100 == 2 && Working(s, a.w) then {Current(s, a.w).id} else {}
  }

  /** The deliveries for which some post has been answered with a status 2xx in the course of a run. */
  ghost function Answered(c: Config, s: State, actions: seq<Action>): set<DeliveryId>
    requires Run(c, s, actions)
  {
    if actions == [] then {}
    else
      var before := actions[..|actions| - 1];
      Answered(c, s, before) + NewlyAnswered(After(c, s, before), actions[|actions| - 1])
  }

  /** Whatever is or is about to be marked delivered has been answered. */
  ghost predicate Justified(s: State, answered: set<DeliveryId>) {
    && (forall id :: id in s.deliveries && s.deliveries[id].status == Delivered ==> id in answered)
    && (forall w :: AboutToDeliver(s, w) ==> Current(s, w).id in answered)
  }

  ghost predicate AboutToDeliver(s: State, w: nat) {
    Working(s, w) && s.workers[w].phase.Marking? && s.workers[w].phase.mark == MarkDelivered
  }

  lemma StepWorkersJustified(c: Config, s: State, a: Action, answered: set<DeliveryId>, w: nat)
    requires Justified(s, answered) && Enabled(c, s, a) && AboutToDeliver(Next(c, s, a), w)
    ensures Current(Next(c, s, a), w).id in answered + NewlyAnswered(s, a)
  {
    assert AboutToDeliver(s, w) ==> Current(s, w).id in answered;
  }

  lemma StepRowsJustified(c: Config, s: State, a: Action, answered: set<DeliveryId>, id: DeliveryId)
    requires Justified(s, answered) && Enabled(c, s, a)
    requires id in Next(c, s, a).deliveries && Next(c, s, a).deliveries[id].status == Delivered
    ensures id in answered
  {
    if a.WriteMark? {
      assert AboutToDeliver(s, a.w) ==> Current(s, a.w).id in answered;
    }
  }

  lemma {:induction false} RunJustified(c: Config, s: State, actions: seq<Action>)
    requires Initial(s) && Run(c, s, actions)
    ensures Justified(After(c, s, actions), Answered(c, s, actions))
    decreases |actions|
  {
    if actions != [] {
      var before, a := actions[..|actions| - 1], actions[|actions| - 1];
      RunJustified(c, s, before);
      var t, answered := After(c, s, before), Answered(c, s, before);
      forall id | id in Next(c, t, a).deliveries && Next(c, t, a).deliveries[id].status == Delivered
        ensures id in answered
      {
        StepRowsJustified(c, t, a, answered, id);
      }
      forall w | AboutToDeliver(Next(c, t, a), w)
        ensures Current(Next(c, t, a), w).id in answered + NewlyAnswered(t, a)
      {
        StepWorkersJustified(c, t, a, answered, w);
      }
    }
  }

  /** In every run, whatever the timing, crashes and lost marks: a delivered row has had a post answered with a 2xx. */
  lemma {:induction false} DeliveredWasAnswered(c: Config, s: State, actions: seq<Action>, id: DeliveryId)
    requires Initial(s) && Run(c, s, actions)
    requires id in After(c, s, actions).deliveries && After(c, s, actions).deliveries[id].status == Delivered
    ensures exists k, w, httpStatus ::
              && 0 <= k < |actions| && actions[k] == Respond(w, httpStatus) && 200 <= httpStatus <= 299
              && Run(c, s, actions[..k]) && Working(After(c, s, actions[..k]), w)
              && Current(After(c, s, actions[..k]), w).id == id
  {
    RunJustified(c, s, actions);
    AnsweredAt(c, s, actions, id);
  }

  lemma {:induction false} AnsweredAt(c: Config, s: State, actions: seq<Action>, id: DeliveryId)
    requires Run(c, s, actions) && id in Answered(c, s, actions)
    ensures exists k, w, httpStatus ::
              && 0 <= k < |actions| && actions[k] == Respond(w, httpStatus) && 200 <= httpStatus <= 299
              && Run(c, s, actions[..k]) && Working(After(c, s, actions[..k]), w)
              && Current(After(c, s, actions[..k]), w).id == id
    decreases |actions|
  {
    var n := |actions| - 1;
    var before, a := actions[..n], actions[n];
    if id in NewlyAnswered(After(c, s, before), a) {
      assert actions[n] == Respond(a.w, a.httpStatus);
    } else {
      AnsweredAt(c, s, before, id);
      var k, w, httpStatus :|
        && 0 <= k < |before| && before[k] == Respond(w, httpStatus) && 200 <= httpStatus <= 299
        && Run(c, s, before[..k]) && Working(After(c, s, before[..k]), w)
        && Current(After(c, s, before[..k]), w).id == id;
      assert before[..k] == actions[..k] && actions[k] == Respond(w, httpStatus);
    }
  }
}
