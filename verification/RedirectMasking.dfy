/** When a negative entry answers although a live positive entry could have. */
module RedirectMasking {
  import opened Wrappers
  import opened UrlCache
  import opened RedirectCache

  /** A redirectable positive entry and a negative entry are both live. */
  predicate Overlapping(s: State) {
    LivePositive(s.positive, s.now) && s.positive.value.row.CanRedirect(s.now) && LiveNegative(s.negative, s.now)
  }

  /** Request `q` is about to be told not found over a live redirectable positive entry. */
  ghost predicate Masks(c: Config, s: State, q: nat) {
    && Enabled(c, s, CheckNegative(q, true)) && Answer(s, CheckNegative(q, true)) == Some(NotFound)
    && LivePositive(s.positive, s.now) && s.positive.value.row.CanRedirect(s.now)
  }

  predicate OwnStep(a: Action, q: nat) {
    match a
    case Begin(p) => p == q
    case GetPositive(p, _) => p == q
    case CheckNegative(p, _) => p == q
    case ReadDatabase(p, _, _) => p == q
    case _ => false
  }

  datatype Lookup = Lookup(state: State, health: Health)

  /** The state at q's positive lookup, and how it went, if that is the last thing q has done. */
  ghost function LastLookup(c: Config, s: State, actions: seq<Action>, q: nat): Option<Lookup>
    requires Run(c, s, actions)
  {
    if actions == [] then None
    else
      var before, a := actions[..|actions| - 1], actions[|actions| - 1];
      if a.GetPositive? && a.q == q then Some(Lookup(After(c, s, before), a.health))
      else if OwnStep(a, q) then None
      else LastLookup(c, s, before, q)
  }

  predicate Missed(l: Lookup) {
    l.health != Fine || !LivePositive(l.state.positive, l.state.now)
  }

  predicate LandsPositive(s: State, a: Action) {
    (a.LandFill? && a.fine && a.fill in s.fills && s.fills[a.fill].FillPositive?) || (a.WarmCache? && a.fine)
  }

  /** A positive entry has been written since q last did anything. */
  ghost predicate LandedSince(c: Config, s: State, actions: seq<Action>, q: nat)
    requires Run(c, s, actions)
  {
    actions != [] &&
    var before, a := actions[..|actions| - 1], actions[|actions| - 1];
    !OwnStep(a, q) && (LandedSince(c, s, before, q) || LandsPositive(After(c, s, before), a))
  }

  lemma OthersLeaveRequest(c: Config, s: State, a: Action, q: nat)
    requires Enabled(c, s, a) && !OwnStep(a, q)
    ensures q in Next(c, s, a).requests <==> q in s.requests
    ensures q in s.requests ==> Next(c, s, a).requests[q] == s.requests[q]
  {
  }

  predicate AtItsNegative(s: State, q: nat) {
    q in s.requests && s.requests[q] == AtNegative
  }

  lemma OwnStepMoves(c: Config, s: State, a: Action, q: nat)
    requires Enabled(c, s, a) && OwnStep(a, q)
    ensures AtItsNegative(Next(c, s, a), q) <==> a.GetPositive? && Missed(Lookup(s, a.health))
  {
  }

  /** A request waits at the negative key exactly when the last thing it did was a lookup that gave nothing. */
  lemma {:induction false} WaitsIffMissed(c: Config, s: State, actions: seq<Action>, q: nat)
    requires Run(c, s, actions) && q !in s.requests
    ensures AtItsNegative(After(c, s, actions), q)
       <==> LastLookup(c, s, actions, q).Some? && Missed(LastLookup(c, s, actions, q).value)
    decreases |actions|
  {
    if actions != [] {
      var before, a := actions[..|actions| - 1], actions[|actions| - 1];
      WaitsIffMissed(c, s, before, q);
      if OwnStep(a, q) {
        OwnStepMoves(c, After(c, s, before), a, q);
      } else {
        OthersLeaveRequest(c, After(c, s, before), a, q);
      }
    }
  }

  lemma OnlyLandingRevives(c: Config, s: State, a: Action)
    requires Enabled(c, s, a) && !LivePositive(s.positive, s.now) && !LandsPositive(s, a)
    ensures !LivePositive(Next(c, s, a).positive, Next(c, s, a).now)
  {
  }

  /** An entry that was not live at the lookup and is now has landed in between. */
  lemma {:induction false} LiveMeansLanded(c: Config, s: State, actions: seq<Action>, q: nat)
    requires Run(c, s, actions) && LastLookup(c, s, actions, q).Some?
    requires var u := LastLookup(c, s, actions, q).value.state;
             !LivePositive(u.positive, u.now)
    ensures LivePositive(After(c, s, actions).positive, After(c, s, actions).now) ==> LandedSince(c, s, actions, q)
    decreases |actions|
  {
    var before, a := actions[..|actions| - 1], actions[|actions| - 1];
    var u := After(c, s, before);
    if !OwnStep(a, q) {
      LiveMeansLanded(c, s, before, q);
    }
    if !LivePositive(u.positive, u.now) && !LandsPositive(u, a) {
      OnlyLandingRevives(c, u, a);
    }
  }

  /**
    In every run, a negative entry answers `q` over a live redirectable positive entry if and only if both are live
    and q's own positive lookup did not get the entry: it failed, or nothing live was there and the entry has landed
    since.
   */
  lemma MaskingIff(c: Config, s: State, actions: seq<Action>, q: nat)
    requires Run(c, s, actions) && q !in s.requests
    ensures var t, last := After(c, s, actions), LastLookup(c, s, actions, q);
            Masks(c, t, q) <==>
              && Overlapping(t) && last.Some?
              && (last.value.health != Fine
                  || (!LivePositive(last.value.state.positive, last.value.state.now) && LandedSince(c, s, actions, q)))
  {
    var last := LastLookup(c, s, actions, q);
    WaitsIffMissed(c, s, actions, q);
    if last.Some? && !LivePositive(last.value.state.positive, last.value.state.now) {
      LiveMeansLanded(c, s, actions, q);
    }
  }

  /** A request that finds neither entry, up to the answer of the table. */
  lemma SmoothMiss(c: Config, s: State, t: State, q: nat) returns (u: State)
    requires SmoothlyReaches(c, s, t) && q !in t.requests && t.positive == None
    ensures SmoothlyReaches(c, s, u) && u == t.(requests := t.requests[q := AtNegative])
  {
    SmoothlyNext(c, s, t, Begin(q));
    u := Next(c, t, Begin(q));
    SmoothlyNext(c, s, u, GetPositive(q, Fine));
    u := Next(c, u, GetPositive(q, Fine));
    assert t.requests[q := AtPositive][q := AtNegative] == t.requests[q := AtNegative];
  }

  /** A request for an unknown code leaves a negative entry behind. */
  lemma NegativeLeft(c: Config, s: State) returns (t: State)
    requires c.WellFormed() && Initial(s) && s.db == Absent
    ensures SmoothlyReaches(c, s, t)
    ensures t.now == s.now && t.db == Absent && t.positive == None && LiveNegative(t.negative, t.now)
    ensures t.requests == map[] && t.writers == map[]
  {
    SmoothlySelf(c, s);
    t := SmoothMiss(c, s, s, 0);
    SmoothlyNext(c, s, t, CheckNegative(0, true));
    t := Next(c, t, CheckNegative(0, true));
    SmoothlyNext(c, s, t, ReadDatabase(0, true, 0));
    t := Next(c, t, ReadDatabase(0, true, 0));
    SmoothlyNext(c, s, t, LandFill(0, true));
    t := Next(c, t, LandFill(0, true));
  }

  /**
    The second case is real, without any failure: a lookup of an unknown code leaves a negative entry; a second request
    misses the positive key; the code is created and warmed; the second request is told not found.
   */
  lemma MaskedWithoutFailure(c: Config, s: State, row: Row) returns (t: State)
    requires c.WellFormed() && Initial(s) && s.db == Absent && row.CanRedirect(s.now)
    ensures SmoothlyReaches(c, s, t) && Masks(c, t, 1) && Redirectable(t.db, t.now)
  {
    t := NegativeLeft(c, s);
    t := SmoothMiss(c, s, t, 1);
    SmoothlyNext(c, s, t, Insert(0, row));
    t := Next(c, t, Insert(0, row));
    SmoothlyNext(c, s, t, WarmCache(0, true));
    t := Next(c, t, WarmCache(0, true));
  }
}
