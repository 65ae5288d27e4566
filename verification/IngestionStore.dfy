/**
  The analytics service and its repository as the code has them: bounded channel, reused batch buffer, counters,
  tables.
*/
module IngestionStore {
  import opened OnConflict

  /** What the pipeline looks at in a redirect event; ids are ULIDs, fresh for every capture. */
  datatype Event = Event(id: nat, at: int, code: string, bot: bool)

  /** The primary key of the event table. */
  function Key(): Event -> (nat, int) {
    (e: Event) => (e.id, e.at)
  }

  const CHANNEL_SIZE := 2048

  const BATCH_SIZE := 100

  /** Non-bot events of one code. */
  function NonBot(events: seq<Event>, code: string): nat {
    if events == [] then 0
    else NonBot(events[..|events| - 1], code) + One(events[|events| - 1], code)
  }

  function One(e: Event, code: string): nat {
    if !e.bot && e.code == code then 1 else 0
  }

  lemma {:induction false} NonBotConcat(a: seq<Event>, b: seq<Event>, code: string)
    ensures NonBot(a + b, code) == NonBot(a, code) + NonBot(b, code)
  {
    if b == [] {
      assert a + b == a;
    } else {
      assert (a + b)[..|a + b| - 1] == a + b[..|b| - 1];
      NonBotConcat(a, b[..|b| - 1], code);
    }
  }

  /** The positions of the events of a code that are not bots. */
  ghost function Humans(events: seq<Event>, code: string): set<nat> {
    set i: nat | i < |events| && events[i].code == code && !events[i].bot
  }

  lemma HumansOneMore(events: seq<Event>, e: Event, code: string)
    ensures Humans(events + [e], code) == Humans(events, code) + if e.code == code && !e.bot then {|events|} else {}
  {
  }

  /** What is counted: events of the code, and bots not. */
  lemma {:induction false} NonBotCounts(events: seq<Event>, code: string)
    ensures NonBot(events, code) == |set i: nat | i < |events| && events[i].code == code && !events[i].bot|
  {
    if events != [] {
      var init, e := events[..|events| - 1], events[|events| - 1];
      NonBotCounts(init, code);
      assert events == init + [e];
      HumansOneMore(init, e, code);
      assert |init| !in Humans(init, code);
      assert NonBot(init, code) == |Humans(init, code)|;
      assert Humans(events, code) == set i: nat | i < |events| && events[i].code == code && !events[i].bot;
    }
  }

  /** Only a whole key counts as a repetition. */
  lemma SameKeyIff(x: Event, y: Event)
    ensures Key()(x) == Key()(y) <==> x.id == y.id && x.at == y.at
  {
  }

  function CountOf(counts: map<string, nat>, code: string): nat {
    if code in counts then counts[code] else 0
  }

  /** `counts` holds exactly the non-bot totals of the batch, and only positive ones. */
  ghost predicate Tallies(counts: map<string, nat>, batch: seq<Event>) {
    && (forall code :: CountOf(counts, code) == NonBot(batch, code))
    && (forall code :: code in counts ==> counts[code] > 0)
  }

  /** The aggregation loop of flush. */
  method Tally(batch: seq<Event>) returns (counts: map<string, nat>)
    ensures Tallies(counts, batch)
  {
    counts := map[];
    for i := 0 to |batch|
      invariant Tallies(counts, batch[..i])
    {
      var evt := batch[i];
      assert batch[..i + 1][..i] == batch[..i];
      if !evt.bot {
        counts := counts[evt.code := CountOf(counts, evt.code) + 1];
      }
    }
    assert batch[..|batch|] == batch;
  }

  /** click_count after adding `counts` for the codes in `applied` whose row is live. */
  function Incremented(clicks: map<string, nat>, live: set<string>, counts: map<string, nat>,
                       applied: set<string>): map<string, nat> {
    map code | code in clicks ::
      if code in live && code in applied && code in counts then clicks[code] + counts[code] else clicks[code]
  }

  /**
    click_count went from `before` to `after` by the totals of the batch, for the codes in `applied`: all of them unless
    an update failed.
   */
  ghost predicate CountedUp(before: map<string, nat>, after: map<string, nat>, live: set<string>, batch: seq<Event>,
                            failAfter: nat, applied: set<string>) {
    exists counts :: Tallies(counts, batch) && applied <= counts.Keys
      && (failAfter >= |counts| ==> applied == counts.Keys)
      && after == Incremented(before, live, counts, applied)
  }

  ghost predicate DistinctIds(events: seq<Event>) {
    forall i, j :: 0 <= i < j < |events| ==> events[i].id != events[j].id
  }

  /** No event is skipped when ids are distinct. */
  lemma NothingSkipped(events: seq<Event>, batch: seq<Event>)
    requires DistinctIds(events + batch)
    ensures Insert(Key(), events, batch) == events + batch
  {
    var all := events + batch;
    assert KeysUnique(Key(), all);
    assert forall i :: 0 <= i < |events| ==> events[i] == all[i];
    InsertsAllIff(Key(), events, batch);
  }

  class AnalyticsRepository {
    var events: seq<Event>
    var clicks: map<string, nat>
    var live: set<string>

    constructor ()
      ensures events == [] && clicks == map[] && live == {}
    {
      events, clicks, live := [], map[], {};
    }

    /** One INSERT for the whole batch: all rows whose key is new or, on an error, none. */
    method WriteMany(batch: seq<Event>, fine: bool) returns (ok: bool)
      modifies this`events
      ensures ok == fine
      ensures events == if fine then Insert(Key(), old(events), batch) else old(events)
    {
      if fine {
        events := Insert(Key(), events, batch);
      }
      ok := fine;
    }

    /**
      One UPDATE per code, in whatever order the map is walked, stopping at the first error; `failAfter` updates
      succeed. The comment in the code says it carries on after an error; the code returns.
     */
    method IncrementClickCounts(counts: map<string, nat>, failAfter: nat) returns (ok: bool, ghost applied: set<string>)
      modifies this`clicks
      ensures applied <= counts.Keys
      ensures ok <==> applied == counts.Keys
      ensures failAfter >= |counts| ==> ok
      ensures clicks == Incremented(old(clicks), live, counts, applied)
    {
      var todo := counts.Keys;
      applied := {};
      var count := 0;
      while todo != {}
        invariant todo <= counts.Keys && applied == counts.Keys - todo
        invariant count + |todo| == |counts.Keys| && count <= failAfter
        invariant clicks == Incremented(old(clicks), live, counts, applied)
        invariant live == old(live)
        decreases todo
      {
        if count == failAfter {
          assert todo !! applied;
          return false, applied;
        }
        var code :| code in todo;
        if code in clicks && code in live {
          clicks := clicks[code := clicks[code] + counts[code]];
        }
        todo := todo - {code};
        applied := applied + {code};
        count := count + 1;
      }
      ok := true;
    }
  }

  class IngestionService {
    const repo: AnalyticsRepository
    const buffer: array<Event>
    var n: nat
    var channel: seq<Event>
    var dropped: nat
    var written: nat

    ghost predicate Valid()
      reads this
    {
      buffer.Length == BATCH_SIZE && n < BATCH_SIZE && |channel| <= CHANNEL_SIZE
    }

    /** Events received but not flushed: the used part of the buffer. */
    ghost function Batch(): seq<Event>
      reads this, buffer
      requires Valid()
    {
      buffer[..n]
    }

    constructor (repo: AnalyticsRepository, filler: Event)
      ensures Valid() && Batch() == [] && channel == [] && dropped == 0 && written == 0 && this.repo == repo
      ensures fresh(buffer)
    {
      this.repo := repo;
      buffer := new Event[BATCH_SIZE](_ => filler);
      n := 0;
      channel := [];
      dropped, written := 0, 0;
    }

    /** Non-blocking send. */
    method Capture(evt: Event)
      requires Valid()
      modifies this`channel, this`dropped
      ensures Valid()
      ensures channel == if |old(channel)| < CHANNEL_SIZE then old(channel) + [evt] else old(channel)
      ensures dropped == if |old(channel)| < CHANNEL_SIZE then old(dropped) else old(dropped) + 1
    {
      if |channel| < CHANNEL_SIZE {
        channel := channel + [evt];
      } else {
        dropped := dropped + 1;
      }
    }

    method Flush(batch: seq<Event>, writeFine: bool, failAfter: nat) returns (ghost applied: set<string>)
      modifies this`dropped, this`written, repo
      ensures repo.events == if writeFine then Insert(Key(), old(repo.events), batch) else old(repo.events)
      ensures written == if writeFine then old(written) + |batch| else old(written)
      ensures dropped == if writeFine then old(dropped) else old(dropped) + |batch|
      ensures repo.live == old(repo.live)
      ensures batch == [] || !writeFine ==> repo.clicks == old(repo.clicks)
      ensures batch != [] && writeFine ==>
                CountedUp(old(repo.clicks), repo.clicks, repo.live, batch, failAfter, applied)
    {
      applied := {};
      if |batch| == 0 {
        return;
      }
      var ok := repo.WriteMany(batch, writeFine);
      if !ok {
        dropped := dropped + |batch|;
        return;
      }
      written := written + |batch|;
      var counts := Tally(batch);
      ok, applied := repo.IncrementClickCounts(counts, failAfter);
    }

    /** The drainer's receive case: append into the buffer, flush when full, then reuse the buffer from the start. */
    method Receive(writeFine: bool, failAfter: nat) returns (ghost applied: set<string>)
      requires Valid() && channel != []
      modifies this`n, this`channel, this`dropped, this`written, buffer, repo
      ensures Valid()
      ensures channel == old(channel)[1..] && repo.live == old(repo.live)
      ensures old(n) + 1 < BATCH_SIZE ==>
                && Batch() == old(Batch()) + [old(channel)[0]] && repo.events == old(repo.events)
                && repo.clicks == old(repo.clicks) && dropped == old(dropped) && written == old(written)
      ensures old(n) + 1 == BATCH_SIZE && writeFine ==>
                var full := old(Batch()) + [old(channel)[0]];
                && Batch() == [] && repo.events == Insert(Key(), old(repo.events), full)
                && CountedUp(old(repo.clicks), repo.clicks, repo.live, full, failAfter, applied)
                && written == old(written) + BATCH_SIZE && dropped == old(dropped)
      ensures old(n) + 1 == BATCH_SIZE && !writeFine ==>
                && Batch() == [] && repo.events == old(repo.events) && repo.clicks == old(repo.clicks)
                && written == old(written) && dropped == old(dropped) + BATCH_SIZE
    {
      applied := {};
      var evt := channel[0];
      channel := channel[1..];
      buffer[n] := evt;
      n := n + 1;
      assert buffer[..n] == old(buffer[..n]) + [evt];
      if n >= BATCH_SIZE {
        applied := Flush(buffer[..n], writeFine, failAfter);
        n := 0;
      }
    }

    /** The tick case, and the last flush when the drainer is cancelled. */
    method FlushPending(writeFine: bool, failAfter: nat) returns (ghost applied: set<string>)
      requires Valid()
      modifies this`n, this`dropped, this`written, repo
      ensures Valid() && Batch() == [] && channel == old(channel) && repo.live == old(repo.live)
      ensures repo.events == if writeFine then Insert(Key(), old(repo.events), old(Batch())) else old(repo.events)
      ensures written == if writeFine then old(written) + |old(Batch())| else old(written)
      ensures dropped == if writeFine then old(dropped) else old(dropped) + |old(Batch())|
      ensures old(Batch()) == [] || !writeFine ==> repo.clicks == old(repo.clicks)
      ensures old(Batch()) != [] && writeFine ==>
                CountedUp(old(repo.clicks), repo.clicks, repo.live, old(Batch()), failAfter, applied)
    {
      applied := {};
      if n > 0 {
        applied := Flush(buffer[..n], writeFine, failAfter);
        n := 0;
      }
    }

    /** Shutdown after the drainer has stopped: empty the channel, flush what it held. */
    method FlushRemaining(writeFine: bool, failAfter: nat) returns (ghost applied: set<string>)
      requires Valid()
      modifies this`channel, this`dropped, this`written, repo
      ensures Valid() && channel == [] && Batch() == old(Batch()) && repo.live == old(repo.live)
      ensures repo.events == if writeFine then Insert(Key(), old(repo.events), old(channel)) else old(repo.events)
      ensures written == if writeFine then old(written) + |old(channel)| else old(written)
      ensures dropped == if writeFine then old(dropped) else old(dropped) + |old(channel)|
      ensures old(channel) == [] || !writeFine ==> repo.clicks == old(repo.clicks)
      ensures old(channel) != [] && writeFine ==>
                CountedUp(old(repo.clicks), repo.clicks, repo.live, old(channel), failAfter, applied)
    {
      applied := {};
      var remaining: seq<Event> := [];
      while |channel| > 0
        invariant remaining + channel == old(channel) && |channel| <= CHANNEL_SIZE
        invariant dropped == old(dropped) && written == old(written)
        invariant repo.events == old(repo.events) && repo.clicks == old(repo.clicks) && repo.live == old(repo.live)
        decreases |channel|
      {
        remaining := remaining + [channel[0]];
        channel := channel[1..];
      }
      assert remaining == old(channel);
      if |remaining| == 0 {
        return;
      }
      applied := Flush(remaining, writeFine, failAfter);
    }
  }
}
