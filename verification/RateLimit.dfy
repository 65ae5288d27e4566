/**
  The distributed token bucket: the policy arithmetic, the atomic Redis script, the Go client around it,
  and what whole runs of checks guarantee.

  Tokens are reals, timestamps are whole milliseconds, and a Redis key written with a TTL is visible to a
  check exactly when the check's own clock has not reached the key's expiry.
 */
module RateLimit {
  import opened Wrappers

  // ---------------------------------------------------------------- policy

  datatype Policy = Policy(limit: int, windowMs: int, burst: int) {
    /** What every policy of the matrix satisfies. */
    predicate WellFormed() {
      limit > 0 && windowMs > 0
    }

    function BucketCapacity(): int {
      if burst <= 1 then limit else limit * burst
    }

    function RefillRatePerSecond(): real
      requires windowMs > 0
    {
      limit as real / (windowMs as real / 1000.0)
    }

    /** The burst factor as BucketCapacity sees it. */
    function EffectiveBurst(): int {
      if burst <= 1 then 1 else burst
    }
  }

  datatype Tier = Unauthenticated | Free | Pro | Enterprise | OtherTier(name: string)

  datatype EndpointClass = Redirect | Read | Write | OtherClass(name: string)

  function GetPolicy(tier: Tier, endpoint: EndpointClass): Policy {
    match (tier, endpoint)
    case (Unauthenticated, Redirect) => Policy(300, 60_000, 2)
    case (Unauthenticated, Read) => Policy(10, 60_000, 1)
    case (Unauthenticated, Write) => Policy(10, 60_000, 1)
    case (Free, Redirect) => Policy(1000, 60_000, 2)
    case (Free, Read) => Policy(100, 60_000, 1)
    case (Free, Write) => Policy(100, 60_000, 1)
    case (Pro, Redirect) => Policy(10000, 60_000, 2)
    case (Pro, Read) => Policy(1000, 60_000, 1)
    case (Pro, Write) => Policy(1000, 60_000, 1)
    case (Enterprise, Redirect) => Policy(100000, 60_000, 3)
    case (Enterprise, Read) => Policy(10000, 60_000, 2)
    case (Enterprise, Write) => Policy(10000, 60_000, 2)
    case (_, _) => Policy(10, 60_000, 1)
  }

  // ---------------------------------------------------------------- arithmetic

  function Min(x: real, y: real): real {
    if x <= y then x else y
  }

  function Max(x: int, y: int): (m: int)
    ensures m >= x && m >= y
  {
    if x <= y then y else x
  }

  function Ceil(x: real): int {
    -((-x).Floor)
  }

  function CeilDiv(x: int, d: int): int
    requires d > 0
  {
    -((-x) / d)
  }

  /** The rate handed to the script, in tokens per millisecond. */
  function RatePerMs(p: Policy): real
    requires p.windowMs > 0
  {
    p.RefillRatePerSecond() / 1000.0
  }

  /** `units` portions of `each`, added up one by one. */
  ghost function Accrued(units: nat, each: real): real {
    if units == 0 then 0.0 else Accrued(units - 1, each) + each
  }

  lemma {:induction false} AccruedIsProduct(units: nat, each: real)
    ensures Accrued(units, each) == units as real * each
  {
    if units > 0 {
      AccruedIsProduct(units - 1, each);
      assert units as real * each == (units - 1) as real * each + each;
    }
  }

  lemma {:induction false} AccruedSum(m: nat, n: nat, each: real)
    ensures Accrued(m + n, each) == Accrued(m, each) + Accrued(n, each)
  {
    if n > 0 {
      AccruedSum(m, n - 1, each);
    }
  }

  lemma {:induction false} AccruedMono(m: nat, n: nat, each: real)
    requires each >= 0.0 && m <= n
    ensures 0.0 <= Accrued(m, each) <= Accrued(n, each)
    ensures each > 0.0 && m < n ==> Accrued(m, each) < Accrued(n, each)
  {
    if m < n {
      AccruedMono(m, n - 1, each);
    } else if m > 0 {
      AccruedMono(m - 1, m - 1, each);
    }
  }

  // ---------------------------------------------------------------- the script

  /** The stored value `tokens:last_refill_ms`. */
  datatype Bucket = Bucket(tokens: real, lastRefillMs: int)

  datatype Entry = Entry(bucket: Bucket, expiresAtMs: int)

  datatype Answer = Answer(allowed: bool, remaining: int, resetMs: int)

  datatype Args = Args(capacity: real, refillRate: real, cost: real, ttlMs: int)

  /** Tokens available at `nowMs`, before the cost is charged. */
  ghost function Refilled(b: Option<Bucket>, a: Args, nowMs: int): real {
    match b
    case None => a.capacity
    case Some(bucket) =>
      Min(a.capacity, bucket.tokens + Accrued(Max(0, nowMs - bucket.lastRefillMs), a.refillRate))
  }

  ghost function Charged(b: Option<Bucket>, a: Args, nowMs: int): Bucket {
    var tokens := Refilled(b, a, nowMs);
    Bucket(if tokens >= a.cost then tokens - a.cost else tokens, nowMs)
  }

  ghost function Reply(b: Option<Bucket>, a: Args, nowMs: int): Answer {
    var allowed := Refilled(b, a, nowMs) >= a.cost;
    var left := Charged(b, a, nowMs).tokens;
    Answer(allowed, if allowed then left.Floor else 0, nowMs + MsToFull(left, a))
  }

  function MsToFull(tokens: real, a: Args): int {
    if a.refillRate > 0.0 then Ceil((a.capacity - tokens) / a.refillRate) else a.ttlMs
  }

  /** What GET returns at `nowMs`: an expired key is not there. */
  function Visible(e: Option<Entry>, nowMs: int): Option<Bucket> {
    if e.Some? && nowMs < e.value.expiresAtMs then Some(e.value.bucket) else None
  }

  ghost function Stored(b: Option<Bucket>, a: Args, nowMs: int): Entry {
    Entry(Charged(b, a, nowMs), nowMs + 1000 * CeilDiv(a.ttlMs, 1000))
  }

  function ArgsOf(p: Policy): Args
    requires p.windowMs > 0
  {
    Args(p.BucketCapacity() as real, RatePerMs(p), 1.0, p.windowMs * 2)
  }

  function Lookup(store: map<string, Entry>, key: string): Option<Entry> {
    if key in store then Some(store[key]) else None
  }

  datatype CheckResult = CheckResult(allowed: bool, remaining: int, limit: int, resetAtMs: int, retryAfterMs: int)

  /** The limiter over its Redis keyspace. */
  class TokenBucketLimiter {
    var store: map<string, Entry>

    constructor ()
      ensures store == map[]
    {
      store := map[];
    }

    /** The Lua script, statement by statement; Redis runs it without interruption. */
    method RunScript(key: string, a: Args, nowMs: int) returns (answer: Answer)
      modifies this
      ensures var seen := Visible(old(Lookup(store, key)), nowMs);
              answer == Reply(seen, a, nowMs) && store == old(store)[key := Stored(seen, a, nowMs)]
    {
      var tokens: real;
      var lastRefillMs: int;
      if key in store && nowMs < store[key].expiresAtMs {
        tokens, lastRefillMs := store[key].bucket.tokens, store[key].bucket.lastRefillMs;
      } else {
        tokens, lastRefillMs := a.capacity, nowMs;
      }
      ghost var seen := Visible(Lookup(store, key), nowMs);
      var elapsedMs := Max(0, nowMs - lastRefillMs);
      var newTokens := elapsedMs as real * a.refillRate;
      tokens := Min(a.capacity, tokens + newTokens);
      assert newTokens == Accrued(elapsedMs, a.refillRate) by {
        AccruedIsProduct(elapsedMs, a.refillRate);
      }
      lastRefillMs := nowMs;
      var allowed := false;
      var remaining := 0;
      if tokens >= a.cost {
        tokens := tokens - a.cost;
        allowed := true;
        remaining := tokens.Floor;
      }
      var ttlS := CeilDiv(a.ttlMs, 1000);
      store := store[key := Entry(Bucket(tokens, lastRefillMs), nowMs + 1000 * ttlS)];
      var tokensNeeded := a.capacity - tokens;
      var msToFull := a.ttlMs;
      if a.refillRate > 0.0 {
        msToFull := Ceil(tokensNeeded / a.refillRate);
      }
      answer := Answer(allowed, remaining, nowMs + msToFull);
    }

    /**
      The client call; `replyMs` is the clock read again when the reply is turned into a retry delay. When Redis does
      not answer there is no result, and the caller decides whether to let the request through.
     */
    method Check(key: string, p: Policy, nowMs: int, replyMs: int, redisFine: bool) returns (r: Option<CheckResult>)
      requires p.windowMs > 0
      modifies this
      ensures r.Some? <==> redisFine
      ensures !redisFine ==> store == old(store)
      ensures redisFine ==>
                var seen := Visible(old(Lookup(store, key)), nowMs);
                && store == old(store)[key := Stored(seen, ArgsOf(p), nowMs)]
                && r.value.allowed == Reply(seen, ArgsOf(p), nowMs).allowed
                && r.value.remaining == Reply(seen, ArgsOf(p), nowMs).remaining
                && r.value.resetAtMs == Reply(seen, ArgsOf(p), nowMs).resetMs
                && r.value.limit == p.BucketCapacity()
                && r.value.retryAfterMs ==
                   if r.value.allowed || r.value.resetAtMs < replyMs then 0 else r.value.resetAtMs - replyMs
    {
      if !redisFine {
        return None;
      }
      var answer := RunScript(key, ArgsOf(p), nowMs);
      var retryAfter := 0;
      if !answer.allowed {
        retryAfter := answer.resetMs - replyMs;
        if retryAfter < 0 {
          retryAfter := 0;
        }
      }
      r := Some(CheckResult(answer.allowed, answer.remaining, p.BucketCapacity(), answer.resetMs, retryAfter));
    }
  }

  // ---------------------------------------------------------------- runs on one key

  /** Script arguments as a well-formed policy produces them. */
  ghost predicate Proper(a: Args) {
    a.capacity >= 1.0 && a.capacity == a.capacity.Floor as real && a.refillRate > 0.0 && a.cost == 1.0 && a.ttlMs > 0
  }

  /** How long a written key stays in Redis: the TTL rounded up to whole seconds. */
  function LifetimeMs(a: Args): int {
    1000 * CeilDiv(a.ttlMs, 1000)
  }

  /** The key after one check per element of `times`, in order, starting from `e`. */
  ghost function After(a: Args, e: Option<Entry>, times: seq<int>): Option<Entry> {
    if times == [] then e
    else
      var t := times[|times| - 1];
      Some(Stored(Visible(After(a, e, times[..|times| - 1]), t), a, t))
  }

  /** The answer to a check at `t` made after the checks `times` on a key that starts absent. */
  ghost function AnswerAt(a: Args, times: seq<int>, t: int): Answer {
    Reply(Visible(After(a, None, times), t), a, t)
  }

  /** The same run on a bucket that Redis never forgets. */
  ghost function KeptAfter(a: Args, times: seq<int>): Option<Bucket> {
    if times == [] then None
    else
      var t := times[|times| - 1];
      Some(Charged(KeptAfter(a, times[..|times| - 1]), a, t))
  }

  ghost function KeptAnswerAt(a: Args, times: seq<int>, t: int): Answer {
    Reply(KeptAfter(a, times), a, t)
  }

  /** A bucket holds between zero and capacity tokens, and its key outlives the last check by the full lifetime. */
  ghost predicate Sound(a: Args, e: Option<Entry>) {
    e.Some? ==>
      && 0.0 <= e.value.bucket.tokens <= a.capacity
      && e.value.expiresAtMs == e.value.bucket.lastRefillMs + LifetimeMs(a)
  }

  /** What a bucket gains, before capping, by instant `t`. */
  ghost function Gained(a: Args, b: Bucket, t: int): (g: real)
    requires a.refillRate > 0.0
    ensures g >= 0.0
  {
    AccruedMono(0, Max(0, t - b.lastRefillMs), a.refillRate);
    Accrued(Max(0, t - b.lastRefillMs), a.refillRate)
  }

  lemma StepSound(a: Args, e: Option<Entry>, t: int)
    requires Proper(a) && Sound(a, e)
    ensures Sound(a, Some(Stored(Visible(e, t), a, t)))
    ensures 0.0 <= Refilled(Visible(e, t), a, t) <= a.capacity
  {
    if Visible(e, t).Some? {
      assert Gained(a, e.value.bucket, t) >= 0.0;
    }
  }

  lemma {:induction false} AfterSound(a: Args, e: Option<Entry>, times: seq<int>)
    requires Proper(a) && Sound(a, e)
    ensures Sound(a, After(a, e, times))
  {
    if times != [] {
      var before := times[..|times| - 1];
      AfterSound(a, e, before);
      StepSound(a, After(a, e, before), times[|times| - 1]);
    }
  }

  // ---------------------------------------------------------------- eviction

  /** What a bucket refills, before capping, over one key lifetime. */
  ghost function LifetimeRefill(a: Args): real {
    Accrued(Max(0, LifetimeMs(a)), a.refillRate)
  }

  /** Tokens an idle bucket may still be short of when Redis forgets its key. */
  ghost function EvictionGift(a: Args): real {
    if a.capacity > LifetimeRefill(a) then a.capacity - LifetimeRefill(a) else 0.0
  }

  /** When the key has expired, the remembered bucket would have been full up to the gift. */
  lemma ForgottenIsNearlyFull(a: Args, e: Option<Entry>, t: int)
    requires Proper(a) && Sound(a, e)
    requires e.Some? && Visible(e, t) == None
    ensures a.capacity <= e.value.bucket.tokens + Gained(a, e.value.bucket, t) + EvictionGift(a)
  {
    AccruedMono(LifetimeMs(a), t - e.value.bucket.lastRefillMs, a.refillRate);
  }

  ghost predicate SameBucket(e: Option<Entry>, b: Option<Bucket>) {
    e.Some? == b.Some? && (e.Some? ==> e.value.bucket == b.value)
  }

  lemma SameRefill(a: Args, e: Option<Entry>, b: Option<Bucket>, t: int)
    requires Proper(a) && Sound(a, e) && EvictionGift(a) == 0.0 && SameBucket(e, b)
    ensures Refilled(Visible(e, t), a, t) == Refilled(b, a, t)
  {
    if e.Some? && Visible(e, t) == None {
      ForgottenIsNearlyFull(a, e, t);
      assert a.capacity <= b.value.tokens + Gained(a, b.value, t);
    }
  }

  lemma {:induction false} EvictionInvisible(a: Args, times: seq<int>, t: int)
    requires Proper(a) && EvictionGift(a) == 0.0
    ensures SameBucket(After(a, None, times), KeptAfter(a, times))
    ensures AnswerAt(a, times, t) == KeptAnswerAt(a, times, t)
  {
    if times != [] {
      var before, last := times[..|times| - 1], times[|times| - 1];
      EvictionInvisible(a, before, last);
      AfterSound(a, None, before);
      SameRefill(a, After(a, None, before), KeptAfter(a, before), last);
    }
    AfterSound(a, None, times);
    SameRefill(a, After(a, None, times), KeptAfter(a, times), t);
  }

  ghost function Repeat(t: int, n: nat): (s: seq<int>)
    ensures |s| == n && forall i :: 0 <= i < n ==> s[i] == t
  {
    seq(n, _ => t)
  }

  /** Checks that all happen at instant zero take a fresh bucket down one token at a time. */
  lemma {:induction false} DrainAtZero(a: Args, n: nat)
    requires Proper(a) && n as real <= a.capacity
    ensures n > 0 ==> After(a, None, Repeat(0, n)) == Some(Entry(Bucket(a.capacity - n as real, 0), LifetimeMs(a)))
    ensures n > 0 ==> KeptAfter(a, Repeat(0, n)) == Some(Bucket(a.capacity - n as real, 0))
    ensures AllowedCount(a, None, Repeat(0, n)) == n
  {
    if n > 0 {
      DrainAtZero(a, n - 1);
      assert Repeat(0, n)[..n - 1] == Repeat(0, n - 1);
    }
  }

  /** A check on a full bucket and a check on one that is not full answer differently. */
  lemma {:induction false} FullBeatsPartial(a: Args, full: Option<Bucket>, partial: Option<Bucket>, t: int)
    requires Proper(a)
    requires Refilled(partial, a, t) < Refilled(full, a, t) == a.capacity
    ensures Reply(full, a, t).allowed != Reply(partial, a, t).allowed
         || Reply(full, a, t).remaining != Reply(partial, a, t).remaining
  {
    if Refilled(partial, a, t) >= 1.0 {
      assert Reply(full, a, t).remaining == a.capacity.Floor - 1;
      assert Reply(partial, a, t).remaining == (Refilled(partial, a, t) - 1.0).Floor;
    }
  }

  /** When the gift is positive, draining the bucket and coming back as the key expires shows the eviction. */
  lemma {:induction false} EvictionVisible(a: Args)
    requires Proper(a) && EvictionGift(a) > 0.0
    ensures var times := Repeat(0, a.capacity.Floor);
            AnswerAt(a, times, LifetimeMs(a)) != KeptAnswerAt(a, times, LifetimeMs(a))
  {
    var n := a.capacity.Floor;
    DrainAtZero(a, n);
    var kept := KeptAfter(a, Repeat(0, n));
    assert kept == Some(Bucket(0.0, 0));
    assert Refilled(kept, a, LifetimeMs(a)) == LifetimeRefill(a);
    FullBeatsPartial(a, None, kept, LifetimeMs(a));
  }

  // ---------------------------------------------------------------- the rate bound

  ghost function AllowedCount(a: Args, e: Option<Entry>, times: seq<int>): nat {
    if times == [] then 0
    else
      var before, t := times[..|times| - 1], times[|times| - 1];
      AllowedCount(a, e, before) + if Reply(Visible(After(a, e, before), t), a, t).allowed then 1 else 0
  }

  /** Checks that found their key expired. */
  ghost function EvictionCount(a: Args, e: Option<Entry>, times: seq<int>): nat {
    if times == [] then 0
    else
      var before, t := times[..|times| - 1], times[|times| - 1];
      EvictionCount(a, e, before) + if Evicted(After(a, e, before), t) then 1 else 0
  }

  ghost predicate Evicted(e: Option<Entry>, t: int) {
    e.Some? && Visible(e, t) == None
  }

  /** How far a check at `t` moves the stored timestamp forward. */
  ghost function Moved(e: Option<Entry>, t: int): nat {
    if e.Some? then Max(0, t - e.value.bucket.lastRefillMs) else 0
  }

  /** Sum of the forward moves between consecutive timestamps, the stored one first when there is one. */
  ghost function ForwardMs(e: Option<Entry>, times: seq<int>): nat {
    if times == [] then 0
    else
      var before, t := times[..|times| - 1], times[|times| - 1];
      var previous := if before != [] then before[|before| - 1] else if e.Some? then e.value.bucket.lastRefillMs else t;
      ForwardMs(e, before) + Max(0, t - previous)
  }

  ghost function TokensIn(a: Args, e: Option<Entry>): real {
    if e.Some? then e.value.bucket.tokens else a.capacity
  }

  /** What one check brings in: refill for the time moved forward, and the gift when the key was evicted. */
  ghost function StepIncome(a: Args, e: Option<Entry>, t: int): real {
    Accrued(Moved(e, t), a.refillRate) + if Evicted(e, t) then EvictionGift(a) else 0.0
  }

  ghost function Income(a: Args, e: Option<Entry>, times: seq<int>): real {
    if times == [] then 0.0
    else
      var before, t := times[..|times| - 1], times[|times| - 1];
      Income(a, e, before) + StepIncome(a, After(a, e, before), t)
  }

  /** One check: what is let through plus what is left never exceeds what was there plus what came in. */
  lemma StepPotential(a: Args, e: Option<Entry>, t: int)
    requires Proper(a) && Sound(a, e)
    ensures (if Reply(Visible(e, t), a, t).allowed then 1.0 else 0.0) + TokensIn(a, Some(Stored(Visible(e, t), a, t)))
         <= TokensIn(a, e) + StepIncome(a, e, t)
  {
    if e.Some? {
      assert Accrued(Moved(e, t), a.refillRate) == Gained(a, e.value.bucket, t);
      if Evicted(e, t) {
        ForgottenIsNearlyFull(a, e, t);
      }
    }
  }

  /** The potential argument over a whole run. */
  lemma {:induction false} Potential(a: Args, e: Option<Entry>, times: seq<int>)
    requires Proper(a) && Sound(a, e)
    ensures AllowedCount(a, e, times) as real + TokensIn(a, After(a, e, times)) <= TokensIn(a, e) + Income(a, e, times)
  {
    if times != [] {
      var before, t := times[..|times| - 1], times[|times| - 1];
      Potential(a, e, before);
      AfterSound(a, e, before);
      StepPotential(a, After(a, e, before), t);
    }
  }

  /** Over a run the income is the total forward time at the refill rate, plus a gift for each eviction. */
  lemma {:induction false} IncomeTotals(a: Args, e: Option<Entry>, times: seq<int>)
    ensures Income(a, e, times)
         == Accrued(ForwardMs(e, times), a.refillRate) + Accrued(EvictionCount(a, e, times), EvictionGift(a))
  {
    if times != [] {
      var before, t := times[..|times| - 1], times[|times| - 1];
      IncomeTotals(a, e, before);
      var found := After(a, e, before);
      var evicted: nat := if Evicted(found, t) then 1 else 0;
      ForwardStep(a, e, times);
      AccruedSum(ForwardMs(e, before), Moved(found, t), a.refillRate);
      AccruedSum(EvictionCount(a, e, before), evicted, EvictionGift(a));
      assert Accrued(evicted, EvictionGift(a)) == if Evicted(found, t) then EvictionGift(a) else 0.0;
    }
  }

  lemma ForwardStep(a: Args, e: Option<Entry>, times: seq<int>)
    requires times != []
    ensures var before, t := times[..|times| - 1], times[|times| - 1];
            ForwardMs(e, times) == ForwardMs(e, before) + Moved(After(a, e, before), t)
  {
  }

  ghost predicate NonDecreasing(times: seq<int>) {
    forall i, j :: 0 <= i <= j < |times| ==> times[i] <= times[j]
  }

  lemma {:induction false} ForwardOfNonDecreasing(times: seq<int>)
    requires NonDecreasing(times) && times != []
    ensures ForwardMs(None, times) == times[|times| - 1] - times[0]
  {
    var before := times[..|times| - 1];
    if before != [] {
      ForwardOfNonDecreasing(before);
      assert before[0] == times[0] && before[|before| - 1] == times[|times| - 2];
    }
  }

  lemma {:induction false} RunsCompose(a: Args, e: Option<Entry>, xs: seq<int>, ys: seq<int>)
    ensures After(a, e, xs + ys) == After(a, After(a, e, xs), ys)
    ensures AllowedCount(a, e, xs + ys) == AllowedCount(a, e, xs) + AllowedCount(a, After(a, e, xs), ys)
  {
    if ys == [] {
      assert xs + ys == xs;
    } else {
      RunsCompose(a, e, xs, ys[..|ys| - 1]);
      assert (xs + ys)[..|xs + ys| - 1] == xs + ys[..|ys| - 1];
    }
  }

  /** From an empty bucket, `k` checks at one later instant all pass as long as `k` tokens have been refilled. */
  lemma {:induction false} RefillThenDrain(a: Args, e: Option<Entry>, later: int, k: nat)
    requires Proper(a) && 0 <= later < LifetimeMs(a) && e == Some(Entry(Bucket(0.0, 0), LifetimeMs(a)))
    requires k as real <= Accrued(later, a.refillRate) && k as real <= a.capacity
    ensures AllowedCount(a, e, Repeat(later, k)) == k
    ensures k > 0 ==> After(a, e, Repeat(later, k)) == Some(Entry(
                        Bucket(Min(a.capacity, Accrued(later, a.refillRate)) - k as real, later),
                        later + LifetimeMs(a)))
  {
    if k > 0 {
      RefillThenDrain(a, e, later, k - 1);
      assert Repeat(later, k)[..k - 1] == Repeat(later, k - 1);
    }
  }

  // ---------------------------------------------------------------- the reported numbers

  lemma {:induction false} SameInstant(a: Args, e: Option<Entry>, t: int, k: nat)
    requires Proper(a) && Sound(a, e)
    requires e.Some? && e.value.bucket.lastRefillMs == t
    ensures var now := After(a, e, Repeat(t, k));
            && now.Some? && now.value.bucket.lastRefillMs == t && now.value.expiresAtMs == e.value.expiresAtMs
            && (k as real <= e.value.bucket.tokens ==> now.value.bucket.tokens == e.value.bucket.tokens - k as real)
            && (k as real > e.value.bucket.tokens ==> now.value.bucket.tokens < 1.0)
  {
    if k > 0 {
      SameInstant(a, e, t, k - 1);
      AfterSound(a, e, Repeat(t, k - 1));
      assert Repeat(t, k)[..k - 1] == Repeat(t, k - 1);
    }
  }

  /** After a check at `t` answering `remaining`, exactly that many further checks at `t` pass. */
  lemma {:induction false} RemainingIsExact(a: Args, e: Option<Entry>, t: int, k: nat)
    requires Proper(a) && Sound(a, e)
    ensures var seen := Visible(e, t);
            var next := After(a, Some(Stored(seen, a, t)), Repeat(t, k));
            Reply(Visible(next, t), a, t).allowed <==> k < Reply(seen, a, t).remaining
  {
    StepSound(a, e, t);
    var first := Some(Stored(Visible(e, t), a, t));
    SameInstant(a, first, t, k);
    AfterSound(a, first, Repeat(t, k));
  }

  lemma {:induction false} RepeatOneMore(t: int, n: nat)
    requires n > 0
    ensures Repeat(t, n)[..n - 1] == Repeat(t, n - 1)
  {
  }

  /**
    `remaining` is a count: of any number of further checks at the same instant, exactly that many pass; after a denied
    check it is zero, so none does.
   */
  lemma {:induction false} RemainingIsCount(a: Args, e: Option<Entry>, t: int, n: nat)
    requires Proper(a) && Sound(a, e)
    ensures var answer := Reply(Visible(e, t), a, t);
            && answer.remaining >= 0 && (!answer.allowed ==> answer.remaining == 0)
            && AllowedCount(a, Some(Stored(Visible(e, t), a, t)), Repeat(t, n))
               == if n <= answer.remaining then n else answer.remaining
  {
    StepSound(a, e, t);
    if n > 0 {
      RemainingIsCount(a, e, t, n - 1);
      RemainingIsExact(a, e, t, n - 1);
      RepeatOneMore(t, n);
    }
  }

  lemma CeilIsLeast(x: real, n: int)
    ensures n >= Ceil(x) <==> n as real >= x
  {
  }

  lemma DivideOut(x: real, k: real, n: real)
    requires k > 0.0
    ensures n >= x / k <==> n * k >= x
  {
    assert x / k * k == x;
    if n >= x / k {
      assert n * k >= x / k * k;
    } else {
      assert n * k < x / k * k;
    }
  }

  /** The rounded-up quotient is the least number of units that accrue to `needed`. */
  lemma LeastUnits(needed: real, each: real, n: nat)
    requires each > 0.0 && needed >= 0.0
    ensures Ceil(needed / each) >= 0
    ensures n >= Ceil(needed / each) <==> Accrued(n, each) >= needed
  {
    CeilIsLeast(needed / each, n);
    DivideOut(needed, each, n as real);
    AccruedIsProduct(n, each);
    CeilIsLeast(needed / each, -1);
    DivideOut(needed, each, -1.0);
  }

  /** `resetMs` is the first instant, not before the check, at which the untouched bucket is full again. */
  lemma ResetIsExact(a: Args, e: Option<Entry>, t: int, later: int)
    requires Proper(a) && Sound(a, e) && later >= t
    ensures var left := Charged(Visible(e, t), a, t);
            var reset := Reply(Visible(e, t), a, t).resetMs;
            && reset >= t
            && (Refilled(Some(left), a, later) == a.capacity <==> later >= reset)
  {
    StepSound(a, e, t);
    LeastUnits(a.capacity - Charged(Visible(e, t), a, t).tokens, a.refillRate, later - t);
  }

  /** How far a bucket is from full, at its own last refill. */
  ghost function Deficit(a: Args, e: Option<Entry>): real {
    a.capacity - TokensIn(a, e)
  }

  /** What is left of a deficit after refilling for `ms`. */
  ghost function LeftOver(deficit: real, ms: nat, rate: real): real {
    if deficit <= Accrued(ms, rate) then 0.0 else deficit - Accrued(ms, rate)
  }

  lemma LeftOverTwice(deficit: real, m: nat, n: nat, rate: real, more: real)
    requires rate >= 0.0 && more >= 0.0
    ensures LeftOver(LeftOver(deficit, m, rate) + more, n, rate) <= LeftOver(deficit, m + n, rate) + more
  {
    AccruedSum(m, n, rate);
    AccruedMono(0, m, rate);
    AccruedMono(0, n, rate);
  }

  lemma LeftOverMono(x: real, y: real, ms: nat, rate: real)
    requires x <= y
    ensures LeftOver(x, ms, rate) <= LeftOver(y, ms, rate)
  {
  }

  lemma RefillLeaves(a: Args, e: Option<Entry>, t: int)
    requires Proper(a) && Sound(a, e)
    ensures a.capacity - Refilled(Visible(e, t), a, t) <= LeftOver(Deficit(a, e), Moved(e, t), a.refillRate)
  {
    AccruedMono(0, Moved(e, t), a.refillRate);
    if e.Some? {
      assert Accrued(Moved(e, t), a.refillRate) == Gained(a, e.value.bucket, t);
    }
  }

  /**
    Other calls delay the refill only by what they take: the deficit is at most what is left of the old one plus the
    calls let through.
   */
  lemma {:induction false} DeficitOverRun(a: Args, e: Option<Entry>, times: seq<int>)
    requires Proper(a) && Sound(a, e)
    ensures Deficit(a, After(a, e, times))
         <= LeftOver(Deficit(a, e), ForwardMs(e, times), a.refillRate) + AllowedCount(a, e, times) as real
  {
    if times != [] {
      var before, t := times[..|times| - 1], times[|times| - 1];
      DeficitOverRun(a, e, before);
      AfterSound(a, e, before);
      var found := After(a, e, before);
      RefillLeaves(a, found, t);
      ForwardStep(a, e, times);
      LeftOverMono(Deficit(a, found),
                   LeftOver(Deficit(a, e), ForwardMs(e, before), a.refillRate) + AllowedCount(a, e, before) as real,
                   Moved(found, t), a.refillRate);
      LeftOverTwice(Deficit(a, e), ForwardMs(e, before), Moved(found, t), a.refillRate,
                    AllowedCount(a, e, before) as real);
    }
  }

  /** The forward moves cover at least the way from the stored timestamp to the last one. */
  lemma {:induction false} ForwardCovers(e: Option<Entry>, times: seq<int>)
    requires e.Some? && times != []
    ensures ForwardMs(e, times) >= times[|times| - 1] - e.value.bucket.lastRefillMs
  {
    if |times| > 1 {
      ForwardCovers(e, times[..|times| - 1]);
    }
  }

  /** Once the old deficit has been refilled, a bucket is short of no more than what was let through since. */
  lemma {:induction false} RefilledAfterRun(a: Args, e: Option<Entry>, times: seq<int>, later: int)
    requires Proper(a) && Sound(a, e) && e.Some? && later >= e.value.bucket.lastRefillMs
    requires Deficit(a, e) <= Accrued(later - e.value.bucket.lastRefillMs, a.refillRate)
    ensures Refilled(Visible(After(a, e, times), later), a, later) >= a.capacity - AllowedCount(a, e, times) as real
  {
    var found, all := After(a, e, times), times + [later];
    var letThrough := AllowedCount(a, e, times) as real;
    AfterSound(a, e, times);
    DeficitOverRun(a, e, times);
    RefillLeaves(a, found, later);
    assert all[..|times|] == times;
    ForwardStep(a, e, all);
    ForwardCovers(e, all);
    AccruedMono(later - e.value.bucket.lastRefillMs, ForwardMs(e, all), a.refillRate);
    LeftOverMono(Deficit(a, found), LeftOver(Deficit(a, e), ForwardMs(e, times), a.refillRate) + letThrough,
                 Moved(found, later), a.refillRate);
    LeftOverTwice(Deficit(a, e), ForwardMs(e, times), Moved(found, later), a.refillRate, letThrough);
  }

  /**
    A denied caller who returns at the reported reset or later is let in if meanwhile fewer than `capacity` other
    calls on the key were, whenever those calls came, whatever their clocks, and whether or not the key was evicted.
    The same goes for a caller who was not denied.
   */
  lemma {:induction false} DeniedCallerAdmittedAtReset(a: Args, e: Option<Entry>, t: int, times: seq<int>, later: int)
    requires Proper(a) && Sound(a, e)
    ensures var next, first := Some(Stored(Visible(e, t), a, t)), Reply(Visible(e, t), a, t);
            && (!first.allowed ==> first.resetMs > t)
            && (later >= first.resetMs && AllowedCount(a, next, times) as real < a.capacity ==>
                  Reply(Visible(After(a, next, times), later), a, later).allowed)
  {
    var next := Some(Stored(Visible(e, t), a, t));
    StepSound(a, e, t);
    ResetIsExact(a, e, t, t);
    if later >= Reply(Visible(e, t), a, t).resetMs && AllowedCount(a, next, times) as real < a.capacity {
      LeastUnits(Deficit(a, next), a.refillRate, later - t);
      RefilledAfterRun(a, next, times, later);
      assert AllowedCount(a, next, times) < a.capacity.Floor;
    }
  }

  /** Checks at one instant take a full bucket down one token at a time. */
  lemma {:induction false} DrainFull(a: Args, e: Option<Entry>, t: int, n: nat)
    requires Proper(a) && Sound(a, e) && Refilled(Visible(e, t), a, t) == a.capacity && n as real <= a.capacity
    ensures AllowedCount(a, e, Repeat(t, n)) == n
    ensures n > 0 ==> After(a, e, Repeat(t, n)) == Some(Entry(Bucket(a.capacity - n as real, t), t + LifetimeMs(a)))
  {
    if n > 0 {
      DrainFull(a, e, t, n - 1);
      assert Repeat(t, n)[..n - 1] == Repeat(t, n - 1);
    }
  }

  /** The number is exact: with `capacity` calls let through at the reset itself, the caller is denied again. */
  lemma {:induction false} AdmissionBoundIsTight(a: Args, e: Option<Entry>, t: int)
    requires Proper(a) && Sound(a, e)
    ensures var next, reset := Some(Stored(Visible(e, t), a, t)), Reply(Visible(e, t), a, t).resetMs;
            var times := Repeat(reset, a.capacity.Floor);
            && AllowedCount(a, next, times) as real == a.capacity
            && !Reply(Visible(After(a, next, times), reset), a, reset).allowed
  {
    var next, reset := Some(Stored(Visible(e, t), a, t)), Reply(Visible(e, t), a, t).resetMs;
    StepSound(a, e, t);
    ResetIsExact(a, e, t, t);
    ResetIsExact(a, e, t, reset);
    DrainFull(a, next, reset, a.capacity.Floor);
  }

  // ---------------------------------------------------------------- what it means for a policy

  /** The key lives long enough to refill an empty bucket completely. */
  predicate LifetimeCoversRefill(p: Policy) {
    1000 * CeilDiv(p.windowMs * 2, 1000) >= p.EffectiveBurst() * p.windowMs
  }

  lemma QuotientFacts(l: real, w: real)
    requires l > 0.0 && w > 0.0
    ensures l / (w / 1000.0) / 1000.0 > 0.0
    ensures w * (l / (w / 1000.0) / 1000.0) == l
  {
  }

  /** The arguments a policy produces are proper, and the rate delivers one limit per window. */
  lemma {:induction false} PolicyArgs(p: Policy)
    requires p.WellFormed()
    ensures Proper(ArgsOf(p))
    ensures Accrued(p.windowMs, ArgsOf(p).refillRate) == p.limit as real
    ensures p.BucketCapacity() == p.EffectiveBurst() * p.limit
  {
    QuotientFacts(p.limit as real, p.windowMs as real);
    AccruedIsProduct(p.windowMs, ArgsOf(p).refillRate);
    if p.burst > 1 {
      assert p.limit * p.burst >= p.limit * 1;
    }
  }

  /** A rate of one limit per window delivers `n` limits over `n` windows. */
  lemma {:induction false} AccruedOverWindows(each: real, window: nat, limit: int, n: nat)
    requires Accrued(window, each) == limit as real
    ensures n * window >= 0 && Accrued(n * window, each) == (n * limit) as real
  {
    if n > 0 {
      AccruedOverWindows(each, window, limit, n - 1);
      AccruedSum((n - 1) * window, window, each);
      assert n * window == (n - 1) * window + window;
      assert n * limit == (n - 1) * limit + limit;
    }
  }

  lemma GiftOfPolicy(p: Policy, a: Args)
    requires p.WellFormed() && a == ArgsOf(p)
    ensures LifetimeCoversRefill(p) <==> EvictionGift(a) == 0.0
    ensures EvictionGift(a) <= (Max(0, p.EffectiveBurst() - 2) * p.limit) as real
  {
    PolicyArgs(p);
    GiftZeroIff(a, p.windowMs, p.limit, p.EffectiveBurst());
    GiftAtMost(a, p.windowMs, p.limit, p.EffectiveBurst());
  }

  lemma GiftZeroIff(a: Args, window: nat, limit: int, burst: nat)
    requires Proper(a) && Accrued(window, a.refillRate) == limit as real
    requires a.ttlMs == window * 2 && a.capacity == (burst * limit) as real
    ensures LifetimeMs(a) >= burst * window <==> EvictionGift(a) == 0.0
  {
    AccruedOverWindows(a.refillRate, window, limit, burst);
    var life, need: nat := LifetimeMs(a), burst * window;
    if life >= need {
      AccruedMono(need, life, a.refillRate);
    } else {
      AccruedMono(life, need, a.refillRate);
    }
  }

  lemma GiftAtMost(a: Args, window: nat, limit: int, burst: nat)
    requires Proper(a) && Accrued(window, a.refillRate) == limit as real
    requires a.ttlMs == window * 2 && a.capacity == (burst * limit) as real && limit > 0
    ensures EvictionGift(a) <= (Max(0, burst - 2) * limit) as real
  {
    AccruedOverWindows(a.refillRate, window, limit, 2);
    AccruedMono(2 * window, LifetimeMs(a), a.refillRate);
    assert (burst - 2) * limit == burst * limit - 2 * limit;
    if burst >= 2 {
      assert (burst - 2) * limit >= 0;
    }
  }

  /** Eviction never changes an answer, in any run, exactly for the policies whose key outlives a full refill. */
  lemma EvictionInvisibleIff(p: Policy)
    requires p.WellFormed()
    ensures (forall times, t :: AnswerAt(ArgsOf(p), times, t) == KeptAnswerAt(ArgsOf(p), times, t))
       <==> LifetimeCoversRefill(p)
  {
    var a := ArgsOf(p);
    PolicyArgs(p);
    GiftOfPolicy(p, a);
    if LifetimeCoversRefill(p) {
      forall times, t
        ensures AnswerAt(a, times, t) == KeptAnswerAt(a, times, t)
      {
        EvictionInvisible(a, times, t);
      }
    } else {
      EvictionVisible(a);
    }
  }

  /** For windows of whole half seconds the condition is exactly a burst factor of at most two. */
  lemma {:induction false} CoveredIffBurstAtMostTwo(p: Policy)
    requires p.WellFormed() && p.windowMs % 500 == 0
    ensures LifetimeCoversRefill(p) <==> p.burst <= 2
  {
    var k := p.windowMs / 500;
    assert p.windowMs * 2 == 1000 * k;
    assert CeilDiv(1000 * k, 1000) == k;
    BurstTimesWindow(p.EffectiveBurst(), p.windowMs);
  }

  lemma BurstTimesWindow(burst: int, window: int)
    requires window > 0
    ensures 2 * window >= burst * window <==> burst <= 2
  {
    if burst > 2 {
      assert (burst - 2) * window > 0;
    } else {
      assert (2 - burst) * window >= 0;
    }
  }

  /** In the policy matrix only the enterprise redirect policy can be told apart from one that never forgets. */
  lemma MatrixEviction(tier: Tier, endpoint: EndpointClass)
    ensures var p := GetPolicy(tier, endpoint);
            && p.WellFormed()
            && (LifetimeCoversRefill(p) <==> !(tier == Enterprise && endpoint == Redirect))
            && EvictionGift(ArgsOf(p)) <= if tier == Enterprise && endpoint == Redirect then 100000.0 else 0.0
  {
    var p := GetPolicy(tier, endpoint);
    CoveredIffBurstAtMostTwo(p);
    GiftOfPolicy(p, ArgsOf(p));
  }

  /**
    The matrix in numbers: what each tier may take at once and per minute, how tiers compare, and that anything unknown
    is held to the least of them, that of an unauthenticated write.
   */
  lemma PolicyNumbers(tier: Tier, endpoint: EndpointClass)
    ensures var p := GetPolicy(tier, endpoint);
            && p.windowMs == 60_000 && p.RefillRatePerSecond() * 60.0 == p.limit as real
            && p.BucketCapacity() >= 10 && p.limit >= 10
            && (tier.OtherTier? || endpoint.OtherClass? ==> p == GetPolicy(Unauthenticated, Write))
    ensures GetPolicy(Unauthenticated, Redirect).BucketCapacity() == 600
         && GetPolicy(Free, Redirect).BucketCapacity() == 2000
         && GetPolicy(Pro, Redirect).BucketCapacity() == 20_000
         && GetPolicy(Enterprise, Redirect).BucketCapacity() == 300_000
         && GetPolicy(Enterprise, Redirect).limit == 100_000
    ensures !tier.OtherTier? ==> GetPolicy(tier, Read) == GetPolicy(tier, Write)
    ensures GetPolicy(Unauthenticated, Read) == Policy(10, 60_000, 1)
    ensures GetPolicy(Free, Read).limit == 10 * GetPolicy(Unauthenticated, Read).limit
    ensures GetPolicy(Pro, Read).limit == 10 * GetPolicy(Free, Read).limit
    ensures GetPolicy(Enterprise, Read).limit == 10 * GetPolicy(Pro, Read).limit
    ensures GetPolicy(Pro, Read).BucketCapacity() == 1000 && GetPolicy(Enterprise, Read).BucketCapacity() == 20_000
    ensures !endpoint.OtherClass? ==>
              && GetPolicy(Unauthenticated, endpoint).limit < GetPolicy(Free, endpoint).limit
              && GetPolicy(Free, endpoint).limit < GetPolicy(Pro, endpoint).limit
              && GetPolicy(Pro, endpoint).limit < GetPolicy(Enterprise, endpoint).limit
  {
  }

  /**
    In every run, from every sound stored state: capacity, plus refill for the forward time, plus a gift per eviction.
   */
  lemma {:induction false} RateBound(a: Args, e: Option<Entry>, times: seq<int>)
    requires Proper(a) && Sound(a, e)
    ensures AllowedCount(a, e, times) as real
         <= a.capacity + Accrued(ForwardMs(e, times), a.refillRate)
            + Accrued(EvictionCount(a, e, times), EvictionGift(a))
  {
    Potential(a, e, times);
    IncomeTotals(a, e, times);
    AfterSound(a, e, times);
  }

  /** With clocks that never go back and nothing gained by eviction: capacity + limit * T / window, over integers. */
  lemma {:induction false} RateBoundNonDecreasing(p: Policy, times: seq<int>)
    requires p.WellFormed() && NonDecreasing(times) && times != []
    requires EvictionCount(ArgsOf(p), None, times) == 0 || LifetimeCoversRefill(p)
    ensures AllowedCount(ArgsOf(p), None, times) * p.windowMs
         <= p.BucketCapacity() * p.windowMs + p.limit * (times[|times| - 1] - times[0])
  {
    PolicyArgs(p);
    GiftOfPolicy(p, ArgsOf(p));
    RateBound(ArgsOf(p), None, times);
    ForwardOfNonDecreasing(times);
    AccruedZero(EvictionCount(ArgsOf(p), None, times), EvictionGift(ArgsOf(p)));
    ClearDenominator(AllowedCount(ArgsOf(p), None, times), p.BucketCapacity(), ForwardMs(None, times),
                     ArgsOf(p).refillRate, p.windowMs, p.limit);
  }

  lemma {:induction false} AccruedZero(units: nat, each: real)
    requires units == 0 || each == 0.0
    ensures Accrued(units, each) == 0.0
  {
    if units > 0 {
      AccruedZero(units - 1, each);
    }
  }

  lemma ClearDenominator(n: nat, c: nat, f: nat, each: real, w: nat, l: int)
    requires n as real <= c as real + Accrued(f, each) && Accrued(w, each) == l as real && each > 0.0
    ensures n * w <= c * w + l * f
  {
    if n > c {
      AccruedOverWindows(each, w, l, f);
      AccruedRepeats(each, f, w, n - c);
      assert f * w == w * f;
      assert (n - c) * w <= f * l;
    } else {
      assert n * w <= c * w;
      assert l > 0 || w == 0 by {
        AccruedMono(0, w, each);
      }
      assert l * f >= 0;
    }
  }

  /** If `m` tokens accrue within `f` units, `w` times as many accrue within `w` times as many units. */
  lemma {:induction false} AccruedRepeats(each: real, f: nat, w: nat, m: nat)
    requires m as real <= Accrued(f, each)
    ensures w * f >= 0 && (m * w) as real <= Accrued(w * f, each)
  {
    if w > 0 {
      AccruedRepeats(each, f, w - 1, m);
      AccruedSum((w - 1) * f, f, each);
      assert w * f == (w - 1) * f + f;
      assert m * w == m * (w - 1) + m;
    }
  }

  lemma TightForArgs(a: Args, later: int, n: nat)
    requires Proper(a) && 0 <= later < LifetimeMs(a)
    requires n as real <= Accrued(later, a.refillRate) && n as real <= a.capacity
    ensures AllowedCount(a, None, Repeat(0, a.capacity.Floor) + Repeat(later, n)) == a.capacity.Floor + n
  {
    var c := a.capacity.Floor;
    DrainAtZero(a, c);
    RunsCompose(a, None, Repeat(0, c), Repeat(later, n));
    RefillThenDrain(a, After(a, None, Repeat(0, c)), later, n);
  }

  /** The bound is attained: drain at zero, then as many calls as have been refilled by `later` all pass. */
  lemma {:induction false} RateBoundIsTight(p: Policy, later: int, n: nat)
    requires p.WellFormed() && 0 <= later < LifetimeMs(ArgsOf(p))
    requires n == (later as real * ArgsOf(p).refillRate).Floor && n <= p.BucketCapacity()
    ensures var times := Repeat(0, p.BucketCapacity()) + Repeat(later, n);
            AllowedCount(ArgsOf(p), None, times) == p.BucketCapacity() + n
  {
    PolicyArgs(p);
    AccruedIsProduct(later, ArgsOf(p).refillRate);
    TightForArgs(ArgsOf(p), later, n);
  }

  // ---------------------------------------------------------------- many keys

  /** The whole keyspace after interleaved checks; a key names its tier and class, so it fixes its arguments. */
  ghost function StoreAfter(argsOf: string -> Args, checks: seq<(string, int)>): map<string, Entry> {
    if checks == [] then map[]
    else
      var store := StoreAfter(argsOf, checks[..|checks| - 1]);
      var (key, t) := checks[|checks| - 1];
      store[key := Stored(Visible(Lookup(store, key), t), argsOf(key), t)]
  }

  ghost function TimesOf(key: string, checks: seq<(string, int)>): seq<int> {
    if checks == [] then []
    else
      var rest := TimesOf(key, checks[..|checks| - 1]);
      if checks[|checks| - 1].0 == key then rest + [checks[|checks| - 1].1] else rest
  }

  /** Callers do not disturb each other: a key ends as if only its own checks had been made. */
  lemma {:induction false} KeysAreIndependent(argsOf: string -> Args, checks: seq<(string, int)>, key: string)
    ensures Lookup(StoreAfter(argsOf, checks), key) == After(argsOf(key), None, TimesOf(key, checks))
  {
    if checks != [] {
      var before := checks[..|checks| - 1];
      KeysAreIndependent(argsOf, before, key);
      var times := TimesOf(key, before);
      assert (times + [checks[|checks| - 1].1])[..|times|] == times;
    }
  }
}
