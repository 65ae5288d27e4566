/**
  One url per short code: the row, the two Redis keys, and the resolve code over them.
  Times are milliseconds; TTLs are positive.
 */
module UrlCache {
  import opened Wrappers

  datatype UrlStatus = Active | Expired | Disabled | Deleted

  /** The fields of a url that decide a redirect. */
  datatype Row = Row(target: string, status: UrlStatus, expiresAt: Option<int>) {
    predicate IsExpired(now: int) {
      expiresAt.Some? && now > expiresAt.value
    }

    predicate CanRedirect(now: int) {
      status == Active && !IsExpired(now)
    }
  }

  /** A code's row in the table. Soft deletion keeps the row, so its code is never free again. */
  datatype DbValue = Absent | Live(row: Row) | SoftDeleted(row: Row)

  datatype Decision = Redirect(target: string) | NotFound | UrlExpired | UrlDisabled

  function Refusal(row: Row, now: int): Decision {
    if row.IsExpired(now) then UrlExpired
    else match row.status
      case Disabled => UrlDisabled
      case Deleted => NotFound
      case _ => NotFound
  }

  function DecisionFor(row: Row, now: int): Decision {
    if row.CanRedirect(now) then Redirect(row.target) else Refusal(row, now)
  }

  /** What a direct look at the table decides. */
  function Direct(db: DbValue, now: int): Decision {
    if db.Live? then DecisionFor(db.row, now) else NotFound
  }

  predicate Redirectable(db: DbValue, now: int) {
    db.Live? && db.row.CanRedirect(now)
  }

  /**
    The decisions in the row's fields: an active row is served up to and including its expiry; after it the answer is
    expired whatever the status; before it a disabled row says so and any other is not found; so is a code with no row.
   */
  lemma DecisionsInFields(row: Row, now: int)
    ensures var due := row.expiresAt.Some? && now > row.expiresAt.value;
            && (row.status == Active && !due ==> Direct(Live(row), now) == Redirect(row.target))
            && (due ==> Direct(Live(row), now) == UrlExpired)
            && (row.status == Disabled && !due ==> Direct(Live(row), now) == UrlDisabled)
            && (row.status != Active && row.status != Disabled && !due ==> Direct(Live(row), now) == NotFound)
            && (row.CanRedirect(now) <==> row.status == Active && !due)
            && (Redirectable(Live(row), now) <==> row.status == Active && !due)
            && DecisionFor(row, now) == Direct(Live(row), now)
            && Direct(Absent, now) == Direct(SoftDeleted(row), now) == NotFound
            && !Redirectable(Absent, now) && !Redirectable(SoftDeleted(row), now)
  {
  }

  /** A cached value with its expiry; `readAt` is when the database held it and only the proofs look at it. */
  datatype Positive = Positive(row: Row, expiresAt: int, readAt: int)

  datatype Negative = Negative(expiresAt: int, seen: DbValue, readAt: int)

  /** A write to the cache that has been decided but not carried out. */
  datatype Fill = FillPositive(row: Row, readAt: int) | FillNegative(seen: DbValue, readAt: int)

  predicate LivePositive(p: Option<Positive>, now: int) {
    p.Some? && now < p.value.expiresAt
  }

  predicate LiveNegative(n: Option<Negative>, now: int) {
    n.Some? && now < n.value.expiresAt
  }

  /** What the read path leaves behind for the cache after looking at the table. */
  function FillFor(db: DbValue, now: int): Fill {
    if Redirectable(db, now) then FillPositive(db.row, now) else FillNegative(db, now)
  }

  function At<V>(m: map<string, V>, code: string): Option<V> {
    if code in m then Some(m[code]) else None
  }

  datatype Lookup = Hit(row: Row) | Miss | Failed

  datatype Health = Fine | Unreachable | Corrupt

  datatype Reply = Decided(decision: Decision) | ServerError

  /** What a PATCH changes: fields that are not given stay as they were read. */
  datatype Patch = Patch(target: Option<string>, expiresAt: Option<Option<int>>)

  function ApplyPatch(row: Row, patch: Patch): Row {
    Row(if patch.target.Some? then patch.target.value else row.target,
        row.status,
        if patch.expiresAt.Some? then patch.expiresAt.value else row.expiresAt)
  }

  datatype Resolved = Resolved(reply: Reply, fill: Option<Fill>)

  /**
    A resolve with nothing else in between: the row of a positive entry, else a negative entry, else the table and a
    fill.
   */
  function Resolve(hit: Option<Row>, negative: bool, db: DbValue, now: int, existsFine: bool, dbFine: bool): Resolved {
    if hit.Some? then Resolved(Decided(DecisionFor(hit.value, now)), None)
    else if existsFine && negative then Resolved(Decided(NotFound), None)
    else if dbFine then Resolved(Decided(Direct(db, now)), Some(FillFor(db, now)))
    else Resolved(ServerError, None)
  }

  /** What a PATCH stores: the fields it gives, a removed expiry included, and the others as they were. */
  lemma PatchInFields(row: Row, target: string, expiry: Option<int>)
    ensures ApplyPatch(row, Patch(Some(target), Some(expiry))) == Row(target, row.status, expiry)
    ensures ApplyPatch(row, Patch(Some(target), None)) == Row(target, row.status, row.expiresAt)
    ensures ApplyPatch(row, Patch(None, Some(expiry))) == Row(row.target, row.status, expiry)
    ensures ApplyPatch(row, Patch(None, None)) == row
  {
  }

  /**
    A request with nothing in between, in fields: a hit decides alone; else a negative entry that is seen answers not
    found; else the table decides, and leaves its row for the cache exactly if that may be served now.
   */
  lemma RequestInFields(hit: Option<Row>, negative: bool, row: Row, now: int, existsFine: bool)
    ensures var due := row.expiresAt.Some? && now > row.expiresAt.value;
            var answer := if due then UrlExpired
                          else if row.status == Active then Redirect(row.target)
                          else if row.status == Disabled then UrlDisabled
                          else NotFound;
            && Resolve(Some(row), negative, Absent, now, existsFine, false) == Resolved(Decided(answer), None)
            && Resolve(None, true, Live(row), now, true, true) == Resolved(Decided(NotFound), None)
            && Resolve(None, false, Live(row), now, existsFine, true)
               == Resolved(Decided(answer),
                           Some(if answer.Redirect? then FillPositive(row, now) else FillNegative(Live(row), now)))
            && Resolve(None, negative, Live(row), now, false, true) == Resolve(None, false, Live(row), now, true, true)
            && Resolve(None, false, Absent, now, existsFine, true)
               == Resolved(Decided(NotFound), Some(FillNegative(Absent, now)))
            && Resolve(None, false, Live(row), now, existsFine, false) == Resolved(ServerError, None)
  {
    DecisionsInFields(row, now);
  }

  // ---------------------------------------------------------------- the key space

  const POSITIVE_PREFIX := "url:v1:"

  const MARK := "notfound:"

  const NEGATIVE_PREFIX := POSITIVE_PREFIX + MARK

  function PositiveKey(code: string): string {
    POSITIVE_PREFIX + code
  }

  function NegativeKey(code: string): string {
    NEGATIVE_PREFIX + code
  }

  /** A stored value: a serialised row, or the marker "1", which does not decode as a row. */
  datatype Value = RowValue(positive: Positive) | Marker(negative: Negative)

  type Keys = map<string, Value>

  function ExpiresAt(v: Value): int {
    match v
    case RowValue(positive) => positive.expiresAt
    case Marker(negative) => negative.expiresAt
  }

  /** A key is there until it expires. */
  predicate Exists(keys: Keys, key: string, now: int) {
    key in keys && now < ExpiresAt(keys[key])
  }

  /** The row a lookup of the code gets, when Redis answers and the value decodes. */
  function HitAt(keys: Keys, code: string, now: int, health: Health): Option<Row> {
    var key := PositiveKey(code);
    if health == Fine && Exists(keys, key, now) && keys[key].RowValue? then Some(keys[key].positive.row) else None
  }

  /** What a lookup of the code finds but cannot decode. */
  predicate Undecodable(keys: Keys, code: string, now: int, health: Health) {
    var key := PositiveKey(code);
    health != Unreachable && Exists(keys, key, now) && (health == Corrupt || keys[key].Marker?)
  }

  /** The keys after a lookup: a value that does not decode is deleted. */
  function AfterGet(keys: Keys, code: string, now: int, health: Health): Keys {
    if Undecodable(keys, code, now, health) then keys - {PositiveKey(code)} else keys
  }

  /**
    The positive key of one code is the negative key of another exactly when it is that code with the marker in front.
   */
  lemma KeysMeetIff(x: string, y: string)
    ensures PositiveKey(x) == PositiveKey(y) <==> x == y
    ensures NegativeKey(x) == NegativeKey(y) <==> x == y
    ensures PositiveKey(x) == NegativeKey(y) <==> x == MARK + y
  {
    CancelPrefix(POSITIVE_PREFIX, x, y);
    CancelPrefix(NEGATIVE_PREFIX, x, y);
    CancelPrefix(POSITIVE_PREFIX, x, MARK + y);
    assert NEGATIVE_PREFIX + y == POSITIVE_PREFIX + (MARK + y);
  }

  lemma CancelPrefix(prefix: string, x: string, y: string)
    ensures prefix + x == prefix + y <==> x == y
  {
    assert (prefix + x)[|prefix|..] == x && (prefix + y)[|prefix|..] == y;
  }

  /** No code that can be created has the marker in front, so no row is ever cached under a negative key. */
  predicate Marked(code: string) {
    MARK <= code
  }

  /**
    What a lookup of another code does to an unmarked code's two keys: nothing, but for one code, whose lookup deletes
    the negative key if that is live and Redis answers.
   */
  lemma OthersOnlyClearNegative(keys: Keys, x: string, y: string, now: int, health: Health)
    requires x != y && !Marked(x)
    ensures var after := AfterGet(keys, y, now, health);
            && At(after, PositiveKey(x)) == At(keys, PositiveKey(x))
            && (At(after, NegativeKey(x)) == At(keys, NegativeKey(x))
                <==> !(y == MARK + x && Undecodable(keys, y, now, health)))
    ensures At(AfterGet(keys, y, now, health), NegativeKey(x)) in {None, At(keys, NegativeKey(x))}
  {
    KeysMeetIff(x, y);
    KeysMeetIff(y, x);
  }

  /** What was set is found until its time is up, what was marked not found is too, and neither after a delete. */
  lemma CacheRoundTrips(keys: Keys, code: string, row: Row, now: int, ttl: int, seen: DbValue, readAt: int, later: int)
    ensures var stored := keys[PositiveKey(code) := RowValue(Positive(row, now + ttl, readAt))];
            HitAt(stored, code, later, Fine) == if later - now < ttl then Some(row) else None
    ensures var marked := keys[NegativeKey(code) := Marker(Negative(now + ttl, seen, readAt))];
            Exists(marked, NegativeKey(code), later) <==> later - now < ttl
    ensures var deleted := keys - {PositiveKey(code), NegativeKey(code)};
            HitAt(deleted, code, later, Fine) == None && !Exists(deleted, NegativeKey(code), later)
  {
  }

  /** Writes and invalidations of other codes, when both are unmarked, touch neither key. */
  lemma UnmarkedKeysAreApart(x: string, y: string)
    requires x != y && !Marked(x) && !Marked(y)
    ensures {PositiveKey(x), NegativeKey(x)} !! {PositiveKey(y), NegativeKey(y)}
  {
    KeysMeetIff(x, y);
    KeysMeetIff(y, x);
  }

  /** The key space in Redis. */
  class UrlCache {
    var keys: Keys
    const cacheTtl: int
    const negativeTtl: int

    constructor (cacheTtl: int, negativeTtl: int)
      ensures keys == map[]
      ensures this.cacheTtl == cacheTtl && this.negativeTtl == negativeTtl
    {
      keys := map[];
      this.cacheTtl, this.negativeTtl := cacheTtl, negativeTtl;
    }

    /** A value that does not decode is deleted and reported as an error, so the next request can refill the key. */
    method Get(code: string, now: int, health: Health) returns (r: Lookup)
      modifies this
      ensures keys == AfterGet(old(keys), code, now, health)
      ensures r == if HitAt(old(keys), code, now, health).Some? then Hit(HitAt(old(keys), code, now, health).value)
                   else if health == Unreachable || Undecodable(old(keys), code, now, health) then Failed
                   else Miss
    {
      var key := PositiveKey(code);
      if health == Unreachable {
        return Failed;
      }
      if key !in keys || now >= ExpiresAt(keys[key]) {
        return Miss;
      }
      if health == Corrupt || keys[key].Marker? {
        keys := keys - {key};
        return Failed;
      }
      return Hit(keys[key].positive.row);
    }

    method Set(code: string, row: Row, now: int, readAt: int)
      modifies this
      ensures keys == old(keys)[PositiveKey(code) := RowValue(Positive(row, now + cacheTtl, readAt))]
    {
      keys := keys[PositiveKey(code) := RowValue(Positive(row, now + cacheTtl, readAt))];
    }

    method SetNotFound(code: string, now: int, seen: DbValue, readAt: int)
      modifies this
      ensures keys == old(keys)[NegativeKey(code) := Marker(Negative(now + negativeTtl, seen, readAt))]
    {
      keys := keys[NegativeKey(code) := Marker(Negative(now + negativeTtl, seen, readAt))];
    }

    method IsNotFound(code: string, now: int) returns (found: bool)
      ensures found <==> Exists(keys, NegativeKey(code), now)
    {
      found := NegativeKey(code) in keys && now < ExpiresAt(keys[NegativeKey(code)]);
    }

    /** One DEL for both keys. */
    method Delete(code: string)
      modifies this
      ensures keys == old(keys) - {PositiveKey(code), NegativeKey(code)}
    {
      keys := keys - {PositiveKey(code), NegativeKey(code)};
    }

    /**
      Resolve, with nothing else happening in between. A negative entry answers only when the positive lookup did not:
      it was a miss, or it failed.
     */
    method Handle(code: string, table: map<string, DbValue>, now: int, getHealth: Health, existsFine: bool,
                  dbFine: bool)
      returns (reply: Reply, fill: Option<Fill>)
      modifies this
      ensures var db := if code in table then table[code] else Absent;
              Resolved(reply, fill)
              == Resolve(HitAt(old(keys), code, now, getHealth), Exists(old(keys), NegativeKey(code), now), db, now,
                         existsFine, dbFine)
      ensures keys == AfterGet(old(keys), code, now, getHealth)
    {
      KeysMeetIff(code, code);
      var cached := Get(code, now, getHealth);
      if cached.Hit? {
        if !cached.row.CanRedirect(now) {
          return Decided(Refusal(cached.row, now)), None;
        }
        return Decided(Redirect(cached.row.target)), None;
      }
      if existsFine {
        var isNegative := IsNotFound(code, now);
        if isNegative {
          return Decided(NotFound), None;
        }
      }
      if !dbFine {
        return ServerError, None;
      }
      if code !in table || !table[code].Live? {
        return Decided(NotFound), Some(FillNegative(if code in table then table[code] else Absent, now));
      }
      var u := table[code].row;
      if !u.CanRedirect(now) {
        return Decided(Refusal(u, now)), Some(FillNegative(table[code], now));
      }
      return Decided(Redirect(u.target)), Some(FillPositive(u, now));
    }
  }
}
