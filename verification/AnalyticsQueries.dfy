/**
  The read side of analytics: one-shot summary, bucketed series, and breakdown by a dimension, over the event table.
*/
module AnalyticsQueries {
  import opened Wrappers
  import opened Aggregation

  /** A row of redirect_events; `at` in microseconds. */
  datatype Row = Row(
    code: string,
    at: int,
    bot: bool,
    ip: Option<string>,
    country: Option<string>,
    device: Option<string>,
    browser: Option<string>,
    os: Option<string>,
    referrer: Option<string>)

  /** The rows a query's WHERE clause keeps. */
  function Hits(rows: seq<Row>, code: string, start: int, end: int, bot: bool): (hits: seq<Row>)
    ensures forall row :: row in hits <==> row in rows && row.code == code && start <= row.at < end && row.bot == bot
  {
    if rows == [] then []
    else
      var init, last := rows[..|rows| - 1], rows[|rows| - 1];
      assert rows == init + [last];
      var hits := Hits(init, code, start, end, bot);
      if last.code == code && start <= last.at < end && last.bot == bot then hits + [last] else hits
  }

  /** What COUNT(DISTINCT ip_hash) counts: NULL is not a value. */
  function Ips(rows: seq<Row>): set<string> {
    set row | row in rows && row.ip.Some? :: row.ip.value
  }

  datatype Summary = Summary(totalClicks: nat, uniqueIPs: nat, botClicks: nat)

  function GetSummary(rows: seq<Row>, code: string, start: int, end: int): Summary {
    var humans := Hits(rows, code, start, end, false);
    Summary(|humans|, |Ips(humans)|, |Hits(rows, code, start, end, true)|)
  }

  // ---------------------------------------------------------------- what is counted

  /** The positions in the table of the rows a query keeps. */
  ghost function Kept(rows: seq<Row>, code: string, start: int, end: int, bot: bool): set<nat> {
    set i: nat | i < |rows| && rows[i].code == code && start <= rows[i].at < end && rows[i].bot == bot
  }

  predicate IsKept(row: Row, code: string, start: int, end: int, bot: bool) {
    row.code == code && start <= row.at < end && row.bot == bot
  }

  lemma KeptOneMore(rows: seq<Row>, row: Row, code: string, start: int, end: int, bot: bool)
    ensures Kept(rows + [row], code, start, end, bot)
         == Kept(rows, code, start, end, bot) + if IsKept(row, code, start, end, bot) then {|rows|} else {}
  {
  }

  lemma {:induction false} HitsCountPositions(rows: seq<Row>, code: string, start: int, end: int, bot: bool)
    ensures |Hits(rows, code, start, end, bot)| == |Kept(rows, code, start, end, bot)|
  {
    if rows != [] {
      var init, row := rows[..|rows| - 1], rows[|rows| - 1];
      HitsCountPositions(init, code, start, end, bot);
      assert rows == init + [row];
      KeptOneMore(init, row, code, start, end, bot);
      assert |init| !in Kept(init, code, start, end, bot);
    }
  }

  /** Every row that is kept is kept as often as it is there. */
  lemma {:induction false} HitsKeepMultiplicity(rows: seq<Row>, code: string, start: int, end: int, bot: bool, row: Row)
    ensures multiset(Hits(rows, code, start, end, bot))[row]
         == if row.code == code && start <= row.at < end && row.bot == bot then multiset(rows)[row] else 0
  {
    if rows != [] {
      var init, last := rows[..|rows| - 1], rows[|rows| - 1];
      HitsKeepMultiplicity(init, code, start, end, bot, row);
      assert rows == init + [last];
    }
  }

  /** The summary in the table's own terms: how many rows of humans, of bots, and how many different addresses. */
  lemma {:induction false} SummaryCounts(rows: seq<Row>, code: string, start: int, end: int)
    ensures GetSummary(rows, code, start, end).totalClicks
         == |set i: nat | i < |rows| && rows[i].code == code && start <= rows[i].at < end && !rows[i].bot|
    ensures GetSummary(rows, code, start, end).botClicks
         == |set i: nat | i < |rows| && rows[i].code == code && start <= rows[i].at < end && rows[i].bot|
    ensures GetSummary(rows, code, start, end).uniqueIPs
         == |set i: nat | i < |rows| && rows[i].code == code && start <= rows[i].at < end && !rows[i].bot
                       && rows[i].ip.Some? :: rows[i].ip.value|
  {
    HitsCountPositions(rows, code, start, end, false);
    HitsCountPositions(rows, code, start, end, true);
    assert Kept(rows, code, start, end, false)
        == set i: nat | i < |rows| && rows[i].code == code && start <= rows[i].at < end && !rows[i].bot;
    assert Kept(rows, code, start, end, true)
        == set i: nat | i < |rows| && rows[i].code == code && start <= rows[i].at < end && rows[i].bot;
    var hits := Hits(rows, code, start, end, false);
    var ips := set i: nat | i < |rows| && rows[i].code == code && start <= rows[i].at < end && !rows[i].bot
                         && rows[i].ip.Some? :: rows[i].ip.value;
    forall ip | ip in Ips(hits)
      ensures ip in ips
    {
      var row :| row in hits && row.ip == Some(ip);
      var i :| 0 <= i < |rows| && rows[i] == row;
    }
    assert Ips(hits) == ips;
  }

  // ---------------------------------------------------------------- time series

  datatype Granularity = OneMinute | OneHour | OneDay | OtherGranularity(name: string)

  const SECOND := 1_000_000

  const MINUTE := 60 * SECOND

  const HOUR := 60 * MINUTE

  const DAY := 24 * HOUR

  /** The interval of a granularity, None for the unsupported ones. */
  function Width(g: Granularity): Option<int> {
    match g
    case OneMinute => Some(MINUTE)
    case OneHour => Some(HOUR)
    case OneDay => Some(DAY)
    case OtherGranularity(_) => None
  }

  /** Whether the window is short enough; an unsupported granularity is not this check's business. */
  function ValidateWindowGranularity(start: int, end: int, g: Granularity): (ok: bool) {
    match g
    case OneMinute => end - start <= 24 * HOUR
    case OneHour => end - start <= 30 * 24 * HOUR
    case OneDay => end - start <= 365 * 24 * HOUR
    case OtherGranularity(_) => true
  }

  /** date_trunc in UTC. */
  function Trunc(width: int, at: int): int
    requires width > 0
  {
    at - at % width
  }

  /** generate_series(first, last, width). */
  function GenerateSeries(first: int, last: int, width: int): (buckets: seq<int>)
    requires width > 0
    ensures buckets == [] <==> first > last
    ensures buckets != [] ==> buckets[0] == first && buckets[|buckets| - 1] <= last < buckets[|buckets| - 1] + width
    ensures forall i :: 0 <= i < |buckets| - 1 ==> buckets[i + 1] == buckets[i] + width
    decreases last - first + width
  {
    if first > last then [] else [first] + GenerateSeries(first + width, last, width)
  }

  function BucketOf(width: int): Row -> int
    requires width > 0
  {
    (row: Row) => Trunc(width, row.at)
  }

  function Buckets(start: int, end: int, width: int): seq<int>
    requires width > 0
  {
    GenerateSeries(Trunc(width, start), Trunc(width, end - 1), width)
  }

  datatype Point = Point(bucketStart: int, clicks: nat, uniqueIPs: nat)

  function Max(a: int, b: int): int {
    if a < b then b else a
  }

  function Min(a: int, b: int): int {
    if a < b then a else b
  }

  /** The point of a bucket is the summary of the part of the window that lies in it. */
  ghost function PointOf(rows: seq<Row>, code: string, start: int, end: int, bucket: int, width: int): Point {
    var s := GetSummary(rows, code, Max(start, bucket), Min(end, bucket + width));
    Point(bucket, s.totalClicks, s.uniqueIPs)
  }

  ghost function PointsOf(rows: seq<Row>, code: string, start: int, end: int, buckets: seq<int>,
                          width: int): seq<Point> {
    seq(|buckets|, i requires 0 <= i < |buckets| => PointOf(rows, code, start, end, buckets[i], width))
  }

  ghost function Series(rows: seq<Row>, code: string, start: int, end: int, width: int): seq<Point>
    requires width > 0
  {
    PointsOf(rows, code, start, end, Buckets(start, end, width), width)
  }

  lemma OneMorePoint(rows: seq<Row>, code: string, start: int, end: int, buckets: seq<int>, i: nat, width: int)
    requires i < |buckets|
    ensures PointsOf(rows, code, start, end, buckets[..i + 1], width)
         == PointsOf(rows, code, start, end, buckets[..i], width) + [PointOf(rows, code, start, end, buckets[i], width)]
  {
  }

  /** The group of a bucket is what the WHERE clause keeps of the bucket. */
  lemma {:induction false} GroupIsWindow(rows: seq<Row>, code: string, start: int, end: int, bucket: int, width: int)
    requires width > 0 && bucket % width == 0
    ensures Group(Hits(rows, code, start, end, false), BucketOf(width), bucket)
         == Hits(rows, code, Max(start, bucket), Min(end, bucket + width), false)
  {
    if rows != [] {
      GroupIsWindow(rows[..|rows| - 1], code, start, end, bucket, width);
      TruncIff(width, rows[|rows| - 1].at, bucket);
      var hits := Hits(rows[..|rows| - 1], code, start, end, false);
      assert (hits + [rows[|rows| - 1]])[..|hits|] == hits;
    }
  }

  lemma {:induction false} TruncIff(width: int, at: int, bucket: int)
    requires width > 0 && bucket % width == 0
    ensures Trunc(width, at) == bucket <==> bucket <= at < bucket + width
  {
    if bucket <= at < bucket + width {
      SameQuotient(width, bucket / width, at);
    }
  }

  lemma {:induction false} SameQuotient(width: int, q: int, at: int)
    requires width > 0 && width * q <= at < width * q + width
    ensures at - at % width == width * q
  {
    var d := at / width - q;
    assert at == width * (at / width) + at % width;
    assert width * (at / width) == width * q + width * d;
    MultipleIsFar(width, d);
  }

  lemma MultipleIsFar(width: int, d: int)
    requires width > 0
    ensures d >= 1 ==> width * d >= width
    ensures d <= -1 ==> width * d <= -width
  {
  }

  lemma {:induction false} SeriesIsAligned(first: int, last: int, width: int)
    requires width > 0 && first % width == 0
    ensures forall i :: 0 <= i < |GenerateSeries(first, last, width)| ==>
              GenerateSeries(first, last, width)[i] % width == 0
    decreases last - first + width
  {
    if first <= last {
      NextIsAligned(first, width);
      SeriesIsAligned(first + width, last, width);
    }
  }

  lemma {:induction false} NextIsAligned(first: int, width: int)
    requires width > 0 && first % width == 0
    ensures (first + width) % width == 0
  {
    var q := first / width;
    assert first + width == width * (q + 1);
    SameQuotient(width, q + 1, first + width);
  }

  lemma {:induction false} TruncIsAligned(width: int, at: int)
    requires width > 0
    ensures Trunc(width, at) % width == 0 && Trunc(width, at) <= at < Trunc(width, at) + width
  {
    var q := at / width;
    assert at - at % width == width * q;
    SameQuotient(width, q, width * q);
  }

  lemma {:induction false} PointIsGroup(rows: seq<Row>, code: string, start: int, end: int, bucket: int, width: int)
    requires width > 0 && bucket % width == 0
    ensures var group := Group(Hits(rows, code, start, end, false), BucketOf(width), bucket);
            PointOf(rows, code, start, end, bucket, width) == Point(bucket, |group|, |Ips(group)|)
  {
    GroupIsWindow(rows, code, start, end, bucket, width);
  }

  /** GROUP BY bucket: only buckets with rows appear. */
  function EventCounts(hits: seq<Row>, key: Row -> int): map<int, Point> {
    map b | b in (set row | row in hits :: key(row)) :: Point(b, |Group(hits, key, b)|, |Ips(Group(hits, key, b))|)
  }

  /** The left join with zero defaults gives every bucket the size of its group. */
  lemma JoinedPoint(hits: seq<Row>, key: Row -> int, b: int)
    ensures var group := Group(hits, key, b);
            (if b in EventCounts(hits, key) then EventCounts(hits, key)[b] else Point(b, 0, 0))
            == Point(b, |group|, |Ips(group)|)
  {
    GroupExistsIff(hits, key, b);
  }

  method GetTimeSeries(rows: seq<Row>, code: string, start: int, end: int, g: Granularity)
    returns (r: Result<seq<Point>, string>)
    ensures r.Err? <==> g.OtherGranularity?
    ensures r.Ok? ==> r.value == Series(rows, code, start, end, Width(g).value)
  {
    if Width(g).None? {
      return Err("analytics: unsupported granularity");
    }
    var width := Width(g).value;
    var buckets := Buckets(start, end, width);
    var hits := Hits(rows, code, start, end, false);
    var key := BucketOf(width);
    var eventCounts := EventCounts(hits, key);
    var points: seq<Point> := [];
    for i := 0 to |buckets|
      invariant points == PointsOf(rows, code, start, end, buckets[..i], width)
    {
      var b := buckets[i];
      BucketIsAligned(start, end, width, i);
      JoinedPoint(hits, key, b);
      PointIsGroup(rows, code, start, end, b, width);
      OneMorePoint(rows, code, start, end, buckets, i, width);
      points := points + [if b in eventCounts then eventCounts[b] else Point(b, 0, 0)];
    }
    assert buckets[..|buckets|] == buckets;
    r := Ok(points);
  }

  lemma GroupExistsIff<K>(hits: seq<Row>, key: Row -> K, k: K)
    ensures k in (set row | row in hits :: key(row)) <==> Group(hits, key, k) != []
  {
    var group := Group(hits, key, k);
    if group != [] {
      assert group[0] in group;
    }
    if row :| row in hits && key(row) == k {
      assert row in group;
    }
  }

  lemma {:induction false} BucketIsAligned(start: int, end: int, width: int, i: nat)
    requires width > 0 && i < |Buckets(start, end, width)|
    ensures Buckets(start, end, width)[i] % width == 0
  {
    TruncIsAligned(width, start);
    SeriesIsAligned(Trunc(width, start), Trunc(width, end - 1), width);
  }

  lemma {:induction false} StepsApart(buckets: seq<int>, width: int, i: nat, j: nat)
    requires i <= j < |buckets|
    requires forall k :: 0 <= k < |buckets| - 1 ==> buckets[k + 1] == buckets[k] + width
    ensures buckets[j] == buckets[i] + (j - i) * width
    decreases j - i
  {
    if i < j {
      StepsApart(buckets, width, i, j - 1);
      assert (j - i) * width == (j - 1 - i) * width + width;
    }
  }

  lemma {:induction false} StepsIncrease(buckets: seq<int>, width: int, i: nat, j: nat)
    requires width > 0 && i < j < |buckets|
    requires forall k :: 0 <= k < |buckets| - 1 ==> buckets[k + 1] == buckets[k] + width
    ensures buckets[i] < buckets[j]
    decreases j - i
  {
    if i < j - 1 {
      StepsIncrease(buckets, width, i, j - 1);
    }
    assert buckets[j - 1 + 1] == buckets[j - 1] + width;
  }

  /** Buckets are contiguous and disjoint, and every instant of the window lies in exactly one. */
  lemma {:induction false} BucketsTile(start: int, end: int, width: int, at: int)
    requires width > 0 && start <= at < end
    ensures var buckets := Buckets(start, end, width);
            && (forall i :: 0 <= i < |buckets| - 1 ==> buckets[i + 1] == buckets[i] + width)
            && Trunc(width, at) in buckets
            && (forall i :: 0 <= i < |buckets| ==>
                  (buckets[i] <= at < buckets[i] + width <==> buckets[i] == Trunc(width, at)))
            && Distinct(buckets)
  {
    var buckets := Buckets(start, end, width);
    TruncIsAligned(width, start);
    TruncIsAligned(width, at);
    TruncIsAligned(width, end - 1);
    SeriesIsAligned(Trunc(width, start), Trunc(width, end - 1), width);
    TruncIsMonotone(width, start, at);
    TruncIsMonotone(width, at, end - 1);
    InSeries(Trunc(width, start), Trunc(width, end - 1), width, Trunc(width, at));
    BucketsAreDistinct(start, end, width);
    forall i | 0 <= i < |buckets|
      ensures buckets[i] <= at < buckets[i] + width <==> buckets[i] == Trunc(width, at)
    {
      TruncIff(width, at, buckets[i]);
    }
  }

  lemma BucketsAreDistinct(start: int, end: int, width: int)
    requires width > 0
    ensures Distinct(Buckets(start, end, width))
  {
    var buckets := Buckets(start, end, width);
    forall i, j | 0 <= i < j < |buckets|
      ensures buckets[i] != buckets[j]
    {
      StepsIncrease(buckets, width, i, j);
    }
  }

  lemma {:induction false} TruncIsMonotone(width: int, a: int, b: int)
    requires width > 0 && a <= b
    ensures Trunc(width, a) <= Trunc(width, b)
  {
    TruncIsAligned(width, a);
    TruncIsAligned(width, b);
    if Trunc(width, b) < Trunc(width, a) {
      TruncIff(width, b, Trunc(width, b));
      assert Trunc(width, b) <= b < Trunc(width, b) + width;
      AlignedApart(width, Trunc(width, b), Trunc(width, a));
    }
  }

  lemma {:induction false} AlignedApart(width: int, a: int, b: int)
    requires width > 0 && a % width == 0 && b % width == 0 && a < b
    ensures a + width <= b
  {
    if b < a + width {
      TruncIff(width, b, a);
    }
  }

  lemma {:induction false} InSeries(first: int, last: int, width: int, b: int)
    requires width > 0 && first % width == 0 && b % width == 0 && first <= b <= last
    ensures b in GenerateSeries(first, last, width)
    decreases last - first + width
  {
    if first < b {
      AlignedApart(width, first, b);
      NextIsAligned(first, width);
      InSeries(first + width, last, width, b);
    }
  }

  ghost function Clicks(points: seq<Point>): seq<nat> {
    seq(|points|, i requires 0 <= i < |points| => points[i].clicks)
  }

  ghost function Uniques(points: seq<Point>): seq<nat> {
    seq(|points|, i requires 0 <= i < |points| => points[i].uniqueIPs)
  }

  lemma {:induction false} PointsAreGroups(rows: seq<Row>, code: string, start: int, end: int, width: int)
    requires width > 0
    ensures var hits, buckets := Hits(rows, code, start, end, false), Buckets(start, end, width);
            && Clicks(Series(rows, code, start, end, width)) == Sizes(hits, BucketOf(width), buckets)
            && Uniques(Series(rows, code, start, end, width)) == IpCounts(hits, BucketOf(width), buckets)
  {
    var buckets := Buckets(start, end, width);
    forall i | 0 <= i < |buckets|
      ensures var group := Group(Hits(rows, code, start, end, false), BucketOf(width), buckets[i]);
              PointOf(rows, code, start, end, buckets[i], width) == Point(buckets[i], |group|, |Ips(group)|)
    {
      BucketIsAligned(start, end, width, i);
      PointIsGroup(rows, code, start, end, buckets[i], width);
    }
  }

  lemma EveryHitHasABucket(rows: seq<Row>, code: string, start: int, end: int, width: int)
    requires width > 0
    ensures forall row :: row in Hits(rows, code, start, end, false) ==>
              BucketOf(width)(row) in Elements(Buckets(start, end, width))
  {
    forall row | row in Hits(rows, code, start, end, false)
      ensures BucketOf(width)(row) in Elements(Buckets(start, end, width))
    {
      BucketsTile(start, end, width, row.at);
    }
  }

  /** Whatever the window, aligned or not, empty or not: the clicks of the series add up to the summary's. */
  lemma {:induction false} SeriesTotalIsSummary(rows: seq<Row>, code: string, start: int, end: int, width: int)
    requires width > 0
    ensures Sum(Clicks(Series(rows, code, start, end, width))) == GetSummary(rows, code, start, end).totalClicks
  {
    var hits := Hits(rows, code, start, end, false);
    var buckets := Buckets(start, end, width);
    PointsAreGroups(rows, code, start, end, width);
    BucketsAreDistinct(start, end, width);
    SizesAddUp(hits, BucketOf(width), buckets);
    EveryHitHasABucket(rows, code, start, end, width);
    CountsAllIff(hits, BucketOf(width), Elements(buckets));
  }

  /** A point in the table's own terms: the rows of humans in its bucket and in the window. */
  lemma {:induction false} PointCounts(rows: seq<Row>, code: string, start: int, end: int, width: int, i: nat)
    requires width > 0 && i < |Buckets(start, end, width)|
    ensures var b := Buckets(start, end, width)[i];
            && |Series(rows, code, start, end, width)| == |Buckets(start, end, width)|
            && Series(rows, code, start, end, width)[i].bucketStart == b
            && Series(rows, code, start, end, width)[i].clicks
               == |set k: nat | k < |rows| && rows[k].code == code && !rows[k].bot
                             && start <= rows[k].at < end && b <= rows[k].at < b + width|
  {
    var b := Buckets(start, end, width)[i];
    SummaryCounts(rows, code, Max(start, b), Min(end, b + width));
    assert (set k: nat | k < |rows| && rows[k].code == code
                      && Max(start, b) <= rows[k].at < Min(end, b + width) && !rows[k].bot)
        == (set k: nat | k < |rows| && rows[k].code == code && !rows[k].bot
                      && start <= rows[k].at < end && b <= rows[k].at < b + width);
  }

  // ---------------------------------------------------------------- unique visitors

  /** IPs seen in the groups of `keys`. */
  ghost function IpsAt(hits: seq<Row>, key: Row -> int, keys: seq<int>): set<string> {
    set row | row in hits && row.ip.Some? && key(row) in keys :: row.ip.value
  }

  ghost function IpCounts(hits: seq<Row>, key: Row -> int, keys: seq<int>): seq<nat> {
    seq(|keys|, i requires 0 <= i < |keys| => |Ips(Group(hits, key, keys[i]))|)
  }

  ghost predicate SharesNoIp(hits: seq<Row>, key: Row -> int, keys: seq<int>) {
    forall i, j :: 0 <= i < j < |keys| ==> Ips(Group(hits, key, keys[i])) !! Ips(Group(hits, key, keys[j]))
  }

  lemma UnionSize<T>(a: set<T>, b: set<T>)
    ensures |a + b| <= |a| + |b|
    ensures |a + b| == |a| + |b| <==> a !! b
  {
    assert |a + b| == |a| + |b| - |a * b|;
    if a !! b {
      assert a * b == {};
    } else {
      var x :| x in a && x in b;
      assert x in a * b;
    }
  }

  lemma {:induction false} UniquesAddUp(hits: seq<Row>, key: Row -> int, keys: seq<int>)
    ensures |IpsAt(hits, key, keys)| <= Sum(IpCounts(hits, key, keys))
    ensures |IpsAt(hits, key, keys)| == Sum(IpCounts(hits, key, keys)) <==> SharesNoIp(hits, key, keys)
  {
    if keys == [] {
      assert IpsAt(hits, key, keys) == {};
    } else {
      var n := |keys| - 1;
      var init, group := keys[..n], Group(hits, key, keys[n]);
      UniquesAddUp(hits, key, init);
      assert IpCounts(hits, key, keys)[..n] == IpCounts(hits, key, init);
      UnionOfGroups(hits, key, keys);
      UnionSize(IpsAt(hits, key, init), Ips(group));
      ApartIff(hits, key, keys);
    }
  }

  lemma UnionOfGroups(hits: seq<Row>, key: Row -> int, keys: seq<int>)
    requires keys != []
    ensures IpsAt(hits, key, keys) == IpsAt(hits, key, keys[..|keys| - 1]) + Ips(Group(hits, key, keys[|keys| - 1]))
  {
    assert keys == keys[..|keys| - 1] + [keys[|keys| - 1]];
  }

  lemma ApartIff(hits: seq<Row>, key: Row -> int, keys: seq<int>)
    requires keys != []
    ensures var n := |keys| - 1;
            SharesNoIp(hits, key, keys) <==>
              SharesNoIp(hits, key, keys[..n]) && IpsAt(hits, key, keys[..n]) !! Ips(Group(hits, key, keys[n]))
  {
    var n := |keys| - 1;
    var init, last := keys[..n], Ips(Group(hits, key, keys[n]));
    forall i | 0 <= i < n
      ensures Ips(Group(hits, key, keys[i])) <= IpsAt(hits, key, init)
    {
      assert init[i] == keys[i];
    }
    if forall i :: 0 <= i < n ==> Ips(Group(hits, key, keys[i])) !! last {
      forall ip | ip in IpsAt(hits, key, init)
        ensures ip !in last
      {
        var row :| row in hits && row.ip == Some(ip) && key(row) in init;
        var i :| 0 <= i < n && init[i] == key(row);
        assert row in Group(hits, key, keys[i]);
      }
    }
    assert SharesNoIp(hits, key, keys) ==> forall i :: 0 <= i < n ==> Ips(Group(hits, key, keys[i])) !! last;
  }

  /**
    The summary's unique visitors never exceed the sum over the buckets, and equal it exactly when nobody is in two
    buckets.
   */
  lemma {:induction false} SeriesUniquesIff(rows: seq<Row>, code: string, start: int, end: int, width: int)
    requires width > 0
    ensures GetSummary(rows, code, start, end).uniqueIPs <= Sum(Uniques(Series(rows, code, start, end, width)))
    ensures GetSummary(rows, code, start, end).uniqueIPs == Sum(Uniques(Series(rows, code, start, end, width))) <==>
              SharesNoIp(Hits(rows, code, start, end, false), BucketOf(width), Buckets(start, end, width))
  {
    var hits := Hits(rows, code, start, end, false);
    var buckets := Buckets(start, end, width);
    PointsAreGroups(rows, code, start, end, width);
    EveryHitHasABucket(rows, code, start, end, width);
    assert IpsAt(hits, BucketOf(width), buckets) == Ips(hits);
    UniquesAddUp(hits, BucketOf(width), buckets);
  }

  // ---------------------------------------------------------------- how many points

  function Limit(g: Granularity): (span: int) {
    match g
    case OneMinute => 86_400_000_000
    case OneHour => 2_592_000_000_000
    case _ => 31_536_000_000_000
  }

  /** In microseconds: how wide the buckets are, and which windows are too long for them. */
  lemma GranularityNumbers(start: int, end: int, g: Granularity)
    ensures Width(OneMinute) == Some(60_000_000) && Width(OneHour) == Some(3_600_000_000)
    ensures Width(OneDay) == Some(86_400_000_000)
    ensures ValidateWindowGranularity(start, end, g) <==> g.OtherGranularity? || end - start <= Limit(g)
  {
  }

  function MostPoints(g: Granularity): nat {
    match g
    case OneMinute => 1441
    case OneHour => 721
    case _ => 366
  }

  lemma CountBounds(start: int, end: int, width: int)
    requires width > 0
    ensures var n := |Buckets(start, end, width)|;
            n > 0 ==> (n - 1) * width == Buckets(start, end, width)[n - 1] - Trunc(width, start)
  {
    var buckets := Buckets(start, end, width);
    if buckets != [] {
      StepsApart(buckets, width, 0, |buckets| - 1);
    }
  }

  /**
    A window that passes validation gives at most that many points, and a window of the full length misses it only if
    aligned.
   */
  lemma ValidatedPointsBound(start: int, end: int, g: Granularity)
    requires !g.OtherGranularity? && ValidateWindowGranularity(start, end, g)
    ensures |Buckets(start, end, Width(g).value)| <= MostPoints(g)
    ensures end - start == Limit(g) ==>
              (|Buckets(start, end, Width(g).value)| == MostPoints(g) <==> start % Width(g).value != 0)
  {
    var width := Width(g).value;
    CountBounds(start, end, width);
    TruncIsAligned(width, start);
    TruncIsAligned(width, end - 1);
    if |Buckets(start, end, width)| > 0 {
      PointsBound(start, end, g);
    }
  }

  lemma PointsBound(start: int, end: int, g: Granularity)
    requires !g.OtherGranularity? && ValidateWindowGranularity(start, end, g)
    requires |Buckets(start, end, Width(g).value)| > 0
    ensures |Buckets(start, end, Width(g).value)| <= MostPoints(g)
    ensures end - start == Limit(g) ==>
              (|Buckets(start, end, Width(g).value)| == MostPoints(g) <==> start % Width(g).value != 0)
  {
    var width := Width(g).value;
    var buckets := Buckets(start, end, width);
    CountBounds(start, end, width);
    LastBucket(start, end, width);
    TruncIsAligned(width, start);
    BoundArithmetic(|buckets| - 1, MostPoints(g) - 1, buckets[0], buckets[|buckets| - 1], start, end, width);
    assert Limit(g) == (MostPoints(g) - 1) * width;
  }

  lemma {:induction false} LastBucket(start: int, end: int, width: int)
    requires width > 0 && Buckets(start, end, width) != []
    ensures var buckets := Buckets(start, end, width);
            buckets[|buckets| - 1] == Trunc(width, end - 1)
            && buckets[|buckets| - 1] <= end - 1 < buckets[|buckets| - 1] + width
  {
    var buckets := Buckets(start, end, width);
    var last := buckets[|buckets| - 1];
    BucketIsAligned(start, end, width, |buckets| - 1);
    TruncIsAligned(width, end - 1);
    TruncIff(width, Trunc(width, end - 1), last);
    TruncIff(width, Trunc(width, end - 1), Trunc(width, end - 1));
  }

  /** A window of at most `k` widths, cut at multiples of the width, spans at most `k` steps from first to last. */
  lemma {:induction false} BoundArithmetic(n: int, k: int, first: int, last: int, start: int, end: int, width: int)
    requires width > 0 && n * width == last - first
    requires first <= start < first + width && last <= end - 1 < last + width
    requires end - start <= k * width
    ensures n <= k
    ensures end - start == k * width ==> (n == k <==> first != start)
  {
    var d := n - k;
    assert width * d == n * width - k * width;
    MultipleIsFar(width, d);
  }
}
