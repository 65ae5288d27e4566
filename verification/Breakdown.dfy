/** Clicks by one dimension: the fifty most clicked values, their total, and each one's share of it. */
module Breakdown {
  import opened Wrappers
  import opened Aggregation
  import opened AnalyticsQueries

  datatype Dimension = Country | DeviceType | Browser | OS | Referrer | OtherDimension(name: string)

  const LIMIT := 50

  function Column(dim: Dimension): Row -> Option<string> {
    match dim
    case Country => (row: Row) => row.country
    case DeviceType => (row: Row) => row.device
    case Browser => (row: Row) => row.browser
    case OS => (row: Row) => row.os
    case Referrer => (row: Row) => row.referrer
    case OtherDimension(_) => (row: Row) => None
  }

  /** Every value of the column, NULL included. */
  function Values(hits: seq<Row>, column: Row -> Option<string>): set<Option<string>> {
    set row | row in hits :: column(row)
  }

  function Size(hits: seq<Row>, column: Row -> Option<string>, value: Option<string>): nat {
    |Group(hits, column, value)|
  }

  /** What GROUP BY, ORDER BY clicks DESC, LIMIT 50 promise together; ties come in any order. */
  ghost predicate IsTop(values: seq<Option<string>>, hits: seq<Row>, column: Row -> Option<string>) {
    && Distinct(values) && Elements(values) <= Values(hits, column)
    && |values| == Min(LIMIT, |Values(hits, column)|)
    && (forall i, j :: 0 <= i < j < |values| ==> Size(hits, column, values[i]) >= Size(hits, column, values[j]))
    && (forall v, i :: v in Values(hits, column) - Elements(values) && 0 <= i < |values| ==>
          Size(hits, column, v) <= Size(hits, column, values[i]))
  }

  predicate IsLargest(v: Option<string>, values: set<Option<string>>, hits: seq<Row>, column: Row -> Option<string>) {
    v in values && forall w :: w in values ==> Size(hits, column, w) <= Size(hits, column, v)
  }

  lemma {:induction false} LargestExists(hits: seq<Row>, column: Row -> Option<string>, values: set<Option<string>>)
    requires values != {}
    ensures exists v :: IsLargest(v, values, hits, column)
    decreases values
  {
    var x :| x in values;
    var rest := values - {x};
    assert values == rest + {x};
    if rest == {} {
      assert IsLargest(x, values, hits, column);
    } else {
      LargestExists(hits, column, rest);
      var v :| IsLargest(v, rest, hits, column);
      var best := if Size(hits, column, x) <= Size(hits, column, v) then v else x;
      assert IsLargest(best, values, hits, column);
    }
  }

  /** `values` have been taken out of `all`, each once, and `rest` is left. */
  ghost predicate Splits(values: seq<Option<string>>, rest: set<Option<string>>, all: set<Option<string>>) {
    && Distinct(values) && Elements(values) !! rest && Elements(values) + rest == all
    && |values| + |rest| == |all|
  }

  /** `values` are sorted, and nothing in `rest` beats any of them. */
  ghost predicate Ordered(values: seq<Option<string>>, rest: set<Option<string>>, hits: seq<Row>,
                          column: Row -> Option<string>) {
    && (forall i, j :: 0 <= i < j < |values| ==> Size(hits, column, values[i]) >= Size(hits, column, values[j]))
    && (forall v, i :: v in rest && 0 <= i < |values| ==> Size(hits, column, v) <= Size(hits, column, values[i]))
  }

  lemma TakeOne(values: seq<Option<string>>, rest: set<Option<string>>, all: set<Option<string>>, v: Option<string>)
    requires Splits(values, rest, all) && v in rest
    ensures Splits(values + [v], rest - {v}, all)
  {
    assert v !in Elements(values);
    assert Elements(values + [v]) == Elements(values) + {v};
  }

  lemma TakeLargest(values: seq<Option<string>>, rest: set<Option<string>>, v: Option<string>, hits: seq<Row>,
                    column: Row -> Option<string>)
    requires Ordered(values, rest, hits, column) && IsLargest(v, rest, hits, column)
    ensures Ordered(values + [v], rest - {v}, hits, column)
  {
  }

  /** The query, taking a most clicked remaining value each time. */
  method QueryTop(hits: seq<Row>, column: Row -> Option<string>) returns (values: seq<Option<string>>)
    ensures IsTop(values, hits, column)
  {
    values := [];
    var rest := Values(hits, column);
    while rest != {} && |values| < LIMIT
      invariant |values| <= LIMIT
      invariant Splits(values, rest, Values(hits, column)) && Ordered(values, rest, hits, column)
      decreases rest
    {
      LargestExists(hits, column, rest);
      var v :| v in rest && IsLargest(v, rest, hits, column);
      TakeOne(values, rest, Values(hits, column), v);
      TakeLargest(values, rest, v, hits, column);
      values := values + [v];
      rest := rest - {v};
    }
    TakenIsTop(values, rest, hits, column);
  }

  lemma TakenIsTop(values: seq<Option<string>>, rest: set<Option<string>>, hits: seq<Row>,
                   column: Row -> Option<string>)
    requires Splits(values, rest, Values(hits, column)) && Ordered(values, rest, hits, column)
    requires |values| <= LIMIT && (rest == {} || |values| == LIMIT)
    ensures IsTop(values, hits, column)
  {
    assert Values(hits, column) - Elements(values) == rest;
  }

  datatype DimensionCount = DimensionCount(value: string, clicks: nat, percentage: real)

  datatype Breakdown = Breakdown(totalClicks: nat, counts: seq<DimensionCount>)

  function Coalesce(value: Option<string>): string {
    if value.Some? then value.value else ""
  }

  ghost function Shares(counts: seq<DimensionCount>): seq<real> {
    seq(|counts|, i requires 0 <= i < |counts| => counts[i].percentage)
  }

  /** Share times total, named so that the products stay out of the induction. */
  ghost function Scaled(share: real, total: real): real {
    share * total
  }

  /** Each value with its size, and the total of the sizes. */
  ghost predicate IsCounted(counts: seq<DimensionCount>, total: nat, values: seq<Option<string>>, hits: seq<Row>,
                            column: Row -> Option<string>) {
    && |counts| == |values|
    && total == Sum(Sizes(hits, column, values))
    && (forall i :: 0 <= i < |values| ==>
          counts[i].value == Coalesce(values[i]) && counts[i].clicks == Size(hits, column, values[i]))
  }

  /** Percentages are of the total; division is by a total that may be zero only when there is nothing to divide. */
  ghost predicate IsFilled(counts: seq<DimensionCount>, total: nat) {
    forall i :: 0 <= i < |counts| ==> Scaled(counts[i].percentage, total as real) == 100.0 * counts[i].clicks as real
  }

  ghost predicate IsBreakdown(b: Breakdown, values: seq<Option<string>>, hits: seq<Row>,
                              column: Row -> Option<string>) {
    IsCounted(b.counts, b.totalClicks, values, hits, column) && IsFilled(b.counts, b.totalClicks)
  }

  method GetBreakdown(rows: seq<Row>, code: string, start: int, end: int, dim: Dimension)
    returns (r: Result<Breakdown, string>, ghost values: seq<Option<string>>)
    ensures r.Err? <==> dim.OtherDimension?
    ensures r.Ok? ==>
              IsTop(values, Hits(rows, code, start, end, false), Column(dim))
              && IsBreakdown(r.value, values, Hits(rows, code, start, end, false), Column(dim))
  {
    if dim.OtherDimension? {
      return Err("analytics: unknown dimension"), [];
    }
    var hits := Hits(rows, code, start, end, false);
    var b: Breakdown;
    b, values := CountRows(hits, Column(dim));
    r := Ok(b);
  }

  /** The loop over the rows the query returns, and then the one that fills in percentages. */
  method CountRows(hits: seq<Row>, column: Row -> Option<string>) returns (b: Breakdown, values: seq<Option<string>>)
    ensures IsTop(values, hits, column) && IsBreakdown(b, values, hits, column)
  {
    values := QueryTop(hits, column);
    var counts: seq<DimensionCount> := [];
    var totalClicks: nat := 0;
    for i := 0 to |values|
      invariant IsCounted(counts, totalClicks, values[..i], hits, column)
    {
      var count := DimensionCount(Coalesce(values[i]), Size(hits, column, values[i]), 0.0);
      CountOneMore(counts, totalClicks, values[..i], values[i], hits, column);
      assert values[..i + 1] == values[..i] + [values[i]];
      totalClicks := totalClicks + count.clicks;
      counts := counts + [count];
    }
    assert values[..|values|] == values;
    TotalIsPositive(hits, column, values);
    if totalClicks > 0 {
      counts := FillPercentages(counts, totalClicks);
    }
    b := Breakdown(totalClicks, counts);
  }

  lemma CountOneMore(counts: seq<DimensionCount>, total: nat, values: seq<Option<string>>, value: Option<string>,
                     hits: seq<Row>, column: Row -> Option<string>)
    requires IsCounted(counts, total, values, hits, column)
    ensures var count := DimensionCount(Coalesce(value), Size(hits, column, value), 0.0);
            IsCounted(counts + [count], total + count.clicks, values + [value], hits, column)
  {
    assert Sizes(hits, column, values + [value])[..|values|] == Sizes(hits, column, values);
  }

  /** The loop over the counts once the total is known. */
  method FillPercentages(unfilled: seq<DimensionCount>, totalClicks: nat) returns (counts: seq<DimensionCount>)
    requires totalClicks > 0
    ensures |counts| == |unfilled|
    ensures forall i :: 0 <= i < |counts| ==>
              counts[i].value == unfilled[i].value && counts[i].clicks == unfilled[i].clicks
    ensures IsFilled(counts, totalClicks)
  {
    counts := unfilled;
    for i := 0 to |counts|
      invariant |counts| == |unfilled|
      invariant forall j :: 0 <= j < |counts| ==>
                  counts[j].value == unfilled[j].value && counts[j].clicks == unfilled[j].clicks
      invariant forall j :: 0 <= j < i ==>
                  Scaled(counts[j].percentage, totalClicks as real) == 100.0 * counts[j].clicks as real
    {
      ShareTimesTotal(counts[i].clicks as real, totalClicks as real);
      counts := counts[i := counts[i].(percentage := counts[i].clicks as real / totalClicks as real * 100.0)];
    }
  }

  /** Every value that is returned has at least one row, so only an empty answer has a zero total. */
  lemma TotalIsPositive(hits: seq<Row>, column: Row -> Option<string>, values: seq<Option<string>>)
    requires Elements(values) <= Values(hits, column)
    ensures values != [] ==> Sum(Sizes(hits, column, values)) > 0
  {
    if values != [] {
      SumAt(Sizes(hits, column, values), 0);
      assert values[0] in Elements(values);
      var row :| row in hits && column(row) == values[0];
      assert row in Group(hits, column, values[0]);
    }
  }

  lemma ShareTimesTotal(part: real, total: real)
    requires total > 0.0
    ensures Scaled(part / total * 100.0, total) == 100.0 * part
  {
    assert part / total * total == part;
  }

  // ---------------------------------------------------------------- what is counted

  /** The column of each dimension, by name. */
  lemma ColumnsByName(row: Row, dim: Dimension)
    ensures dim == Country ==> Column(dim)(row) == row.country
    ensures dim == DeviceType ==> Column(dim)(row) == row.device
    ensures dim == Browser ==> Column(dim)(row) == row.browser
    ensures dim == OS ==> Column(dim)(row) == row.os
    ensures dim == Referrer ==> Column(dim)(row) == row.referrer
  {
  }

  /** The positions in the table of the rows of humans in the window that have a value in a column. */
  ghost function With(rows: seq<Row>, code: string, start: int, end: int, column: Row -> Option<string>,
                      v: Option<string>): set<nat> {
    set i: nat | i < |rows| && rows[i].code == code && start <= rows[i].at < end && !rows[i].bot && column(rows[i]) == v
  }

  lemma WithOneMore(rows: seq<Row>, row: Row, code: string, start: int, end: int, column: Row -> Option<string>,
                    v: Option<string>)
    ensures With(rows + [row], code, start, end, column, v)
         == With(rows, code, start, end, column, v)
            + if IsKept(row, code, start, end, false) && column(row) == v then {|rows|} else {}
  {
  }

  lemma SizeOneMore(hits: seq<Row>, row: Row, column: Row -> Option<string>, v: Option<string>)
    ensures Size(hits + [row], column, v) == Size(hits, column, v) + if column(row) == v then 1 else 0
  {
    assert (hits + [row])[..|hits|] == hits;
  }

  /** A group in the table's own terms. */
  lemma {:induction false} SizeCounts(rows: seq<Row>, code: string, start: int, end: int,
                                      column: Row -> Option<string>, v: Option<string>)
    ensures Size(Hits(rows, code, start, end, false), column, v) == |With(rows, code, start, end, column, v)|
  {
    if rows != [] {
      var init, row := rows[..|rows| - 1], rows[|rows| - 1];
      SizeCounts(init, code, start, end, column, v);
      assert rows == init + [row];
      WithOneMore(init, row, code, start, end, column, v);
      assert |init| !in With(init, code, start, end, column, v);
      SizeOneMore(Hits(init, code, start, end, false), row, column, v);
    }
  }

  /**
    The entries of an answer: each names a value of the column, NULL as the empty text, and gives the number of rows of
    humans in the window that have it; there are at most fifty.
   */
  lemma {:induction false} EntriesCount(b: Breakdown, values: seq<Option<string>>, rows: seq<Row>, code: string,
                                        start: int, end: int, dim: Dimension, k: nat)
    requires var hits := Hits(rows, code, start, end, false);
             IsTop(values, hits, Column(dim)) && IsBreakdown(b, values, hits, Column(dim))
    requires k < |values|
    ensures var different := |set row | row in Hits(rows, code, start, end, false) :: Column(dim)(row)|;
            |b.counts| == |values| == if different <= 50 then different else 50
    ensures b.counts[k].value == (if values[k] == None then "" else values[k].value)
    ensures b.counts[k].clicks
         == |set i: nat | i < |rows| && rows[i].code == code && start <= rows[i].at < end && !rows[i].bot
                       && Column(dim)(rows[i]) == values[k]|
    ensures b.counts[k].clicks > 0
  {
    SizeCounts(rows, code, start, end, Column(dim), values[k]);
    var hits := Hits(rows, code, start, end, false);
    assert values[k] in Elements(values);
    var row :| row in hits && Column(dim)(row) == values[k];
    assert row in Group(hits, Column(dim), values[k]);
  }

  // ---------------------------------------------------------------- what the answer says

  function RealSum(xs: seq<real>): real {
    if xs == [] then 0.0 else RealSum(xs[..|xs| - 1]) + xs[|xs| - 1]
  }

  lemma ScaledSum(a: real, b: real, total: real)
    ensures Scaled(a + b, total) == Scaled(a, total) + Scaled(b, total)
  {
  }

  lemma ScaleCancels(sum: real, total: real)
    requires total > 0.0 && Scaled(sum, total) == 100.0 * total
    ensures sum == 100.0
  {
    assert sum * total / total == sum;
  }

  lemma {:induction false} SharesScale(counts: seq<DimensionCount>, sizes: seq<nat>, total: nat)
    requires |counts| == |sizes| && IsFilled(counts, total)
    requires forall i :: 0 <= i < |counts| ==> counts[i].clicks == sizes[i]
    ensures Scaled(RealSum(Shares(counts)), total as real) == 100.0 * Sum(sizes) as real
  {
    if counts != [] {
      var n := |counts| - 1;
      SharesScale(counts[..n], sizes[..n], total);
      assert Shares(counts)[..n] == Shares(counts[..n]);
      ScaledSum(RealSum(Shares(counts[..n])), counts[n].percentage, total as real);
    }
  }

  /** Whenever anything was clicked, the percentages add up to one hundred, however many values were cut off. */
  lemma PercentagesAddUp(b: Breakdown, values: seq<Option<string>>, hits: seq<Row>, column: Row -> Option<string>)
    requires IsBreakdown(b, values, hits, column) && b.totalClicks > 0
    ensures RealSum(Shares(b.counts)) == 100.0
  {
    SharesScale(b.counts, Sizes(hits, column, values), b.totalClicks);
    ScaleCancels(RealSum(Shares(b.counts)), b.totalClicks as real);
  }

  /** The breakdown's total is the summary's exactly when the limit cuts no value off. */
  lemma {:induction false} BreakdownTotalIsSummaryIff(b: Breakdown, values: seq<Option<string>>, rows: seq<Row>,
                                                      code: string, start: int, end: int, dim: Dimension)
    requires var hits := Hits(rows, code, start, end, false);
             IsTop(values, hits, Column(dim)) && IsBreakdown(b, values, hits, Column(dim))
    ensures var hits := Hits(rows, code, start, end, false);
            && b.totalClicks <= GetSummary(rows, code, start, end).totalClicks
            && (b.totalClicks == GetSummary(rows, code, start, end).totalClicks
                <==> |Values(hits, Column(dim))| <= 50)
  {
    var hits := Hits(rows, code, start, end, false);
    var column := Column(dim);
    SizesAddUp(hits, column, values);
    CountsAllIff(hits, column, Elements(values));
    DistinctSize(values);
    SubsetOfSameSize(Elements(values), Values(hits, column));
    if forall row :: row in hits ==> column(row) in Elements(values) {
      assert Values(hits, column) == Elements(values);
    }
  }

  /** Rows outside the top values number at most `most` for each value that was cut off. */
  lemma {:induction false} CutOff(hits: seq<Row>, column: Row -> Option<string>, cut: set<Option<string>>, most: nat)
    requires forall v :: v in cut ==> Size(hits, column, v) <= most
    ensures CountIn(hits, column, cut) <= |cut| * most
    decreases cut
  {
    if cut == {} {
      NoKeys(hits, column);
    } else {
      var v :| v in cut;
      CutOff(hits, column, cut - {v}, most);
      OneMoreKey(hits, column, cut - {v}, v);
      assert cut - {v} + {v} == cut;
      assert |cut| * most == |cut - {v}| * most + most;
    }
  }

  lemma {:induction false} SumAtLeast(sizes: seq<nat>, least: nat)
    requires forall i :: 0 <= i < |sizes| ==> sizes[i] >= least
    ensures Sum(sizes) >= |sizes| * least
  {
    if sizes != [] {
      SumAtLeast(sizes[..|sizes| - 1], least);
      assert |sizes| * least == (|sizes| - 1) * least + least;
    }
  }

  lemma {:induction false} Complement(hits: seq<Row>, column: Row -> Option<string>, a: set<Option<string>>,
                                      b: set<Option<string>>)
    requires a !! b && forall row :: row in hits ==> column(row) in a + b
    ensures CountIn(hits, column, a) + CountIn(hits, column, b) == |hits|
  {
    if hits != [] {
      var init, last := hits[..|hits| - 1], hits[|hits| - 1];
      assert hits == init + [last];
      Complement(init, column, a, b);
    }
  }

  lemma LastIsLeast(values: seq<Option<string>>, hits: seq<Row>, column: Row -> Option<string>)
    requires IsTop(values, hits, column) && |values| == LIMIT
    ensures forall i :: 0 <= i < LIMIT ==> Sizes(hits, column, values)[i] >= Size(hits, column, values[LIMIT - 1])
    ensures forall v :: v in Values(hits, column) - Elements(values) ==>
              Size(hits, column, v) <= Size(hits, column, values[LIMIT - 1])
  {
    forall v | v in Values(hits, column) - Elements(values)
      ensures Size(hits, column, v) <= Size(hits, column, values[LIMIT - 1])
    {
      assert v !in values;
    }
  }

  /** The values cut off account for all rows the total leaves out. */
  lemma {:induction false} CutOffRows(values: seq<Option<string>>, hits: seq<Row>, column: Row -> Option<string>,
                                      most: nat)
    requires Distinct(values) && Elements(values) <= Values(hits, column)
    requires forall v :: v in Values(hits, column) - Elements(values) ==> Size(hits, column, v) <= most
    ensures |hits| - Sum(Sizes(hits, column, values)) <= |Values(hits, column) - Elements(values)| * most
  {
    var top, cut := Elements(values), Values(hits, column) - Elements(values);
    CutOff(hits, column, cut, most);
    SizesAddUp(hits, column, values);
    Complement(hits, column, top, cut);
  }

  lemma TopCoverage(values: seq<Option<string>>, hits: seq<Row>, column: Row -> Option<string>)
    requires IsTop(values, hits, column) && |Values(hits, column)| > LIMIT
    ensures Sum(Sizes(hits, column, values)) * |Values(hits, column)| >= LIMIT * |hits|
  {
    var all, top := Values(hits, column), Elements(values);
    var least := Size(hits, column, values[LIMIT - 1]);
    DistinctSize(values);
    SubsetOfSameSize(top, all);
    LastIsLeast(values, hits, column);
    SumAtLeast(Sizes(hits, column, values), least);
    CutOffRows(values, hits, column, least);
    CoverageArithmetic(Sum(Sizes(hits, column, values)), |hits|, least, |all - top|);
  }

  /** When it does cut, the total still covers at least fifty parts in as many as there are values. */
  lemma {:induction false} BreakdownCoverage(b: Breakdown, values: seq<Option<string>>, rows: seq<Row>, code: string,
                                             start: int, end: int, dim: Dimension)
    requires var hits := Hits(rows, code, start, end, false);
             IsTop(values, hits, Column(dim)) && IsBreakdown(b, values, hits, Column(dim))
    requires |Values(Hits(rows, code, start, end, false), Column(dim))| > LIMIT
    ensures var hits := Hits(rows, code, start, end, false);
            b.totalClicks * |Values(hits, Column(dim))| >= 50 * GetSummary(rows, code, start, end).totalClicks
  {
    TopCoverage(values, Hits(rows, code, start, end, false), Column(dim));
  }

  lemma CoverageArithmetic(covered: nat, total: nat, least: nat, cut: nat)
    requires covered >= LIMIT * least && total - covered <= cut * least
    ensures covered * (LIMIT + cut) >= LIMIT * total
  {
    assert covered * cut >= LIMIT * least * cut;
  }
}
