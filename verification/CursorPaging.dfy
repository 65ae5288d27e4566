/**
  Cursor paging over the url table: one page as the repository builds it, and whole walks from page to page.

  An id is the 128-bit number its ULID encodes, so the text order of ids is the order of numbers; the empty
  cursor is 0, which is never an id.
 */
module CursorPaging {
  import opened Wrappers

  datatype Row = Row(workspaceId: string, status: string, createdBy: string, deleted: bool)

  type Table = map<nat, Row>

  datatype ListFilter = ListFilter(workspaceId: string, status: Option<string>, createdBy: Option<string>, limit: int)

  function TextOf(o: Option<string>): string {
    match o
    case None => ""
    case Some(text) => text
  }

  predicate Matches(row: Row, f: ListFilter) {
    && row.workspaceId == f.workspaceId
    && !row.deleted
    && (TextOf(f.status) == "" || row.status == TextOf(f.status))
    && (TextOf(f.createdBy) == "" || row.createdBy == TextOf(f.createdBy))
  }

  /** The ids the query ranges over: rows that match, past the cursor when there is one. */
  function Candidates(t: Table, f: ListFilter, cursor: nat): set<nat> {
    set id | id in t && Matches(t[id], f) && (cursor == 0 || id > cursor)
  }

  function PageLimit(f: ListFilter): (limit: nat)
    ensures 1 <= limit <= 100
    ensures 1 <= f.limit <= 100 ==> limit == f.limit
  {
    if f.limit <= 0 then 20 else if f.limit > 100 then 100 else f.limit
  }

  // ---------------------------------------------------------------- ORDER BY id

  ghost predicate Increasing(s: seq<nat>) {
    forall i, j :: 0 <= i < j < |s| ==> s[i] < s[j]
  }

  predicate IsLeast(least: nat, s: set<nat>) {
    least in s && forall x :: x in s ==> least <= x
  }

  lemma {:induction false} LeastExists(s: set<nat>)
    requires s != {}
    ensures exists least :: IsLeast(least, s)
  {
    var x :| x in s;
    if s == {x} {
      assert IsLeast(x, s);
    } else {
      LeastExists(s - {x});
      var rest :| IsLeast(rest, s - {x});
      var least := if x < rest then x else rest;
      assert forall y :: y in s ==> y == x || y in s - {x};
      assert IsLeast(least, s);
    }
  }

  /** The elements of a set in ascending order. */
  function Ascending(s: set<nat>): seq<nat> {
    if s == {} then []
    else
      LeastExists(s);
      var least :| least in s && IsLeast(least, s);
      [least] + Ascending(s - {least})
  }

  lemma AscendingUnfolds(s: set<nat>) returns (least: nat)
    requires s != {}
    ensures IsLeast(least, s) && Ascending(s) == [least] + Ascending(s - {least})
  {
    LeastExists(s);
    least := Ascending(s)[0];
  }

  lemma {:induction false} AscendingFacts(s: set<nat>)
    ensures Increasing(Ascending(s)) && |Ascending(s)| == |s|
    ensures forall x :: x in Ascending(s) <==> x in s
  {
    if s != {} {
      var least := AscendingUnfolds(s);
      var rest := Ascending(s - {least});
      AscendingFacts(s - {least});
      ConsFacts(least, rest, s);
    }
  }

  lemma ConsFacts(least: nat, rest: seq<nat>, s: set<nat>)
    requires IsLeast(least, s) && Increasing(rest)
    requires forall x :: x in rest <==> x in s - {least}
    ensures Increasing([least] + rest)
    ensures forall x :: x in [least] + rest <==> x in s
  {
    assert forall i :: 0 <= i < |rest| ==> rest[i] in rest;
  }

  /** An ascending sequence is determined by its elements. */
  lemma {:induction false} AscendingIsUnique(a: seq<nat>, b: seq<nat>)
    requires Increasing(a) && Increasing(b)
    requires forall x :: x in a <==> x in b
    ensures a == b
  {
    HeadIsMember(a);
    HeadIsMember(b);
    if a != [] && b != [] {
      assert a[0] in b && b[0] in a;
      assert a[0] == b[0];
      forall x
        ensures x in a[1..] <==> x in b[1..]
      {
        TailMembership(a, x);
        TailMembership(b, x);
      }
      AscendingIsUnique(a[1..], b[1..]);
    }
  }

  lemma HeadIsMember(s: seq<nat>)
    ensures s == [] || exists x :: x in s
  {
    assert s == [] || s[0] in s;
  }

  lemma TailMembership(s: seq<nat>, x: nat)
    requires Increasing(s) && s != []
    ensures x in s[1..] <==> x in s && x != s[0]
  {
  }

  // ---------------------------------------------------------------- one page

  /** The statement with its LIMIT. */
  function Query(t: Table, f: ListFilter, cursor: nat, fetchLimit: nat): seq<nat> {
    var all := Ascending(Candidates(t, f, cursor));
    if |all| <= fetchLimit then all else all[..fetchLimit]
  }

  datatype Page = Page(ids: seq<nat>, next: nat)

  /**
    A page is the least candidates up to the limit; the cursor is its last id if candidates are left over, else empty.
   */
  ghost function PageOf(t: Table, f: ListFilter, cursor: nat): Page {
    var all := Ascending(Candidates(t, f, cursor));
    var limit := PageLimit(f);
    if |all| <= limit then Page(all, 0) else Page(all[..limit], all[limit - 1])
  }

  /** The repository's List: fetch one row too many, append the rows one by one, trim. */
  method List(t: Table, f: ListFilter, cursor: nat) returns (ids: seq<nat>, nextCursor: nat)
    ensures Page(ids, nextCursor) == PageOf(t, f, cursor)
  {
    var limit := f.limit;
    if limit <= 0 {
      limit := 20;
    }
    if limit > 100 {
      limit := 100;
    }
    var fetchLimit := limit + 1;
    var rows := Query(t, f, cursor, fetchLimit);
    ids := [];
    var i := 0;
    while i < |rows|
      invariant 0 <= i <= |rows|
      invariant ids == rows[..i]
    {
      ids := ids + [rows[i]];
      i := i + 1;
    }
    assert ids == rows;
    nextCursor := 0;
    if |ids| > limit {
      nextCursor := ids[limit - 1];
      ids := ids[..limit];
    }
  }

  /** Everything up to the returned cursor is on the page, everything past it is still to come. */
  lemma PageSplits(t: Table, f: ListFilter, cursor: nat)
    requires 0 !in t
    ensures var page := PageOf(t, f, cursor);
            && Increasing(page.ids)
            && (forall id :: id in page.ids ==> id in Candidates(t, f, cursor))
            && (page.next == 0 ==> forall id :: id in Candidates(t, f, cursor) ==> id in page.ids)
            && (page.next != 0 ==>
                 && page.next in page.ids
                 && (forall id :: id in page.ids ==> id <= page.next)
                 && (forall id :: id in Candidates(t, f, cursor) && id <= page.next ==> id in page.ids))
  {
    AscendingFacts(Candidates(t, f, cursor));
    PrefixMembership(Ascending(Candidates(t, f, cursor)), PageLimit(f));
    assert PageOf(t, f, cursor).next in Ascending(Candidates(t, f, cursor)) || PageOf(t, f, cursor).next == 0;
  }

  /** Up to position `k` of an increasing sequence are exactly its elements no greater than the one before `k`. */
  lemma PrefixMembership(s: seq<nat>, k: nat)
    requires Increasing(s) && 1 <= k
    ensures k <= |s| ==> Increasing(s[..k]) && s[k - 1] in s[..k]
    ensures k <= |s| ==> forall x :: x in s[..k] <==> x in s && x <= s[k - 1]
  {
    if k <= |s| {
      assert s[..k][k - 1] == s[k - 1];
      forall x | x in s && x <= s[k - 1]
        ensures x in s[..k]
      {
        var i :| 0 <= i < |s| && s[i] == x;
        assert s[..k][i] == x;
      }
    }
  }

  // ---------------------------------------------------------------- walks while the table changes

  /** The pages fetched when page k sees table k; a walk stops at an empty cursor. */
  ghost function Walk(ts: seq<Table>, f: ListFilter, cursor: nat): seq<seq<nat>> {
    if ts == [] then []
    else
      var page := PageOf(ts[0], f, cursor);
      if page.next == 0 then [page.ids] else [page.ids] + Walk(ts[1..], f, page.next)
  }

  /** The walk reached an empty cursor. */
  ghost predicate Finished(ts: seq<Table>, f: ListFilter, cursor: nat) {
    ts != [] &&
    var page := PageOf(ts[0], f, cursor);
    page.next == 0 || Finished(ts[1..], f, page.next)
  }

  ghost function Flatten(pages: seq<seq<nat>>): seq<nat> {
    if pages == [] then [] else pages[0] + Flatten(pages[1..])
  }

  ghost predicate HasUlids(ts: seq<Table>) {
    forall i :: 0 <= i < |ts| ==> 0 !in ts[i]
  }

  /** The row is in every table the walk may see, and matches the filter in each. */
  ghost predicate AlwaysMatches(ts: seq<Table>, f: ListFilter, id: nat) {
    forall i :: 0 <= i < |ts| ==> id in ts[i] && Matches(ts[i][id], f)
  }

  /** With inserts, updates and deletes between pages, ids only ever increase, so no row is returned twice. */
  lemma {:induction false} WalkIncreases(ts: seq<Table>, f: ListFilter, cursor: nat)
    requires HasUlids(ts)
    ensures Increasing(Flatten(Walk(ts, f, cursor)))
    ensures forall id :: id in Flatten(Walk(ts, f, cursor)) ==> cursor == 0 || id > cursor
  {
    if ts != [] {
      var page := PageOf(ts[0], f, cursor);
      PageSplits(ts[0], f, cursor);
      if page.next == 0 {
        FlattenCons(page.ids, []);
      } else {
        WalkIncreases(ts[1..], f, page.next);
        FlattenCons(page.ids, Walk(ts[1..], f, page.next));
        IncreasingJoin(page.ids, Flatten(Walk(ts[1..], f, page.next)), page.next);
      }
    }
  }

  lemma FlattenCons(ids: seq<nat>, rest: seq<seq<nat>>)
    ensures Flatten([ids] + rest) == ids + Flatten(rest)
    ensures Flatten([ids]) == ids
  {
    assert ([ids] + rest)[1..] == rest;
    assert Flatten([ids]) == ids + Flatten([]);
  }

  lemma IncreasingJoin(a: seq<nat>, b: seq<nat>, pivot: nat)
    requires Increasing(a) && Increasing(b)
    requires (forall x :: x in a ==> x <= pivot) && (forall x :: x in b ==> x > pivot)
    ensures Increasing(a + b)
  {
    forall i, j | 0 <= i < j < |a + b|
      ensures (a + b)[i] < (a + b)[j]
    {
      if i < |a| <= j {
        assert a[i] in a && b[j - |a|] in b;
      }
    }
  }

  /** Every row that matches throughout a finished walk is returned (and by WalkIncreases exactly once). */
  lemma {:induction false} WalkReturnsStableRows(ts: seq<Table>, f: ListFilter, cursor: nat, id: nat)
    requires HasUlids(ts) && Finished(ts, f, cursor)
    requires AlwaysMatches(ts, f, id) && (cursor == 0 || id > cursor)
    ensures id in Flatten(Walk(ts, f, cursor))
  {
    var page := PageOf(ts[0], f, cursor);
    assert id in Candidates(ts[0], f, cursor);
    PageSplits(ts[0], f, cursor);
    if page.next == 0 {
      FlattenCons(page.ids, []);
    } else {
      FlattenCons(page.ids, Walk(ts[1..], f, page.next));
      if id !in page.ids {
        WalkReturnsStableRows(ts[1..], f, page.next, id);
      }
    }
  }

  /** Nothing is invented: each returned id matched in the table its page was read from. */
  lemma {:induction false} WalkReturnsOnlyMatches(ts: seq<Table>, f: ListFilter, cursor: nat, k: nat, id: nat)
    requires HasUlids(ts) && k < |Walk(ts, f, cursor)| && id in Walk(ts, f, cursor)[k]
    ensures k < |ts| && id in ts[k] && Matches(ts[k][id], f)
  {
    var page := PageOf(ts[0], f, cursor);
    PageSplits(ts[0], f, cursor);
    if k > 0 {
      var rest := Walk(ts[1..], f, page.next);
      assert Walk(ts, f, cursor)[k] == rest[k - 1];
      WalkReturnsOnlyMatches(ts[1..], f, page.next, k - 1, id);
    }
  }

  // ---------------------------------------------------------------- walks over a fixed table

  lemma Shrinks(t: Table, f: ListFilter, cursor: nat)
    requires 0 !in t && PageOf(t, f, cursor).next != 0
    ensures Candidates(t, f, PageOf(t, f, cursor).next) < Candidates(t, f, cursor)
    ensures |Candidates(t, f, cursor)| > PageLimit(f)
    ensures Ascending(Candidates(t, f, PageOf(t, f, cursor).next))
         == Ascending(Candidates(t, f, cursor))[PageLimit(f)..]
  {
    var next, limit := PageOf(t, f, cursor).next, PageLimit(f);
    var all, later := Ascending(Candidates(t, f, cursor)), Ascending(Candidates(t, f, next));
    AscendingFacts(Candidates(t, f, cursor));
    AscendingFacts(Candidates(t, f, next));
    PageSplits(t, f, cursor);
    assert next in Candidates(t, f, cursor) && next !in Candidates(t, f, next);
    SuffixMembership(all, limit);
    AscendingIsUnique(later, all[limit..]);
  }

  lemma ShrinksByPage(t: Table, f: ListFilter, cursor: nat)
    requires 0 !in t && PageOf(t, f, cursor).next != 0
    ensures Ascending(Candidates(t, f, cursor))
         == PageOf(t, f, cursor).ids + Ascending(Candidates(t, f, PageOf(t, f, cursor).next))
    ensures |Candidates(t, f, PageOf(t, f, cursor).next)| == |Candidates(t, f, cursor)| - PageLimit(f)
  {
    Shrinks(t, f, cursor);
    AscendingLength(Candidates(t, f, cursor));
    AscendingLength(Candidates(t, f, PageOf(t, f, cursor).next));
  }

  lemma AscendingLength(s: set<nat>)
    ensures |Ascending(s)| == |s|
  {
    AscendingFacts(s);
  }

  /** Past position `k` of an increasing sequence are exactly its elements above the one before. */
  lemma SuffixMembership(s: seq<nat>, k: nat)
    requires Increasing(s) && 1 <= k <= |s|
    ensures Increasing(s[k..])
    ensures forall x :: x in s[k..] <==> x in s && x > s[k - 1]
  {
    forall x | x in s && x > s[k - 1]
      ensures x in s[k..]
    {
      var i :| 0 <= i < |s| && s[i] == x;
      assert s[k..][i - k] == x;
    }
  }

  /** Following the cursor over a table nobody changes. */
  ghost function WalkFixed(t: Table, f: ListFilter, cursor: nat): seq<seq<nat>>
    requires 0 !in t
    decreases Candidates(t, f, cursor)
  {
    var page := PageOf(t, f, cursor);
    if page.next == 0 then [page.ids]
    else
      Shrinks(t, f, cursor);
      [page.ids] + WalkFixed(t, f, page.next)
  }

  /** It is the walk that sees the same table every time, given enough pages. */
  lemma {:induction false} WalkOfConstant(ts: seq<Table>, t: Table, f: ListFilter, cursor: nat)
    requires 0 !in t && forall i :: 0 <= i < |ts| ==> ts[i] == t
    requires |ts| >= |WalkFixed(t, f, cursor)|
    ensures Walk(ts, f, cursor) == WalkFixed(t, f, cursor) && Finished(ts, f, cursor)
    decreases Candidates(t, f, cursor)
  {
    var page := PageOf(t, f, cursor);
    if page.next != 0 {
      Shrinks(t, f, cursor);
      WalkOfConstant(ts[1..], t, f, page.next);
    }
  }

  // ---------------------------------------------------------------- what is listed, in fields of the rows

  /** A filter that is not given, or given as the empty text, lets every row through. */
  predicate Lets(filter: Option<string>, field: string) {
    filter == None || filter == Some("") || filter == Some(field)
  }

  /** Every row of every page of a walk is of the asked workspace, not deleted, and as asked in status and creator. */
  lemma {:induction false} ListedInFields(ts: seq<Table>, f: ListFilter, cursor: nat, k: nat, id: nat)
    requires HasUlids(ts) && k < |Walk(ts, f, cursor)| && id in Walk(ts, f, cursor)[k]
    ensures k < |ts| && id in ts[k]
    ensures ts[k][id].workspaceId == f.workspaceId && !ts[k][id].deleted
    ensures Lets(f.status, ts[k][id].status) && Lets(f.createdBy, ts[k][id].createdBy)
  {
    WalkReturnsOnlyMatches(ts, f, cursor, k, id);
  }

  /**
    A walk over a fixed table returns exactly the undeleted rows of the workspace when no filter is given, and exactly
    those among them that have the status or the creator asked for when one is.
   */
  lemma {:induction false} FixedWalkReturnsExactly(t: Table, f: ListFilter, id: nat)
    requires 0 !in t
    ensures id in Flatten(WalkFixed(t, f, 0)) <==>
              && id in t && t[id].workspaceId == f.workspaceId && !t[id].deleted
              && Lets(f.status, t[id].status) && Lets(f.createdBy, t[id].createdBy)
    ensures f.status == None && f.createdBy == None ==>
              (id in Flatten(WalkFixed(t, f, 0)) <==> id in t && t[id].workspaceId == f.workspaceId && !t[id].deleted)
  {
    FixedWalkIsSortedScan(t, f, 0);
    AscendingFacts(Candidates(t, f, 0));
  }

  /** How many rows a page has: twenty unless another number up to a hundred is asked for, or what is left. */
  lemma PageSize(t: Table, f: ListFilter, cursor: nat)
    ensures var left := |Candidates(t, f, cursor)|;
            var asked := if f.limit <= 0 then 20 else if f.limit <= 100 then f.limit else 100;
            |PageOf(t, f, cursor).ids| == if left <= asked then left else asked
  {
    AscendingFacts(Candidates(t, f, cursor));
  }

  ghost function PagesFor(n: nat, limit: nat): nat
    requires limit > 0
  {
    if n <= limit then 1 else 1 + PagesFor(n - limit, limit)
  }

  lemma {:induction false} PagesForIsCeiling(n: nat, limit: nat)
    requires limit > 0
    ensures (PagesFor(n, limit) - 1) * limit < (if n == 0 then 1 else n) <= PagesFor(n, limit) * limit
  {
    if n > limit {
      PagesForIsCeiling(n - limit, limit);
      assert PagesFor(n, limit) * limit == PagesFor(n - limit, limit) * limit + limit;
      assert (PagesFor(n, limit) - 1) * limit == (PagesFor(n - limit, limit) - 1) * limit + limit;
    } else {
      assert PagesFor(n, limit) == 1;
    }
  }

  lemma NoCursorMeansLastPage(t: Table, f: ListFilter, cursor: nat)
    requires 0 !in t
    ensures PageOf(t, f, cursor).next == 0 <==> |Candidates(t, f, cursor)| <= PageLimit(f)
    ensures PageOf(t, f, cursor).next == 0 ==> PageOf(t, f, cursor).ids == Ascending(Candidates(t, f, cursor))
  {
    var all := Ascending(Candidates(t, f, cursor));
    AscendingFacts(Candidates(t, f, cursor));
    if |all| > PageLimit(f) {
      assert all[PageLimit(f) - 1] in Candidates(t, f, cursor);
    }
  }

  /** The pages concatenate to the one sorted scan, in as few pages as the limit allows. */
  lemma {:induction false} FixedWalkIsSortedScan(t: Table, f: ListFilter, cursor: nat)
    requires 0 !in t
    ensures Flatten(WalkFixed(t, f, cursor)) == Ascending(Candidates(t, f, cursor))
    ensures |WalkFixed(t, f, cursor)| == PagesFor(|Candidates(t, f, cursor)|, PageLimit(f))
    decreases Candidates(t, f, cursor)
  {
    var page := PageOf(t, f, cursor);
    NoCursorMeansLastPage(t, f, cursor);
    if page.next == 0 {
      FlattenCons(page.ids, []);
    } else {
      Shrinks(t, f, cursor);
      ShrinksByPage(t, f, cursor);
      FixedWalkIsSortedScan(t, f, page.next);
      FlattenCons(page.ids, WalkFixed(t, f, page.next));
    }
  }

  /** Every page but the last is full. */
  lemma {:induction false} FixedWalkFillsPages(t: Table, f: ListFilter, cursor: nat, k: nat)
    requires 0 !in t && k < |WalkFixed(t, f, cursor)| - 1
    ensures |WalkFixed(t, f, cursor)[k]| == PageLimit(f)
    decreases Candidates(t, f, cursor)
  {
    var page := PageOf(t, f, cursor);
    if k > 0 {
      Shrinks(t, f, cursor);
      assert WalkFixed(t, f, cursor)[k] == WalkFixed(t, f, page.next)[k - 1];
      FixedWalkFillsPages(t, f, page.next, k - 1);
    }
  }
}
