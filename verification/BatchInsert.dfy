/**
  The multi-row INSERT of redirect events: numbered placeholders, one flat argument list, and ON CONFLICT DO NOTHING.
*/
module BatchInsert {
  import opened Wrappers
  import opened OnConflict
  import IngestionStore

  datatype Event = Event(
    id: string, code: string, workspace: string, at: int,
    ip: string, userAgent: string, device: string, browser: string, os: string, bot: bool,
    country: string, referrerDomain: string, referrerRaw: string, requestId: string)

  /** A row of redirect_events; the optional columns are the nullable ones. */
  datatype Row = Row(
    id: string, code: string, workspace: string, at: int,
    ip: Option<string>, userAgent: Option<string>, device: Option<string>, browser: Option<string>, os: Option<string>,
    bot: bool,
    country: Option<string>, referrerDomain: Option<string>, referrerRaw: Option<string>, requestId: Option<string>)

  datatype Arg = Text(text: string) | Time(at: int) | Flag(flag: bool) | Null

  const COLUMNS := 14

  /** The most parameters PostgreSQL takes in one statement. */
  const MAX_PARAMETERS := 65535

  function NilIfEmpty(s: string): Arg {
    if s == "" then Null else Text(s)
  }

  /** One iteration of the loop: the placeholders of a row ... */
  function Placeholders(base: nat): seq<nat> {
    [base + 1, base + 2, base + 3, base + 4, base + 5, base + 6, base + 7,
     base + 8, base + 9, base + 10, base + 11, base + 12, base + 13, base + 14]
  }

  /** ... and its arguments, in the order of the append. */
  function Arguments(e: Event): seq<Arg> {
    [Text(e.id), Text(e.code), Text(e.workspace), Time(e.at),
     NilIfEmpty(e.ip), NilIfEmpty(e.userAgent), NilIfEmpty(e.device), NilIfEmpty(e.browser), NilIfEmpty(e.os),
     Flag(e.bot),
     NilIfEmpty(e.country), NilIfEmpty(e.referrerDomain), NilIfEmpty(e.referrerRaw), NilIfEmpty(e.requestId)]
  }

  // ---------------------------------------------------------------- what the database makes of it

  /** The argument a placeholder stands for; a number out of range is an error. */
  function Bound(args: seq<Arg>, p: nat): Option<Arg> {
    if 1 <= p <= |args| then Some(args[p - 1]) else None
  }

  function Bind(args: seq<Arg>, row: seq<nat>): (cells: Option<seq<Arg>>)
    ensures cells.Some? ==> |cells.value| == |row|
  {
    if row == [] then Some([])
    else
      match (Bind(args, row[..|row| - 1]), Bound(args, row[|row| - 1]))
      case (Some(cells), Some(cell)) => Some(cells + [cell])
      case _ => None
  }

  predicate Texts(cells: seq<Arg>, columns: set<nat>)
    requires forall c :: c in columns ==> c < |cells|
  {
    forall c :: c in columns ==> cells[c].Text?
  }

  predicate TextsOrNulls(cells: seq<Arg>, columns: set<nat>)
    requires forall c :: c in columns ==> c < |cells|
  {
    forall c :: c in columns ==> cells[c].Text? || cells[c].Null?
  }

  function Nullable(cell: Arg): Option<string>
    requires cell.Text? || cell.Null?
  {
    if cell.Text? then Some(cell.text) else None
  }

  /** The column list of the statement: which cell goes where, with NOT NULL and types enforced. */
  function Stored(cells: seq<Arg>): Option<Row> {
    if |cells| == COLUMNS && Texts(cells, {0, 1, 2}) && cells[3].Time? && cells[9].Flag?
       && TextsOrNulls(cells, {4, 5, 6, 7, 8, 10, 11, 12, 13})
    then Some(Row(cells[0].text, cells[1].text, cells[2].text, cells[3].at,
                  Nullable(cells[4]), Nullable(cells[5]), Nullable(cells[6]), Nullable(cells[7]), Nullable(cells[8]),
                  cells[9].flag,
                  Nullable(cells[10]), Nullable(cells[11]), Nullable(cells[12]), Nullable(cells[13])))
    else None
  }

  function InsertedRow(args: seq<Arg>, row: seq<nat>): Option<Row> {
    match Bind(args, row)
    case Some(cells) => Stored(cells)
    case None => None
  }

  function Absent(column: Option<string>): string {
    if column.Some? then column.value else ""
  }

  /** An event as it reads back, absent columns as empty strings. */
  function ReadBack(r: Row): Event {
    Event(r.id, r.code, r.workspace, r.at,
          Absent(r.ip), Absent(r.userAgent), Absent(r.device), Absent(r.browser), Absent(r.os), r.bot,
          Absent(r.country), Absent(r.referrerDomain), Absent(r.referrerRaw), Absent(r.requestId))
  }

  function NoEmptyText(column: Option<string>): bool {
    column != Some("")
  }

  /** No nullable column holds an empty string. */
  predicate Normal(r: Row) {
    && NoEmptyText(r.ip) && NoEmptyText(r.userAgent)
    && NoEmptyText(r.device) && NoEmptyText(r.browser) && NoEmptyText(r.os)
    && NoEmptyText(r.country) && NoEmptyText(r.referrerDomain) && NoEmptyText(r.referrerRaw) && NoEmptyText(r.requestId)
  }

  function OrNull(text: string): Option<string> {
    if text == "" then None else Some(text)
  }

  /** The row is exactly this event, column by column, with NULL where the event has nothing. */
  predicate Holds(row: Option<Row>, e: Event) {
    row == Some(Row(e.id, e.code, e.workspace, e.at,
                    OrNull(e.ip), OrNull(e.userAgent), OrNull(e.device), OrNull(e.browser), OrNull(e.os), e.bot,
                    OrNull(e.country), OrNull(e.referrerDomain), OrNull(e.referrerRaw), OrNull(e.requestId)))
  }

  /** Nothing is lost: the event reads back from its row, which has no empty text in it. */
  lemma HeldReadsBack(row: Option<Row>, e: Event)
    requires Holds(row, e)
    ensures ReadBack(row.value) == e && Normal(row.value)
  {
  }

  // ---------------------------------------------------------------- the loop

  /**
    Builds the statement: every row of the VALUES list stores its own event, and every argument is used exactly once.
   */
  method BuildInsert(events: seq<Event>) returns (placeholders: seq<seq<nat>>, args: seq<Arg>)
    ensures |placeholders| == |events| && |args| == COLUMNS * |events|
    ensures forall i :: 0 <= i < |events| ==> Holds(InsertedRow(args, placeholders[i]), events[i])
    ensures forall i, j :: 0 <= i < |events| && 0 <= j < COLUMNS ==>
              |placeholders[i]| == COLUMNS && placeholders[i][j] == COLUMNS * i + j + 1
  {
    placeholders, args := [], [];
    for i := 0 to |events|
      invariant |placeholders| == i && |args| == COLUMNS * i
      invariant forall k :: 0 <= k < i ==> placeholders[k] == Placeholders(COLUMNS * k)
      invariant forall k :: 0 <= k < i ==> Holds(InsertedRow(args, placeholders[k]), events[k])
    {
      var base := i * COLUMNS;
      LastRowHolds(args, events[i]);
      EarlierRowsHold(args, Arguments(events[i]), placeholders, events[..i]);
      placeholders := placeholders + [Placeholders(base)];
      args := args + Arguments(events[i]);
    }
  }

  lemma EarlierRowsHold(args: seq<Arg>, more: seq<Arg>, placeholders: seq<seq<nat>>, events: seq<Event>)
    requires |placeholders| == |events|
    requires forall k :: 0 <= k < |events| ==> Holds(InsertedRow(args, placeholders[k]), events[k])
    ensures forall k :: 0 <= k < |events| ==> Holds(InsertedRow(args + more, placeholders[k]), events[k])
  {
    forall k | 0 <= k < |events|
      ensures Holds(InsertedRow(args + more, placeholders[k]), events[k])
    {
      BindPrefix(args, more, placeholders[k]);
    }
  }

  /** Arguments appended later do not move the earlier ones. */
  lemma {:induction false} BindPrefix(args: seq<Arg>, more: seq<Arg>, row: seq<nat>)
    requires Bind(args, row).Some?
    ensures Bind(args + more, row) == Bind(args, row)
  {
    if row != [] {
      BindPrefix(args, more, row[..|row| - 1]);
    }
  }

  lemma {:induction false} BindIsPointwise(args: seq<Arg>, row: seq<nat>)
    requires forall j :: 0 <= j < |row| ==> 1 <= row[j] <= |args|
    ensures Bind(args, row).Some?
    ensures forall j :: 0 <= j < |row| ==> Bind(args, row).value[j] == args[row[j] - 1]
  {
    if row != [] {
      BindIsPointwise(args, row[..|row| - 1]);
    }
  }

  lemma LastRowHolds(args: seq<Arg>, e: Event)
    ensures Holds(InsertedRow(args + Arguments(e), Placeholders(|args|)), e)
  {
    var all, row := args + Arguments(e), Placeholders(|args|);
    BindIsPointwise(all, row);
    assert Bind(all, row).value == Arguments(e);
    ArgumentsStore(e);
  }

  lemma ArgumentsStore(e: Event)
    ensures Holds(Stored(Arguments(e)), e)
  {
  }

  /** How many events fit in one statement, and that neither a flush nor the final one can exceed it. */
  lemma FitsIff(n: nat)
    ensures COLUMNS == 14 && (COLUMNS * n <= MAX_PARAMETERS <==> 14 * n <= 65535)
    ensures COLUMNS * n <= MAX_PARAMETERS <==> n <= 4681
    ensures n <= IngestionStore.BATCH_SIZE || n <= IngestionStore.CHANNEL_SIZE ==> COLUMNS * n <= MAX_PARAMETERS
  {
  }

  // ---------------------------------------------------------------- ON CONFLICT DO NOTHING

  /** The primary key. */
  function Key(): Row -> (string, int) {
    (r: Row) => (r.id, r.at)
  }

  /** Only a whole key counts as a repetition. */
  lemma SameKeyIff(x: Row, y: Row)
    ensures Key()(x) == Key()(y) <==> x.id == y.id && x.at == y.at
  {
  }

  /** The whole statement: the rows of the VALUES list, inserted where their key is new. */
  function Execute(table: seq<Row>, placeholders: seq<seq<nat>>, args: seq<Arg>): Option<seq<Row>> {
    match Rows(placeholders, args)
    case Some(rows) => Some(Insert(Key(), table, rows))
    case None => None
  }

  function Rows(placeholders: seq<seq<nat>>, args: seq<Arg>): (rows: Option<seq<Row>>)
    ensures rows.Some? ==> |rows.value| == |placeholders|
  {
    if placeholders == [] then Some([])
    else
      var init, last := placeholders[..|placeholders| - 1], placeholders[|placeholders| - 1];
      match (Rows(init, args), InsertedRow(args, last))
      case (Some(rows), Some(row)) => Some(rows + [row])
      case _ => None
  }

  predicate Reads(row: Option<Row>, e: Event) {
    row.Some? && ReadBack(row.value) == e
  }

  /** The rows of a statement, one by one. */
  lemma {:induction false} RowsAre(placeholders: seq<seq<nat>>, args: seq<Arg>)
    requires forall i :: 0 <= i < |placeholders| ==> InsertedRow(args, placeholders[i]).Some?
    ensures Rows(placeholders, args).Some?
    ensures forall i :: 0 <= i < |placeholders| ==>
              Some(Rows(placeholders, args).value[i]) == InsertedRow(args, placeholders[i])
  {
    if placeholders != [] {
      RowsAre(placeholders[..|placeholders| - 1], args);
    }
  }

  lemma RowsHold(placeholders: seq<seq<nat>>, args: seq<Arg>, events: seq<Event>)
    requires |placeholders| == |events|
    requires forall i :: 0 <= i < |events| ==> Holds(InsertedRow(args, placeholders[i]), events[i])
    ensures Rows(placeholders, args).Some?
    ensures forall i :: 0 <= i < |events| ==> ReadBack(Rows(placeholders, args).value[i]) == events[i]
  {
    forall i | 0 <= i < |events|
      ensures Reads(InsertedRow(args, placeholders[i]), events[i])
    {
      HeldReadsBack(InsertedRow(args, placeholders[i]), events[i]);
    }
    RowsAre(placeholders, args);
  }

  /**
    What the built statement does: it succeeds, it only appends, and every event of the batch reads back from a row
    of its own if and only if no key is repeated in the table and the batch.
   */
  lemma {:induction false} StatementStores(table: seq<Row>, placeholders: seq<seq<nat>>, args: seq<Arg>,
                                           events: seq<Event>)
    requires KeysUnique(Key(), table) && |placeholders| == |events|
    requires forall i :: 0 <= i < |events| ==> Holds(InsertedRow(args, placeholders[i]), events[i])
    ensures Execute(table, placeholders, args).Some? && Rows(placeholders, args).Some?
    ensures var after, rows := Execute(table, placeholders, args).value, Rows(placeholders, args).value;
            && table <= after && KeysUnique(Key(), after)
            && (|after| == |table| + |events| <==> KeysUnique(Key(), table + rows))
            && (|after| == |table| + |events| ==>
                  forall i :: 0 <= i < |events| ==> ReadBack(after[|table| + i]) == events[i])
  {
    RowsHold(placeholders, args, events);
    var rows := Rows(placeholders, args).value;
    InsertKeepsTable(Key(), table, rows);
    InsertsAllIff(Key(), table, rows);
  }
}
