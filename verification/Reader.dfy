/** One page from the store, and what a walk over pages by cursor text keeps. */
module Reader {
  import opened Wrappers
  import opened Chain
  import opened Store
  import opened Numerals
  import opened Paging
  import opened Keyset

  /** The rows a statement's WHERE keeps. */
  function Where(rows: seq<Row>, s: Statement): seq<Row> {
    if rows == [] then []
    else
      var last := rows[|rows| - 1];
      Where(rows[..|rows| - 1], s) + (if Satisfies(s.conditions, s.args, last) then [last] else [])
  }

  /** What the engine returns for a statement: filtered, ordered, cut at the bound LIMIT. */
  function Execute(rows: seq<Row>, s: Statement): seq<Row> {
    var all := OrderBy(s.ascending, Where(rows, s));
    if 1 <= s.limitSlot <= |s.args| && s.args[s.limitSlot - 1].Num? && 0 <= s.args[s.limitSlot - 1].n < |all|
    then all[..s.args[s.limitSlot - 1].n]
    else all
  }

  lemma {:induction false} WhereIsSelect(rows: seq<Row>, s: Statement, q: Query, after: Option<int>)
    requires forall r :: Satisfies(s.conditions, s.args, r) <==> Keeps(q, s.ascending, after, r)
    ensures Where(rows, s) == Select(rows, q, s.ascending, after)
  {
    hide Satisfies, Keeps;
    if rows != [] {
      WhereIsSelect(rows[..|rows| - 1], s, q, after);
    }
  }

  /** A statement that means the filter and the keyset, and binds limit + 1, fetches the
      first limit + 1 rows found. */
  lemma {:induction false} ExecuteFetches(rows: seq<Row>, s: Statement, q: Query, after: Option<int>, limit: nat)
    requires forall r :: Satisfies(s.conditions, s.args, r) <==> Keeps(q, s.ascending, after, r)
    requires 1 <= s.limitSlot <= |s.args| && s.args[s.limitSlot - 1] == Num(limit + 1)
    ensures var found := Found(rows, q, s.ascending, after);
            Execute(rows, s) == if limit + 1 < |found| then found[..limit + 1] else found
  {
    WhereIsSelect(rows, s, q, after);
    hide Where, Satisfies, Keeps;
  }

  // ---- The columns a row is read from ----

  const EVENT_COLUMNS: seq<string> :=
    ["id", "contract_id", "ledger", "tx_hash", "event_index", "name", "topics_json", "data_json", "raw_topics",
     "raw_data", "emitted_at", "in_successful_contract_call"]

  /** What the table keeps under a column: the id, or what the insert put there. */
  function Field(r: Row, column: string): Option<Arg> {
    var j := PositionOf(column, INSERT_COLUMNS);
    if column == "id" then Some(Int(r.id))
    else if j < COLUMNS_PER_ROW then Some(Columns(r.event)[j])
    else None
  }

  function Selected(r: Row): seq<Option<Arg>> {
    seq(|EVENT_COLUMNS|, k requires 0 <= k < |EVENT_COLUMNS| => Field(r, EVENT_COLUMNS[k]))
  }

  predicate Scannable(values: seq<Option<Arg>>) {
    && |values| == 12 && (forall k | 0 <= k < 12 :: values[k].Some?)
    && values[0].value.Int? && values[1].value.Text? && values[2].value.Int? && values[3].value.Text?
    && values[4].value.Int? && values[5].value.Text? && values[6].value.Json? && values[7].value.Text?
    && values[8].value.Texts? && values[9].value.Text? && values[10].value.Text? && values[11].value.Bool?
  }

  /** Reads the selected values by position. */
  function ScanEvent(values: seq<Option<Arg>>): Row
    requires Scannable(values)
  {
    Row(values[0].value.n,
        Event(contract := values[1].value.text, ledger := values[2].value.n, txHash := values[3].value.text,
              index := values[4].value.n, name := values[5].value.text, topics := values[6].value.topics,
              data := values[7].value.text, rawTopics := values[8].value.texts, rawData := values[9].value.text,
              emittedAt := values[10].value.text, success := values[11].value.b))
  }

  /** Under every column it names, a stored row keeps what the insert bound there. */
  lemma {:induction false} StoredAsBound(s: InsertStatement, i: nat, j: nat, id: int, e: Event)
    requires s.columns == INSERT_COLUMNS && i < |s.values| && RowBound(s.values[i], s.args, i, e)
    requires j < COLUMNS_PER_ROW
    ensures Filled(s, i) && |INSERT_COLUMNS| == COLUMNS_PER_ROW
    ensures Field(Row(id, ReadRow(s, i)), INSERT_COLUMNS[j]) == BoundTo(s, i, INSERT_COLUMNS[j])
  {
    hide Columns, BoundTo, RowBound, Filled, ReadRow;
    ColumnsAreNamed();
    PositionIs(INSERT_COLUMNS[j], INSERT_COLUMNS, j);
    RowReads(s, i, e);
    BoundIs(s, i, j, e);
    NoIdColumn(j);
  }

  lemma NoIdColumn(j: nat)
    requires j < COLUMNS_PER_ROW
    ensures |INSERT_COLUMNS| == COLUMNS_PER_ROW && INSERT_COLUMNS[j] != "id"
  {
    assert |INSERT_COLUMNS[j]| > 2;
  }

  lemma {:induction false} SelectedAre(r: Row)
    ensures |Selected(r)| == 12 && Selected(r)[0] == Some(Int(r.id))
    ensures forall j | 0 <= j < COLUMNS_PER_ROW :: Selected(r)[j + 1] == Some(Columns(r.event)[j])
  {
    hide Columns, PositionOf;
    assert EVENT_COLUMNS == ["id"] + INSERT_COLUMNS;
    ColumnsAreNamed();
    forall j | 0 <= j < COLUMNS_PER_ROW
      ensures Selected(r)[j + 1] == Some(Columns(r.event)[j])
    {
      NoIdColumn(j);
      PositionIs(INSERT_COLUMNS[j], INSERT_COLUMNS, j);
    }
  }

  /** What is selected, column by column, scans back to the row. */
  lemma {:induction false} ScanReads(r: Row)
    ensures Scannable(Selected(r)) && ScanEvent(Selected(r)) == r
  {
    hide Selected;
    SelectedAre(r);
    var v, c := Selected(r), Columns(r.event);
    assert v[1] == Some(c[0]) && v[2] == Some(c[1]) && v[3] == Some(c[2]) && v[4] == Some(c[3]) && v[5] == Some(c[4]);
    assert v[6] == Some(c[5]) && v[7] == Some(c[6]) && v[8] == Some(c[7]) && v[9] == Some(c[8]) && v[10] == Some(c[9]);
    assert v[11] == Some(c[10]);
  }

  /** What makes a query answerable. */
  predicate Accepted(q: Query, dialect: Dialect) {
    && ResolvePageSize(q.limit).Ok?
    && q.contract != ""
    && !dialect.Unknown?
    && OrderIsAscending(q.order).Ok?
    && CursorOf(q).Ok?
  }

  /** Which queries are answered: a limit that is absent or a page size, a contract, a
      known engine and order, and a cursor that is absent or spells an id. */
  lemma {:induction false} AcceptedMeans(q: Query, dialect: Dialect)
    ensures Accepted(q, dialect) <==>
            && 0 <= q.limit <= 10000
            && q.contract != ""
            && (dialect == SQLite || dialect == Postgres)
            && q.order in {"", "asc", "desc"}
            && (q.cursor == "" || exists id :: 0 <= id && Spells(q.cursor, id))
    ensures Accepted(q, dialect) ==>
              && (OrderIsAscending(q.order).value <==> q.order != "desc")
              && ResolvePageSize(q.limit).value == (if q.limit == 0 then 100 else q.limit)
              && (if q.cursor == "" then CursorOf(q).value == None
                  else CursorOf(q).value.Some? && Spells(q.cursor, CursorOf(q).value.value))
  {
    hide ParseInt64, Spells;
    var parsed := ParseInt64(q.cursor);
    if parsed.Some? {
      ParseInt64Means(q.cursor, parsed.value);
    }
    if id :| 0 <= id && Spells(q.cursor, id) {
      ParseInt64Means(q.cursor, id);
    }
  }

  function CursorText(next: Option<int>): Option<string> {
    match next case None => None case Some(id) => Some(FormatCursor(id))
  }

  /** One page of a contract's events, with the next page's cursor when rows remain. */
  method QueryPage(table: seq<Row>, q: Query, dialect: Dialect, fault: bool)
    returns (r: Result<(seq<Row>, Option<string>), QueryError>)
    ensures r.Ok? <==> Accepted(q, dialect) && !fault
    ensures Accepted(q, dialect) && fault ==> r == Err(QueryError.Driver)
    ensures r.Ok? ==>
              var page := PageOf(table, q, OrderIsAscending(q.order).value, CursorOf(q).value,
                                 ResolvePageSize(q.limit).value);
              r.value == (page.rows, CursorText(page.next))
  {
    hide Execute, Satisfies, Keeps, InSlotOrder, Matches, ParseCursor, FormatCursor, Found, Selected, ScanEvent,
        Scannable;
    var size := ResolvePageSize(q.limit);
    if size.Err? {
      return Err(size.error);
    }
    var limit := size.value;
    var built := BuildEventsQuery(q, dialect, limit);
    if built.Err? {
      return Err(built.error);
    }
    if fault {
      return Err(QueryError.Driver);
    }
    ExecuteFetches(table, built.value, q, CursorOf(q).value, limit);
    var rows := Execute(table, built.value);
    var events: seq<Row> := [];
    for i := 0 to |rows|
      invariant events == rows[..i]
    {
      ScanReads(rows[i]);
      events := events + [ScanEvent(Selected(rows[i]))];
    }
    assert events == rows;
    ghost var found := Found(table, q, built.value.ascending, CursorOf(q).value);
    if |events| > limit {
      assert events[..limit] == found[..limit];
      return Ok((events[..limit], Some(FormatCursor(events[limit - 1].id))));
    }
    return Ok((events, None));
  }

  ghost predicate StorableIds(table: seq<Row>) {
    forall r | r in table :: 0 <= r.id <= MAX_INT64
  }

  /** A page's cursor is the id of one of its rows, so it reads back as that id. */
  lemma NextCursorReads(table: seq<Row>, q: Query, asc: bool, after: Option<int>, limit: nat)
    requires 1 <= limit && StorableIds(table)
    ensures var next := PageOf(table, q, asc, after, limit).next;
            next.Some? ==>
              0 <= next.value <= MAX_INT64 && CursorOf(q.(cursor := FormatCursor(next.value))) == Ok(next)
  {
    var page := PageOf(table, q, asc, after, limit);
    if page.next.Some? {
      var found := Found(table, q, asc, after);
      OrderByMembers(asc, Select(table, q, asc, after));
      SelectMembers(table, q, asc, after);
      assert found[limit - 1] in found;
      CursorRoundTrip(page.next.value);
    }
  }

  /** A walk reads the query only through its filters. */
  lemma {:induction false} CursorIsNotAFilter(rows: seq<Row>, q: Query, cursor: string, asc: bool, after: Option<int>)
    ensures Select(rows, q.(cursor := cursor), asc, after) == Select(rows, q, asc, after)
  {
    if rows != [] {
      CursorIsNotAFilter(rows[..|rows| - 1], q, cursor, asc, after);
    }
  }

  lemma SamePage(rows: seq<Row>, q: Query, cursor: string, asc: bool, after: Option<int>, limit: nat)
    requires 1 <= limit
    ensures PageOf(rows, q.(cursor := cursor), asc, after, limit) == PageOf(rows, q, asc, after, limit)
  {
    CursorIsNotAFilter(rows, q, cursor, asc, after);
  }

  /** The stream after some pages: the cursor text reads back, and what was yielded
      followed by the rest of the walk is the whole walk. */
  ghost predicate Streaming(tables: seq<seq<Row>>, query: Query, asc: bool, limit: nat, pages: nat,
                            cursor: string, after: Option<int>, yielded: seq<Row>)
    requires 1 <= limit && pages <= |tables| && CursorOf(query).Ok?
  {
    && CursorOf(query.(cursor := cursor)) == Ok(after)
    && var rest := Walk(tables[pages..], query, asc, after, limit);
       Walk(tables, query, asc, CursorOf(query).value, limit) ==
           Walked(yielded + rest.rows, pages + rest.pages, rest.done)
  }

  lemma StreamBegins(tables: seq<seq<Row>>, query: Query, dialect: Dialect)
    ensures Accepted(query, dialect) ==>
              Streaming(tables, query, OrderIsAscending(query.order).value, ResolvePageSize(query.limit).value, 0,
                        query.cursor, CursorOf(query).value, [])
  {
    assert tables[0..] == tables;
  }

  lemma StreamLeft(tables: seq<seq<Row>>, query: Query, asc: bool, limit: nat, cursor: string, after: Option<int>,
                   yielded: seq<Row>)
    requires 1 <= limit && CursorOf(query).Ok? && Streaming(tables, query, asc, limit, |tables|, cursor, after, yielded)
    ensures CursorOf(query.(cursor := cursor)) == Ok(after)
    ensures Walk(tables, query, asc, CursorOf(query).value, limit) == Walked(yielded, |tables|, false)
  {
    assert tables[|tables|..] == [];
  }

  /** One page: accepted, and either the last of the walk or a step of the stream. */
  lemma StreamStep(tables: seq<seq<Row>>, query: Query, asc: bool, limit: nat, pages: nat,
                   cursor: string, after: Option<int>, yielded: seq<Row>)
    requires pages < |tables| && 1 <= limit && StorableIds(tables[pages])
    requires CursorOf(query).Ok? && Streaming(tables, query, asc, limit, pages, cursor, after, yielded)
    ensures PageOf(tables[pages], query.(cursor := cursor), asc, after, limit) ==
              PageOf(tables[pages], query, asc, after, limit)
    ensures CursorOf(query.(cursor := cursor)) == Ok(after)
    ensures var page := PageOf(tables[pages], query, asc, after, limit);
            if page.next.None? then
              Walk(tables, query, asc, CursorOf(query).value, limit) == Walked(yielded + page.rows, pages + 1, true)
            else
              Streaming(tables, query, asc, limit, pages + 1, FormatCursor(page.next.value), page.next,
                        yielded + page.rows)
  {
    hide Walk, Found, Matches, ParseCursor, FormatCursor, StorableIds, OrderIsAscending, PageOf, CursorOf;
    SamePage(tables[pages], query, cursor, asc, after, limit);
    NextCursorReads(tables[pages], query, asc, after, limit);
    var page := PageOf(tables[pages], query, asc, after, limit);
    WalkStep(tables, query, asc, after, limit, pages);
    if page.next.Some? {
      var rest := Walk(tables[pages + 1..], query, asc, page.next, limit);
      assert yielded + (page.rows + rest.rows) == yielded + page.rows + rest.rows;
    }
  }

  lemma WalkStep(tables: seq<seq<Row>>, query: Query, asc: bool, after: Option<int>, limit: nat, pages: nat)
    requires pages < |tables| && 1 <= limit
    ensures var page := PageOf(tables[pages], query, asc, after, limit);
            var walk := Walk(tables[pages..], query, asc, after, limit);
            if page.next.None? then walk == Walked(page.rows, 1, true)
            else
              var rest := Walk(tables[pages + 1..], query, asc, page.next, limit);
              walk == Walked(page.rows + rest.rows, rest.pages + 1, rest.done)
  {
    hide PageOf;
    assert tables[pages..][1..] == tables[pages + 1..];
  }
}
