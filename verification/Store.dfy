/** The contracts and events tables: what each statement does to the database,
    and the methods that issue them. */
module Store {
  import opened Wrappers
  import opened Chain

  const MAX_PAGE_SIZE := 10000
  const COLUMNS_PER_ROW := 11

  /** `first` is None until the first commit, `last` starts at zero. */
  datatype Contract = Contract(first: Option<int>, last: int)

  datatype Row = Row(id: int, event: Event)

  datatype Db = Db(contracts: map<string, Contract>, events: seq<Row>)

  datatype StoreError = NilEvent | EmptyContractId | BatchTooLarge | NotFound | ForeignKey | Driver

  // ---- The statements ----

  predicate Conflicts(rows: seq<Row>, e: Event) {
    exists i | 0 <= i < |rows| :: rows[i].event.ledger == e.ledger && rows[i].event.index == e.index
  }

  /** INSERT of many rows with ON CONFLICT (ledger, event_index) DO NOTHING. Each
      inserted row takes the next id. */
  function InsertAll(rows: seq<Row>, batch: seq<Event>, ids: seq<int>): (rows': seq<Row>)
    requires |batch| <= |ids|
    ensures rows <= rows'
    decreases |batch|
  {
    if batch == [] then rows
    else if Conflicts(rows, batch[0]) then InsertAll(rows, batch[1..], ids)
    else InsertAll(rows + [Row(ids[0], batch[0])], batch[1..], ids[1..])
  }

  /** What the engines promise about new ids: they ascend within the statement,
      are unused, and exceed every live id of the contracts being written. */
  ghost predicate FreshIds(rows: seq<Row>, batch: seq<Event>, ids: seq<int>) {
    && |batch| <= |ids|
    && (forall i | 0 <= i < |ids| :: 0 < ids[i])
    && (forall i, j | 0 <= i < j < |ids| :: ids[i] < ids[j])
    && (forall i, j | 0 <= i < |rows| && 0 <= j < |ids| :: rows[i].id != ids[j])
    && (forall i, j, k | 0 <= i < |rows| && 0 <= j < |ids| && 0 <= k < |batch| ::
          rows[i].event.contract == batch[k].contract ==> rows[i].id < ids[j])
  }

  predicate ForeignKeysHold(contracts: map<string, Contract>, rows: seq<Row>) {
    forall i | 0 <= i < |rows| :: rows[i].event.contract in contracts
  }

  function Inserted(db: Db, batch: seq<Event>, ids: seq<int>): Result<Db, StoreError>
    requires |batch| <= |ids|
  {
    if |batch| == 0 then Ok(db)
    else if |batch| > MAX_PAGE_SIZE then Err(BatchTooLarge)
    else if exists i | 0 <= i < |batch| :: batch[i].contract == "" then Err(EmptyContractId)
    else
      var rows := InsertAll(db.events, batch, ids);
      if ForeignKeysHold(db.contracts, rows[|db.events|..]) then Ok(db.(events := rows))
      else Err(ForeignKey)
  }

  function ProgressSet(db: Db, c: string, ledger: int): Result<Db, StoreError> {
    if c !in db.contracts then Err(NotFound)
    else
      var row := db.contracts[c];
      var first := if row.first.None? then Some(ledger) else row.first;
      Ok(db.(contracts := db.contracts[c := Contract(first, ledger)]))
  }

  function Registered(db: Db, c: string): Result<Db, StoreError> {
    if c == "" then Err(EmptyContractId)
    else if c in db.contracts then Ok(db)
    else Ok(db.(contracts := db.contracts[c := Contract(None, 0)]))
  }

  /** ON DELETE CASCADE. */
  function Without(rows: seq<Row>, c: string): (rest: seq<Row>) {
    if rows == [] then []
    else
      var last := rows[|rows| - 1];
      Without(rows[..|rows| - 1], c) + (if last.event.contract == c then [] else [last])
  }

  function Deleted(db: Db, c: string): Result<Db, StoreError> {
    if c !in db.contracts then Err(NotFound)
    else Ok(Db(db.contracts - {c}, Without(db.events, c)))
  }

  /** A batch and its cursor, written together or not at all. */
  function Committed(db: Db, c: string, batch: seq<Event>, highest: int, ids: seq<int>): Result<Db, StoreError>
    requires |batch| <= |ids|
  {
    match Inserted(db, batch, ids)
    case Err(e) => Err(e)
    case Ok(db1) => ProgressSet(db1, c, highest)
  }

  // ---- What the statements mean ----

  /** A batch already stored is left alone, whatever ids a repeat would draw. */
  lemma {:induction false} InsertAgainChangesNothing(rows: seq<Row>, batch: seq<Event>, ids: seq<int>)
    requires |batch| <= |ids|
    requires forall i | 0 <= i < |batch| :: Conflicts(rows, batch[i])
    ensures InsertAll(rows, batch, ids) == rows
    decreases |batch|
  {
    if batch != [] {
      InsertAgainChangesNothing(rows, batch[1..], ids);
    }
  }

  lemma {:induction false} InsertStoresBatch(rows: seq<Row>, batch: seq<Event>, ids: seq<int>)
    requires |batch| <= |ids|
    ensures forall i | 0 <= i < |batch| :: Conflicts(InsertAll(rows, batch, ids), batch[i])
    decreases |batch|
  {
    if batch != [] {
      var next := if Conflicts(rows, batch[0]) then rows else rows + [Row(ids[0], batch[0])];
      var rest := if Conflicts(rows, batch[0]) then ids else ids[1..];
      assert Conflicts(next, batch[0]) by {
        if !Conflicts(rows, batch[0]) {
          assert next[|rows|].event == batch[0];
        }
      }
      InsertStoresBatch(next, batch[1..], rest);
      var done := InsertAll(rows, batch, ids);
      assert next <= done;
      var k :| 0 <= k < |next| && next[k].event.ledger == batch[0].ledger && next[k].event.index == batch[0].index;
      assert done[k] == next[k];
      forall i | 0 <= i < |batch|
        ensures Conflicts(done, batch[i])
      {
        if i > 0 {
          assert batch[i] == batch[1..][i - 1];
        }
      }
    }
  }

  /** Overlapping polls are harmless: inserting a batch twice is inserting it once. */
  lemma InsertIsIdempotent(rows: seq<Row>, batch: seq<Event>, ids: seq<int>, ids': seq<int>)
    requires |batch| <= |ids| && |batch| <= |ids'|
    ensures InsertAll(InsertAll(rows, batch, ids), batch, ids') == InsertAll(rows, batch, ids)
  {
    InsertStoresBatch(rows, batch, ids);
    InsertAgainChangesNothing(InsertAll(rows, batch, ids), batch, ids');
  }

  ghost predicate UniqueKeys(rows: seq<Row>) {
    forall i, j | 0 <= i < j < |rows| ::
      rows[i].event.ledger != rows[j].event.ledger || rows[i].event.index != rows[j].event.index
  }

  /** The unique constraint survives any insert, however the batch overlaps. */
  lemma {:induction false} InsertKeepsUniqueKeys(rows: seq<Row>, batch: seq<Event>, ids: seq<int>)
    requires |batch| <= |ids| && UniqueKeys(rows)
    ensures UniqueKeys(InsertAll(rows, batch, ids))
    decreases |batch|
  {
    if batch != [] {
      if Conflicts(rows, batch[0]) {
        InsertKeepsUniqueKeys(rows, batch[1..], ids);
      } else {
        InsertKeepsUniqueKeys(rows + [Row(ids[0], batch[0])], batch[1..], ids[1..]);
      }
    }
  }

  function Stamp(batch: seq<Event>, ids: seq<int>): seq<Row>
    requires |batch| <= |ids|
  {
    seq(|batch|, i requires 0 <= i < |batch| => Row(ids[i], batch[i]))
  }

  /** A batch that meets no stored key and repeats none is appended as it stands. */
  lemma {:induction false} InsertFreshBatch(rows: seq<Row>, batch: seq<Event>, ids: seq<int>)
    requires |batch| <= |ids|
    requires forall i | 0 <= i < |batch| :: !Conflicts(rows, batch[i])
    requires forall i, j | 0 <= i < j < |batch| :: batch[i].ledger != batch[j].ledger
               || batch[i].index != batch[j].index
    ensures InsertAll(rows, batch, ids) == rows + Stamp(batch, ids)
    decreases |batch|
  {
    if batch != [] {
      var next := rows + [Row(ids[0], batch[0])];
      forall i | 0 <= i < |batch[1..]|
        ensures !Conflicts(next, batch[1..][i])
      {
        assert batch[1..][i] == batch[i + 1];
      }
      InsertFreshBatch(next, batch[1..], ids[1..]);
      assert Stamp(batch, ids) == [Row(ids[0], batch[0])] + Stamp(batch[1..], ids[1..]);
    }
  }

  lemma {:induction false} WithoutMembers(rows: seq<Row>, c: string)
    ensures forall r :: r in Without(rows, c) <==> r in rows && r.event.contract != c
  {
    if rows != [] {
      WithoutMembers(rows[..|rows| - 1], c);
      assert rows == rows[..|rows| - 1] + [rows[|rows| - 1]];
    }
  }

  /** The rows left are those at the kept positions, in order: all but the contract's. */
  ghost predicate Remain(rows: seq<Row>, rest: seq<Row>, c: string, kept: seq<nat>) {
    && |kept| == |rest|
    && (forall i | 0 <= i < |kept| :: kept[i] < |rows| && rest[i] == rows[kept[i]])
    && (forall i, j | 0 <= i < j < |kept| :: kept[i] < kept[j])
    && (forall k | 0 <= k < |rows| :: k in kept <==> rows[k].event.contract != c)
  }

  lemma {:induction false} WithoutRemains(rows: seq<Row>, c: string) returns (kept: seq<nat>)
    ensures Remain(rows, Without(rows, c), c, kept)
  {
    if rows == [] {
      kept := [];
    } else {
      var n := |rows| - 1;
      kept := WithoutRemains(rows[..n], c);
      assert forall i | 0 <= i < |kept| :: kept[i] < n && rows[..n][kept[i]] == rows[kept[i]];
      if rows[n].event.contract != c {
        kept := kept + [n];
      }
    }
  }

  /** Two rows differ in id and in key, and within a contract ids run in emission order. */
  ghost predicate InOrder(a: Row, b: Row) {
    && a.id != b.id
    && (a.event.ledger != b.event.ledger || a.event.index != b.event.index)
    && (a.event.contract == b.event.contract ==>
          (a.id < b.id <==> Before(a.event.ledger, a.event.index, b.event.ledger, b.event.index)))
  }

  ghost predicate TableOrder(rows: seq<Row>) {
    forall i, j | 0 <= i < j < |rows| :: InOrder(rows[i], rows[j])
  }

  // ---- Binding the insert's arguments ----

  datatype Arg =
    | Text(text: string) | Int(n: int) | Bool(b: bool) | Json(topics: Option<seq<string>>) | Texts(texts: seq<string>)

  const INSERT_COLUMNS: seq<string> :=
    ["contract_id", "ledger", "tx_hash", "event_index", "name", "topics_json", "data_json", "raw_topics", "raw_data",
     "emitted_at", "in_successful_contract_call"]

  /** INSERT INTO events (columns) VALUES (slots of row 0), (slots of row 1) and so on:
      slot n stands for argument n, counted from 1. */
  datatype InsertStatement = InsertStatement(columns: seq<string>, values: seq<seq<nat>>, args: seq<Arg>)

  function PositionOf(column: string, columns: seq<string>): nat {
    if columns == [] || columns[0] == column then 0 else 1 + PositionOf(column, columns[1..])
  }

  /** The argument that row i puts under a column. */
  function BoundTo(s: InsertStatement, i: nat, column: string): Option<Arg> {
    var j := PositionOf(column, s.columns);
    if i < |s.values| && j < |s.values[i]| && 1 <= s.values[i][j] <= |s.args| then Some(s.args[s.values[i][j] - 1])
    else None
  }

  predicate PutsText(s: InsertStatement, i: nat, column: string) {
    var put := BoundTo(s, i, column);
    put.Some? && put.value.Text?
  }

  predicate PutsInt(s: InsertStatement, i: nat, column: string) {
    var put := BoundTo(s, i, column);
    put.Some? && put.value.Int?
  }

  /** Row i gives every column of the table but the id a value of the column's type. */
  predicate Filled(s: InsertStatement, i: nat) {
    var topics, rawTopics := BoundTo(s, i, "topics_json"), BoundTo(s, i, "raw_topics");
    var success := BoundTo(s, i, "in_successful_contract_call");
    && PutsText(s, i, "contract_id") && PutsInt(s, i, "ledger") && PutsText(s, i, "tx_hash")
    && PutsInt(s, i, "event_index") && PutsText(s, i, "name")
    && topics.Some? && topics.value.Json? && PutsText(s, i, "data_json")
    && rawTopics.Some? && rawTopics.value.Texts? && PutsText(s, i, "raw_data") && PutsText(s, i, "emitted_at")
    && success.Some? && success.value.Bool?
  }

  /** The event a row of the statement stores, column by column. */
  function ReadRow(s: InsertStatement, i: nat): Event
    requires Filled(s, i)
  {
    Event(contract := BoundTo(s, i, "contract_id").value.text,
          ledger := BoundTo(s, i, "ledger").value.n,
          txHash := BoundTo(s, i, "tx_hash").value.text,
          index := BoundTo(s, i, "event_index").value.n,
          name := BoundTo(s, i, "name").value.text,
          topics := BoundTo(s, i, "topics_json").value.topics,
          data := BoundTo(s, i, "data_json").value.text,
          rawTopics := BoundTo(s, i, "raw_topics").value.texts,
          rawData := BoundTo(s, i, "raw_data").value.text,
          emittedAt := BoundTo(s, i, "emitted_at").value.text,
          success := BoundTo(s, i, "in_successful_contract_call").value.b)
  }

  predicate AllFilled(s: InsertStatement) {
    forall i | 0 <= i < |s.values| :: Filled(s, i)
  }

  function ReadRows(s: InsertStatement): seq<Event>
    requires AllFilled(s)
  {
    seq(|s.values|, i requires 0 <= i < |s.values| => ReadRow(s, i))
  }

  function Columns(e: Event): (columns: seq<Arg>)
    ensures |columns| == COLUMNS_PER_ROW
  {
    [Text(e.contract), Int(e.ledger), Text(e.txHash), Int(e.index), Text(e.name), Json(e.topics),
     Text(e.data), Texts(e.rawTopics), Text(e.rawData), Text(e.emittedAt), Bool(e.success)]
  }

  /** Row i's slots are `$11i+1` to `$11i+11`, and its arguments are the event's. */
  predicate RowBound(slots: seq<nat>, args: seq<Arg>, i: nat, e: Event) {
    && |slots| == COLUMNS_PER_ROW
    && COLUMNS_PER_ROW * (i + 1) <= |args|
    && forall j | 0 <= j < COLUMNS_PER_ROW ::
         slots[j] == COLUMNS_PER_ROW * i + j + 1 && args[COLUMNS_PER_ROW * i + j] == Columns(e)[j]
  }

  lemma {:induction false} PositionIs(column: string, columns: seq<string>, j: nat)
    requires j < |columns| && columns[j] == column && forall k | 0 <= k < j :: columns[k] != column
    ensures PositionOf(column, columns) == j
  {
    if j > 0 {
      PositionIs(column, columns[1..], j - 1);
    }
  }

  lemma ColumnsAreNamed()
    ensures |INSERT_COLUMNS| == COLUMNS_PER_ROW
    ensures forall j, k | 0 <= j < k < COLUMNS_PER_ROW :: INSERT_COLUMNS[j] != INSERT_COLUMNS[k]
  {
    forall j, k | 0 <= j < k < COLUMNS_PER_ROW
      ensures INSERT_COLUMNS[j] != INSERT_COLUMNS[k]
    {
      var a, b := INSERT_COLUMNS[j], INSERT_COLUMNS[k];
      assert |a| == |b| ==> a[0] != b[0];
    }
  }

  lemma BoundAt(s: InsertStatement, i: nat, column: string, j: nat, e: Event)
    requires i < |s.values| && RowBound(s.values[i], s.args, i, e)
    requires PositionOf(column, s.columns) == j < COLUMNS_PER_ROW
    ensures BoundTo(s, i, column) == Some(Columns(e)[j])
  {
    hide Columns, PositionOf;
  }

  /** What a row bound to an event puts under the column at position j. */
  lemma {:induction false} BoundIs(s: InsertStatement, i: nat, j: nat, e: Event)
    requires s.columns == INSERT_COLUMNS && i < |s.values| && RowBound(s.values[i], s.args, i, e)
    requires j < COLUMNS_PER_ROW
    ensures |INSERT_COLUMNS| == COLUMNS_PER_ROW && BoundTo(s, i, INSERT_COLUMNS[j]) == Some(Columns(e)[j])
  {
    hide Columns, RowBound, BoundTo, PositionOf;
    ColumnsAreNamed();
    PositionIs(INSERT_COLUMNS[j], INSERT_COLUMNS, j);
    BoundAt(s, i, INSERT_COLUMNS[j], j, e);
  }

  /** Reading a bound row back gives the event it was bound to. */
  lemma {:induction false} RowReads(s: InsertStatement, i: nat, e: Event)
    requires s.columns == INSERT_COLUMNS && i < |s.values| && RowBound(s.values[i], s.args, i, e)
    ensures Filled(s, i) && ReadRow(s, i) == e
  {
    hide RowBound, BoundTo;
    BoundIs(s, i, 0, e);
    BoundIs(s, i, 1, e);
    BoundIs(s, i, 2, e);
    BoundIs(s, i, 3, e);
    BoundIs(s, i, 4, e);
    BoundIs(s, i, 5, e);
    BoundIs(s, i, 6, e);
    BoundIs(s, i, 7, e);
    BoundIs(s, i, 8, e);
    BoundIs(s, i, 9, e);
    BoundIs(s, i, 10, e);
  }

  method RowSlots(base: nat) returns (slots: seq<nat>)
    ensures |slots| == COLUMNS_PER_ROW && forall j | 0 <= j < COLUMNS_PER_ROW :: slots[j] == base + j + 1
  {
    slots := [];
    for j := 0 to COLUMNS_PER_ROW
      invariant |slots| == j
      invariant forall k | 0 <= k < j :: slots[k] == base + k + 1
    {
      slots := slots + [base + j + 1];
    }
  }

  /** The events behind a list of pointers, or the first fault met: a nil, or no contract id. */
  function Checked(pointers: seq<Option<Event>>): (r: Result<seq<Event>, StoreError>)
    ensures r.Ok? ==> |r.value| == |pointers| && forall i | 0 <= i < |pointers| :: pointers[i] == Some(r.value[i])
  {
    if pointers == [] then Ok([])
    else
      var init, last := Checked(pointers[..|pointers| - 1]), pointers[|pointers| - 1];
      if init.Err? then init
      else if last.None? then Err(NilEvent)
      else if last.value.contract == "" then Err(EmptyContractId)
      else Ok(init.value + [last.value])
  }

  /** A pointer that can be inserted: not nil, and with a contract id. */
  predicate Usable(p: Option<Event>) {
    p.Some? && p.value.contract != ""
  }

  /** Accepted when every pointer is usable; otherwise the first that is not names the error. */
  lemma {:induction false} CheckedMeans(pointers: seq<Option<Event>>)
    ensures Checked(pointers).Ok? <==> forall i | 0 <= i < |pointers| :: Usable(pointers[i])
    ensures Checked(pointers).Err? ==>
              exists i | 0 <= i < |pointers| ::
                && !Usable(pointers[i]) && (forall k | 0 <= k < i :: Usable(pointers[k]))
                && Checked(pointers) == Err(if pointers[i].None? then NilEvent else EmptyContractId)
  {
    if pointers != [] {
      var init, last := pointers[..|pointers| - 1], pointers[|pointers| - 1];
      CheckedMeans(init);
      hide Usable;
      assert forall i | 0 <= i < |init| :: pointers[i] == init[i];
      if Checked(init).Err? {
        var i :| 0 <= i < |init| && !Usable(init[i]) && (forall k | 0 <= k < i :: Usable(init[k]))
          && Checked(init) == Err(if init[i].None? then NilEvent else EmptyContractId);
        assert !Usable(pointers[i]);
      } else {
        LastDecides(pointers);
      }
    }
  }

  lemma LastDecides(pointers: seq<Option<Event>>)
    requires pointers != [] && Checked(pointers[..|pointers| - 1]).Ok?
    ensures Checked(pointers).Ok? <==> Usable(pointers[|pointers| - 1])
    ensures !Usable(pointers[|pointers| - 1]) ==>
              Checked(pointers) == Err(if pointers[|pointers| - 1].None? then NilEvent else EmptyContractId)
  {
  }

  function Pointers(batch: seq<Event>): seq<Option<Event>> {
    seq(|batch|, i requires 0 <= i < |batch| => Some(batch[i]))
  }

  lemma {:induction false} PointersChecked(batch: seq<Event>)
    ensures Checked(Pointers(batch)) ==
            if exists i | 0 <= i < |batch| :: batch[i].contract == "" then Err(EmptyContractId) else Ok(batch)
  {
    if batch != [] {
      var init := batch[..|batch| - 1];
      PointersChecked(init);
      assert Pointers(batch)[..|init|] == Pointers(init);
      assert batch == init + [batch[|batch| - 1]];
      assert forall i | 0 <= i < |init| :: init[i] == batch[i];
    }
  }

  /** Inserting a batch behind pointers, none of them nil, is inserting the batch. */
  lemma {:induction false} PointersInsert(db: Db, batch: seq<Event>, ids: seq<int>)
    requires |batch| <= |ids|
    ensures |Pointers(batch)| == |batch|
    ensures Inserted(db, batch, ids) ==
            if batch == [] then Ok(db)
            else if MAX_PAGE_SIZE < |batch| then Err(BatchTooLarge)
            else match Checked(Pointers(batch)) case Err(e) => Err(e) case Ok(_) => Inserted(db, batch, ids)
    ensures Checked(Pointers(batch)).Ok? ==> Checked(Pointers(batch)).value == batch
  {
    PointersChecked(batch);
    hide Checked, InsertAll, ForeignKeysHold;
  }

  lemma {:induction false} CheckedHasContracts(pointers: seq<Option<Event>>)
    ensures Checked(pointers).Ok? ==> forall i | 0 <= i < |pointers| :: Checked(pointers).value[i].contract != ""
  {
    if pointers != [] {
      CheckedHasContracts(pointers[..|pointers| - 1]);
    }
  }

  lemma {:induction false} FirstFaultStays(pointers: seq<Option<Event>>, n: nat)
    requires n <= |pointers| && Checked(pointers[..n]).Err?
    ensures Checked(pointers) == Checked(pointers[..n])
  {
    if n == |pointers| {
      assert pointers[..n] == pointers;
    } else {
      assert pointers[..|pointers| - 1][..n] == pointers[..n];
      FirstFaultStays(pointers[..|pointers| - 1], n);
    }
  }

  /** Builds the statement, stopping at the first fault. Row i takes slots `$11i+1` to
      `$11i+11`, and what it puts under the named columns reads back as event i. */
  method BuildInsert(pointers: seq<Option<Event>>) returns (r: Result<InsertStatement, StoreError>)
    ensures match Checked(pointers)
            case Err(e) => r == Err(e)
            case Ok(events) =>
              && r.Ok?
              && r.value.columns == INSERT_COLUMNS
              && |r.value.values| == |events| && |r.value.args| == 11 * |events|
              && (forall i | 0 <= i < |events| ::
                    |r.value.values[i]| == 11 && forall j | 0 <= j < 11 :: r.value.values[i][j] == 11 * i + j + 1)
              && AllFilled(r.value) && ReadRows(r.value) == events
  {
    hide Columns, RowBound, Checked, Filled, ReadRow;
    var placeholders: seq<seq<nat>> := [];
    var args: seq<Arg> := [];
    ghost var events: seq<Event> := [];
    NothingChecked(pointers);
    for i := 0 to |pointers|
      invariant |placeholders| == |events| == i && |args| == COLUMNS_PER_ROW * i
      invariant Checked(pointers[..i]) == Ok(events)
      invariant forall k | 0 <= k < i :: RowBound(placeholders[k], args, k, events[k])
    {
      CheckedExtends(pointers, i, events);
      if pointers[i].None? {
        FirstFaultStays(pointers, i + 1);
        return Err(NilEvent);
      }
      var event := pointers[i].value;
      if event.contract == "" {
        FirstFaultStays(pointers, i + 1);
        return Err(EmptyContractId);
      }
      var base := i * COLUMNS_PER_ROW;
      var slots := RowSlots(base);
      RowsStayBound(placeholders, args, events, i, Columns(event));
      RowJoins(slots, args, i, event);
      placeholders := placeholders + [slots];
      args := args + Columns(event);
      events := events + [event];
    }
    assert pointers[..|pointers|] == pointers;
    var statement := InsertStatement(INSERT_COLUMNS, placeholders, args);
    RowsRead(statement, events);
    r := Ok(statement);
  }

  lemma RowsRead(s: InsertStatement, events: seq<Event>)
    requires s.columns == INSERT_COLUMNS && |s.values| == |events|
    requires forall i | 0 <= i < |events| :: RowBound(s.values[i], s.args, i, events[i])
    ensures AllFilled(s) && ReadRows(s) == events
    ensures forall i | 0 <= i < |events| ::
              |s.values[i]| == 11 && forall j | 0 <= j < 11 :: s.values[i][j] == 11 * i + j + 1
  {
    hide Filled, ReadRow, Columns;
    forall i | 0 <= i < |events|
      ensures Filled(s, i) && ReadRow(s, i) == events[i]
    {
      RowReads(s, i, events[i]);
    }
  }

  lemma NothingChecked(pointers: seq<Option<Event>>)
    ensures Checked(pointers[..0]) == Ok([])
  {
  }

  lemma CheckedExtends(pointers: seq<Option<Event>>, i: nat, events: seq<Event>)
    requires i < |pointers| && Checked(pointers[..i]) == Ok(events)
    ensures Checked(pointers[..i + 1]) ==
            if pointers[i].None? then Err(NilEvent)
            else if pointers[i].value.contract == "" then Err(EmptyContractId)
            else Ok(events + [pointers[i].value])
  {
    assert pointers[..i + 1][..i] == pointers[..i];
  }

  lemma RowJoins(slots: seq<nat>, args: seq<Arg>, i: nat, e: Event)
    requires |slots| == COLUMNS_PER_ROW && |args| == COLUMNS_PER_ROW * i
    requires forall j | 0 <= j < COLUMNS_PER_ROW :: slots[j] == i * COLUMNS_PER_ROW + j + 1
    ensures RowBound(slots, args + Columns(e), i, e)
  {
    hide Columns;
  }

  lemma RowsStayBound(placeholders: seq<seq<nat>>, args: seq<Arg>, events: seq<Event>, n: nat, more: seq<Arg>)
    requires |placeholders| == n <= |events|
    requires forall k | 0 <= k < n :: RowBound(placeholders[k], args, k, events[k])
    ensures forall k | 0 <= k < n :: RowBound(placeholders[k], args + more, k, events[k])
  {
  }

  // ---- What the engine does with it ----

  function MaxId(rows: seq<Row>): (m: int)
    ensures 0 <= m
    ensures forall i | 0 <= i < |rows| :: rows[i].id <= m
  {
    if rows == [] then 0
    else
      var m := MaxId(rows[..|rows| - 1]);
      var last := rows[|rows| - 1].id;
      assert forall i | 0 <= i < |rows| - 1 :: rows[i] == rows[..|rows| - 1][i];
      if last > m then last else m
  }

  /** Ascending ids above every live one, whatever the contracts. */
  ghost predicate AboveAll(rows: seq<Row>, ids: seq<int>) {
    && (forall i | 0 <= i < |ids| :: 0 < ids[i])
    && (forall i, j | 0 <= i < j < |ids| :: ids[i] < ids[j])
    && (forall i, j | 0 <= i < |rows| && 0 <= j < |ids| :: rows[i].id < ids[j])
  }

  lemma AboveAllIsFresh(rows: seq<Row>, batch: seq<Event>, ids: seq<int>)
    requires AboveAll(rows, ids) && |batch| <= |ids|
    ensures FreshIds(rows, batch, ids)
  {
  }

  function FreshRange(rows: seq<Row>, n: nat, gap: nat): (ids: seq<int>)
    ensures |ids| == n && AboveAll(rows, ids)
  {
    var base := MaxId(rows) + 1 + gap;
    seq(n, i => base + i)
  }

  /** Runs the statement row by row: each row is read from its own slots, and stored
      under the next id from `base` unless its key is taken. */
  method ExecuteInsert(table: seq<Row>, s: InsertStatement, base: int, ghost ids: seq<int>) returns (rows: seq<Row>)
    requires AllFilled(s) && ids == seq(|s.values|, i => base + i)
    ensures rows == InsertAll(table, ReadRows(s), ids)
  {
    hide Filled, ReadRow, Conflicts;
    rows := table;
    var next := base;
    ghost var rest := ids;
    ghost var batch := ReadRows(s);
    for i := 0 to |s.values|
      invariant |batch| - i <= |rest|
      invariant forall k | 0 <= k < |rest| :: rest[k] == next + k
      invariant InsertAll(rows, batch[i..], rest) == InsertAll(table, batch, ids)
    {
      var event := ReadRow(s, i);
      assert batch[i..][0] == event && batch[i..][1..] == batch[i + 1..];
      if !Conflicts(rows, event) {
        rows := rows + [Row(next, event)];
        next := next + 1;
        rest := rest[1..];
      }
    }
  }

  // ---- The database handle ----

  /** A database handle with at most one open transaction. `fault` on a statement
      stands for the driver failing it. */
  class Database {
    var contracts: map<string, Contract>
    var events: seq<Row>
    var saved: Option<Db>

    ghost function State(): Db
      reads this
    {
      Db(contracts, events)
    }

    constructor ()
      ensures State() == Db(map[], []) && saved == None
    {
      contracts, events, saved := map[], [], None;
    }

    method BeginTx(fault: bool) returns (ok: bool)
      requires saved == None
      modifies this
      ensures ok == !fault && State() == old(State())
      ensures saved == if ok then Some(old(State())) else None
    {
      ok := !fault;
      if ok {
        saved := Some(Db(contracts, events));
      }
    }

    /** Rolling back after a commit is a no-op, which is what the deferred call relies on. */
    method Rollback()
      modifies this
      ensures saved == None
      ensures State() == if old(saved).Some? then old(saved).value else old(State())
    {
      if saved.Some? {
        contracts, events := saved.value.contracts, saved.value.events;
      }
      saved := None;
    }

    method CommitTx(fault: bool) returns (ok: bool)
      requires saved.Some?
      modifies this
      ensures ok == !fault && State() == old(State())
      ensures saved == if ok then None else old(saved)
    {
      ok := !fault;
      if ok {
        saved := None;
      }
    }

    method Get(c: string, fault: bool) returns (r: Result<Contract, StoreError>)
      ensures fault ==> r == Err(Driver)
      ensures !fault ==> r == if c in contracts then Ok(contracts[c]) else Err(NotFound)
    {
      if fault {
        return Err(Driver);
      }
      r := if c in contracts then Ok(contracts[c]) else Err(NotFound);
    }

    method Register(c: string, insertFault: bool, readFault: bool) returns (r: Result<Contract, StoreError>)
      modifies this`contracts
      ensures c == "" ==> r == Err(EmptyContractId) && State() == old(State())
      ensures c != "" && insertFault ==> r == Err(Driver) && State() == old(State())
      ensures c != "" && !insertFault ==>
                && Registered(old(State()), c) == Ok(State())
                && contracts == (if c in old(contracts) then old(contracts) else old(contracts)[c := Contract(None, 0)])
                && r == if readFault then Err(Driver) else Ok(contracts[c])
    {
      if c == "" {
        return Err(EmptyContractId);
      }
      if insertFault {
        return Err(Driver);
      }
      if c !in contracts {
        contracts := contracts[c := Contract(None, 0)];
      }
      r := Get(c, readFault);
    }

    method SetProgress(c: string, ledger: int, fault: bool) returns (r: Result<(), StoreError>)
      modifies this`contracts
      ensures fault ==> r == Err(Driver)
      ensures !fault ==> match ProgressSet(old(State()), c, ledger)
                         case Ok(db) => r == Ok(()) && State() == db
                         case Err(e) => r == Err(e)
      ensures !fault ==> r == if c in old(contracts) then Ok(()) else Err(NotFound)
      ensures r.Ok? ==> contracts[c].last == ledger
      ensures r.Ok? ==>
                contracts[c].first == if old(contracts[c].first).Some? then old(contracts[c].first) else Some(ledger)
      ensures r.Ok? ==> contracts.Keys == old(contracts.Keys)
      ensures forall b | b in old(contracts) && b != c :: b in contracts && contracts[b] == old(contracts[b])
      ensures r.Err? ==> State() == old(State())
    {
      if fault {
        return Err(Driver);
      }
      if c !in contracts {
        return Err(NotFound);
      }
      var first := if contracts[c].first.None? then Some(ledger) else contracts[c].first;
      contracts := contracts[c := Contract(first, ledger)];
      r := Ok(());
    }

    method Delete(c: string, fault: bool) returns (r: Result<(), StoreError>)
      modifies this`contracts, this`events
      ensures fault ==> r == Err(Driver)
      ensures !fault ==> match Deleted(old(State()), c)
                         case Ok(db) => r == Ok(()) && State() == db
                         case Err(e) => r == Err(e)
      ensures !fault ==> r == if c in old(contracts) then Ok(()) else Err(NotFound)
      ensures r.Ok? ==> contracts == old(contracts) - {c}
      ensures r.Ok? ==> exists kept :: Remain(old(events), events, c, kept)
      ensures r.Err? ==> State() == old(State())
    {
      if fault {
        return Err(Driver);
      }
      if c !in contracts {
        return Err(NotFound);
      }
      var kept: seq<Row> := [];
      for i := 0 to |events|
        invariant kept == Without(events[..i], c)
        invariant State() == old(State())
      {
        assert events[..i + 1][..i] == events[..i];
        if events[i].event.contract != c {
          kept := kept + [events[i]];
        }
      }
      assert events[..|events|] == events;
      ghost var at := WithoutRemains(events, c);
      contracts, events := contracts - {c}, kept;
      r := Ok(());
    }

    /** Draws ids above every live one, leaving `gap` of them unused. */
    method Insert(pointers: seq<Option<Event>>, gap: nat, fault: bool)
      returns (r: Result<int, StoreError>, ghost ids: seq<int>)
      modifies this`events
      ensures r.Err? ==> State() == old(State())
      ensures |ids| == |pointers| && AboveAll(old(events), ids)
      ensures pointers == [] ==> r == Ok(0) && State() == old(State())
      ensures 10000 < |pointers| ==> r == Err(BatchTooLarge)
      ensures 0 < |pointers| <= 10000 ==>
                match Checked(pointers)
                case Err(e) => r == Err(e)
                case Ok(batch) =>
                  if fault then r == Err(Driver)
                  else match Inserted(old(State()), batch, ids)
                    case Ok(db) => r == Ok(|db.events| - |old(events)|) && State() == db
                    case Err(e) => r == Err(e)
    {
      hide ReadRows, AllFilled, Checked, InsertAll, ForeignKeysHold;
      ids := FreshRange(events, |pointers|, gap);
      if |pointers| == 0 {
        return Ok(0), ids;
      }
      if |pointers| > MAX_PAGE_SIZE {
        return Err(BatchTooLarge), ids;
      }
      var bound := BuildInsert(pointers);
      if bound.Err? {
        return Err(bound.error), ids;
      }
      CheckedHasContracts(pointers);
      var base := MaxId(events) + 1 + gap;
      if fault {
        return Err(Driver), ids;
      }
      var rows := ExecuteInsert(events, bound.value, base, ids);
      if !ForeignKeysHold(contracts, rows[|events|..]) {
        return Err(ForeignKey), ids;
      }
      var count := |rows| - |events|;
      events := rows;
      return Ok(count), ids;
    }
  }
}
