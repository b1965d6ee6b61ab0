/** Reading events back: the query one page runs, the page it returns, and the walk
    over pages. Rows are ordered by emission, but the cursor is the bare id. */
module Paging {
  import opened Text
  import opened Wrappers
  import opened Chain
  import opened Store
  import opened Numerals

  const DEFAULT_PAGE_SIZE := 100

  datatype Dialect = SQLite | Postgres | Unknown

  datatype Query = Query(
    contract: string, name: string, fromLedger: int, toLedger: int,
    limit: int, cursor: string, order: string, topicContains: string)

  datatype QueryError = BadLimit | NoContract | BadDialect | BadOrder | BadCursor | Driver

  // ---- What a query asks for ----

  /** Some topic's value contains the term; a topics column that is JSON null matches nothing. */
  predicate TopicsContain(topics: Option<seq<string>>, part: string) {
    topics.Some? && exists i | 0 <= i < |topics.value| :: Contains(topics.value[i], part)
  }

  predicate Matches(q: Query, e: Event) {
    && e.contract == q.contract
    && (q.name != "" ==> e.name == q.name)
    && (q.fromLedger > 0 ==> q.fromLedger <= e.ledger)
    && (q.toLedger > 0 ==> e.ledger <= q.toLedger)
    && (q.topicContains != "" ==> TopicsContain(e.topics, q.topicContains))
  }

  /** Past a cursor in the direction of the walk. */
  predicate Past(asc: bool, after: Option<int>, id: int) {
    after.Some? ==> if asc then after.value < id else id < after.value
  }

  predicate Keeps(q: Query, asc: bool, after: Option<int>, r: Row) {
    Matches(q, r.event) && Past(asc, after, r.id)
  }

  function ResolvePageSize(limit: int): Result<nat, QueryError> {
    if limit == 0 then Ok(DEFAULT_PAGE_SIZE)
    else if limit < 0 || limit > MAX_PAGE_SIZE then Err(BadLimit)
    else Ok(limit)
  }

  function OrderIsAscending(order: string): Result<bool, QueryError> {
    if order == "" || order == "asc" then Ok(true)
    else if order == "desc" then Ok(false)
    else Err(BadOrder)
  }

  function FormatCursor(id: int): string {
    FormatInt(id)
  }

  function ParseCursor(cursor: string): Result<int, QueryError> {
    match ParseInt64(cursor)
    case None => Err(BadCursor)
    case Some(id) => if id < 0 then Err(BadCursor) else Ok(id)
  }

  lemma CursorRoundTrip(id: int)
    requires 0 <= id <= MAX_INT64
    ensures FormatCursor(id) != "" && ParseCursor(FormatCursor(id)) == Ok(id)
  {
    FormatIntReads(id);
    FormatNatHasNoSign(id);
  }

  // ---- The statement ----

  /** One condition; `slot` is the 1-based placeholder number it binds. */
  datatype Clause =
    | ContractIs(slot: nat) | NameIs(slot: nat) | LedgerFrom(slot: nat) | LedgerTo(slot: nat)
    | TopicHas(slot: nat, dialect: Dialect) | IdAbove(slot: nat) | IdBelow(slot: nat)

  datatype Bound = Str(s: string) | Num(n: int)

  datatype Statement = Statement(conditions: seq<Clause>, args: seq<Bound>, ascending: bool, limitSlot: nat)

  /** What a condition says of a row once its placeholder is bound. */
  predicate Means(c: Clause, value: Bound, r: Row) {
    match c
    case ContractIs(_) => value == Str(r.event.contract)
    case NameIs(_) => value == Str(r.event.name)
    case LedgerFrom(_) => value.Num? && value.n <= r.event.ledger
    case LedgerTo(_) => value.Num? && r.event.ledger <= value.n
    case TopicHas(_, _) => value.Str? && TopicsContain(r.event.topics, value.s)
    case IdAbove(_) => value.Num? && value.n < r.id
    case IdBelow(_) => value.Num? && r.id < value.n
  }

  predicate Holds(c: Clause, args: seq<Bound>, r: Row) {
    1 <= c.slot <= |args| && Means(c, args[c.slot - 1], r)
  }

  predicate Satisfies(conditions: seq<Clause>, args: seq<Bound>, r: Row) {
    forall i | 0 <= i < |conditions| :: Holds(conditions[i], args, r)
  }

  /** Placeholders are numbered in order, one per condition. */
  predicate InSlotOrder(conditions: seq<Clause>, args: seq<Bound>) {
    |conditions| == |args| && forall i | 0 <= i < |conditions| :: conditions[i].slot == i + 1
  }

  /** Appends one argument and the condition that binds it. */
  method Add(conditions: seq<Clause>, args: seq<Bound>, c: Clause, value: Bound)
    returns (conditions': seq<Clause>, args': seq<Bound>)
    requires InSlotOrder(conditions, args) && c.slot == |args| + 1
    ensures InSlotOrder(conditions', args')
    ensures forall r :: Satisfies(conditions', args', r) <==> Satisfies(conditions, args, r) && Means(c, value, r)
  {
    args' := args + [value];
    conditions' := conditions + [c];
    forall r
      ensures Satisfies(conditions', args', r) <==> Satisfies(conditions, args, r) && Means(c, value, r)
    {
      assert forall i | 0 <= i < |conditions| ::
          conditions'[i] == conditions[i] && (Holds(conditions[i], args', r) <==> Holds(conditions[i], args, r));
      assert conditions'[|conditions|] == c;
    }
  }

  /** The LIMIT argument is bound last and no condition reads it. */
  lemma AddLimit(conditions: seq<Clause>, args: seq<Bound>, limit: Bound)
    requires InSlotOrder(conditions, args)
    ensures forall r :: Satisfies(conditions, args + [limit], r) <==> Satisfies(conditions, args, r)
  {
    forall r
      ensures Satisfies(conditions, args + [limit], r) <==> Satisfies(conditions, args, r)
    {
      assert forall i | 0 <= i < |conditions| :: Holds(conditions[i], args + [limit], r) <==>
          Holds(conditions[i], args, r);
    }
  }

  function CursorOf(q: Query): Result<Option<int>, QueryError> {
    if q.cursor == "" then Ok(None)
    else match ParseCursor(q.cursor) case Ok(id) => Ok(Some(id)) case Err(e) => Err(e)
  }

  /** The filter part: one condition for the contract and one for each filter that is set. */
  method BuildFilters(q: Query, dialect: Dialect) returns (conditions: seq<Clause>, args: seq<Bound>)
    ensures InSlotOrder(conditions, args)
    ensures forall row :: Satisfies(conditions, args, row) <==> Matches(q, row.event)
  {
    conditions, args := [ContractIs(1)], [Str(q.contract)];
    assert forall row :: Satisfies(conditions, args, row) <==> row.event.contract == q.contract by {
      forall row: Row
        ensures Satisfies(conditions, args, row) <==> row.event.contract == q.contract
      {
        assert Satisfies(conditions, args, row) <==> Holds(conditions[0], args, row);
      }
    }
    hide Satisfies, TopicsContain;
    if q.name != "" {
      conditions, args := Add(conditions, args, NameIs(|args| + 1), Str(q.name));
    }
    if q.fromLedger > 0 {
      conditions, args := Add(conditions, args, LedgerFrom(|args| + 1), Num(q.fromLedger));
    }
    if q.toLedger > 0 {
      conditions, args := Add(conditions, args, LedgerTo(|args| + 1), Num(q.toLedger));
    }
    if q.topicContains != "" {
      conditions, args := Add(conditions, args, TopicHas(|args| + 1, dialect), Str(q.topicContains));
    }
  }

  /** Builds one page's statement. Whatever the filters, its conditions mean the
      filter and the keyset, every placeholder is used once and in order, and the
      last binds one row more than the page. */
  method BuildEventsQuery(q: Query, dialect: Dialect, limit: nat) returns (r: Result<Statement, QueryError>)
    ensures q.contract == "" ==> r == Err(NoContract)
    ensures q.contract != "" && dialect.Unknown? ==> r == Err(BadDialect)
    ensures q.contract != "" && !dialect.Unknown? && OrderIsAscending(q.order).Err? ==> r == Err(BadOrder)
    ensures q.contract != "" && !dialect.Unknown? && OrderIsAscending(q.order).Ok? && CursorOf(q).Err? ==>
              r == Err(BadCursor)
    ensures r.Err? ==> q.contract == "" || dialect.Unknown? || OrderIsAscending(q.order).Err? || CursorOf(q).Err?
    ensures r.Ok? ==>
              && OrderIsAscending(q.order) == Ok(r.value.ascending)
              && CursorOf(q).Ok?
              && |r.value.args| == |r.value.conditions| + 1 == r.value.limitSlot
              && InSlotOrder(r.value.conditions, r.value.args[..|r.value.conditions|])
              && r.value.args[r.value.limitSlot - 1] == Num(limit + 1)
              && forall row :: Satisfies(r.value.conditions, r.value.args, row) <==>
                               Keeps(q, r.value.ascending, CursorOf(q).value, row)
  {
    if q.contract == "" {
      return Err(NoContract);
    }
    if dialect != SQLite && dialect != Postgres {
      return Err(BadDialect);
    }
    var order := OrderIsAscending(q.order);
    if order.Err? {
      return Err(order.error);
    }
    var conditions, args := BuildFilters(q, dialect);
    hide Matches, Satisfies, ParseCursor;
    if q.cursor != "" {
      var after := ParseCursor(q.cursor);
      if after.Err? {
        return Err(BadCursor);
      }
      if order.value {
        conditions, args := Add(conditions, args, IdAbove(|args| + 1), Num(after.value));
      } else {
        conditions, args := Add(conditions, args, IdBelow(|args| + 1), Num(after.value));
      }
    }
    AddLimit(conditions, args, Num(limit + 1));
    assert (args + [Num(limit + 1)])[..|conditions|] == args;
    args := args + [Num(limit + 1)];
    r := Ok(Statement(conditions, args, order.value, |args|));
  }
}
