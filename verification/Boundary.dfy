/** The query boundary: the text and the typed form of the event filters, and what of
    them reaches the store. */
module Boundary {
  import opened Wrappers
  import Chain
  import opened Numerals
  import Paging
  import Reader
  import Utf8

  const EVENT_LIMIT_DEFAULT := 50
  const EVENT_LIMIT_MIN := 1
  const EVENT_LIMIT_MAX := 500

  datatype Sentinel = ErrLimit | ErrOrder | ErrCursor | ErrLedgerBound | ErrLedgerRange | ErrFilterText

  datatype Code = ValidationLimit | ValidationOrder | ValidationCursor | ValidationLedgerRange | ValidationFilter

  // ---- The validators ----

  function EventLimit(raw: string): Result<int, Sentinel> {
    if raw == "" then Ok(EVENT_LIMIT_DEFAULT)
    else if !IsDigits(raw) then Err(ErrLimit)
    else
      var n := ParseInt64(raw);
      if n.None? || n.value < EVENT_LIMIT_MIN || n.value > EVENT_LIMIT_MAX then Err(ErrLimit) else Ok(n.value)
  }

  function EventOrder(raw: string): Result<string, Sentinel> {
    if raw == "" then Ok("desc")
    else if raw == "asc" || raw == "desc" then Ok(raw)
    else Err(ErrOrder)
  }

  function EventCursor(raw: string): Result<string, Sentinel> {
    if raw == "" then Ok("")
    else if !IsDigits(raw) || ParseInt64(raw).None? then Err(ErrCursor)
    else Ok(raw)
  }

  function LedgerBound(raw: string): Result<int, Sentinel> {
    if raw == "" then Ok(0)
    else if !IsDigits(raw) then Err(ErrLedgerBound)
    else
      var n := ParseInt64(raw);
      if n.None? then Err(ErrLedgerBound) else Ok(n.value)
  }

  function LedgerRange(from: int, to: int): Option<Sentinel> {
    if from > 0 && to > 0 && from > to then Some(ErrLedgerRange) else None
  }

  function EventFilterText(raw: string): Result<string, Sentinel> {
    if raw == "" then Ok("")
    else if !Utf8.Valid(raw) || '\0' in raw then Err(ErrFilterText)
    else Ok(raw)
  }

  // ---- The two surfaces ----

  /** The query string's parameters; one that is absent reads as empty. */
  datatype RestArgs = RestArgs(
    limit: string, order: string, cursor: string, fromLedger: string, toLedger: string, name: string,
    topicContains: string)

  /** The typed arguments, each optional. */
  datatype GraphArgs = GraphArgs(
    limit: Option<Int32>, order: Option<string>, cursor: Option<string>, fromLedger: Option<Int32>,
    toLedger: Option<Int32>,
    name: Option<string>, topicContains: Option<string>)

  const MIN_INT32 := -0x8000_0000

  type Int32 = n: int | MIN_INT32 <= n <= Chain.MAX_INT32

  function ParseEventQuery(contract: string, r: RestArgs): Result<Paging.Query, Code> {
    var limit := EventLimit(r.limit);
    if limit.Err? then Err(ValidationLimit) else
    var order := EventOrder(r.order);
    if order.Err? then Err(ValidationOrder) else
    var cursor := EventCursor(r.cursor);
    if cursor.Err? then Err(ValidationCursor) else
    var from := LedgerBound(r.fromLedger);
    if from.Err? then Err(ValidationLedgerRange) else
    var to := LedgerBound(r.toLedger);
    if to.Err? then Err(ValidationLedgerRange) else
    if LedgerRange(from.value, to.value).Some? then Err(ValidationLedgerRange) else
    var name := EventFilterText(r.name);
    if name.Err? then Err(ValidationFilter) else
    var topic := EventFilterText(r.topicContains);
    if topic.Err? then Err(ValidationFilter) else
    Ok(Paging.Query(contract, name.value, from.value, to.value, limit.value, cursor.value, order.value, topic.value))
  }

  function StrPtrString(p: Option<string>): string {
    if p.None? then "" else p.value
  }

  function Int32PtrString(p: Option<Int32>): string {
    if p.None? then "" else FormatInt(p.value)
  }

  function BuildEventQuery(contract: string, g: GraphArgs): Result<Paging.Query, Code> {
    var limit := EventLimit(Int32PtrString(g.limit));
    if limit.Err? then Err(ValidationLimit) else
    var order := EventOrder(StrPtrString(g.order));
    if order.Err? then Err(ValidationOrder) else
    var cursor := EventCursor(StrPtrString(g.cursor));
    if cursor.Err? then Err(ValidationCursor) else
    var from := LedgerBound(Int32PtrString(g.fromLedger));
    if from.Err? then Err(ValidationLedgerRange) else
    var to := LedgerBound(Int32PtrString(g.toLedger));
    if to.Err? then Err(ValidationLedgerRange) else
    if LedgerRange(from.value, to.value).Some? then Err(ValidationLedgerRange) else
    var name := EventFilterText(StrPtrString(g.name));
    if name.Err? then Err(ValidationFilter) else
    var topic := EventFilterText(StrPtrString(g.topicContains));
    if topic.Err? then Err(ValidationFilter) else
    Ok(Paging.Query(contract, name.value, from.value, to.value, limit.value, cursor.value, order.value, topic.value))
  }

  // ---- What the text means ----

  /** Text that is absent, or digits worth n, which must fit an int64. */
  predicate Reads(raw: string, absent: int, n: int) {
    if raw == "" then n == absent
    else IsDigits(raw) && DigitsValue(raw) == n && n <= 0x7FFF_FFFF_FFFF_FFFF
  }

  predicate OrderReads(raw: string, order: string) {
    (order == "asc" || order == "desc") && (raw == order || (raw == "" && order == "desc"))
  }

  predicate CursorText(raw: string) {
    raw == "" || (IsDigits(raw) && DigitsValue(raw) <= 0x7FFF_FFFF_FFFF_FFFF)
  }

  predicate FilterText(raw: string) {
    Utf8.Valid(raw) && '\0' !in raw
  }

  predicate Inverted(from: int, to: int) {
    0 < to < from
  }

  /** The text asks for the query. */
  predicate Asks(contract: string, r: RestArgs, q: Paging.Query) {
    && q.contract == contract
    && Reads(r.limit, 50, q.limit) && 1 <= q.limit <= 500
    && OrderReads(r.order, q.order)
    && q.cursor == r.cursor && CursorText(r.cursor)
    && Reads(r.fromLedger, 0, q.fromLedger) && Reads(r.toLedger, 0, q.toLedger) && !Inverted(q.fromLedger, q.toLedger)
    && q.name == r.name && FilterText(r.name)
    && q.topicContains == r.topicContains && FilterText(r.topicContains)
  }

  lemma {:induction false} LedgerBoundReads(raw: string, n: int)
    ensures LedgerBound(raw) == Ok(n) <==> Reads(raw, 0, n)
    ensures LedgerBound(raw).Ok? ==> 0 <= LedgerBound(raw).value <= MAX_INT64
  {
    if IsDigits(raw) {
      DigitsRead(raw);
    }
  }

  lemma {:induction false} EventLimitReads(raw: string, n: int)
    ensures EventLimit(raw) == Ok(n) <==> Reads(raw, 50, n) && 1 <= n <= 500
  {
    if IsDigits(raw) {
      DigitsRead(raw);
    }
  }

  lemma {:induction false} EventCursorReads(raw: string)
    ensures EventCursor(raw) == if CursorText(raw) then Ok(raw) else Err(ErrCursor)
  {
    if IsDigits(raw) {
      DigitsRead(raw);
    }
  }

  /** The REST parser yields a query exactly when the text asks for it. */
  lemma {:induction false} RestMeaning(contract: string, r: RestArgs, q: Paging.Query)
    ensures ParseEventQuery(contract, r) == Ok(q) <==> Asks(contract, r, q)
  {
    EventLimitReads(r.limit, q.limit);
    EventCursorReads(r.cursor);
    LedgerBoundReads(r.fromLedger, q.fromLedger);
    LedgerBoundReads(r.toLedger, q.toLedger);
    assert EventOrder(r.order) == Ok(q.order) <==> OrderReads(r.order, q.order);
    assert EventFilterText(r.name) == Ok(q.name) <==> r.name == q.name && FilterText(r.name);
    assert EventFilterText(r.topicContains) == Ok(q.topicContains) <==>
        r.topicContains == q.topicContains && FilterText(r.topicContains);
    hide EventLimit, EventOrder, EventCursor, LedgerBound, EventFilterText, Reads, OrderReads, CursorText, FilterText;
  }

  // ---- The two surfaces agree ----

  /** The same arguments written as a query string. */
  function Written(g: GraphArgs): RestArgs {
    RestArgs(Int32PtrString(g.limit), StrPtrString(g.order), StrPtrString(g.cursor), Int32PtrString(g.fromLedger),
             Int32PtrString(g.toLedger), StrPtrString(g.name), StrPtrString(g.topicContains))
  }

  /** What typed arguments mean, with no text in between: the first argument at fault
      in the order limit, order, cursor, from, to, window, name, topic decides the code. */
  function Typed(contract: string, g: GraphArgs): Result<Paging.Query, Code> {
    var limit := if g.limit.None? then 50 else g.limit.value;
    var order := if g.order.None? || g.order.value == "" then "desc" else g.order.value;
    var cursor := StrPtrString(g.cursor);
    var from: int := if g.fromLedger.None? then 0 else g.fromLedger.value;
    var to: int := if g.toLedger.None? then 0 else g.toLedger.value;
    if limit < 1 || 500 < limit then Err(ValidationLimit)
    else if order != "asc" && order != "desc" then Err(ValidationOrder)
    else if !CursorText(cursor) then Err(ValidationCursor)
    else if from < 0 || to < 0 || Inverted(from, to) then Err(ValidationLedgerRange)
    else if !FilterText(StrPtrString(g.name)) || !FilterText(StrPtrString(g.topicContains)) then Err(ValidationFilter)
    else Ok(Paging.Query(contract, StrPtrString(g.name), from, to, limit, cursor, order, StrPtrString(g.topicContains)))
  }

  lemma {:induction false} PrintedBound(p: Option<Int32>)
    ensures LedgerBound(Int32PtrString(p)) ==
            if p.None? then Ok(0) else if p.value < 0 then Err(ErrLedgerBound) else Ok(p.value)
  {
    if p.Some? {
      FormatIntIsDigits(p.value);
      FormatIntReads(p.value);
    }
  }

  lemma {:induction false} PrintedLimit(p: Option<Int32>)
    ensures EventLimit(Int32PtrString(p)) ==
            if p.None? then Ok(50)
            else if p.value < 1 || 500 < p.value then Err(ErrLimit)
            else Ok(p.value)
  {
    if p.Some? {
      FormatIntIsDigits(p.value);
      FormatIntReads(p.value);
    }
  }

  /** Printing every number and reading it back loses nothing, and both surfaces give
      the same query or the same first code for the same arguments. */
  lemma {:induction false} SurfacesAgree(contract: string, g: GraphArgs)
    ensures BuildEventQuery(contract, g) == Typed(contract, g)
    ensures ParseEventQuery(contract, Written(g)) == Typed(contract, g)
  {
    PrintedLimit(g.limit);
    PrintedBound(g.fromLedger);
    PrintedBound(g.toLedger);
    EventCursorReads(StrPtrString(g.cursor));
    hide EventLimit, EventCursor, LedgerBound, CursorText, IsDigits, ParseInt64, FormatInt;
  }

  /** Typed arguments that ask for a query. */
  function TypedArgs(q: Paging.Query): GraphArgs
    requires EVENT_LIMIT_MIN <= q.limit <= EVENT_LIMIT_MAX
    requires 0 <= q.fromLedger <= Chain.MAX_INT32 && 0 <= q.toLedger <= Chain.MAX_INT32
  {
    GraphArgs(Some(q.limit), Some(q.order), Some(q.cursor), Some(q.fromLedger), Some(q.toLedger), Some(q.name),
              Some(q.topicContains))
  }

  /** Every query the REST surface can yield, with ledgers that fit GraphQL's Int, the
      GraphQL surface can yield too. */
  lemma {:induction false} GraphCoversRest(contract: string, r: RestArgs, q: Paging.Query)
    requires ParseEventQuery(contract, r) == Ok(q)
    ensures EVENT_LIMIT_MIN <= q.limit <= EVENT_LIMIT_MAX && 0 <= q.fromLedger && 0 <= q.toLedger
    ensures q.fromLedger <= Chain.MAX_INT32 && q.toLedger <= Chain.MAX_INT32 ==>
              BuildEventQuery(contract, TypedArgs(q)) == Ok(q)
  {
    RestMeaning(contract, r, q);
    LedgerBoundReads(r.fromLedger, q.fromLedger);
    LedgerBoundReads(r.toLedger, q.toLedger);
    if q.fromLedger <= Chain.MAX_INT32 && q.toLedger <= Chain.MAX_INT32 {
      SurfacesAgree(contract, TypedArgs(q));
    }
    hide ParseEventQuery, BuildEventQuery, LedgerBound, Reads, CursorText, FilterText;
  }

  // ---- The store accepts what the boundary lets through ----

  /** A query let through by either surface is one the store runs as asked: its page size
      is the limit itself, its order is known, and its cursor is the id it names. */
  lemma {:induction false} StoreAccepts(contract: string, r: RestArgs, q: Paging.Query, dialect: Paging.Dialect)
    requires ParseEventQuery(contract, r) == Ok(q) && contract != "" && !dialect.Unknown?
    ensures Reader.Accepted(q, dialect)
    ensures Paging.ResolvePageSize(q.limit) == Ok(q.limit)
    ensures Paging.OrderIsAscending(q.order) == Ok(q.order == "asc")
    ensures Paging.CursorOf(q) == Ok(if r.cursor == "" then None else Some(DigitsValue(r.cursor)))
  {
    RestMeaning(contract, r, q);
    if r.cursor != "" {
      DigitsRead(r.cursor);
    }
    hide ParseEventQuery, Reads, FilterText, IsDigits, ParseInt64;
  }

  lemma {:induction false} StoreAcceptsTyped(contract: string, g: GraphArgs, q: Paging.Query, dialect: Paging.Dialect)
    requires BuildEventQuery(contract, g) == Ok(q) && contract != "" && !dialect.Unknown?
    ensures Reader.Accepted(q, dialect) && Paging.ResolvePageSize(q.limit) == Ok(q.limit)
  {
    SurfacesAgree(contract, g);
    StoreAccepts(contract, Written(g), q, dialect);
  }

  /** Every cursor the store hands out comes back through the boundary as itself. */
  lemma {:induction false} CursorsComeBack(id: int)
    requires 0 <= id <= MAX_INT64
    ensures EventCursor(Paging.FormatCursor(id)) == Ok(Paging.FormatCursor(id))
    ensures Paging.ParseCursor(Paging.FormatCursor(id)) == Ok(id)
  {
    FormatIntIsDigits(id);
    FormatIntReads(id);
  }
}
