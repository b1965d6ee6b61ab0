/** The SDK's event methods: a query is validated, sent as text, parsed by the REST boundary and
    run by the store, and a stream walks pages until no cursor comes back. */
module Client {
  import opened Wrappers
  import opened Numerals
  import opened Store
  import opened Paging
  import opened Keyset
  import Boundary
  import Protocol
  import Reader
  import Ingest
  import Utf8

  const MAX_SAFE_INTEGER := 0x1f_ffff_ffff_ffff
  const LIMIT_DEFAULT := 50
  const LIMIT_MAX := 500

  /** A query as a caller writes it. Text is given as its UTF-8 bytes. */
  datatype EventQuery = EventQuery(
    name: Option<string>, fromLedger: Option<int>, toLedger: Option<int>, topicContains: Option<string>,
    limit: Option<int>, cursor: Option<string>, order: Option<string>)

  datatype ClientError = Invalid | Network

  /** What one request meets: the database, and whether it is lost on the way or fails in the store. */
  datatype Turn = Turn(db: Db, lost: bool)

  // ---- The query, checked and sent ----

  predicate ContractId(id: string) {
    |id| == 56 && id[0] == 'C' && forall i | 1 <= i < 56 :: 'A' <= id[i] <= 'Z' || '2' <= id[i] <= '7'
  }

  predicate Nonempty(p: Option<string>) {
    p != Some("")
  }

  predicate Ledger(p: Option<int>) {
    p.Some? ==> 0 <= p.value <= MAX_SAFE_INTEGER
  }

  /** The schema: every field of the right shape, the limit and the order filled in. */
  function Resolve(q: EventQuery): Result<EventQuery, ClientError> {
    if !Nonempty(q.name) || !Ledger(q.fromLedger) || !Ledger(q.toLedger) || !Nonempty(q.topicContains) then Err(Invalid)
    else if q.limit.Some? && !(1 <= q.limit.value <= LIMIT_MAX) then Err(Invalid)
    else if !Nonempty(q.cursor) then Err(Invalid)
    else if q.order.Some? && q.order.value != "asc" && q.order.value != "desc" then Err(Invalid)
    else
      Ok(q.(limit := if q.limit.None? then Some(LIMIT_DEFAULT) else q.limit,
            order := if q.order.None? then Some("desc") else q.order))
  }

  /** A parameter that is not set reads as empty. */
  function TextParam(p: Option<string>): string {
    if p.None? then "" else p.value
  }

  function NumberParam(p: Option<int>): string {
    if p.None? then "" else FormatInt(p.value)
  }

  function Sent(q: EventQuery): Boundary.RestArgs {
    Boundary.RestArgs(NumberParam(q.limit), TextParam(q.order), TextParam(q.cursor), NumberParam(q.fromLedger),
                      NumberParam(q.toLedger), TextParam(q.name), TextParam(q.topicContains))
  }

  /** What a caller's query asks the store, with no text in between: newest first and 50 to a
      page unless it says otherwise. None if it is refused on the way. */
  function Meant(contract: string, q: EventQuery): Option<Query> {
    var limit := if q.limit.None? then LIMIT_DEFAULT else q.limit.value;
    var order := if q.order.None? then "desc" else q.order.value;
    var from := if q.fromLedger.None? then 0 else q.fromLedger.value;
    var to := if q.toLedger.None? then 0 else q.toLedger.value;
    var cursor, name, topic := TextParam(q.cursor), TextParam(q.name), TextParam(q.topicContains);
    if !ContractId(contract) || Resolve(q).Err? || !Boundary.CursorText(cursor) || Boundary.Inverted(from, to)
       || !Boundary.FilterText(name) || !Boundary.FilterText(topic)
    then None
    else Some(Query(contract, name, from, to, limit, cursor, order, topic))
  }

  // ---- The same, field by field ----

  /** Absent, or text that is not empty. */
  ghost predicate TextField(p: Option<string>, text: string) {
    if p.None? then text == "" else p.value != "" && text == p.value
  }

  /** Absent, or an integer from 0 to 2 to the 53 less one. */
  ghost predicate LedgerField(p: Option<int>, n: int) {
    if p.None? then n == 0 else 0 <= p.value <= 9007199254740991 && n == p.value
  }

  ghost predicate LimitField(p: Option<int>, n: int) {
    if p.None? then n == 50 else 1 <= p.value <= 500 && n == p.value
  }

  ghost predicate OrderField(p: Option<string>, order: string) {
    if p.None? then order == "desc" else p.value in {"asc", "desc"} && order == p.value
  }

  /** What the schema accepts, and that it changes nothing but an absent limit or order. */
  lemma {:induction false} ResolveMeans(q: EventQuery, r: EventQuery)
    ensures Resolve(q) == Ok(r) <==>
            && q.name != Some("") && q.topicContains != Some("") && q.cursor != Some("")
            && (q.fromLedger.None? || 0 <= q.fromLedger.value <= 9007199254740991)
            && (q.toLedger.None? || 0 <= q.toLedger.value <= 9007199254740991)
            && r.limit.Some? && LimitField(q.limit, r.limit.value)
            && r.order.Some? && OrderField(q.order, r.order.value)
            && r.name == q.name && r.topicContains == q.topicContains && r.cursor == q.cursor
            && r.fromLedger == q.fromLedger && r.toLedger == q.toLedger
  {
  }

  /** Which query is asked of the store, and which is refused. */
  lemma {:induction false} MeantMeans(contract: string, q: EventQuery, sq: Query)
    ensures Meant(contract, q) == Some(sq) <==>
            && |contract| == 56 && contract[0] == 'C'
            && (forall i | 1 <= i < 56 :: 'A' <= contract[i] <= 'Z' || '2' <= contract[i] <= '7')
            && sq.contract == contract
            && TextField(q.name, sq.name) && TextField(q.topicContains, sq.topicContains)
            && Utf8.Valid(sq.name) && '\0' !in sq.name && Utf8.Valid(sq.topicContains) && '\0' !in sq.topicContains
            && LedgerField(q.fromLedger, sq.fromLedger) && LedgerField(q.toLedger, sq.toLedger)
            && (sq.toLedger == 0 || sq.fromLedger <= sq.toLedger)
            && LimitField(q.limit, sq.limit) && OrderField(q.order, sq.order)
            && TextField(q.cursor, sq.cursor)
            && (sq.cursor == "" || (AllDigits(sq.cursor) && Places(sq.cursor) <= 0x7FFF_FFFF_FFFF_FFFF))
  {
    hide Utf8.Valid, DigitsValue, Places, AllDigits, IsDigits;
    DigitsAreShown(sq.cursor);
    DigitsArePlaces(sq.cursor);
  }

  lemma PrintedReads(p: Option<int>, absent: int, n: int)
    requires p.Some? ==> 0 <= p.value <= MAX_INT64
    ensures Boundary.Reads(NumberParam(p), absent, n) <==> n == if p.None? then absent else p.value
  {
    hide IsDigits, DigitsValue, FormatInt;
    if p.Some? {
      FormatIntIsDigits(p.value);
    }
  }

  /** Printing the checked query and parsing it at the boundary gives exactly what it means. */
  lemma {:induction false} RequestMeans(contract: string, q: EventQuery)
    requires ContractId(contract) && Resolve(q).Ok?
    ensures match Meant(contract, q)
            case Some(sq) => Boundary.ParseEventQuery(contract, Sent(Resolve(q).value)) == Ok(sq)
            case None => Boundary.ParseEventQuery(contract, Sent(Resolve(q).value)).Err?
  {
    var sent := Sent(Resolve(q).value);
    if Boundary.ParseEventQuery(contract, sent).Ok? {
      AsksForMeant(contract, q, Boundary.ParseEventQuery(contract, sent).value);
    }
    if Meant(contract, q).Some? {
      AsksForMeant(contract, q, Meant(contract, q).value);
    }
    hide Boundary.ParseEventQuery, Sent, Resolve, Meant;
  }

  lemma {:induction false} AsksForMeant(contract: string, q: EventQuery, sq: Query)
    requires ContractId(contract) && Resolve(q).Ok?
    ensures Boundary.ParseEventQuery(contract, Sent(Resolve(q).value)) == Ok(sq) <==> Meant(contract, q) == Some(sq)
  {
    hide Boundary.ParseEventQuery, Boundary.Reads, Boundary.FilterText, Boundary.CursorText, Boundary.Inverted,
        ContractId, NumberParam;
    var r := Resolve(q).value;
    Boundary.RestMeaning(contract, Sent(r), sq);
    PrintedReads(r.limit, LIMIT_DEFAULT, sq.limit);
    PrintedReads(r.fromLedger, 0, sq.fromLedger);
    PrintedReads(r.toLedger, 0, sq.toLedger);
  }

  /** The next page's request is the same query with the cursor moved. */
  lemma {:induction false} NextRequestMeans(contract: string, q: EventQuery, id: int)
    requires Meant(contract, q).Some? && 0 <= id <= MAX_INT64
    ensures Meant(contract, q.(cursor := Some(FormatCursor(id)))) ==
              Some(Meant(contract, q).value.(cursor := FormatCursor(id)))
  {
    hide Boundary.FilterText, Boundary.Inverted, ContractId, IsDigits, DigitsValue, FormatInt, FormatCursor;
    FormatIntIsDigits(id);
    assert FormatCursor(id) == FormatInt(id) by {
      CursorIsDecimal(id);
    }
  }

  lemma CursorIsDecimal(id: int)
    ensures FormatCursor(id) == FormatInt(id)
  {
  }

  /** The id a query's cursor names. */
  function AfterOf(q: Query): Option<int> {
    if q.cursor == "" then None else Some(DigitsValue(q.cursor))
  }

  lemma {:induction false} MeantIsAccepted(contract: string, q: EventQuery, dialect: Dialect)
    requires Meant(contract, q).Some? && !dialect.Unknown?
    ensures var sq := Meant(contract, q).value;
            && 1 <= sq.limit && contract == sq.contract
            && Reader.Accepted(sq, dialect) && ResolvePageSize(sq.limit) == Ok(sq.limit)
            && OrderIsAscending(sq.order) == Ok(sq.order == "asc") && CursorOf(sq) == Ok(AfterOf(sq))
  {
    hide Boundary.ParseEventQuery, Boundary.Inverted, Boundary.FilterText, Reader.Accepted, IsDigits, DigitsValue,
        ParseInt64;
    RequestMeans(contract, q);
    Boundary.StoreAccepts(contract, Sent(Resolve(q).value), Meant(contract, q).value, dialect);
  }

  // ---- One page ----

  predicate Answers(contract: string, t: Turn) {
    !t.lost && contract in t.db.contracts
  }

  /** One page over REST. It is answered exactly when the query means something, the request
      gets through and the contract is tracked. */
  method Events(contract: string, query: EventQuery, t: Turn, dialect: Dialect)
    returns (r: Result<(seq<Row>, Option<string>), ClientError>)
    requires !dialect.Unknown?
    ensures r.Ok? <==> Meant(contract, query).Some? && Answers(contract, t)
    ensures r.Ok? ==>
              var q := Meant(contract, query).value;
              && 1 <= q.limit
              && var page := PageOf(t.db.events, q, q.order == "asc", AfterOf(q), q.limit);
                 r.value == (page.rows, Reader.CursorText(page.next))
    ensures r.Err? ==> r == Err(if !ContractId(contract) || Resolve(query).Err? then Invalid else Network)
  {
    hide Boundary.ParseEventQuery, Resolve, Meant, Sent, ContractId, PageOf, Reader.Accepted, Boundary.Asks;
    if !ContractId(contract) {
      MeaningIsChecked(contract, query);
      return Err(Invalid);
    }
    var checked := Resolve(query);
    if checked.Err? {
      MeaningIsChecked(contract, query);
      return Err(Invalid);
    }
    RequestMeans(contract, query);
    if t.lost {
      return Err(Network);
    }
    var parsed := Boundary.ParseEventQuery(contract, Sent(checked.value));
    if parsed.Err? {
      return Err(Network);
    }
    MeantIsAccepted(contract, query, dialect);
    if contract !in t.db.contracts {
      return Err(Network);
    }
    var page := Reader.QueryPage(t.db.events, parsed.value, dialect, false);
    r := Ok(page.value);
  }

  lemma MeaningIsChecked(contract: string, q: EventQuery)
    ensures Meant(contract, q).Some? ==> ContractId(contract) && Resolve(q).Ok?
    ensures Resolve(q).Err? ==> Resolve(q) == Err(Invalid)
  {
  }

  // ---- The stream ----

  /** How many of the first n requests are answered before one is not. */
  function Served(contract: string, turns: seq<Turn>, n: nat): (k: nat)
    requires n <= |turns|
    ensures k <= n
    ensures forall i | 0 <= i < k :: Answers(contract, turns[i])
    ensures k < n ==> !Answers(contract, turns[k])
  {
    if n == 0 then 0
    else
      var k := Served(contract, turns, n - 1);
      if k < n - 1 || !Answers(contract, turns[k]) then k else n
  }

  function Tables(turns: seq<Turn>): (tables: seq<seq<Row>>)
    ensures |tables| == |turns|
    ensures forall i | 0 <= i < |turns| :: tables[i] == turns[i].db.events
  {
    seq(|turns|, i requires 0 <= i < |turns| => turns[i].db.events)
  }

  ghost predicate StorableTurns(turns: seq<Turn>) {
    forall i | 0 <= i < |turns| :: Reader.StorableIds(turns[i].db.events)
  }

  /** The client's stream: a page at a time, each resumed from the last cursor, until a page
      comes back without one or a request fails. Request i meets turns[i]. */
  method EventStream(contract: string, query: EventQuery, turns: seq<Turn>, dialect: Dialect)
    returns (yielded: seq<Row>, r: Result<Walked, ClientError>)
    requires !dialect.Unknown? && StorableTurns(turns)
    ensures match Meant(contract, query)
            case Some(q) =>
              var n := Served(contract, turns, |turns|);
              && 1 <= q.limit
              && var walk := Walk(Tables(turns)[..n], q, q.order == "asc", AfterOf(q), q.limit);
                 yielded == walk.rows && r == if walk.done || n == |turns| then Ok(walk) else Err(Network)
            case None =>
              yielded == [] && (turns != [] ==>
                r == Err(if !ContractId(contract) || Resolve(query).Err? then Invalid else Network))
  {
    hide Walk, PageOf, Meant, Resolve, ContractId, Reader.Streaming, Reader.StorableIds, FormatCursor, AfterOf,
        CursorOf, OrderIsAscending, ResolvePageSize, Reader.Accepted;
    var cursor := query.cursor;
    yielded := [];
    var pages := 0;
    ghost var meant := Meant(contract, query);
    ghost var n, served := Served(contract, turns, |turns|), Tables(turns)[..Served(contract, turns, |turns|)];
    ghost var q := if meant.Some? then meant.value else Query(contract, "", 0, 0, 1, "", "", "");
    ghost var after, text := AfterOf(q), q.cursor;
    if meant.Some? {
      StreamBegins(contract, query, served, dialect);
    }
    while pages < |turns|
      invariant pages <= |turns|
      invariant meant.None? ==> cursor == query.cursor && pages == 0 && yielded == []
      invariant meant.Some? ==>
                  && pages <= n && 1 <= q.limit && CursorOf(q) == Ok(AfterOf(q))
                  && Meant(contract, query.(cursor := cursor)) == Some(q.(cursor := text))
                  && Reader.Streaming(served, q, q.order == "asc", q.limit, pages, text, after, yielded)
    {
      assert query.(cursor := query.cursor) == query;
      var reply := Events(contract, query.(cursor := cursor), turns[pages], dialect);
      if meant.Some? {
        MeaningIsChecked(contract, query.(cursor := cursor));
        MeantIsAccepted(contract, query.(cursor := cursor), dialect);
        if pages == n {
          Reader.StreamLeft(served, q, q.order == "asc", q.limit, text, after, yielded);
        } else {
          Reader.StreamStep(served, q, q.order == "asc", q.limit, pages, text, after, yielded);
        }
      }
      if reply.Err? {
        return yielded, Err(reply.error);
      }
      var (items, next) := reply.value;
      yielded := yielded + items;
      pages := pages + 1;
      if next.None? {
        return yielded, Ok(Walked(yielded, pages, true));
      }
      Reader.NextCursorReads(served[pages - 1], q, q.order == "asc", after, q.limit);
      after := PageOf(served[pages - 1], q, q.order == "asc", after, q.limit).next;
      NextRequestMeans(contract, query, after.value);
      cursor, text := next, next.value;
    }
    if meant.Some? {
      Reader.StreamLeft(served, q, q.order == "asc", q.limit, text, after, yielded);
    }
    return yielded, Ok(Walked(yielded, pages, false));
  }

  lemma StreamBegins(contract: string, query: EventQuery, tables: seq<seq<Row>>, dialect: Dialect)
    requires Meant(contract, query).Some? && !dialect.Unknown?
    ensures var q := Meant(contract, query).value;
            && 1 <= q.limit && CursorOf(q) == Ok(AfterOf(q))
            && query.(cursor := query.cursor) == query && q.(cursor := q.cursor) == q
            && Reader.Streaming(tables, q, q.order == "asc", q.limit, 0, q.cursor, AfterOf(q), [])
  {
    hide Meant, AfterOf, Reader.Accepted;
    MeantIsAccepted(contract, query, dialect);
    Reader.StreamBegins(tables, Meant(contract, query).value, dialect);
    hide Reader.Streaming;
  }

  // ---- Streaming a contract while it is being indexed ----

  lemma {:induction false} StretchesPrefix(s: Protocol.Sys, stretches: seq<seq<Protocol.Step>>, n: nat)
    requires Ingest.PossibleStretches(s, stretches) && n <= |stretches|
    ensures Ingest.PossibleStretches(s, stretches[..n])
    ensures |Ingest.Tables(s, stretches)| == |stretches|
    ensures Ingest.Tables(s, stretches[..n]) == Ingest.Tables(s, stretches)[..n]
    decreases |stretches|
  {
    hide Protocol.Possible, Protocol.Run;
    if stretches != [] {
      var s1 := Protocol.Run(s, stretches[0]);
      StretchesPrefix(s1, stretches[1..], if n == 0 then 0 else n - 1);
      if n > 0 {
        assert stretches[..n][1..] == stretches[1..][..n - 1];
      }
    }
  }

  /** Streaming to the end from any reachable state, with any steps of the ingest protocol
      between pages short of deleting the contract: newest first, as without an order, the
      stream yields exactly what matched when it began; oldest first, everything that matched
      then, in order, and after it only newer events, ending with exactly the last table. */
  method StreamWhilePolling(contract: string, query: EventQuery, turns: seq<Turn>, dialect: Dialect,
                            ghost s: Protocol.Sys, ghost stretches: seq<seq<Protocol.Step>>)
    returns (yielded: seq<Row>, r: Result<Walked, ClientError>)
    requires !dialect.Unknown? && StorableTurns(turns) && turns != []
    requires Ingest.Reachable(s) && Ingest.PossibleStretches(s, stretches) && contract in s.db.contracts
    requires forall i | 0 <= i < |stretches| :: Ingest.Undeleted(contract, stretches[i])
    requires Tables(turns) == Ingest.Tables(s, stretches)
    ensures r.Ok? && r.value.done ==>
              && Meant(contract, query).Some?
              && var q, first := Meant(contract, query).value, turns[0].db.events;
                 if q.order == "desc" then yielded == Found(first, q, false, AfterOf(q))
                 else
                   && 1 <= r.value.pages <= |turns|
                   && yielded == Found(turns[r.value.pages - 1].db.events, q, true, AfterOf(q))
                   && Found(first, q, true, AfterOf(q)) <= yielded && ById(true, yielded)
  {
    hide Walk, Found, ById, Meant, AfterOf, Reader.Accepted, Ingest.Reachable, Ingest.Undeleted, Ingest.Tables,
        Ingest.PossibleStretches, StorableTurns, ContractId, Resolve;
    yielded, r := EventStream(contract, query, turns, dialect);
    if r.Ok? && r.value.done {
      ghost var n := Served(contract, turns, |turns|);
      StretchesPrefix(s, stretches, |stretches|);
      StretchesPrefix(s, stretches, n);
      ghost var q := Meant(contract, query).value;
      MeantIsAccepted(contract, query, dialect);
      OrderIsOne(contract, query);
      EmptyWalkIsOpen(q, q.order == "asc", AfterOf(q), q.limit);
      Ingest.PagingWhilePolling(s, stretches[..n], q, AfterOf(q), q.limit);
    }
  }

  lemma OrderIsOne(contract: string, q: EventQuery)
    requires Meant(contract, q).Some?
    ensures Meant(contract, q).value.order == "asc" <==> Meant(contract, q).value.order != "desc"
  {
  }

  lemma EmptyWalkIsOpen(q: Query, asc: bool, after: Option<int>, limit: nat)
    requires 1 <= limit
    ensures !Walk([], q, asc, after, limit).done
  {
  }
}
