/** The upstream side of the poller: an append-only chain of contract events and
    the RPC window over it. The chain is kept whole; the window decides what RPC
    will serve. A cursor is opaque to the poller, so it is modelled as the count
    of chain events at or before it. */
module Chain {
  import opened Wrappers

  const MAX_INT32 := 0x7fff_ffff

  /** What the indexer stores for one event, column by column. `topics` is None
      when the topics_json column holds the scalar JSON null. */
  datatype Event = Event(
    contract: string, ledger: int, txHash: string, index: int, name: string,
    topics: Option<seq<string>>, data: string, rawTopics: seq<string>,
    rawData: string, emittedAt: string, success: bool)

  /** One event as RPC serves it. `decoded` is what assembling it yields, or None
      when any part of it cannot be read. */
  datatype ChainEvent = ChainEvent(contract: string, ledger: int, index: int, decoded: Option<Event>)

  datatype World = World(events: seq<ChainEvent>, oldest: int, latest: int)

  /** Emission order: ledger first, then the ledger-wide ordinal. */
  predicate Before(l1: int, i1: int, l2: int, i2: int) {
    l1 < l2 || (l1 == l2 && i1 < i2)
  }

  predicate WellFormed(e: ChainEvent) {
    && e.contract != ""
    && 1 <= e.ledger
    && (e.decoded.Some? ==>
          e.decoded.value.contract == e.contract && e.decoded.value.ledger == e.ledger &&
          e.decoded.value.index == e.index)
  }

  ghost predicate Ordered(es: seq<ChainEvent>) {
    forall i, j | 0 <= i < j < |es| :: Before(es[i].ledger, es[i].index, es[j].ledger, es[j].index)
  }

  ghost predicate ValidWorld(w: World) {
    && 0 <= w.latest <= MAX_INT32
    && 0 <= w.oldest
    && Ordered(w.events)
    && (forall i | 0 <= i < |w.events| :: WellFormed(w.events[i]) && w.events[i].ledger <= w.latest)
  }

  /** Closed ledgers never change: growth only appends events of newer ledgers. */
  ghost predicate Grows(w: World, w': World) {
    && ValidWorld(w')
    && w.events <= w'.events
    && w.oldest <= w'.oldest
    && w.latest <= w'.latest
    && (forall i | |w.events| <= i < |w'.events| :: w.latest < w'.events[i].ledger)
  }

  // ---- Slices of the chain ----

  /** The events of one contract, in chain order. */
  function Mine(es: seq<ChainEvent>, c: string): seq<ChainEvent> {
    if es == [] then []
    else
      var last := es[|es| - 1];
      Mine(es[..|es| - 1], c) + (if last.contract == c then [last] else [])
  }

  /** The decodable events, as they will be stored. */
  function Readable(es: seq<ChainEvent>): seq<Event> {
    if es == [] then []
    else
      var last := es[|es| - 1];
      Readable(es[..|es| - 1]) + (if last.decoded.Some? then [last.decoded.value] else [])
  }

  /** How many leading events lie in ledgers below `ledger`. */
  function CountBelow(es: seq<ChainEvent>, ledger: int): (n: nat)
    ensures n <= |es|
  {
    if es == [] then 0
    else if es[|es| - 1].ledger < ledger then |es|
    else CountBelow(es[..|es| - 1], ledger)
  }

  lemma {:induction false} MineConcat(a: seq<ChainEvent>, b: seq<ChainEvent>, c: string)
    ensures Mine(a + b, c) == Mine(a, c) + Mine(b, c)
  {
    if b == [] {
      assert a + b == a;
    } else {
      assert (a + b)[..|a + b| - 1] == a + b[..|b| - 1];
      MineConcat(a, b[..|b| - 1], c);
    }
  }

  lemma {:induction false} ReadableConcat(a: seq<ChainEvent>, b: seq<ChainEvent>)
    ensures Readable(a + b) == Readable(a) + Readable(b)
  {
    if b == [] {
      assert a + b == a;
    } else {
      assert (a + b)[..|a + b| - 1] == a + b[..|b| - 1];
      ReadableConcat(a, b[..|b| - 1]);
    }
  }

  /** On an ordered chain CountBelow splits it at the ledger boundary. */
  lemma {:induction false} CountBelowSplits(es: seq<ChainEvent>, ledger: int)
    requires Ordered(es)
    ensures forall i | 0 <= i < CountBelow(es, ledger) :: es[i].ledger < ledger
    ensures forall i | CountBelow(es, ledger) <= i < |es| :: ledger <= es[i].ledger
  {
    if es != [] && ledger <= es[|es| - 1].ledger {
      var init := es[..|es| - 1];
      CountBelowSplits(init, ledger);
      forall i | 0 <= i < CountBelow(es, ledger)
        ensures es[i].ledger < ledger
      {
        assert es[i] == init[i];
      }
      forall i | CountBelow(es, ledger) <= i < |es|
        ensures ledger <= es[i].ledger
      {
        if i < |es| - 1 {
          assert es[i] == init[i];
        }
      }
    }
  }

  lemma CountBelowMonotone(es: seq<ChainEvent>, l1: int, l2: int)
    requires Ordered(es) && l1 <= l2
    ensures CountBelow(es, l1) <= CountBelow(es, l2)
  {
    CountBelowSplits(es, l1);
    CountBelowSplits(es, l2);
    var n := CountBelow(es, l2);
    assert n < |es| ==> l2 <= es[n].ledger;
  }

  /** A ledger boundary at or below the tip does not move when the chain grows. */
  lemma CountBelowStable(w: World, w': World, ledger: int)
    requires ValidWorld(w) && Grows(w, w') && ledger <= w.latest + 1
    ensures CountBelow(w'.events, ledger) == CountBelow(w.events, ledger)
  {
    CountBelowSplits(w.events, ledger);
    CountBelowSplits(w'.events, ledger);
    var m, n := CountBelow(w.events, ledger), CountBelow(w'.events, ledger);
    assert m < |w.events| ==> w'.events[m] == w.events[m];
    assert n < |w.events| ==> w'.events[n] == w.events[n];
  }

  lemma {:induction false} MineMembers(es: seq<ChainEvent>, c: string)
    ensures forall e :: e in Mine(es, c) <==> e in es && e.contract == c
  {
    if es != [] {
      var init := es[..|es| - 1];
      MineMembers(init, c);
      assert es == init + [es[|es| - 1]];
    }
  }

  lemma {:induction false} ReadableMembers(es: seq<ChainEvent>)
    ensures forall v :: v in Readable(es) <==> exists i | 0 <= i < |es| :: es[i].decoded == Some(v)
  {
    if es != [] {
      var init := es[..|es| - 1];
      ReadableMembers(init);
      forall v | v in Readable(es)
        ensures exists i | 0 <= i < |es| :: es[i].decoded == Some(v)
      {
        if v in Readable(init) {
          var i :| 0 <= i < |init| && init[i].decoded == Some(v);
          assert es[i].decoded == Some(v);
        } else {
          assert es[|es| - 1].decoded == Some(v);
        }
      }
      forall v | exists i | 0 <= i < |es| :: es[i].decoded == Some(v)
        ensures v in Readable(es)
      {
        var i :| 0 <= i < |es| && es[i].decoded == Some(v);
        if i < |init| {
          assert init[i].decoded == Some(v);
        }
      }
    }
  }

  // ---- What getEvents serves ----

  /** A request names a start ledger, or a cursor once paging has begun. */
  datatype Request = FromLedger(ledger: int) | AfterCursor(cursor: nat)

  /** `cursor` is None when the cursor text does not parse. */
  datatype Page = Page(events: seq<ChainEvent>, cursor: Option<nat>)

  predicate ValidRequest(w: World, req: Request) {
    req.AfterCursor? ==> req.cursor <= |w.events|
  }

  function StartOf(w: World, req: Request): (n: nat)
    requires ValidRequest(w, req)
    ensures n <= |w.events|
  {
    match req
    case FromLedger(l) => CountBelow(w.events, l)
    case AfterCursor(k) => k
  }

  function PositionLedger(w: World, req: Request): int
    requires ValidRequest(w, req)
  {
    match req
    case FromLedger(l) => l
    case AfterCursor(k) => if k == 0 then 0 else w.events[k - 1].ledger
  }

  predicate InWindow(w: World, req: Request)
    requires ValidRequest(w, req)
  {
    w.oldest <= PositionLedger(w, req) <= w.latest
  }

  /** Walks the chain from `at` until `limit` events of c are found or `stop`. */
  function Scan(es: seq<ChainEvent>, c: string, at: nat, limit: nat, stop: nat): (n: nat)
    requires at <= stop <= |es|
    ensures at <= n <= stop
    decreases stop - at
  {
    if at == stop || limit == 0 then at
    else if es[at].contract == c then Scan(es, c, at + 1, limit - 1, stop)
    else Scan(es, c, at + 1, limit, stop)
  }

  function Clamp(x: int, lo: int, hi: int): int {
    if x < lo then lo else if hi < x then hi else x
  }

  /** The chain index a request may be served up to: RPC scans whole ledgers, at
      least the ledger of the position and at most the tip. */
  function ScanStop(w: World, req: Request, scanned: int): (n: nat)
    requires ValidRequest(w, req)
    ensures n <= |w.events|
  {
    CountBelow(w.events, Clamp(scanned, PositionLedger(w, req), w.latest) + 1)
  }

  lemma ScanStopAfterStart(w: World, req: Request, scanned: int)
    requires ValidWorld(w) && ValidRequest(w, req) && InWindow(w, req)
    ensures StartOf(w, req) <= ScanStop(w, req, scanned)
  {
    var top := Clamp(scanned, PositionLedger(w, req), w.latest) + 1;
    match req {
      case FromLedger(l) => CountBelowMonotone(w.events, l, top);
      case AfterCursor(k) => CountBelowSplits(w.events, top);
    }
  }

  lemma {:induction false} ScanCounts(es: seq<ChainEvent>, c: string, at: nat, limit: nat, stop: nat)
    requires at <= stop <= |es|
    ensures var n := Scan(es, c, at, limit, stop);
            |Mine(es[at..n], c)| <= limit && (|Mine(es[at..n], c)| < limit ==> n == stop)
    decreases stop - at
  {
    var n := Scan(es, c, at, limit, stop);
    if at == stop || limit == 0 {
      assert es[at..n] == [];
    } else {
      ScanCounts(es, c, at + 1, if es[at].contract == c then limit - 1 else limit, stop);
      assert es[at..n] == [es[at]] + es[at + 1..n];
      MineConcat([es[at]], es[at + 1..n], c);
      assert [es[at]][..0] == [];
      assert Mine([es[at]], c) == if es[at].contract == c then [es[at]] else [];
    }
  }

  /** The next contiguous run of matching events. It is full, or it ends at a
      ledger boundary. */
  function Serve(w: World, c: string, req: Request, limit: nat, scanned: int): (page: Page)
    requires ValidWorld(w) && ValidRequest(w, req) && InWindow(w, req)
    ensures page.cursor.Some? && StartOf(w, req) <= page.cursor.value <= ScanStop(w, req, scanned)
    ensures page.events == Mine(w.events[StartOf(w, req)..page.cursor.value], c)
    ensures |page.events| <= limit
    ensures |page.events| < limit ==> page.cursor.value == ScanStop(w, req, scanned)
  {
    ScanStopAfterStart(w, req, scanned);
    var start := StartOf(w, req);
    var stop := ScanStop(w, req, scanned);
    var next := Scan(w.events, c, start, limit, stop);
    ScanCounts(w.events, c, start, limit, stop);
    Page(Mine(w.events[start..next], c), Some(next))
  }
}
