/** One contract's polling tick: drain, classify a range rejection, commit. */
module Polling {
  import opened Wrappers
  import opened Chain
  import opened Store
  import Arithmetic

  const UINT32_RANGE := 0x1_0000_0000

  datatype CallError = RangeRejected | CallFailed | BadCursor

  datatype TickError = StoreFailed(error: StoreError) | RpcFailed(call: CallError) | TxFailed | InsideWindow

  // ---- The state of a drain ----

  /** The next request, the events assembled so far and the highest ledger among them. */
  datatype DrainState = DrainState(req: Request, batch: seq<Event>, highest: int)

  function Begin(from: int): DrainState {
    DrainState(FromLedger(from), [], 0)
  }

  function MaxLedger(batch: seq<Event>): int {
    if batch == [] then 0
    else
      var m := MaxLedger(batch[..|batch| - 1]);
      var l := batch[|batch| - 1].ledger;
      if l > m then l else m
  }

  lemma {:induction false} MaxLedgerBounds(batch: seq<Event>)
    ensures forall i | 0 <= i < |batch| :: batch[i].ledger <= MaxLedger(batch)
    ensures batch != [] && (forall i | 0 <= i < |batch| :: 1 <= batch[i].ledger) ==>
              exists i | 0 <= i < |batch| :: batch[i].ledger == MaxLedger(batch)
  {
    if batch != [] {
      var init := batch[..|batch| - 1];
      MaxLedgerBounds(init);
      forall i | 0 <= i < |batch|
        ensures batch[i].ledger <= MaxLedger(batch)
      {
        if i < |init| {
          assert batch[i] == init[i];
        }
      }
      if forall i | 0 <= i < |batch| :: 1 <= batch[i].ledger {
        if batch[|batch| - 1].ledger > MaxLedger(init) {
          assert batch[|batch| - 1].ledger == MaxLedger(batch);
        } else {
          assert init != [] by {
            assert 1 <= batch[|batch| - 1].ledger;
          }
          forall i | 0 <= i < |init|
            ensures 1 <= init[i].ledger
          {
            assert init[i] == batch[i];
          }
          var i :| 0 <= i < |init| && init[i].ledger == MaxLedger(init);
          assert batch[i].ledger == MaxLedger(batch);
        }
      }
    }
  }

  /** Folds one page into a drain: decode it, keep what decodes, move the cursor. */
  function Absorb(d: DrainState, page: Page): DrainState
    requires page.cursor.Some?
  {
    var batch := d.batch + Readable(page.events);
    DrainState(AfterCursor(page.cursor.value), batch, MaxLedger(batch))
  }

  /** What c emitted between ledger `from` and chain index `end`, decoded. */
  function Slice(es: seq<ChainEvent>, c: string, from: int, end: nat): seq<Event>
    requires CountBelow(es, from) <= end <= |es|
  {
    Readable(Mine(es[CountBelow(es, from)..end], c))
  }

  ghost predicate LedgerBoundary(es: seq<ChainEvent>, end: nat)
    requires end <= |es|
  {
    forall i, j | 0 <= i < end <= j < |es| :: es[i].ledger < es[j].ledger
  }

  /** A drain in progress holds exactly the contract's decodable events up to its cursor. */
  ghost predicate Draining(w: World, c: string, from: int, d: DrainState) {
    match d.req
    case FromLedger(l) => d == Begin(from)
    case AfterCursor(k) =>
      && from <= w.latest
      && CountBelow(w.events, from) <= k <= |w.events|
      && d.batch == Slice(w.events, c, from, k)
      && d.highest == MaxLedger(d.batch)
  }

  /** A finished drain holds all of them, up to a ledger boundary. */
  ghost predicate Drained(w: World, c: string, from: int, batch: seq<Event>, highest: int, end: nat) {
    && from <= w.latest
    && CountBelow(w.events, from) <= end <= |w.events|
    && LedgerBoundary(w.events, end)
    && batch == Slice(w.events, c, from, end)
    && highest == MaxLedger(batch)
  }

  lemma SliceStable(w: World, w': World, c: string, from: int, end: nat)
    requires ValidWorld(w) && Grows(w, w') && from <= w.latest + 1
    requires CountBelow(w.events, from) <= end <= |w.events|
    ensures CountBelow(w'.events, from) == CountBelow(w.events, from)
    ensures Slice(w'.events, c, from, end) == Slice(w.events, c, from, end)
  {
    CountBelowStable(w, w', from);
    var n := CountBelow(w.events, from);
    assert w'.events[n..end] == w.events[n..end];
  }

  lemma SliceExtends(es: seq<ChainEvent>, c: string, from: int, k: nat, end: nat)
    requires CountBelow(es, from) <= k <= end <= |es|
    ensures Slice(es, c, from, end) == Slice(es, c, from, k) + Readable(Mine(es[k..end], c))
  {
    var n := CountBelow(es, from);
    assert es[n..end] == es[n..k] + es[k..end];
    MineConcat(es[n..k], es[k..end], c);
    ReadableConcat(Mine(es[n..k], c), Mine(es[k..end], c));
  }

  lemma DrainingStable(w: World, w': World, c: string, from: int, d: DrainState)
    requires ValidWorld(w) && Grows(w, w') && Draining(w, c, from, d)
    ensures Draining(w', c, from, d) && ValidRequest(w', d.req)
  {
    if d.req.AfterCursor? {
      SliceStable(w, w', c, from, d.req.cursor);
    }
  }

  lemma DrainedStable(w: World, w': World, c: string, from: int, batch: seq<Event>, highest: int, end: nat)
    requires ValidWorld(w) && Grows(w, w') && Drained(w, c, from, batch, highest, end)
    ensures Drained(w', c, from, batch, highest, end)
  {
    SliceStable(w, w', c, from, end);
    forall i, j | 0 <= i < end <= j < |w'.events|
      ensures w'.events[i].ledger < w'.events[j].ledger
    {
      assert w'.events[i] == w.events[i];
      if j < |w.events| {
        assert w'.events[j] == w.events[j];
      }
    }
  }

  lemma ScanStopIsBoundary(w: World, req: Request, scanned: int)
    requires ValidWorld(w) && ValidRequest(w, req)
    ensures LedgerBoundary(w.events, ScanStop(w, req, scanned))
  {
    CountBelowSplits(w.events, Clamp(scanned, PositionLedger(w, req), w.latest) + 1);
  }

  /** One served page keeps a drain exact; a short one finishes it. */
  lemma AbsorbKeepsExact(w: World, c: string, from: int, d: DrainState, limit: nat, scanned: int)
    requires ValidWorld(w) && Draining(w, c, from, d) && InWindow(w, d.req)
    ensures var page := Serve(w, c, d.req, limit, scanned);
            var d' := Absorb(d, page);
            && Draining(w, c, from, d')
            && (|page.events| < limit ==> Drained(w, c, from, d'.batch, d'.highest, page.cursor.value))
  {
    var page := Serve(w, c, d.req, limit, scanned);
    var next := page.cursor.value;
    match d.req {
      case FromLedger(l) =>
        assert Slice(w.events, c, from, next) == Readable(page.events);
        assert d.batch + Readable(page.events) == Readable(page.events);
      case AfterCursor(k) =>
        SliceExtends(w.events, c, from, k, next);
    }
    ScanStopIsBoundary(w, d.req, scanned);
  }

  // ---- The RPC node, one moment per call ----

  /** The world a call meets, and what may go wrong with it. */
  datatype Moment = Moment(world: World, failed: bool, rejected: bool, garbled: bool, scanned: int)

  function Answer(m: Moment, c: string, req: Request, limit: nat): Result<Page, CallError>
    requires ValidWorld(m.world) && ValidRequest(m.world, req)
  {
    if m.failed then Err(CallFailed)
    else if m.rejected || !InWindow(m.world, req) then Err(RangeRejected)
    else
      var page := Serve(m.world, c, req, limit, m.scanned);
      Ok(if m.garbled then page.(cursor := None) else page)
  }

  ghost predicate ValidMoments(moments: seq<Moment>) {
    && (forall i | 0 <= i < |moments| :: ValidWorld(moments[i].world))
    && (forall i, j | 0 <= i <= j < |moments| :: Grows(moments[i].world, moments[j].world))
  }

  class RpcNode {
    const moments: seq<Moment>
    var now: nat

    ghost predicate Valid()
      reads this
    {
      now <= |moments| && ValidMoments(moments)
    }

    constructor (moments: seq<Moment>)
      requires ValidMoments(moments)
      ensures Valid() && now == 0 && this.moments == moments
    {
      this.moments, now := moments, 0;
    }

    /** Once the moments run out every call fails, as it does after cancellation. */
    method GetEvents(c: string, req: Request, limit: nat) returns (r: Result<Page, CallError>)
      requires Valid() && (now < |moments| ==> ValidRequest(moments[now].world, req))
      modifies this`now
      ensures Valid()
      ensures old(now) == |moments| ==> r == Err(CallFailed) && now == old(now)
      ensures old(now) < |moments| ==> now == old(now) + 1 && r == Answer(moments[old(now)], c, req, limit)
    {
      if now == |moments| {
        return Err(CallFailed);
      }
      r := Answer(moments[now], c, req, limit);
      now := now + 1;
    }

    method GetHealth() returns (r: Result<(int, int), CallError>)
      requires Valid()
      modifies this`now
      ensures Valid()
      ensures old(now) == |moments| ==> r == Err(CallFailed) && now == old(now)
      ensures old(now) < |moments| ==>
                now == old(now) + 1 &&
                r == if moments[old(now)].failed then Err(CallFailed)
                     else Ok((moments[old(now)].world.oldest, moments[old(now)].world.latest))
    {
      if now == |moments| {
        return Err(CallFailed);
      }
      var m := moments[now];
      now := now + 1;
      r := if m.failed then Err(CallFailed) else Ok((m.world.oldest, m.world.latest));
    }
  }

  // ---- A window that stands still ----

  /** From call `now` on, every call succeeds against the same world and scans as far. */
  ghost predicate Still(moments: seq<Moment>, now: nat) {
    && now < |moments|
    && (forall i | now <= i < |moments| ::
          var m := moments[i];
          m.world == moments[now].world && m.scanned == moments[now].scanned && !m.failed && !m.rejected && !m.garbled)
  }

  /** The chain index a drain from a ledger can reach when every call scans as far as `scanned`. */
  function Reach(w: World, from: int, scanned: int): (n: nat)
    ensures n <= |w.events|
  {
    ScanStop(w, FromLedger(from), scanned)
  }

  lemma ReachIsAhead(w: World, from: int, scanned: int)
    requires ValidWorld(w) && from <= w.latest
    ensures CountBelow(w.events, from) <= Reach(w, from, scanned)
    ensures LedgerBoundary(w.events, Reach(w, from, scanned))
  {
    CountBelowMonotone(w.events, from, Clamp(scanned, from, w.latest) + 1);
    ScanStopIsBoundary(w, FromLedger(from), scanned);
  }

  /** Scanned to the tip, a drain can reach everything. */
  lemma ReachAtTip(w: World, from: int, scanned: int)
    requires ValidWorld(w) && from <= w.latest <= scanned
    ensures Reach(w, from, scanned) == |w.events|
  {
    CountBelowSplits(w.events, w.latest + 1);
  }

  /** How many events of c lie between ledger `from` and chain index `k`. */
  function Passed(w: World, c: string, from: int, k: nat): nat
    requires k <= |w.events|
  {
    if CountBelow(w.events, from) <= k then |Mine(w.events[CountBelow(w.events, from)..k], c)| else 0
  }

  /** How many events of c a drain from ledger `from` can reach. */
  function Pending(w: World, c: string, from: int, scanned: int): nat {
    Passed(w, c, from, Reach(w, from, scanned))
  }

  /** Every call of the drain may scan exactly as far as its first one. */
  lemma ScanStopIsReach(w: World, from: int, req: Request, scanned: int)
    requires ValidWorld(w) && ValidRequest(w, req) && from <= w.latest
    requires match req
             case FromLedger(l) => l == from
             case AfterCursor(k) => CountBelow(w.events, from) < k <= Reach(w, from, scanned)
    ensures ScanStop(w, req, scanned) == Reach(w, from, scanned)
  {
    if req.AfterCursor? {
      CountBelowSplits(w.events, from);
      CountBelowSplits(w.events, Clamp(scanned, from, w.latest) + 1);
    }
  }

  /** After `full` full pages of a still window, the cursor has passed exactly that many events. */
  ghost predicate OnTrack(w: World, c: string, from: int, scanned: int, req: Request, full: nat, limit: nat) {
    var n := CountBelow(w.events, from);
    match req
    case FromLedger(l) => l == from && full == 0
    case AfterCursor(k) => full > 0 && n <= k <= Reach(w, from, scanned) && Passed(w, c, from, k) == full * limit
  }

  lemma PassedSplits(w: World, c: string, from: int, k: nat, end: nat)
    requires CountBelow(w.events, from) <= k <= end <= |w.events|
    ensures Passed(w, c, from, end) == Passed(w, c, from, k) + |Mine(w.events[k..end], c)|
  {
    var n := CountBelow(w.events, from);
    assert w.events[n..end] == w.events[n..k] + w.events[k..end];
    MineConcat(w.events[n..k], w.events[k..end], c);
  }

  lemma OnTrackHasCallsLeft(w: World, c: string, from: int, scanned: int, req: Request, full: nat, limit: nat)
    requires 1 <= limit && OnTrack(w, c, from, scanned, req, full, limit)
    ensures full <= Pending(w, c, from, scanned) / limit
  {
    match req {
      case FromLedger(l) =>
      case AfterCursor(k) =>
        PassedSplits(w, c, from, k, Reach(w, from, scanned));
        Arithmetic.QuotientAtMost(Pending(w, c, from, scanned), full, limit);
    }
  }

  /** A cursor on track stands past an event at or above `from`. */
  lemma OnTrackCursor(w: World, c: string, from: int, scanned: int, k: nat, full: nat, limit: nat)
    requires 1 <= limit && OnTrack(w, c, from, scanned, AfterCursor(k), full, limit)
    ensures CountBelow(w.events, from) < k
  {
    var n := CountBelow(w.events, from);
    assert w.events[n..n] == [];
    Arithmetic.MulAtLeast(full, limit);
  }

  lemma ServePasses(w: World, c: string, from: int, req: Request, limit: nat, scanned: int)
    requires ValidWorld(w) && ValidRequest(w, req) && InWindow(w, req)
    requires CountBelow(w.events, from) <= StartOf(w, req) && ScanStop(w, req, scanned) == Reach(w, from, scanned)
    ensures var page := Serve(w, c, req, limit, scanned);
            && page.cursor.value <= Reach(w, from, scanned)
            && Passed(w, c, from, page.cursor.value) == Passed(w, c, from, StartOf(w, req)) + |page.events|
            && (|page.events| < limit ==>
                  page.cursor.value == Reach(w, from, scanned)
                      && Pending(w, c, from, scanned) == Passed(w, c, from, page.cursor.value))
  {
    hide Serve, Mine, ScanStop, Passed, Reach;
    var page := Serve(w, c, req, limit, scanned);
    PassedSplits(w, c, from, StartOf(w, req), page.cursor.value);
  }

  /** A full page stays on track; a short one has reached the end in the expected number of calls. */
  lemma OnTrackServes(w: World, c: string, from: int, req: Request, full: nat, limit: nat, scanned: int)
    requires ValidWorld(w) && ValidRequest(w, req) && InWindow(w, req) && from <= w.latest
    requires 1 <= limit && OnTrack(w, c, from, scanned, req, full, limit)
    ensures var page := Serve(w, c, req, limit, scanned);
            if |page.events| == limit then OnTrack(w, c, from, scanned, AfterCursor(page.cursor.value), full + 1, limit)
            else page.cursor.value == Reach(w, from, scanned) && Pending(w, c, from, scanned) / limit == full
  {
    hide Serve, Mine, Reach;
    var page := Serve(w, c, req, limit, scanned);
    if req.AfterCursor? {
      OnTrackCursor(w, c, from, scanned, req.cursor, full, limit);
    }
    ScanStopIsReach(w, from, req, scanned);
    ServePasses(w, c, from, req, limit, scanned);
    Arithmetic.MulSuccessor(full, limit);
    assert Passed(w, c, from, StartOf(w, req)) == full * limit by {
      if req.FromLedger? {
        NothingPassed(w, c, from);
      }
    }
    if |page.events| < limit {
      Arithmetic.Quotient(Pending(w, c, from, scanned), full, limit, |page.events|);
    }
  }

  lemma NothingPassed(w: World, c: string, from: int)
    ensures Passed(w, c, from, CountBelow(w.events, from)) == 0
  {
    var n := CountBelow(w.events, from);
    assert w.events[n..n] == [];
  }

  function Calls(m: Moment, c: string, from: int, limit: nat): nat
    requires 1 <= limit
  {
    Pending(m.world, c, from, m.scanned) / limit + 1
  }

  /** The window stands still, `from` lies in it, and enough calls are left to page it out. */
  ghost predicate Unhindered(moments: seq<Moment>, first: nat, c: string, from: int, limit: nat)
    requires 1 <= limit
  {
    && Still(moments, first)
    && moments[first].world.oldest <= from <= moments[first].world.latest
    && Calls(moments[first], c, from, limit) <= |moments| - first
  }

  /** The drain loop after `full` full pages, the first of them at moment `first`. */
  ghost predicate Paged(moments: seq<Moment>, first: nat, full: nat, c: string, from: int, d: DrainState) {
    && first + full <= |moments|
    && (full == 0 ==> d == Begin(from))
    && (full > 0 ==>
          && moments[first].world.oldest <= from
          && d.req.AfterCursor?
          && Draining(moments[first + full - 1].world, c, from, d))
  }

  /** One more trip round the drain loop. */
  lemma PagedStep(moments: seq<Moment>, first: nat, full: nat, c: string, from: int, d: DrainState, limit: nat)
    requires ValidMoments(moments) && Paged(moments, first, full, c, from, d) && 1 <= limit
    ensures first + full < |moments| ==>
              var m := moments[first + full];
              ValidRequest(m.world, d.req) &&
              (Answer(m, c, d.req, limit).Ok? ==>
                 var page := Serve(m.world, c, d.req, limit, m.scanned);
                 && moments[first].world.oldest <= from
                 && Draining(m.world, c, from, Absorb(d, page))
                 && (|page.events| < limit ==>
                       Drained(m.world, c, from, Absorb(d, page).batch, Absorb(d, page).highest, page.cursor.value)))
    ensures Unhindered(moments, first, c, from, limit)
              && OnTrack(moments[first].world, c, from, moments[first].scanned, d.req, full, limit) ==>
              && first + full < |moments|
              && TrackedStep(moments[first + full], c, from, d.req, full, limit)
  {
    if first + full < |moments| {
      var m := moments[first + full];
      if full > 0 {
        DrainingStable(moments[first + full - 1].world, m.world, c, from, d);
      }
      if Answer(m, c, d.req, limit).Ok? {
        AbsorbKeepsExact(m.world, c, from, d, limit, m.scanned);
      }
    }
    if Unhindered(moments, first, c, from, limit)
        && OnTrack(moments[first].world, c, from, moments[first].scanned, d.req, full, limit) {
      OnTrackHasCallsLeft(moments[first].world, c, from, moments[first].scanned, d.req, full, limit);
      TrackedStepHolds(moments, first, full, c, from, d, limit);
    }
  }

  ghost predicate TrackedStep(m: Moment, c: string, from: int, req: Request, full: nat, limit: nat)
    requires 1 <= limit
  {
    && ValidWorld(m.world) && ValidRequest(m.world, req)
    && var reply := Answer(m, c, req, limit);
    && reply.Ok?
    && reply.value.cursor.Some?
    && if |reply.value.events| == limit then
         OnTrack(m.world, c, from, m.scanned, AfterCursor(reply.value.cursor.value), full + 1, limit)
       else
         && reply.value.cursor.value == Reach(m.world, from, m.scanned)
         && Pending(m.world, c, from, m.scanned) / limit == full
  }

  lemma TrackedStepHolds(moments: seq<Moment>, first: nat, full: nat, c: string, from: int, d: DrainState, limit: nat)
    requires ValidMoments(moments) && first + full < |moments| && Paged(moments, first, full, c, from, d) && 1 <= limit
    requires Unhindered(moments, first, c, from, limit)
               && OnTrack(moments[first].world, c, from, moments[first].scanned, d.req, full, limit)
    ensures TrackedStep(moments[first + full], c, from, d.req, full, limit)
  {
    var m := moments[first + full];
    var w := m.world;
    assert w == moments[first].world;
    assert InWindow(w, d.req) by {
      match d.req {
        case FromLedger(l) =>
        case AfterCursor(k) =>
          OnTrackCursor(w, c, from, m.scanned, k, full, limit);
          CountBelowSplits(w.events, from);
      }
    }
    OnTrackServes(w, c, from, d.req, full, limit, m.scanned);
  }

  /** One reply that leads from one drain state to the next: in the window, and a full page. */
  ghost predicate Turned(m: Moment, c: string, limit: nat, d: DrainState, d': DrainState) {
    && ValidWorld(m.world) && ValidRequest(m.world, d.req) && InWindow(m.world, d.req)
    && var page := Serve(m.world, c, d.req, limit, m.scanned);
       |page.events| >= limit && d' == Absorb(d, page)
  }

  /** The reply that ends a drain: in the window, and a short page. */
  ghost predicate Ended(m: Moment, c: string, limit: nat, d: DrainState, batch: seq<Event>, highest: int, end: nat) {
    && ValidWorld(m.world) && ValidRequest(m.world, d.req) && InWindow(m.world, d.req)
    && var page := Serve(m.world, c, d.req, limit, m.scanned);
       |page.events| < limit && Absorb(d, page) == DrainState(AfterCursor(end), batch, highest)
  }

  /** The state of a drain from ledger `from` after the replies of `full` moments. */
  ghost predicate Pages(moments: seq<Moment>, first: nat, full: nat, c: string, from: int, limit: nat, d: DrainState) {
    if full == 0 then d == Begin(from)
    else
      && first + full <= |moments|
      && exists d0 {:trigger Turned(moments[first + full - 1], c, limit, d0, d)} ::
           Pages(moments, first, full - 1, c, from, limit, d0) && Turned(moments[first + full - 1], c, limit, d0, d)
  }

  lemma PagesStep(moments: seq<Moment>, first: nat, full: nat, c: string, from: int, limit: nat, d: DrainState,
                  d': DrainState)
    requires first + full < |moments| && Pages(moments, first, full, c, from, limit, d)
    requires Turned(moments[first + full], c, limit, d, d')
    ensures Pages(moments, first, full + 1, c, from, limit, d')
  {
    hide Turned;
    assert moments[first + (full + 1) - 1] == moments[first + full];
  }

  /** The drain loop's invariant: the state is exact, and on track if nothing hinders it. */
  ghost predicate DrainLoop(moments: seq<Moment>, first: nat, full: nat, c: string, from: int, d: DrainState,
                            limit: nat)
    requires 1 <= limit
  {
    && Paged(moments, first, full, c, from, d)
    && Pages(moments, first, full, c, from, limit, d)
    && (Unhindered(moments, first, c, from, limit) ==>
        OnTrack(moments[first].world, c, from, moments[first].scanned, d.req, full, limit))
  }

  /** A call made at a moment from a start ledger is rejected as out of range. */
  ghost predicate RejectedAt(moments: seq<Moment>, at: nat, start: int) {
    at < |moments| && !moments[at].failed && (moments[at].rejected || !InWindow(moments[at].world, FromLedger(start)))
  }

  /** The moment a drain stopped at accounts for its error. */
  ghost predicate Explains(m: Moment, error: CallError) {
    match error
    case CallFailed => m.failed
    case BadCursor => m.garbled
    case RangeRejected => !m.failed
  }

  lemma AnswerExplained(moments: seq<Moment>, at: nat, c: string, req: Request, limit: nat, start: int)
    requires at < |moments| ==> ValidWorld(moments[at].world) && ValidRequest(moments[at].world, req)
    ensures at < |moments| ==>
              var r := Answer(moments[at], c, req, limit);
              && (r.Err? ==> Explains(moments[at], r.error))
              && (r.Ok? && r.value.cursor.None? ==> Explains(moments[at], BadCursor))
              && (req == FromLedger(start) ==> (r == Err(RangeRejected) <==> RejectedAt(moments, at, start)))
    ensures |moments| <= at ==> !RejectedAt(moments, at, start)
  {
  }

  /** What a drain returns: read page by page over moments first..last, and exact in the last of them. */
  ghost predicate PagedOut(moments: seq<Moment>, first: nat, last: nat, c: string, from: int, limit: nat,
                           batch: seq<Event>, highest: int, end: nat) {
    && first <= last < |moments|
    && moments[first].world.oldest <= from
    && Drained(moments[last].world, c, from, batch, highest, end)
    && exists d :: Pages(moments, first, last - first, c, from, limit, d)
                   && Ended(moments[last], c, limit, d, batch, highest, end)
  }

  lemma DrainLoopEnter(moments: seq<Moment>, first: nat, c: string, from: int, limit: nat)
    requires first <= |moments| && 1 <= limit
    ensures DrainLoop(moments, first, 0, c, from, Begin(from), limit)
  {
  }

  /** One reply: it fails only when hindered, finishes the drain, or keeps the loop's invariant. */
  lemma DrainLoopStep(moments: seq<Moment>, first: nat, full: nat, c: string, from: int, d: DrainState, limit: nat,
                      reply: Result<Page, CallError>) returns (end: nat)
    requires ValidMoments(moments) && 1 <= limit && DrainLoop(moments, first, full, c, from, d, limit)
    requires first + full < |moments| ==>
               ValidRequest(moments[first + full].world, d.req)
                   && reply == Answer(moments[first + full], c, d.req, limit)
    requires first + full == |moments| ==> reply.Err?
    ensures reply.Err? || reply.value.cursor.None? ==> !Unhindered(moments, first, c, from, limit)
    ensures reply.Ok? ==>
              var page := reply.value;
              var batch := d.batch + Readable(page.events);
              && first + full < |moments|
              && |page.events| <= limit
              && (|page.events| < limit ==>
                    && PagedOut(moments, first, first + full, c, from, limit, batch, MaxLedger(batch), end)
                    && (Unhindered(moments, first, c, from, limit) ==>
                          full + 1 == Calls(moments[first], c, from, limit)
                              && end == Reach(moments[first].world, from, moments[first].scanned)))
              && (|page.events| == limit && page.cursor.Some? ==>
                    DrainLoop(moments, first, full + 1, c, from,
                              DrainState(AfterCursor(page.cursor.value), batch, MaxLedger(batch)), limit))
  {
    hide Pages, Turned, Ended, PagedOut, Unhindered, OnTrack, Draining, Drained, Serve, Reach, Pending;
    PagedStep(moments, first, full, c, from, d, limit);
    end := 0;
    if reply.Ok? {
      var m := moments[first + full];
      var served := Serve(m.world, c, d.req, limit, m.scanned);
      end := served.cursor.value;
      if |served.events| < limit {
        DrainEnds(moments, first, full, c, from, d, limit);
      } else {
        DrainTurns(moments, first, full, c, from, d, limit);
      }
      if Unhindered(moments, first, c, from, limit) {
        UnhinderedIsStill(moments, first, first + full, c, from, limit);
      }
    }
  }

  lemma UnhinderedIsStill(moments: seq<Moment>, first: nat, at: nat, c: string, from: int, limit: nat)
    requires 1 <= limit && Unhindered(moments, first, c, from, limit) && first <= at < |moments|
    ensures moments[at].world == moments[first].world && moments[at].scanned == moments[first].scanned
    ensures !moments[at].garbled
  {
    hide Pending;
  }

  /** A short page ends the drain. */
  lemma DrainEnds(moments: seq<Moment>, first: nat, full: nat, c: string, from: int, d: DrainState, limit: nat)
    requires first + full < |moments| && Pages(moments, first, full, c, from, limit, d)
    requires var m := moments[first + full];
             ValidWorld(m.world) && ValidRequest(m.world, d.req) && InWindow(m.world, d.req)
    requires var m := moments[first + full];
             var page := Serve(m.world, c, d.req, limit, m.scanned);
             && |page.events| < limit
             && moments[first].world.oldest <= from
             && Drained(m.world, c, from, Absorb(d, page).batch, Absorb(d, page).highest, page.cursor.value)
    ensures var m := moments[first + full];
            var page := Serve(m.world, c, d.req, limit, m.scanned);
            PagedOut(moments, first, first + full, c, from, limit, Absorb(d, page).batch, Absorb(d, page).highest,
                     page.cursor.value)
  {
    hide Pages, Drained, Serve, InWindow, Readable;
    var m := moments[first + full];
    var page := Serve(m.world, c, d.req, limit, m.scanned);
    var next := Absorb(d, page);
    assert Ended(m, c, limit, d, next.batch, next.highest, page.cursor.value);
    assert first + full - first == full;
  }

  /** A full page is one more trip round the loop. */
  lemma DrainTurns(moments: seq<Moment>, first: nat, full: nat, c: string, from: int, d: DrainState, limit: nat)
    requires first + full < |moments| && Pages(moments, first, full, c, from, limit, d)
    requires var m := moments[first + full];
             ValidWorld(m.world) && ValidRequest(m.world, d.req) && InWindow(m.world, d.req)
    requires var m := moments[first + full];
             var page := Serve(m.world, c, d.req, limit, m.scanned);
             && |page.events| == limit
             && moments[first].world.oldest <= from && Draining(m.world, c, from, Absorb(d, page))
    ensures var m := moments[first + full];
            var next := Absorb(d, Serve(m.world, c, d.req, limit, m.scanned));
            Pages(moments, first, full + 1, c, from, limit, next) && Paged(moments, first, full + 1, c, from, next)
  {
    hide Pages, Draining, Serve, InWindow, Readable;
    var m := moments[first + full];
    PagesStep(moments, first, full, c, from, limit, d, Absorb(d, Serve(m.world, c, d.req, limit, m.scanned)));
  }

  lemma DrainLoopRequest(moments: seq<Moment>, first: nat, full: nat, c: string, from: int, d: DrainState, limit: nat)
    requires ValidMoments(moments) && 1 <= limit && DrainLoop(moments, first, full, c, from, d, limit)
    requires first + full < |moments|
    ensures ValidRequest(moments[first + full].world, d.req)
  {
    if full > 0 {
      DrainingStable(moments[first + full - 1].world, moments[first + full].world, c, from, d);
    }
  }

  // ---- The tick ----

  function ToUint32(x: int): int {
    x % UINT32_RANGE
  }

  /** The ledger a tick starts from: one past the progress, at least 1, as a uint32. */
  function StartLedger(last: int): int {
    ToUint32(if last + 1 < 1 then 1 else last + 1)
  }

  /** Which driver calls of one tick fail. */
  datatype Faults = Faults(get: bool, begin: bool, insert: bool, progress: bool, commit: bool)

  /** What a tick did: nothing to the database, or one commit of a drain that
      started at ledger `from` and was read over moments first..last. `health` is the
      moment a low-side rejection took its new floor from. */
  datatype Outcome =
    | Unchanged
    | Wrote(first: nat, last: nat, health: Option<nat>, from: int, batch: seq<Event>, highest: int, end: nat,
            ids: seq<int>)

  /** Where a drain begins: at the tick's start, or at a floor read above it. */
  ghost predicate BeginsAt(moments: seq<Moment>, first: nat, start: int, health: Option<nat>, from: int)
    requires first < |moments|
  {
    match health
    case None => from == start
    case Some(h) => h < first && start < from == moments[h].world.oldest && start <= moments[h].world.latest
  }

  ghost predicate LegalOutcome(moments: seq<Moment>, c: string, start: int, limit: nat, pre: Db, post: Db, o: Outcome) {
    match o
    case Unchanged => post == pre
    case Wrote(first, last, health, from, batch, highest, end, ids) =>
      && c in pre.contracts
      && PagedOut(moments, first, last, c, from, limit, batch, highest, end)
      && batch != []
      && BeginsAt(moments, first, start, health, from)
      && FreshIds(pre.events, batch, ids)
      && Committed(pre, c, batch, highest, ids) == Ok(post)
  }

  /** Everything of c that a drain from ledger `from` reaches, decoded. */
  function Backlog(m: Moment, c: string, from: int): seq<Event> {
    var end := Reach(m.world, from, m.scanned);
    if CountBelow(m.world.events, from) <= end then Slice(m.world.events, c, from, end) else []
  }

  /** The whole backlog is stored if it fits one insert batch; a larger one fails and stores nothing. */
  ghost predicate StoresBacklog(backlog: seq<Event>, err: Option<TickError>, outcome: Outcome) {
    if backlog == [] then err == None && outcome == Unchanged
    else if |backlog| <= MAX_PAGE_SIZE then err == None && outcome.Wrote? && outcome.batch == backlog
    else err == Some(StoreFailed(BatchTooLarge)) && outcome == Unchanged
  }

  const NO_FAULTS := Faults(false, false, false, false, false)

  /** How a rejection is resolved against the bounds read at a moment. */
  ghost predicate Classified(moments: seq<Moment>, at: nat, c: string, start: int, limit: nat, faults: Faults,
                             err: Option<TickError>, outcome: Outcome)
    requires 1 <= limit
  {
    at < |moments| && !moments[at].failed ==>
      var w := moments[at].world;
      if start > w.latest then err == None && outcome == Unchanged
      else if w.oldest <= start then err == Some(InsideWindow) && outcome == Unchanged
      else
        && (outcome.Wrote? ==> outcome.health == Some(at) && outcome.from == w.oldest)
        && (faults == NO_FAULTS && Unhindered(moments, at + 1, c, w.oldest, limit) ==>
              StoresBacklog(Backlog(moments[at + 1], c, w.oldest), err, outcome))
  }

  lemma {:induction false} InsertAllOrigin(rows: seq<Row>, batch: seq<Event>, ids: seq<int>)
    requires |batch| <= |ids|
    ensures forall i | |rows| <= i < |InsertAll(rows, batch, ids)| :: InsertAll(rows, batch, ids)[i].event in batch
    decreases |batch|
  {
    if batch != [] {
      if Conflicts(rows, batch[0]) {
        InsertAllOrigin(rows, batch[1..], ids);
      } else {
        var next := rows + [Row(ids[0], batch[0])];
        InsertAllOrigin(next, batch[1..], ids[1..]);
        assert InsertAll(rows, batch, ids)[|rows|] == next[|rows|];
      }
    }
  }

  /** A tracked contract's own batch fails to insert only when it is too large. */
  lemma OwnBatchInserts(db: Db, c: string, batch: seq<Event>, highest: int, ids: seq<int>)
    requires |batch| <= |ids| && c in db.contracts && c != ""
    requires forall i | 0 <= i < |batch| :: batch[i].contract == c
    ensures Committed(db, c, batch, highest, ids) ==
            if |batch| > MAX_PAGE_SIZE then Err(BatchTooLarge)
            else ProgressSet(db.(events := InsertAll(db.events, batch, ids)), c, highest)
  {
    InsertAllOrigin(db.events, batch, ids);
  }

  lemma UnchangedIsLegal(moments: seq<Moment>, c: string, start: int, limit: nat, db: Db)
    ensures LegalOutcome(moments, c, start, limit, db, db, Unchanged)
  {
  }

  /** A drain that succeeded and then committed is a legal outcome. */
  lemma DrainedOutcome(moments: seq<Moment>, first: nat, last: nat, health: Option<nat>, c: string, start: int,
                       from: int, limit: nat, batch: seq<Event>, highest: int, end: nat, ids: seq<int>, pre: Db,
                       post: Db)
    requires PagedOut(moments, first, last, c, from, limit, batch, highest, end) && batch != [] && c in pre.contracts
    requires BeginsAt(moments, first, start, health, from)
    requires FreshIds(pre.events, batch, ids) && Committed(pre, c, batch, highest, ids) == Ok(post)
    ensures LegalOutcome(moments, c, start, limit, pre, post,
                         Wrote(first, last, health, from, batch, highest, end, ids))
  {
    hide PagedOut, BeginsAt, FreshIds, Committed;
  }

  /** In a window that stands still a drain holds the whole backlog, and
      committing it can only fail on its size. */
  lemma StillDrain(moments: seq<Moment>, first: nat, last: nat, c: string, from: int, limit: nat,
                   batch: seq<Event>, highest: int, end: nat, ids: seq<int>, pre: Db)
    requires ValidMoments(moments) && 1 <= limit && Unhindered(moments, first, c, from, limit)
    requires PagedOut(moments, first, last, c, from, limit, batch, highest, end)
               && end == Reach(moments[first].world, from, moments[first].scanned)
    requires c in pre.contracts && |batch| <= |ids|
    ensures batch == Backlog(moments[first], c, from)
    ensures batch != [] ==>
              if |batch| > MAX_PAGE_SIZE then Committed(pre, c, batch, highest, ids) == Err(BatchTooLarge)
              else Committed(pre, c, batch, highest, ids).Ok?
  {
    hide Pages, Ended, LedgerBoundary, Slice, Committed, Pending, Mine, Readable;
    var w := moments[first].world;
    SliceIsOwn(w, c, from, end);
    if batch != [] {
      assert batch[0] in batch;
      OwnBatchInserts(pre, c, batch, highest, ids);
    }
  }

  /** So with no fault the tick's result is decided by the backlog alone. */
  lemma StillStores(moments: seq<Moment>, first: nat, last: nat, c: string, from: int, limit: nat,
                    batch: seq<Event>, highest: int, end: nat, ids: seq<int>, pre: Db, err: Option<TickError>,
                    outcome: Outcome)
    requires ValidMoments(moments) && 1 <= limit && Unhindered(moments, first, c, from, limit)
    requires PagedOut(moments, first, last, c, from, limit, batch, highest, end)
               && end == Reach(moments[first].world, from, moments[first].scanned)
    requires c in pre.contracts && |batch| <= |ids|
    requires if batch == [] then err == None && outcome == Unchanged
             else match Committed(pre, c, batch, highest, ids)
               case Ok(_) => err == None && outcome.Wrote? && outcome.batch == batch
               case Err(e) => err == Some(StoreFailed(e)) && outcome == Unchanged
    ensures StoresBacklog(Backlog(moments[first], c, from), err, outcome)
  {
    StillDrain(moments, first, last, c, from, limit, batch, highest, end, ids, pre);
    hide PagedOut, Unhindered, Committed, Backlog;
  }

  lemma SliceIsOwn(w: World, c: string, from: int, end: nat)
    requires ValidWorld(w) && CountBelow(w.events, from) <= end <= |w.events|
    ensures forall e | e in Slice(w.events, c, from, end) ::
              e.contract == c && c != "" && from <= e.ledger <= w.latest
  {
    var part := w.events[CountBelow(w.events, from)..end];
    MineMembers(part, c);
    ReadableMembers(Mine(part, c));
    CountBelowSplits(w.events, from);
    forall e | e in Slice(w.events, c, from, end)
      ensures e.contract == c && c != "" && from <= e.ledger <= w.latest
    {
      var i :| 0 <= i < |Mine(part, c)| && Mine(part, c)[i].decoded == Some(e);
      assert Mine(part, c)[i] in part;
    }
  }

  class Poller {
    const batchSize: nat

    constructor (batchSize: nat)
      ensures this.batchSize == batchSize
    {
      this.batchSize := batchSize;
    }

    /** Decodes one page onto the assembled batch, skipping what does not decode. */
    method AssemblePage(infos: seq<ChainEvent>, batch: seq<Event>) returns (assembled: seq<Event>, highest: int)
      ensures assembled == batch + Readable(infos)
      ensures highest == MaxLedger(assembled)
    {
      assembled := batch;
      highest := MaxLedger(batch);
      for i := 0 to |infos|
        invariant assembled == batch + Readable(infos[..i])
        invariant highest == MaxLedger(assembled)
      {
        assert infos[..i + 1][..i] == infos[..i];
        if infos[i].decoded.Some? {
          var event := infos[i].decoded.value;
          if event.ledger > highest {
            highest := event.ledger;
          }
          assert (assembled + [event])[..|assembled|] == assembled;
          assembled := assembled + [event];
        }
      }
      assert infos[..|infos|] == infos;
    }

    /** Pages from startLedger to the end of the window. On success it returns
        exactly the contract's decodable events from startLedger up to a ledger
        boundary. Against a window that stands still it makes n / batchSize + 1
        calls for n pending events and returns all that decode. */
    method Drain(rpc: RpcNode, c: string, startLedger: int)
      returns (r: Result<(seq<Event>, int), CallError>, ghost end: nat)
      requires rpc.Valid() && 1 <= batchSize
      modifies rpc`now
      ensures rpc.Valid() && old(rpc.now) <= rpc.now
      ensures r.Ok? ==>
                old(rpc.now) < rpc.now &&
                PagedOut(rpc.moments, old(rpc.now), rpc.now - 1, c, startLedger, batchSize, r.value.0, r.value.1, end)
      ensures Unhindered(rpc.moments, old(rpc.now), c, startLedger, batchSize) ==>
                && r.Ok?
                && rpc.now == old(rpc.now) + Calls(rpc.moments[old(rpc.now)], c, startLedger, batchSize)
                && end == Reach(rpc.moments[old(rpc.now)].world, startLedger, rpc.moments[old(rpc.now)].scanned)
      ensures RejectedAt(rpc.moments, old(rpc.now), startLedger) ==>
                r == Err(RangeRejected) && rpc.now == old(rpc.now) + 1
      ensures r.Err? ==>
                rpc.now == |rpc.moments| || (old(rpc.now) < rpc.now && Explains(rpc.moments[rpc.now - 1], r.error))
    {
      hide DrainLoop, PagedOut, Unhindered, Answer, RejectedAt, Explains;
      var req := FromLedger(startLedger);
      var assembled: seq<Event> := [];
      var highest := 0;
      ghost var first, full := rpc.now, 0;
      end := 0;
      DrainLoopEnter(rpc.moments, first, c, startLedger, batchSize);
      while true
        invariant rpc.Valid() && rpc.now == first + full
        invariant full == 0 ==> req == FromLedger(startLedger)
        invariant full > 0 ==> !RejectedAt(rpc.moments, first, startLedger)
        invariant DrainLoop(rpc.moments, first, full, c, startLedger, DrainState(req, assembled, highest), batchSize)
        decreases |rpc.moments| - rpc.now
      {
        ghost var d := DrainState(req, assembled, highest);
        if rpc.now < |rpc.moments| {
          DrainLoopRequest(rpc.moments, first, full, c, startLedger, d, batchSize);
        }
        var reply := rpc.GetEvents(c, req, batchSize);
        AnswerExplained(rpc.moments, first + full, c, req, batchSize, startLedger);
        end := DrainLoopStep(rpc.moments, first, full, c, startLedger, d, batchSize, reply);
        if reply.Err? {
          return Err(reply.error), end;
        }
        var page := reply.value;
        assembled, highest := AssemblePage(page.events, assembled);
        if |page.events| == 0 {
          return Ok((assembled, highest)), end;
        }
        if page.cursor.None? {
          return Err(BadCursor), end;
        }
        req := AfterCursor(page.cursor.value);
        full := full + 1;
        if |page.events| < batchSize {
          return Ok((assembled, highest)), end;
        }
      }
    }

    /** Writes a batch and advances the cursor in one transaction. */
    method Commit(db: Database, c: string, batch: seq<Event>, highest: int, faults: Faults, gap: nat)
      returns (err: Option<TickError>, ghost ids: seq<int>)
      requires db.saved == None
      modifies db
      ensures db.saved == None
      ensures |batch| == |ids| && FreshIds(old(db.events), batch, ids)
      ensures err.Some? ==> db.State() == old(db.State())
      ensures err.None? ==> Committed(old(db.State()), c, batch, highest, ids) == Ok(db.State())
      ensures !faults.begin && !faults.insert && !faults.progress && !faults.commit ==>
                match Committed(old(db.State()), c, batch, highest, ids)
                case Ok(_) => err == None
                case Err(e) => err == Some(StoreFailed(e))
    {
      var begun := db.BeginTx(faults.begin);
      if !begun {
        ids := FreshRange(db.events, |batch|, gap);
        AboveAllIsFresh(db.events, batch, ids);
        return Some(TxFailed), ids;
      }
      var inserted;
      hide Checked, Pointers, FreshIds, AboveAll, Inserted;
      ghost var before := db.State();
      inserted, ids := db.Insert(Pointers(batch), gap, faults.insert);
      PointersInsert(before, batch, ids);
      AboveAllIsFresh(before.events, batch, ids);
      if inserted.Err? {
        db.Rollback();
        return Some(StoreFailed(inserted.error)), ids;
      }
      var advanced := db.SetProgress(c, highest, faults.progress);
      if advanced.Err? {
        db.Rollback();
        return Some(StoreFailed(advanced.error)), ids;
      }
      var committed := db.CommitTx(faults.commit);
      if !committed {
        db.Rollback();
        return Some(TxFailed), ids;
      }
      db.Rollback();
      return None, ids;
    }

    /** The end of a tick: nothing to do for an empty batch, one commit otherwise. */
    method CommitDrained(rpc: RpcNode, db: Database, c: string, batch: seq<Event>, highest: int, faults: Faults,
                         gap: nat,
                         ghost start: int, ghost from: int, ghost first: nat, ghost health: Option<nat>, ghost end: nat)
      returns (err: Option<TickError>, ghost outcome: Outcome)
      requires rpc.Valid() && 1 <= batchSize && db.saved == None && c in db.contracts && 0 < rpc.now
      requires PagedOut(rpc.moments, first, rpc.now - 1, c, from, batchSize, batch, highest, end)
      requires Unhindered(rpc.moments, first, c, from, batchSize) ==>
                 end == Reach(rpc.moments[first].world, from, rpc.moments[first].scanned)
      requires BeginsAt(rpc.moments, first, start, health, from)
      modifies db
      ensures db.saved == None
      ensures LegalOutcome(rpc.moments, c, start, batchSize, old(db.State()), db.State(), outcome)
      ensures err.Some? ==> outcome == Unchanged
      ensures outcome.Wrote? ==> outcome.health == health && outcome.from == from
      ensures faults == NO_FAULTS && Unhindered(rpc.moments, first, c, from, batchSize) ==>
                StoresBacklog(Backlog(rpc.moments[first], c, from), err, outcome)
    {
      hide PagedOut, Unhindered, Committed, FreshIds, LegalOutcome, Backlog, StoresBacklog;
      UnchangedIsLegal(rpc.moments, c, start, batchSize, db.State());
      outcome := Unchanged;
      ghost var last, ids := rpc.now - 1, FreshRange(db.events, |batch|, gap);
      if |batch| == 0 {
        if Unhindered(rpc.moments, first, c, from, batchSize) {
          StillStores(rpc.moments, first, last, c, from, batchSize, batch, highest, end, ids, db.State(), None,
                      outcome);
        }
        return None, outcome;
      }
      err, ids := Commit(db, c, batch, highest, faults, gap);
      if err.None? {
        outcome := Wrote(first, last, health, from, batch, highest, end, ids);
        DrainedOutcome(rpc.moments, first, last, health, c, start, from, batchSize, batch, highest, end, ids,
                       old(db.State()), db.State());
      }
      if faults == NO_FAULTS && Unhindered(rpc.moments, first, c, from, batchSize) {
        StillStores(rpc.moments, first, last, c, from, batchSize, batch, highest, end, ids, old(db.State()), err,
                    outcome);
      }
    }

    /** Classifies a rejection against fresh bounds: hold above the tip, resume
        from the floor below it, surface anything else. */
    method HandleRangeError(rpc: RpcNode, db: Database, c: string, startLedger: int, faults: Faults, gap: nat)
      returns (err: Option<TickError>, ghost outcome: Outcome)
      requires rpc.Valid() && 1 <= batchSize && db.saved == None && c in db.contracts
      modifies rpc`now, db
      ensures rpc.Valid() && db.saved == None
      ensures LegalOutcome(rpc.moments, c, startLedger, batchSize, old(db.State()), db.State(), outcome)
      ensures err.Some? ==> outcome == Unchanged
      ensures Classified(rpc.moments, old(rpc.now), c, startLedger, batchSize, faults, err, outcome)
    {
      hide PagedOut, Unhindered, Committed, FreshIds, LegalOutcome, Backlog, RejectedAt, Explains, StoresBacklog;
      UnchangedIsLegal(rpc.moments, c, startLedger, batchSize, db.State());
      outcome := Unchanged;
      ghost var h := rpc.now;
      var health := rpc.GetHealth();
      if health.Err? {
        return Some(RpcFailed(health.error)), outcome;
      }
      var (oldest, latest) := health.value;
      if startLedger > latest {
        return None, outcome;
      } else if startLedger < oldest {
        var drained;
        ghost var end;
        drained, end := Drain(rpc, c, oldest);
        if drained.Err? {
          return Some(RpcFailed(drained.error)), outcome;
        }
        var (batch, highest) := drained.value;
        err, outcome := CommitDrained(rpc, db, c, batch, highest, faults, gap, startLedger, oldest, h + 1, Some(h),
                                      end);
        return err, outcome;
      } else {
        return Some(InsideWindow), outcome;
      }
    }

    /** Drains one contract from its stored cursor and commits what it read. A
        failed or caught-up tick leaves the database alone. With no fault and a
        window that stands still, a tick stores the whole backlog exactly when it
        is at most one insert batch, and otherwise fails having stored nothing. A
        rejection is classified against the bounds read next. */
    method TickOnce(rpc: RpcNode, db: Database, c: string, faults: Faults, gap: nat)
      returns (err: Option<TickError>, ghost outcome: Outcome)
      requires rpc.Valid() && 1 <= batchSize && db.saved == None
      modifies rpc`now, db
      ensures rpc.Valid() && db.saved == None
      ensures c !in old(db.contracts) || faults.get ==> err.Some? && outcome == Unchanged
      ensures c in old(db.contracts) ==>
                LegalOutcome(rpc.moments, c, StartLedger(old(db.contracts)[c].last), batchSize, old(db.State()),
                             db.State(), outcome)
      ensures outcome.Unchanged? ==> db.State() == old(db.State())
      ensures err.Some? ==> outcome == Unchanged
      ensures c in old(db.contracts) && faults == NO_FAULTS ==>
                var start := StartLedger(old(db.contracts)[c].last);
                Unhindered(rpc.moments, old(rpc.now), c, start, batchSize) ==>
                  StoresBacklog(Backlog(rpc.moments[old(rpc.now)], c, start), err, outcome)
      ensures c in old(db.contracts) && !faults.get ==>
                var start := StartLedger(old(db.contracts)[c].last);
                RejectedAt(rpc.moments, old(rpc.now), start) ==>
                  Classified(rpc.moments, old(rpc.now) + 1, c, start, batchSize, faults, err, outcome)
    {
      outcome := Unchanged;
      var contract := db.Get(c, faults.get);
      if contract.Err? {
        return Some(StoreFailed(contract.error)), outcome;
      }
      var startLedger := contract.value.last + 1;
      if startLedger < 1 {
        startLedger := 1;
      }
      startLedger := ToUint32(startLedger);
      hide PagedOut, Unhindered, Committed, FreshIds, Backlog, LegalOutcome, Classified, RejectedAt, Explains,
          StoresBacklog;
      UnchangedIsLegal(rpc.moments, c, startLedger, batchSize, db.State());
      ghost var first := rpc.now;
      var drained;
      ghost var end;
      drained, end := Drain(rpc, c, startLedger);
      if drained.Err? {
        if drained.error == RangeRejected {
          err, outcome := HandleRangeError(rpc, db, c, startLedger, faults, gap);
          return err, outcome;
        }
        return Some(RpcFailed(drained.error)), outcome;
      }
      var (batch, highest) := drained.value;
      err, outcome := CommitDrained(rpc, db, c, batch, highest, faults, gap, startLedger, startLedger, first, None,
                                    end);
    }
  }
}
