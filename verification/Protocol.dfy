/** The ingest protocol as a state machine. Any number of contracts are polled at
    once, one poller each; every RPC call, health call and commit is a step of its
    own, any of them may fail, and the chain, the retention floor, registrations
    and deletions move between them. */
module Protocol {
  import opened Wrappers
  import opened Chain
  import opened Store
  import opened Polling

  /** Why a range of ledgers is not covered: the retention floor passed it, or the
      contract was deleted and registered again under a tick still in flight. */
  datatype GapCause = RetentionSkip | StaleCommit

  datatype Gap = Gap(lo: int, hi: int, cause: GapCause)

  /** Where a tick stands: about to call getEvents, about to call getHealth after a
      range rejection, or about to commit. */
  datatype Phase = Paging(d: DrainState) | Rejected | Ready(batch: seq<Event>, highest: int, end: nat)

  /** `start` comes from the stored progress, `from` is where the drain began, and
      `stale` records that the contract was deleted since the tick read it. */
  datatype Tick = Tick(start: int, from: int, phase: Phase, stale: bool)

  /** `gaps` is history only; nothing in the poller reads it. */
  datatype Sys = Sys(world: World, db: Db, ticks: map<string, Tick>, gaps: map<string, seq<Gap>>)

  datatype Step =
    | Grow(world: World)
    | Register(c: string)
    | Delete(c: string)
    | BeginTick(c: string)
    | Fetch(c: string, limit: nat, scanned: int)
    | Reject(c: string)
    | Health(c: string)
    | Commit(c: string, ids: seq<int>)
    | Abort(c: string)

  ghost predicate Enabled(s: Sys, step: Step) {
    match step
    case Grow(w) => Grows(s.world, w)
    case Register(c) => true
    case Delete(c) => true
    case BeginTick(c) => c in s.db.contracts && c !in s.ticks
    case Fetch(c, limit, scanned) =>
      && 1 <= limit && c in s.ticks && s.ticks[c].phase.Paging?
      && ValidWorld(s.world)
      && ValidRequest(s.world, s.ticks[c].phase.d.req) && InWindow(s.world, s.ticks[c].phase.d.req)
    case Reject(c) => c in s.ticks && s.ticks[c].phase.Paging?
    case Health(c) => c in s.ticks && s.ticks[c].phase.Rejected?
    case Commit(c, ids) =>
      && c in s.ticks && s.ticks[c].phase.Ready?
      && FreshIds(s.db.events, s.ticks[c].phase.batch, ids)
    case Abort(c) => c in s.ticks
  }

  function AfterFetch(w: World, c: string, t: Tick, limit: nat, scanned: int): Option<Tick>
    requires t.phase.Paging? && ValidWorld(w) && ValidRequest(w, t.phase.d.req) && InWindow(w, t.phase.d.req)
  {
    var page := Serve(w, c, t.phase.d.req, limit, scanned);
    var d := Absorb(t.phase.d, page);
    if |page.events| >= limit then Some(t.(phase := Paging(d)))
    else if d.batch == [] then None
    else Some(t.(phase := Ready(d.batch, d.highest, page.cursor.value)))
  }

  function AfterHealth(w: World, t: Tick): Option<Tick> {
    if t.start > w.latest then None
    else if t.start < w.oldest then Some(t.(from := w.oldest, phase := Paging(Begin(w.oldest))))
    else None
  }

  /** The ledgers a commit steps over without having read them. */
  function Skipped(last: int, start: int, from: int): seq<Gap> {
    (if last + 1 < start then [Gap(last + 1, start - 1, StaleCommit)] else []) +
    (if start < from then [Gap(start, from - 1, RetentionSkip)] else [])
  }

  function WithTick(s: Sys, c: string, t: Option<Tick>): Sys {
    s.(ticks := if t.Some? then s.ticks[c := t.value] else s.ticks - {c})
  }

  function AfterCommit(s: Sys, c: string, ids: seq<int>): Sys
    requires c in s.ticks && s.ticks[c].phase.Ready? && |s.ticks[c].phase.batch| <= |ids|
  {
    var t := s.ticks[c];
    match Committed(s.db, c, t.phase.batch, t.phase.highest, ids)
    case Err(_) => WithTick(s, c, None)
    case Ok(db) =>
      var last := if c in s.db.contracts then s.db.contracts[c].last else 0;
      var known := if c in s.gaps then s.gaps[c] else [];
      WithTick(s.(db := db, gaps := s.gaps[c := known + Skipped(last, t.start, t.from)]), c, None)
  }

  function AfterDelete(s: Sys, c: string): Sys {
    match Deleted(s.db, c)
    case Err(_) => s
    case Ok(db) =>
      var ticks := if c in s.ticks then s.ticks[c := s.ticks[c].(stale := true)] else s.ticks;
      Sys(s.world, db, ticks, s.gaps - {c})
  }

  function AfterRegister(s: Sys, c: string): Sys {
    match Registered(s.db, c)
    case Err(_) => s
    case Ok(db) => s.(db := db, gaps := if c in s.db.contracts then s.gaps else s.gaps[c := []])
  }

  function Apply(s: Sys, step: Step): Sys
    requires Enabled(s, step)
  {
    match step
    case Grow(w) => s.(world := w)
    case Register(c) => AfterRegister(s, c)
    case Delete(c) => AfterDelete(s, c)
    case BeginTick(c) =>
      var start := StartLedger(s.db.contracts[c].last);
      WithTick(s, c, Some(Tick(start, start, Paging(Begin(start)), false)))
    case Fetch(c, limit, scanned) => WithTick(s, c, AfterFetch(s.world, c, s.ticks[c], limit, scanned))
    case Reject(c) =>
      // Only the first drain's rejection is classified; the second one just fails.
      var t := s.ticks[c];
      WithTick(s, c, if t.from == t.start then Some(t.(phase := Rejected)) else None)
    case Health(c) => WithTick(s, c, AfterHealth(s.world, s.ticks[c]))
    case Commit(c, ids) => AfterCommit(s, c, ids)
    case Abort(c) => WithTick(s, c, None)
  }

  // ---- What every reachable state keeps ----

  ghost predicate OnChain(w: World, e: Event) {
    exists k | 0 <= k < |w.events| :: w.events[k].decoded == Some(e)
  }

  /** Every stored row is an event of the chain, of a tracked contract, within its progress. */
  ghost predicate Faithful(w: World, db: Db) {
    forall i | 0 <= i < |db.events| ::
      var e := db.events[i].event;
      OnChain(w, e) && e.contract in db.contracts && e.ledger <= db.contracts[e.contract].last
  }

  ghost predicate Progress(w: World, db: Db) {
    forall c | c in db.contracts ::
      var row := db.contracts[c];
      && 0 <= row.last <= w.latest
      && (row.first.None? <==> row.last == 0)
      && (row.first.Some? ==> 1 <= row.first.value <= row.last)
  }

  ghost predicate Stored(rows: seq<Row>, e: Event) {
    exists i | 0 <= i < |rows| :: rows[i].event == e
  }

  ghost predicate InGap(gaps: seq<Gap>, ledger: int) {
    exists i | 0 <= i < |gaps| :: gaps[i].lo <= ledger <= gaps[i].hi
  }

  /** A decodable event of c at or below its progress is stored exactly when no recorded gap holds its ledger. */
  ghost predicate Complete(w: World, db: Db, gaps: seq<Gap>, c: string)
    requires c in db.contracts
  {
    forall k | 0 <= k < |w.events| && w.events[k].contract == c && w.events[k].decoded.Some? ::
      w.events[k].ledger <= db.contracts[c].last ==>
        (Stored(db.events, w.events[k].decoded.value) <==> !InGap(gaps, w.events[k].ledger))
  }

  /** Gaps lie below the progress, and a retention gap holds only ledgers RPC no longer serves. */
  ghost predicate GapsExplained(w: World, gaps: seq<Gap>, last: int) {
    forall i | 0 <= i < |gaps| ::
      && gaps[i].lo <= gaps[i].hi < last
      && (gaps[i].cause.RetentionSkip? ==> gaps[i].hi < w.oldest)
  }

  ghost predicate TickOk(w: World, db: Db, c: string, t: Tick) {
    && 1 <= t.start <= MAX_INT32 + 1
    && t.start <= t.from
    && (t.start < t.from ==> t.from <= w.oldest)
    && (c in db.contracts ==> db.contracts[c].last < t.start)
    && (!t.stale ==> c in db.contracts && db.contracts[c].last == t.start - 1)
    && match t.phase
       case Paging(d) => Draining(w, c, t.from, d)
       case Rejected => t.from == t.start
       case Ready(batch, highest, end) => batch != [] && Drained(w, c, t.from, batch, highest, end)
  }

  ghost predicate Inv(s: Sys) {
    && ValidWorld(s.world)
    && s.gaps.Keys == s.db.contracts.Keys
    && Faithful(s.world, s.db)
    && TableOrder(s.db.events)
    && Progress(s.world, s.db)
    && (forall c | c in s.db.contracts :: Complete(s.world, s.db, s.gaps[c], c))
    && (forall c | c in s.db.contracts :: GapsExplained(s.world, s.gaps[c], s.db.contracts[c].last))
    && (forall c | c in s.ticks :: TickOk(s.world, s.db, c, s.ticks[c]))
  }

  ghost predicate Init(s: Sys) {
    ValidWorld(s.world) && s.db == Db(map[], []) && s.ticks == map[] && s.gaps == map[]
  }

  lemma InitEstablishes(s: Sys)
    requires Init(s)
    ensures Inv(s)
  {
  }

  // ---- The chain grows ----

  lemma GrowKeepsComplete(s: Sys, w: World, c: string)
    requires Inv(s) && Grows(s.world, w) && c in s.db.contracts
    ensures Complete(w, s.db, s.gaps[c], c)
  {
    forall k | 0 <= k < |w.events| && w.events[k].contract == c && w.events[k].decoded.Some? &&
               w.events[k].ledger <= s.db.contracts[c].last
      ensures Stored(s.db.events, w.events[k].decoded.value) <==> !InGap(s.gaps[c], w.events[k].ledger)
    {
      assert k < |s.world.events|;
      assert w.events[k] == s.world.events[k];
    }
  }

  lemma GrowKeepsTick(s: Sys, w: World, c: string)
    requires Inv(s) && Grows(s.world, w) && c in s.ticks
    ensures TickOk(w, s.db, c, s.ticks[c])
  {
    var t := s.ticks[c];
    match t.phase {
      case Paging(d) => DrainingStable(s.world, w, c, t.from, d);
      case Rejected =>
      case Ready(batch, highest, end) => DrainedStable(s.world, w, c, t.from, batch, highest, end);
    }
  }

  lemma GrowKeeps(s: Sys, w: World)
    requires Inv(s) && Grows(s.world, w)
    ensures Inv(Apply(s, Grow(w)))
  {
    forall i | 0 <= i < |s.db.events|
      ensures OnChain(w, s.db.events[i].event)
    {
      var k :| 0 <= k < |s.world.events| && s.world.events[k].decoded == Some(s.db.events[i].event);
      assert w.events[k] == s.world.events[k];
    }
    forall c | c in s.db.contracts
      ensures Complete(w, s.db, s.gaps[c], c)
    {
      GrowKeepsComplete(s, w, c);
    }
    forall c | c in s.ticks
      ensures TickOk(w, s.db, c, s.ticks[c])
    {
      GrowKeepsTick(s, w, c);
    }
  }

  // ---- Contracts come and go ----

  lemma RegisterKeeps(s: Sys, c: string)
    requires Inv(s)
    ensures Inv(Apply(s, Register(c)))
  {
    hide Complete, TableOrder, Faithful, TickOk, Ordered, WellFormed;
    var s' := AfterRegister(s, c);
    if c != "" && c !in s.db.contracts {
      NewIsComplete(s.world, s'.db, c);
      NewIsFaithful(s.world, s.db, s'.db);
      forall b | b in s.ticks
        ensures TickOk(s'.world, s'.db, b, s'.ticks[b])
      {
        NewIsBelowTick(s.world, s.db, s'.db, c, b, s.ticks[b]);
      }
      forall b | b in s.db.contracts
        ensures Complete(s'.world, s'.db, s'.gaps[b], b)
      {
        CompleteAlike(s.world, s.db, s'.db, s.gaps[b], b);
      }
    }
  }

  /** A contract without progress claims nothing. */
  lemma NewIsComplete(w: World, db: Db, c: string)
    requires ValidWorld(w) && c in db.contracts && db.contracts[c].last == 0
    ensures Complete(w, db, [], c)
  {
    forall k | 0 <= k < |w.events|
      ensures w.events[k].ledger > 0
    {
      assert WellFormed(w.events[k]);
    }
  }

  lemma NewIsFaithful(w: World, db: Db, db': Db)
    requires Faithful(w, db) && db'.events == db.events
    requires forall b | b in db.contracts :: b in db'.contracts && db'.contracts[b] == db.contracts[b]
    ensures Faithful(w, db')
  {
    hide OnChain;
  }

  lemma NewIsBelowTick(w: World, db: Db, db': Db, c: string, b: string, t: Tick)
    requires TickOk(w, db, b, t) && c !in db.contracts && db'.contracts == db.contracts[c := Contract(None, 0)]
    ensures TickOk(w, db', b, t)
  {
    hide Draining, Drained;
  }

  lemma CompleteAlike(w: World, db: Db, db': Db, gaps: seq<Gap>, c: string)
    requires c in db.contracts && Complete(w, db, gaps, c)
    requires c in db'.contracts && db'.contracts[c] == db.contracts[c] && db'.events == db.events
    ensures Complete(w, db', gaps, c)
  {
    hide Stored, InGap;
  }

  lemma {:induction false} WithoutKeepsOrder(rows: seq<Row>, c: string)
    requires TableOrder(rows)
    ensures TableOrder(Without(rows, c))
  {
    if rows != [] {
      var init := rows[..|rows| - 1];
      WithoutKeepsOrder(init, c);
      WithoutMembers(init, c);
      var kept := Without(init, c);
      forall i | 0 <= i < |kept|
        ensures InOrder(kept[i], rows[|rows| - 1])
      {
        assert kept[i] in kept;
        var k :| 0 <= k < |init| && init[k] == kept[i];
        assert rows[k] == kept[i];
      }
    }
  }

  lemma DeleteKeepsFaithful(s: Sys, c: string)
    requires Inv(s) && c in s.db.contracts
    ensures Faithful(s.world, Db(s.db.contracts - {c}, Without(s.db.events, c)))
  {
    WithoutMembers(s.db.events, c);
    var rows := Without(s.db.events, c);
    forall i | 0 <= i < |rows|
      ensures rows[i] in s.db.events && rows[i].event.contract != c
    {
      assert rows[i] in rows;
    }
  }

  lemma StoredInWithout(rows: seq<Row>, c: string, e: Event)
    ensures Stored(Without(rows, c), e) <==> Stored(rows, e) && e.contract != c
  {
    WithoutMembers(rows, c);
    if i :| 0 <= i < |rows| && rows[i].event == e && e.contract != c {
      assert rows[i] in Without(rows, c);
    }
    if i :| 0 <= i < |Without(rows, c)| && Without(rows, c)[i].event == e {
      assert Without(rows, c)[i] in rows;
    }
  }

  lemma DeleteKeepsComplete(s: Sys, c: string, b: string)
    requires Inv(s) && c in s.db.contracts && b in s.db.contracts && b != c
    ensures Complete(s.world, Db(s.db.contracts - {c}, Without(s.db.events, c)), s.gaps[b], b)
  {
    WithoutMembers(s.db.events, c);
    forall k | 0 <= k < |s.world.events| && s.world.events[k].contract == b && s.world.events[k].decoded.Some?
      ensures Stored(Without(s.db.events, c), s.world.events[k].decoded.value) <==>
              Stored(s.db.events, s.world.events[k].decoded.value)
    {
      assert WellFormed(s.world.events[k]);
      StoredInWithout(s.db.events, c, s.world.events[k].decoded.value);
    }
  }

  lemma DeleteKeeps(s: Sys, c: string)
    requires Inv(s)
    ensures Inv(Apply(s, Delete(c)))
  {
    hide Without, Complete, Faithful, TableOrder, GapsExplained, Draining, Drained, ValidWorld;
    if c in s.db.contracts {
      WithoutKeepsOrder(s.db.events, c);
      DeleteKeepsFaithful(s, c);
      forall b | b in s.db.contracts && b != c
        ensures Complete(s.world, Db(s.db.contracts - {c}, Without(s.db.events, c)), s.gaps[b], b)
      {
        DeleteKeepsComplete(s, c, b);
      }
    }
  }

  // ---- Ticks in flight ----

  lemma TickStepKeeps(s: Sys, c: string, t: Option<Tick>)
    requires Inv(s) && (t.Some? ==> TickOk(s.world, s.db, c, t.value))
    ensures Inv(WithTick(s, c, t))
  {
  }

  lemma StartLedgerExact(last: int)
    requires 0 <= last <= MAX_INT32
    ensures StartLedger(last) == last + 1
  {
  }

  lemma BeginTickKeeps(s: Sys, c: string)
    requires Inv(s) && Enabled(s, BeginTick(c))
    ensures Inv(Apply(s, BeginTick(c)))
  {
    var last := s.db.contracts[c].last;
    StartLedgerExact(last);
    TickStepKeeps(s, c, Some(Tick(last + 1, last + 1, Paging(Begin(last + 1)), false)));
  }

  lemma FetchKeeps(s: Sys, c: string, limit: nat, scanned: int)
    requires Inv(s) && Enabled(s, Fetch(c, limit, scanned))
    ensures Inv(Apply(s, Fetch(c, limit, scanned)))
  {
    var t := s.ticks[c];
    AbsorbKeepsExact(s.world, c, t.from, t.phase.d, limit, scanned);
    TickStepKeeps(s, c, AfterFetch(s.world, c, t, limit, scanned));
  }

  lemma HealthKeeps(s: Sys, c: string)
    requires Inv(s) && Enabled(s, Health(c))
    ensures Inv(Apply(s, Health(c)))
  {
    TickStepKeeps(s, c, AfterHealth(s.world, s.ticks[c]));
  }

  lemma RejectKeeps(s: Sys, c: string)
    requires Inv(s) && Enabled(s, Reject(c))
    ensures Inv(Apply(s, Reject(c)))
  {
    var t := s.ticks[c];
    TickStepKeeps(s, c, if t.from == t.start then Some(t.(phase := Rejected)) else None);
  }

  // ---- What a finished drain holds ----

  ghost predicate EventsInOrder(batch: seq<Event>) {
    forall i, j | 0 <= i < j < |batch| :: Before(batch[i].ledger, batch[i].index, batch[j].ledger, batch[j].index)
  }

  lemma {:induction false} MineOrdered(es: seq<ChainEvent>, c: string)
    requires Ordered(es)
    ensures Ordered(Mine(es, c))
  {
    if es != [] {
      var init := es[..|es| - 1];
      MineOrdered(init, c);
      MineMembers(init, c);
      forall i | 0 <= i < |Mine(init, c)|
        ensures Before(Mine(init, c)[i].ledger, Mine(init, c)[i].index, es[|es| - 1].ledger, es[|es| - 1].index)
      {
        assert Mine(init, c)[i] in init;
      }
    }
  }

  lemma {:induction false} ReadableOrdered(es: seq<ChainEvent>)
    requires Ordered(es) && forall i | 0 <= i < |es| :: WellFormed(es[i])
    ensures EventsInOrder(Readable(es))
  {
    if es != [] {
      var init := es[..|es| - 1];
      ReadableOrdered(init);
      ReadableMembers(init);
      forall i | 0 <= i < |Readable(init)|
        ensures Before(Readable(init)[i].ledger, Readable(init)[i].index, es[|es| - 1].ledger, es[|es| - 1].index)
      {
        assert Readable(init)[i] in Readable(init);
        var k :| 0 <= k < |init| && init[k].decoded == Some(Readable(init)[i]);
        assert WellFormed(es[k]);
      }
    }
  }

  lemma SliceInOrder(w: World, c: string, from: int, end: nat)
    requires ValidWorld(w) && CountBelow(w.events, from) <= end <= |w.events|
    ensures EventsInOrder(Slice(w.events, c, from, end))
  {
    var part := w.events[CountBelow(w.events, from)..end];
    MineOrdered(part, c);
    MineMembers(part, c);
    forall i | 0 <= i < |Mine(part, c)|
      ensures WellFormed(Mine(part, c)[i])
    {
      assert Mine(part, c)[i] in part;
    }
    ReadableOrdered(Mine(part, c));
  }

  lemma SliceMember(w: World, c: string, from: int, end: nat, k: nat)
    requires CountBelow(w.events, from) <= k < end <= |w.events|
    requires w.events[k].contract == c && w.events[k].decoded.Some?
    ensures w.events[k].decoded.value in Slice(w.events, c, from, end)
  {
    var n := CountBelow(w.events, from);
    var part := w.events[n..end];
    MineMembers(part, c);
    ReadableMembers(Mine(part, c));
    assert part[k - n] == w.events[k];
    assert w.events[k] in Mine(part, c);
  }

  lemma SliceOrigin(w: World, c: string, from: int, end: nat, e: Event) returns (k: nat)
    requires CountBelow(w.events, from) <= end <= |w.events| && e in Slice(w.events, c, from, end)
    ensures CountBelow(w.events, from) <= k < end && w.events[k].decoded == Some(e)
  {
    hide Mine, Readable, CountBelow;
    var n := CountBelow(w.events, from);
    var part := w.events[n..end];
    MineMembers(part, c);
    ReadableMembers(Mine(part, c));
    var i :| 0 <= i < |Mine(part, c)| && Mine(part, c)[i].decoded == Some(e);
    assert Mine(part, c)[i] in part;
    var j :| 0 <= j < |part| && part[j] == Mine(part, c)[i];
    k := n + j;
  }

  /** What the poller knows of a batch it is about to commit. */
  ghost predicate BatchOk(w: World, c: string, from: int, batch: seq<Event>, highest: int) {
    && EventsInOrder(batch)
    && (forall i | 0 <= i < |batch| ::
          OnChain(w, batch[i]) && batch[i].contract == c && from <= batch[i].ledger <= highest)
    && from <= highest <= w.latest
    && (forall k | 0 <= k < |w.events| && w.events[k].contract == c && w.events[k].decoded.Some? &&
                   from <= w.events[k].ledger <= highest :: w.events[k].decoded.value in batch)
  }

  lemma DrainedBatchOk(w: World, c: string, from: int, batch: seq<Event>, highest: int, end: nat)
    requires ValidWorld(w) && 1 <= from && batch != [] && Drained(w, c, from, batch, highest, end)
    ensures BatchOk(w, c, from, batch, highest)
  {
    SliceInOrder(w, c, from, end);
    SliceIsOwn(w, c, from, end);
    MaxLedgerBounds(batch);
    forall i | 0 <= i < |batch|
      ensures OnChain(w, batch[i]) && batch[i].contract == c && from <= batch[i].ledger <= highest
    {
      assert batch[i] in batch;
      var k := SliceOrigin(w, c, from, end, batch[i]);
    }
    DrainedCovers(w, c, from, batch, highest, end);
  }

  lemma DrainedCovers(w: World, c: string, from: int, batch: seq<Event>, highest: int, end: nat)
    requires ValidWorld(w) && 1 <= from && batch != [] && Drained(w, c, from, batch, highest, end)
    requires forall i | 0 <= i < |batch| :: from <= batch[i].ledger
    ensures forall k | 0 <= k < |w.events| && w.events[k].contract == c && w.events[k].decoded.Some? &&
                       from <= w.events[k].ledger <= highest :: w.events[k].decoded.value in batch
  {
    MaxLedgerBounds(batch);
    var top :| 0 <= top < |batch| && batch[top].ledger == highest;
    assert batch[top] in batch;
    var m := SliceOrigin(w, c, from, end, batch[top]);
    assert WellFormed(w.events[m]);
    CountBelowSplits(w.events, from);
    forall k | 0 <= k < |w.events| && w.events[k].contract == c && w.events[k].decoded.Some? &&
               from <= w.events[k].ledger <= highest
      ensures w.events[k].decoded.value in batch
    {
      SliceMember(w, c, from, end, k);
    }
  }

  // ---- A commit ----

  /** Two chain events with one key are one event, so a batch above the progress meets no stored row. */
  lemma BatchMeetsNoRow(w: World, db: Db, c: string, from: int, batch: seq<Event>, highest: int)
    requires ValidWorld(w) && Faithful(w, db) && BatchOk(w, c, from, batch, highest)
    requires c in db.contracts && db.contracts[c].last < from
    ensures forall i | 0 <= i < |batch| :: !Conflicts(db.events, batch[i])
  {
    forall i, j | 0 <= i < |batch| && 0 <= j < |db.events|
      ensures db.events[j].event.ledger != batch[i].ledger || db.events[j].event.index != batch[i].index
    {
      var e, r := batch[i], db.events[j].event;
      assert OnChain(w, r) && OnChain(w, e);
      var k :| 0 <= k < |w.events| && w.events[k].decoded == Some(e);
      var m :| 0 <= m < |w.events| && w.events[m].decoded == Some(r);
      assert WellFormed(w.events[k]) && WellFormed(w.events[m]);
    }
  }

  lemma CommitRows(w: World, db: Db, c: string, from: int, batch: seq<Event>, highest: int, ids: seq<int>)
    requires ValidWorld(w) && Faithful(w, db) && BatchOk(w, c, from, batch, highest)
    requires c in db.contracts && db.contracts[c].last < from && |batch| <= |ids|
    ensures InsertAll(db.events, batch, ids) == db.events + Stamp(batch, ids)
  {
    BatchMeetsNoRow(w, db, c, from, batch, highest);
    InsertFreshBatch(db.events, batch, ids);
  }

  lemma CommitKeepsOrder(w: World, db: Db, c: string, from: int, batch: seq<Event>, highest: int, ids: seq<int>)
    requires ValidWorld(w) && Faithful(w, db) && TableOrder(db.events) && BatchOk(w, c, from, batch, highest)
    requires c in db.contracts && db.contracts[c].last < from && FreshIds(db.events, batch, ids)
    ensures TableOrder(db.events + Stamp(batch, ids))
  {
    BatchMeetsNoRow(w, db, c, from, batch, highest);
    var rows, new_ := db.events, Stamp(batch, ids);
    forall i, j | 0 <= i < |rows| && 0 <= j < |new_|
      ensures InOrder(rows[i], new_[j])
    {
      assert !Conflicts(rows, batch[j]);
      assert batch[j].contract == c;
    }
    forall i, j | 0 <= i < j < |new_|
      ensures InOrder(new_[i], new_[j])
    {
    }
  }

  lemma CommitKeepsComplete(w: World, db: Db, db': Db, gaps: seq<Gap>, c: string, t: Tick, batch: seq<Event>,
                            highest: int, ids: seq<int>)
    requires ValidWorld(w) && c in db.contracts && Complete(w, db, gaps, c) && BatchOk(w, c, t.from, batch, highest)
    requires Faithful(w, db) && GapsExplained(w, gaps, db.contracts[c].last) && db.contracts[c].last < t.start <= t.from
    requires |batch| <= |ids| && db'.events == db.events + Stamp(batch, ids)
    requires c in db'.contracts && db'.contracts[c].last == highest
    ensures Complete(w, db', gaps + Skipped(db.contracts[c].last, t.start, t.from), c)
  {
    var last := db.contracts[c].last;
    var more := Skipped(last, t.start, t.from);
    forall k | 0 <= k < |w.events| && w.events[k].contract == c && w.events[k].decoded.Some?
        && w.events[k].ledger <= highest
      ensures Stored(db'.events, w.events[k].decoded.value) <==> !InGap(gaps + more, w.events[k].ledger)
    {
      assert WellFormed(w.events[k]);
      var e := w.events[k].decoded.value;
      StoredConcat(db.events, batch, ids, e);
      GapsConcat(gaps, more, e.ledger);
      SkippedHolds(last, t.start, t.from, e.ledger);
      assert InGap(gaps, e.ledger) ==> e.ledger < last;
      assert Stored(db.events, e) ==> e.ledger <= last;
      assert e in batch <==> t.from <= e.ledger;
    }
  }

  lemma StoredConcat(rows: seq<Row>, batch: seq<Event>, ids: seq<int>, e: Event)
    requires |batch| <= |ids|
    ensures Stored(rows + Stamp(batch, ids), e) <==> Stored(rows, e) || e in batch
  {
    var all := rows + Stamp(batch, ids);
    if i :| 0 <= i < |rows| && rows[i].event == e {
      assert all[i].event == e;
    }
    if i :| 0 <= i < |batch| && batch[i] == e {
      assert all[|rows| + i].event == e;
    }
    if i :| 0 <= i < |all| && all[i].event == e {
      assert i < |rows| ==> rows[i].event == e;
      assert i >= |rows| ==> batch[i - |rows|] == e;
    }
  }

  lemma GapsConcat(gaps: seq<Gap>, more: seq<Gap>, ledger: int)
    ensures InGap(gaps + more, ledger) <==> InGap(gaps, ledger) || InGap(more, ledger)
  {
    var all := gaps + more;
    if i :| 0 <= i < |gaps| && gaps[i].lo <= ledger <= gaps[i].hi {
      assert all[i] == gaps[i];
    }
    if i :| 0 <= i < |more| && more[i].lo <= ledger <= more[i].hi {
      assert all[|gaps| + i] == more[i];
    }
    if i :| 0 <= i < |all| && all[i].lo <= ledger <= all[i].hi {
      assert i < |gaps| ==> all[i] == gaps[i];
      assert i >= |gaps| ==> all[i] == more[i - |gaps|];
    }
  }

  lemma SkippedHolds(last: int, start: int, from: int, ledger: int)
    requires last < start <= from
    ensures InGap(Skipped(last, start, from), ledger) <==> last < ledger < from
  {
    var gaps := Skipped(last, start, from);
    if last < ledger < start {
      assert gaps[0].lo <= ledger <= gaps[0].hi;
    } else if start <= ledger < from {
      assert gaps[|gaps| - 1].lo <= ledger <= gaps[|gaps| - 1].hi;
    }
  }

  lemma CommitKeepsFaithful(w: World, db: Db, db': Db, c: string, from: int, batch: seq<Event>, highest: int,
                            ids: seq<int>)
    requires Faithful(w, db) && BatchOk(w, c, from, batch, highest) && |batch| <= |ids|
    requires c in db.contracts && db.contracts[c].last < from
    requires db'.events == db.events + Stamp(batch, ids)
    requires c in db'.contracts && db'.contracts[c].last == highest
    requires forall b | b in db.contracts && b != c :: b in db'.contracts && db'.contracts[b] == db.contracts[b]
    ensures Faithful(w, db')
  {
    forall i | 0 <= i < |db'.events|
      ensures var e := db'.events[i].event;
              OnChain(w, e) && e.contract in db'.contracts && e.ledger <= db'.contracts[e.contract].last
    {
      if i >= |db.events| {
        assert db'.events[i].event == batch[i - |db.events|];
      }
    }
  }

  function Advanced(row: Contract, highest: int): Contract {
    Contract(if row.first.None? then Some(highest) else row.first, highest)
  }

  lemma EnoughIds(s: Sys, c: string, ids: seq<int>)
    requires Enabled(s, Commit(c, ids))
    ensures |s.ticks[c].phase.batch| <= |ids|
  {
  }

  /** What a commit that goes through does to the whole state. */
  lemma CommitEffect(s: Sys, c: string, ids: seq<int>)
    requires Inv(s) && Enabled(s, Commit(c, ids))
    ensures var t := s.ticks[c];
            var s' := Apply(s, Commit(c, ids));
            if c in s.db.contracts && |t.phase.batch| <= MAX_PAGE_SIZE then
              var last := s.db.contracts[c].last;
              && BatchOk(s.world, c, t.from, t.phase.batch, t.phase.highest)
              && s'.world == s.world
              && s'.db.events == s.db.events + Stamp(t.phase.batch, ids)
              && s'.db.contracts == s.db.contracts[c := Advanced(s.db.contracts[c], t.phase.highest)]
              && s'.gaps == s.gaps[c := s.gaps[c] + Skipped(last, t.start, t.from)]
              && s'.ticks == s.ticks - {c}
            else s' == WithTick(s, c, None)
  {
    hide Complete, Faithful, TableOrder, GapsExplained, Progress, ValidWorld, Drained, Committed, BatchOk, Skipped,
        Stamp, FreshIds;
    var t := s.ticks[c];
    EnoughIds(s, c, ids);
    ReadyIsDrained(s, c);
    DrainedBatchOk(s.world, c, t.from, t.phase.batch, t.phase.highest, t.phase.end);
    OwnBatch(s.world, c, t.from, t.phase.batch, t.phase.end);
    if c in s.db.contracts {
      CommittedExactly(s.world, s.db, c, t.from, t.phase.batch, t.phase.highest, ids);
    } else {
      NoForeignBatch(s.db, c, t.phase.batch, t.phase.highest, ids);
    }
    hide Inv, Enabled;
  }

  lemma ReadyIsDrained(s: Sys, c: string)
    requires Inv(s) && c in s.ticks && s.ticks[c].phase.Ready?
    ensures ValidWorld(s.world) && Faithful(s.world, s.db)
    ensures var t := s.ticks[c];
            var batch, end := t.phase.batch, t.phase.end;
            && batch != [] && 1 <= t.from && Drained(s.world, c, t.from, batch, t.phase.highest, end)
            && CountBelow(s.world.events, t.from) <= end <= |s.world.events|
            && batch == Slice(s.world.events, c, t.from, end)
            && (c in s.db.contracts ==> s.db.contracts[c].last < t.from)
  {
    hide Complete, TableOrder, GapsExplained, Progress;
  }

  lemma CommittedExactly(w: World, db: Db, c: string, from: int, batch: seq<Event>, highest: int, ids: seq<int>)
    requires ValidWorld(w) && Faithful(w, db) && BatchOk(w, c, from, batch, highest)
    requires c in db.contracts && db.contracts[c].last < from && |batch| <= |ids|
    requires c != "" && forall i | 0 <= i < |batch| :: batch[i].contract == c
    ensures Committed(db, c, batch, highest, ids) ==
            if |batch| > MAX_PAGE_SIZE then Err(BatchTooLarge)
            else Ok(Db(db.contracts[c := Advanced(db.contracts[c], highest)], db.events + Stamp(batch, ids)))
  {
    hide Faithful, BatchOk, ValidWorld, Committed, InsertAll;
    OwnBatchInserts(db, c, batch, highest, ids);
    CommitRows(w, db, c, from, batch, highest, ids);
  }

  lemma OwnBatch(w: World, c: string, from: int, batch: seq<Event>, end: nat)
    requires ValidWorld(w) && CountBelow(w.events, from) <= end <= |w.events| && batch == Slice(w.events, c, from, end)
    ensures batch != [] ==> c != ""
    ensures forall i | 0 <= i < |batch| :: batch[i].contract == c
  {
    SliceIsOwn(w, c, from, end);
    assert forall i | 0 <= i < |batch| :: batch[i] in batch;
    assert batch != [] ==> batch[0].contract == c;
  }

  /** Once a contract is deleted nothing of it can be committed. */
  lemma NoForeignBatch(db: Db, c: string, batch: seq<Event>, highest: int, ids: seq<int>)
    requires c !in db.contracts && |batch| <= |ids|
    ensures Committed(db, c, batch, highest, ids).Err?
  {
  }

  lemma SkippedExplained(w: World, gaps: seq<Gap>, last: int, start: int, from: int, highest: int)
    requires GapsExplained(w, gaps, last) && (start < from ==> from <= w.oldest) && last < start <= from <= highest
    ensures GapsExplained(w, gaps + Skipped(last, start, from), highest)
  {
  }

  lemma CommitKeepsProgress(w: World, db: Db, db': Db, c: string, from: int, batch: seq<Event>, highest: int)
    requires Progress(w, db) && BatchOk(w, c, from, batch, highest) && c in db.contracts && db.contracts[c].last < from
    requires db'.contracts == db.contracts[c := Advanced(db.contracts[c], highest)]
    ensures Progress(w, db')
  {
  }

  lemma CommitKeepsOthers(w: World, db: Db, db': Db, gaps: seq<Gap>, b: string, c: string, from: int,
                          batch: seq<Event>, highest: int, ids: seq<int>)
    requires ValidWorld(w) && BatchOk(w, c, from, batch, highest) && |batch| <= |ids| && b != c
    requires b in db.contracts && b in db'.contracts && db'.contracts[b] == db.contracts[b]
    requires db'.events == db.events + Stamp(batch, ids) && Complete(w, db, gaps, b)
    ensures Complete(w, db', gaps, b)
  {
    forall k | 0 <= k < |w.events| && w.events[k].contract == b && w.events[k].decoded.Some?
      ensures Stored(db'.events, w.events[k].decoded.value) <==> Stored(db.events, w.events[k].decoded.value)
    {
      assert WellFormed(w.events[k]);
      StoredConcat(db.events, batch, ids, w.events[k].decoded.value);
    }
  }

  lemma BatchSpan(w: World, c: string, from: int, batch: seq<Event>, highest: int)
    requires BatchOk(w, c, from, batch, highest)
    ensures from <= highest <= w.latest
  {
  }

  lemma CommitKeeps(s: Sys, c: string, ids: seq<int>)
    requires Inv(s) && Enabled(s, Commit(c, ids))
    ensures Inv(Apply(s, Commit(c, ids)))
  {
    hide Complete, Faithful, TableOrder, GapsExplained, Draining, Drained, ValidWorld, BatchOk, Progress, Skipped,
        AfterCommit, FreshIds;
    var t := s.ticks[c];
    EnoughIds(s, c, ids);
    CommitEffect(s, c, ids);
    var s' := Apply(s, Commit(c, ids));
    if c in s.db.contracts && |t.phase.batch| <= MAX_PAGE_SIZE {
      var batch, highest := t.phase.batch, t.phase.highest;
      var last := s.db.contracts[c].last;
      CommitKeepsFaithful(s.world, s.db, s'.db, c, t.from, batch, highest, ids);
      CommitKeepsOrder(s.world, s.db, c, t.from, batch, highest, ids);
      CommitKeepsProgress(s.world, s.db, s'.db, c, t.from, batch, highest);
      CommitKeepsComplete(s.world, s.db, s'.db, s.gaps[c], c, t, batch, highest, ids);
      BatchSpan(s.world, c, t.from, batch, highest);
      SkippedExplained(s.world, s.gaps[c], last, t.start, t.from, highest);
      forall b | b in s.db.contracts && b != c
        ensures Complete(s.world, s'.db, s.gaps[b], b)
      {
        CommitKeepsOthers(s.world, s.db, s'.db, s.gaps[b], b, c, t.from, batch, highest, ids);
      }
    } else {
      TickStepKeeps(s, c, None);
    }
  }

  // ---- Whole runs ----

  lemma StepKeeps(s: Sys, step: Step)
    requires Inv(s) && Enabled(s, step)
    ensures Inv(Apply(s, step))
  {
    match step {
      case Grow(w) => GrowKeeps(s, w);
      case Register(c) => RegisterKeeps(s, c);
      case Delete(c) => DeleteKeeps(s, c);
      case BeginTick(c) => BeginTickKeeps(s, c);
      case Fetch(c, limit, scanned) => FetchKeeps(s, c, limit, scanned);
      case Reject(c) => RejectKeeps(s, c);
      case Health(c) => HealthKeeps(s, c);
      case Commit(c, ids) => CommitKeeps(s, c, ids);
      case Abort(c) => TickStepKeeps(s, c, None);
    }
  }

  /** A run is a first state and the steps taken from it, each enabled when taken. */
  ghost predicate Possible(s: Sys, steps: seq<Step>)
    decreases |steps|
  {
    steps != [] ==> Enabled(s, steps[0]) && Possible(Apply(s, steps[0]), steps[1..])
  }

  ghost function Run(s: Sys, steps: seq<Step>): Sys
    requires Possible(s, steps)
    decreases |steps|
  {
    if steps == [] then s else Run(Apply(s, steps[0]), steps[1..])
  }

  lemma {:induction false} RunKeeps(s: Sys, steps: seq<Step>)
    requires Inv(s) && Possible(s, steps)
    ensures Inv(Run(s, steps))
    decreases |steps|
  {
    if steps != [] {
      StepKeeps(s, steps[0]);
      RunKeeps(Apply(s, steps[0]), steps[1..]);
    }
  }
}
