/** Runs the code can take that lose an event or break emission order, step by step. */
module Witnesses {
  import opened Wrappers
  import opened Chain
  import opened Store
  import opened Polling
  import opened Protocol
  import Ingest

  const C := "c"
  const LIMIT: nat := 10

  function EventAt(l: int): Event {
    Event(C, l, "", 0, "", None, "", [], "", "", true)
  }

  function On(l: int): ChainEvent {
    ChainEvent(C, l, 0, Some(EventAt(l)))
  }

  /** A chain whose tip ledger holds its one unread event. */
  ghost predicate OneUnread(w: World, from: int, l: int) {
    && ValidWorld(w) && w.events != [] && w.events[|w.events| - 1] == On(l)
    && (forall i | 0 <= i < |w.events| - 1 :: w.events[i].ledger < from)
    && w.oldest <= from <= l == w.latest
  }

  lemma CountsUnread(w: World, from: int, l: int)
    requires OneUnread(w, from, l)
    ensures CountBelow(w.events, from) == |w.events| - 1 && CountBelow(w.events, l + 1) == |w.events|
  {
    var n := |w.events| - 1;
    CountBelowSplits(w.events, from);
    CountBelowSplits(w.events, l + 1);
    assert CountBelow(w.events, from) <= n ==> from <= w.events[CountBelow(w.events, from)].ledger;
  }

  lemma {:induction false} MineOne(l: int)
    ensures Mine([On(l)], C) == [On(l)] && Mine([], C) == [] && Readable([On(l)]) == [EventAt(l)]
    ensures 0 < l ==> MaxLedger([EventAt(l)]) == l
  {
    assert [On(l)][..0] == [] && [EventAt(l)][..0] == [];
  }

  /** One short page serves that event, and the drain is over. */
  lemma {:induction false} ServesUnread(w: World, from: int, l: int)
    requires OneUnread(w, from, l) && 0 < l
    ensures var page := Serve(w, C, FromLedger(from), LIMIT, l);
            page.events == [On(l)] && page.cursor == Some(|w.events|)
    ensures Drained(w, C, from, [EventAt(l)], l, |w.events|)
  {
    var n := |w.events| - 1;
    CountsUnread(w, from, l);
    MineOne(l);
    hide Serve, CountBelow, Mine, Readable, MaxLedger;
    var page := Serve(w, C, FromLedger(from), LIMIT, l);
    var next := page.cursor.value;
    assert w.events[n..n] == [] && w.events[n..n + 1] == [On(l)];
    assert n <= next <= n + 1;
    assert next == n ==> page.events == [];
  }

  /** So a drain from there is that one page. */
  lemma {:induction false} PagesUnread(moments: seq<Moment>, at: nat, from: int, l: int)
    requires at < |moments| && OneUnread(moments[at].world, from, l) && 0 < l && moments[at].scanned == l
    ensures PagedOut(moments, at, at, C, from, LIMIT, [EventAt(l)], l, |moments[at].world.events|)
  {
    var m := moments[at];
    ServesUnread(m.world, from, l);
    MineOne(l);
    hide Serve, Readable, MaxLedger, Drained;
    var page := Serve(m.world, C, FromLedger(from), LIMIT, l);
    assert [] + Readable(page.events) == [EventAt(l)];
    assert Absorb(Begin(from), page) == DrainState(AfterCursor(|m.world.events|), [EventAt(l)], l);
    assert Pages(moments, at, 0, C, from, LIMIT, Begin(from));
    assert Ended(m, C, LIMIT, Begin(from), [EventAt(l)], l, |m.world.events|);
  }

  // ---- A contract deleted and registered again under a tick ----

  ghost predicate Leads(s: Sys, step: Step, s1: Sys) {
    Enabled(s, step) && Apply(s, step) == s1
  }

  /** Steps that lead from state to state make a run. */
  lemma {:induction false} PathIsRun(states: seq<Sys>, steps: seq<Step>)
    requires |states| == |steps| + 1
    requires forall i | 0 <= i < |steps| :: Leads(states[i], steps[i], states[i + 1])
    ensures Possible(states[0], steps) && Run(states[0], steps) == states[|steps|]
    decreases |steps|
  {
    hide Enabled, Apply;
    if steps != [] {
      forall i | 0 <= i < |steps| - 1
        ensures Leads(states[1..][i], steps[1..][i], states[1..][i + 1])
      {
        assert Leads(states[i + 1], steps[i + 1], states[i + 2]);
      }
      PathIsRun(states[1..], steps[1..]);
      assert Leads(states[0], steps[0], states[1]);
    }
  }

  function ReadyTick(l: int, n: nat, stale: bool): Tick {
    Tick(l, l, Ready([EventAt(l)], l, n), stale)
  }

  function PagingTick(l: int): Tick {
    Tick(l, l, Phase.Paging(Begin(l)), false)
  }

  /** The last ledger read is l - 1 and the chain's tip is l: a tick reads exactly the tip. */
  lemma {:induction false} TickReads(s: Sys, l: int)
    requires 0 < l < MAX_INT32 && OneUnread(s.world, l, l)
    requires C in s.db.contracts && s.db.contracts[C].last == l - 1 && s.ticks == map[]
    ensures var begun, read := s.(ticks := map[C := PagingTick(l)]),
              s.(ticks := map[C := ReadyTick(l, |s.world.events|, false)]);
            Leads(s, BeginTick(C), begun) && Leads(begun, Fetch(C, LIMIT, l), read)
  {
    ServesUnread(s.world, l, l);
    MineOne(l);
    StartLedgerExact(l - 1);
    hide Serve, CountBelow, Mine, Readable, MaxLedger;
    var begun := s.(ticks := map[C := PagingTick(l)]);
    assert map[][C := PagingTick(l)] == map[C := PagingTick(l)];
    assert Apply(s, BeginTick(C)) == begun;
    var page := Serve(s.world, C, FromLedger(l), LIMIT, l);
    assert [] + Readable(page.events) == [EventAt(l)];
    assert Absorb(Begin(l), page) == DrainState(AfterCursor(|s.world.events|), [EventAt(l)], l);
    assert begun.ticks[C := ReadyTick(l, |s.world.events|, false)] == map[C := ReadyTick(l, |s.world.events|, false)];
  }

  const FIRST_WORLD := World([On(1)], 1, 1)
  const GROWN_WORLD := World([On(1), On(2)], 1, 2)

  /** Register, index ledger 1, and let the next tick read ledger 2; then delete and register
      the contract before that tick commits. */
  const STALE_RUN := [
    Register(C), BeginTick(C), Fetch(C, LIMIT, 1),
    Commit(C, [1]), Grow(GROWN_WORLD), BeginTick(C),
    Fetch(C, LIMIT, 2), Delete(C), Register(C),
    Commit(C, [7])]

  const NEW := map[C := Contract(None, 0)]
  const ONE_READ := map[C := Contract(Some(1), 1)]

  function Empty(): Sys {
    Sys(FIRST_WORLD, Db(map[], []), map[], map[])
  }

  function Tracked(): Sys {
    Sys(FIRST_WORLD, Db(NEW, []), map[], map[C := []])
  }

  function Indexed(): Sys {
    Sys(FIRST_WORLD, Db(ONE_READ, [Row(1, EventAt(1))]), map[], map[C := []])
  }

  function Grown(): Sys {
    Sys(GROWN_WORLD, Db(ONE_READ, [Row(1, EventAt(1))]), map[], map[C := []])
  }

  function Read(): Sys {
    Sys(GROWN_WORLD, Db(ONE_READ, [Row(1, EventAt(1))]), map[C := ReadyTick(2, 2, false)], map[C := []])
  }

  function Deleted(): Sys {
    Sys(GROWN_WORLD, Db(map[], []), map[C := ReadyTick(2, 2, true)], map[])
  }

  function Again(): Sys {
    Sys(GROWN_WORLD, Db(NEW, []), map[C := ReadyTick(2, 2, true)], map[C := []])
  }

  function Lost(): Sys {
    Sys(GROWN_WORLD, Db(map[C := Contract(Some(2), 2)], [Row(7, EventAt(2))]), map[],
        map[C := [Gap(1, 1, StaleCommit)]])
  }

  function FirstPaging(): Sys {
    Tracked().(ticks := map[C := PagingTick(1)])
  }

  function FirstReady(): Sys {
    Tracked().(ticks := map[C := ReadyTick(1, 1, false)])
  }

  function SecondPaging(): Sys {
    Grown().(ticks := map[C := PagingTick(2)])
  }

  lemma WorldsAreFine()
    ensures OneUnread(FIRST_WORLD, 1, 1) && OneUnread(GROWN_WORLD, 2, 2) && Grows(FIRST_WORLD, GROWN_WORLD)
  {
  }

  /** Committing one event of ledger l under one id. */
  lemma {:induction false} CommitsOne(s: Sys, l: int, n: nat, stale: bool, id: int, row: Contract)
    requires 0 < id && s.ticks == map[C := ReadyTick(l, n, stale)] && s.db == Db(map[C := row], [])
               && s.gaps == map[C := []]
    ensures Leads(s, Commit(C, [id]),
                  Sys(s.world, Db(map[C := Advanced(row, l)], [Row(id, EventAt(l))]), map[],
                      map[C := Skipped(row.last, l, l)]))
  {
    var batch := [EventAt(l)];
    InsertOne(l, id);
    assert Inserted(s.db, batch, [id]) == Ok(s.db.(events := [Row(id, EventAt(l))]));
    assert map[C := row][C := Advanced(row, l)] == map[C := Advanced(row, l)];
    assert s.ticks - {C} == map[];
    assert [] + Skipped(row.last, l, l) == Skipped(row.last, l, l);
    assert s.gaps[C := Skipped(row.last, l, l)] == map[C := Skipped(row.last, l, l)];
  }

  lemma {:induction false} InsertOne(l: int, id: int)
    ensures InsertAll([], [EventAt(l)], [id]) == [Row(id, EventAt(l))]
  {
    InsertFreshBatch([], [EventAt(l)], [id]);
    assert Stamp([EventAt(l)], [id]) == [Row(id, EventAt(l))];
  }

  lemma {:induction false} RegistersFirst()
    ensures Leads(Empty(), Register(C), Tracked())
  {
    assert map[][C := Contract(None, 0)] == NEW;
    var none: map<string, seq<Gap>> := map[];
    assert none[C := []] == map[C := []];
  }

  lemma {:induction false} ReadsFirst()
    ensures Leads(Empty(), Register(C), Tracked())
    ensures Leads(Tracked(), BeginTick(C), FirstPaging())
    ensures Leads(FirstPaging(), Fetch(C, LIMIT, 1), FirstReady())
  {
    WorldsAreFine();
    TickReads(Tracked(), 1);
    RegistersFirst();
    hide Leads, OneUnread;
  }

  lemma {:induction false} CommitsFirst()
    ensures Leads(FirstReady(), Commit(C, [1]), Indexed())
    ensures Leads(Indexed(), Grow(GROWN_WORLD), Grown())
    ensures Leads(Grown(), BeginTick(C), SecondPaging())
    ensures Leads(SecondPaging(), Fetch(C, LIMIT, 2), Read())
  {
    WorldsAreFine();
    CommitsOne(FirstReady(), 1, 1, false, 1, Contract(None, 0));
    assert Skipped(0, 1, 1) == [];
    TickReads(Grown(), 2);
    assert Leads(Indexed(), Grow(GROWN_WORLD), Grown());
    hide Leads, OneUnread;
  }

  lemma {:induction false} DeletesAndRegisters()
    ensures Leads(Read(), Delete(C), Deleted())
    ensures Leads(Deleted(), Register(C), Again())
  {
    assert [Row(1, EventAt(1))][..0] == [];
    assert Without([Row(1, EventAt(1))], C) == [];
    assert ONE_READ - {C} == map[];
    var one: map<string, seq<Gap>> := map[C := []];
    assert one - {C} == map[];
    assert Read().ticks[C := ReadyTick(2, 2, true)] == map[C := ReadyTick(2, 2, true)];
    assert map[][C := Contract(None, 0)] == NEW;
    var none: map<string, seq<Gap>> := map[];
    assert none[C := []] == map[C := []];
  }

  lemma {:induction false} CommitsStale()
    ensures Leads(Again(), Commit(C, [7]), Lost())
  {
    CommitsOne(Again(), 2, 2, true, 7, Contract(None, 0));
    assert Skipped(0, 2, 2) == [Gap(1, 1, StaleCommit)];
  }

  /** The run is one the system can take, and it leaves ledger 1, which RPC still serves,
      below the progress and not stored. */
  lemma {:induction false} StaleRunLoses()
    ensures Init(Empty()) && Possible(Empty(), STALE_RUN) && Run(Empty(), STALE_RUN) == Lost()
    ensures Lost().world.events[0] == On(1) && Lost().world.oldest <= 1 <= Lost().db.contracts[C].last
    ensures !Stored(Lost().db.events, EventAt(1))
  {
    StaleRunIsPossible();
    hide Possible, Run;
  }

  lemma {:induction false} StaleRunIsPossible()
    ensures Possible(Empty(), STALE_RUN) && Run(Empty(), STALE_RUN) == Lost()
  {
    ReadsFirst();
    CommitsFirst();
    DeletesAndRegisters();
    CommitsStale();
    hide Leads, Empty, Tracked, FirstPaging, FirstReady, Indexed, Grown, SecondPaging, Read, Deleted, Again, Lost;
    PathIsRun([Empty(), Tracked(), FirstPaging(), FirstReady(), Indexed(), Grown(), SecondPaging(), Read(),
               Deleted(), Again(), Lost()], STALE_RUN);
  }

  // ---- Two pollers on one contract ----

  const EARLY_WORLD := World([On(5)], 1, 5)
  const LATE_WORLD := World([On(5), On(15)], 10, 15)

  function Fine(w: World): Moment {
    Moment(w, false, false, false, w.latest)
  }

  /** The slow poller's page; then the floor rises past it, and the fast poller's rejection,
      health call and page follow. */
  const TWO_POLLERS := [Fine(EARLY_WORLD), Fine(LATE_WORLD), Fine(LATE_WORLD), Fine(LATE_WORLD)]

  const FAST := Wrote(3, 3, Some(2), 10, [EventAt(15)], 15, 2, [1])
  const SLOW := Wrote(0, 0, None, 1, [EventAt(5)], 5, 1, [2])

  const BEFORE_BOTH := Db(NEW, [])
  const AFTER_FAST := Db(map[C := Contract(Some(15), 15)], [Row(1, EventAt(15))])
  const AFTER_SLOW := Db(map[C := Contract(Some(15), 5)], [Row(1, EventAt(15)), Row(2, EventAt(5))])

  lemma PollersWorlds()
    ensures OneUnread(EARLY_WORLD, 1, 5) && OneUnread(LATE_WORLD, 10, 15)
    ensures Grows(EARLY_WORLD, EARLY_WORLD) && Grows(LATE_WORLD, LATE_WORLD) && Grows(EARLY_WORLD, LATE_WORLD)
  {
  }

  lemma PollersMoments()
    ensures ValidMoments(TWO_POLLERS)
    ensures OneUnread(EARLY_WORLD, 1, 5) && OneUnread(LATE_WORLD, 10, 15)
    ensures !RejectedAt(TWO_POLLERS, 0, 1) && RejectedAt(TWO_POLLERS, 1, 1)
  {
    hide OneUnread, Grows, ValidWorld;
    PollersWorlds();
    WorldsAreValid();
    var late := Fine(LATE_WORLD);
    assert TWO_POLLERS[0] == Fine(EARLY_WORLD) && TWO_POLLERS[1] == TWO_POLLERS[2] == TWO_POLLERS[3] == late;
  }

  lemma WorldsAreValid()
    ensures ValidWorld(EARLY_WORLD) && ValidWorld(LATE_WORLD)
  {
    PollersWorlds();
  }

  lemma {:induction false} FastCommits()
    ensures Committed(BEFORE_BOTH, C, [EventAt(15)], 15, [1]) == Ok(AFTER_FAST)
  {
    InsertOne(15, 1);
    assert NEW[C := Contract(Some(15), 15)] == map[C := Contract(Some(15), 15)];
  }

  lemma {:induction false} SlowCommits()
    ensures Committed(AFTER_FAST, C, [EventAt(5)], 5, [2]) == Ok(AFTER_SLOW)
  {
    var rows := [Row(1, EventAt(15))];
    InsertFreshBatch(rows, [EventAt(5)], [2]);
    assert rows + Stamp([EventAt(5)], [2]) == [Row(1, EventAt(15)), Row(2, EventAt(5))];
    assert AFTER_FAST.contracts[C := Contract(Some(15), 5)] == AFTER_SLOW.contracts;
  }

  /** Both pollers read the same progress. The slow one drains ledger 5; the floor rises; the
      fast one is rejected, resumes from the floor and commits ledger 15; then the slow one
      commits. Each outcome is a legal one for its tick. Ids no longer follow emission
      order, and the progress went back. */
  lemma {:induction false} TwoPollersBreakOrder()
    ensures ValidMoments(TWO_POLLERS) && RejectedAt(TWO_POLLERS, 1, 1)
    ensures Answer(TWO_POLLERS[0], C, FromLedger(1), LIMIT) == Ok(Page([On(5)], Some(1)))
    ensures Answer(TWO_POLLERS[3], C, FromLedger(10), LIMIT) == Ok(Page([On(15)], Some(2)))
    ensures var start := StartLedger(BEFORE_BOTH.contracts[C].last);
            && LegalOutcome(TWO_POLLERS, C, start, LIMIT, BEFORE_BOTH, AFTER_FAST, FAST)
            && LegalOutcome(TWO_POLLERS, C, start, LIMIT, AFTER_FAST, AFTER_SLOW, SLOW)
    ensures TableOrder(AFTER_FAST.events) && !Ingest.Follows(AFTER_FAST.events, SLOW.batch)
              && !TableOrder(AFTER_SLOW.events)
    ensures AFTER_SLOW.contracts[C].last < AFTER_FAST.contracts[C].last
  {
    PollersMoments();
    PollersAreServed();
    FastIsLegal();
    SlowIsLegal();
    hide Answer, LegalOutcome, ValidMoments, RejectedAt;
    assert !InOrder(AFTER_SLOW.events[0], AFTER_SLOW.events[1]);
    assert SLOW.batch[0] == EventAt(5) && AFTER_FAST.events[0].event == EventAt(15);
  }

  lemma {:induction false} PollersAreServed()
    ensures ValidMoments(TWO_POLLERS)
    ensures Answer(TWO_POLLERS[0], C, FromLedger(1), LIMIT) == Ok(Page([On(5)], Some(1)))
    ensures Answer(TWO_POLLERS[3], C, FromLedger(10), LIMIT) == Ok(Page([On(15)], Some(2)))
  {
    PollersMoments();
    ServesUnread(EARLY_WORLD, 1, 5);
    ServesUnread(LATE_WORLD, 10, 15);
    hide Serve, ValidMoments, Drained;
  }

  lemma {:induction false} FreshForBoth()
    ensures FreshIds([], [EventAt(15)], [1])
    ensures FreshIds([Row(1, EventAt(15))], [EventAt(5)], [2])
  {
  }

  lemma {:induction false} FastIsLegal()
    ensures LegalOutcome(TWO_POLLERS, C, StartLedger(0), LIMIT, BEFORE_BOTH, AFTER_FAST, FAST)
  {
    hide PagedOut, Committed, OneUnread, ValidMoments, Serve, FreshIds, StartLedger, RejectedAt;
    PollersMoments();
    PagesUnread(TWO_POLLERS, 3, 10, 15);
    FastCommits();
    FreshForBoth();
    StartLedgerExact(0);
    assert TWO_POLLERS[3] == Fine(LATE_WORLD) && TWO_POLLERS[2] == Fine(LATE_WORLD);
  }

  lemma {:induction false} SlowIsLegal()
    ensures LegalOutcome(TWO_POLLERS, C, StartLedger(0), LIMIT, AFTER_FAST, AFTER_SLOW, SLOW)
  {
    hide PagedOut, Committed, OneUnread, ValidMoments, Serve, FreshIds, StartLedger, RejectedAt;
    PollersMoments();
    PagesUnread(TWO_POLLERS, 0, 1, 5);
    SlowCommits();
    FreshForBoth();
    StartLedgerExact(0);
    assert TWO_POLLERS[0] == Fine(EARLY_WORLD);
  }
}
