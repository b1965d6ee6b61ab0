/** The poller's tick against the protocol: every tick is a run of protocol steps, and what
    ticks that nothing hinders achieve. */
module Ticks {
  import opened Wrappers
  import opened Chain
  import opened Store
  import opened Polling
  import opened Protocol
  import Ingest

  // ---- A tick is a run ----

  lemma {:induction false} RunConcat(s: Sys, a: seq<Step>, b: seq<Step>)
    requires Possible(s, a) && Possible(Run(s, a), b)
    ensures Possible(s, a + b) && Run(s, a + b) == Run(Run(s, a), b)
    decreases |a|
  {
    hide Enabled, Apply;
    if a == [] {
      assert a + b == b;
    } else {
      assert (a + b)[1..] == a[1..] + b;
      RunConcat(Apply(s, a[0]), a[1..], b);
    }
  }

  lemma {:induction false} RunStep(s: Sys, step: Step)
    requires Enabled(s, step)
    ensures Possible(s, [step]) && Run(s, [step]) == Apply(s, step)
  {
    hide Enabled, Apply;
    assert [step][1..] == [];
  }

  /** One call, after the chain has grown to what the call meets. */
  function CallSteps(m: Moment, c: string, limit: nat): seq<Step> {
    [Grow(m.world), Fetch(c, limit, m.scanned)]
  }

  function PageSteps(moments: seq<Moment>, first: nat, full: nat, c: string, limit: nat): seq<Step>
    requires first + full <= |moments|
  {
    if full == 0 then []
    else PageSteps(moments, first, full - 1, c, limit) + CallSteps(moments[first + full - 1], c, limit)
  }

  function DrainSteps(moments: seq<Moment>, first: nat, last: nat, c: string, limit: nat): seq<Step>
    requires first <= last < |moments|
  {
    PageSteps(moments, first, last - first, c, limit) + CallSteps(moments[last], c, limit)
  }

  /** The rejection of the first call and the health call that gives the new floor. */
  function RejectionSteps(moments: seq<Moment>, c: string, health: Option<nat>): seq<Step>
    requires health.Some? ==> health.value < |moments|
  {
    match health
    case None => []
    case Some(h) => [Reject(c), Grow(moments[h].world), Health(c)]
  }

  /** The steps of a tick that wrote. */
  function TickSteps(moments: seq<Moment>, c: string, limit: nat, o: Outcome): seq<Step>
    requires o.Wrote? && o.first <= o.last < |moments| && (o.health.Some? ==> o.health.value < |moments|)
  {
    [BeginTick(c)] + RejectionSteps(moments, c, o.health) + DrainSteps(moments, o.first, o.last, c, limit) +
    [Commit(c, o.ids)]
  }

  /** Steps that lead from one state to another. */
  ghost predicate Leads(s: Sys, steps: seq<Step>, s': Sys) {
    Possible(s, steps) && Run(s, steps) == s'
  }

  lemma LeadsOn(s: Sys, a: seq<Step>, t: Sys, b: seq<Step>, u: Sys)
    requires Leads(s, a, t) && Leads(t, b, u)
    ensures Leads(s, a + b, u)
  {
    RunConcat(s, a, b);
  }

  lemma HoldsStill(s: Sys)
    ensures Leads(s, [], s)
  {
  }

  /** The state with c's tick at a phase, over a world. */
  function At(s: Sys, w: World, c: string, t: Tick, phase: Phase): Sys {
    s.(world := w, ticks := s.ticks[c := t.(phase := phase)])
  }

  lemma GrowLeads(s: Sys, w: World)
    requires Grows(s.world, w)
    ensures Leads(s, [Grow(w)], s.(world := w))
  {
    RunStep(s, Grow(w));
  }

  lemma FetchLeads(s: Sys, c: string, t: Tick, m: Moment, limit: nat, d: DrainState, phase: Phase)
    requires 1 <= limit && ValidWorld(m.world) && ValidRequest(m.world, d.req) && InWindow(m.world, d.req)
    requires AfterFetch(m.world, c, t.(phase := Phase.Paging(d)), limit, m.scanned) == Some(t.(phase := phase))
    ensures Leads(At(s, m.world, c, t, Phase.Paging(d)), [Fetch(c, limit, m.scanned)], At(s, m.world, c, t, phase))
  {
    hide AfterFetch, InWindow;
    var s1 := At(s, m.world, c, t, Phase.Paging(d));
    RunStep(s1, Fetch(c, limit, m.scanned));
    assert s1.ticks[c := t.(phase := phase)] == s.ticks[c := t.(phase := phase)];
  }

  /** The chain grows and one call is answered. */
  lemma CallLeads(s: Sys, w: World, c: string, t: Tick, m: Moment, limit: nat, d: DrainState, phase: Phase)
    requires Grows(w, m.world)
    requires 1 <= limit && ValidWorld(m.world) && ValidRequest(m.world, d.req) && InWindow(m.world, d.req)
    requires AfterFetch(m.world, c, t.(phase := Phase.Paging(d)), limit, m.scanned) == Some(t.(phase := phase))
    ensures Leads(At(s, w, c, t, Phase.Paging(d)), CallSteps(m, c, limit), At(s, m.world, c, t, phase))
  {
    hide AfterFetch, InWindow, Leads, Grows;
    GrowLeads(At(s, w, c, t, Phase.Paging(d)), m.world);
    FetchLeads(s, c, t, m, limit, d, phase);
    assert CallSteps(m, c, limit) == [Grow(m.world)] + [Fetch(c, limit, m.scanned)];
    LeadsOn(At(s, w, c, t, Phase.Paging(d)), [Grow(m.world)], At(s, m.world, c, t, Phase.Paging(d)),
            [Fetch(c, limit, m.scanned)], At(s, m.world, c, t, phase));
  }

  /** The world after the calls of `full` moments. */
  function WorldAfter(w: World, moments: seq<Moment>, first: nat, full: nat): World
    requires first + full <= |moments|
  {
    if full == 0 then w else moments[first + full - 1].world
  }

  /** The full pages of a drain are Fetch steps, whatever moves between them. */
  lemma {:induction false} PagesLead(s: Sys, w: World, c: string, t: Tick, moments: seq<Moment>, first: nat, full: nat,
                                     limit: nat, d: DrainState)
    requires 1 <= limit && ValidMoments(moments) && first + full <= |moments|
    requires forall i | first <= i < |moments| :: Grows(w, moments[i].world)
    requires Pages(moments, first, full, c, t.from, limit, d)
    ensures Leads(At(s, w, c, t, Phase.Paging(Begin(t.from))), PageSteps(moments, first, full, c, limit),
                  At(s, WorldAfter(w, moments, first, full), c, t, Phase.Paging(d)))
    decreases full
  {
    hide Grows, At, AfterFetch, InWindow, CallSteps, Serve, ValidWorld, Pages, Turned, Leads;
    var begun := At(s, w, c, t, Phase.Paging(Begin(t.from)));
    if full == 0 {
      NoPages(moments, first, c, t.from, limit, d);
      HoldsStill(begun);
    } else {
      var m := moments[first + full - 1];
      var d0 := LastPage(moments, first, full, c, t.from, limit, d);
      PagesLead(s, w, c, t, moments, first, full - 1, limit, d0);
      TurnedFetches(m, c, t, limit, d0, d);
      var before := WorldAfter(w, moments, first, full - 1);
      CallLeads(s, before, c, t, m, limit, d0, Phase.Paging(d));
      LeadsOn(begun, PageSteps(moments, first, full - 1, c, limit), At(s, before, c, t, Phase.Paging(d0)),
              CallSteps(m, c, limit), At(s, m.world, c, t, Phase.Paging(d)));
    }
  }

  lemma NoPages(moments: seq<Moment>, first: nat, c: string, from: int, limit: nat, d: DrainState)
    requires Pages(moments, first, 0, c, from, limit, d)
    ensures d == Begin(from)
  {
  }

  lemma LastPage(moments: seq<Moment>, first: nat, full: nat, c: string, from: int, limit: nat, d: DrainState)
    returns (d0: DrainState)
    requires 0 < full && first + full <= |moments| && Pages(moments, first, full, c, from, limit, d)
    ensures Pages(moments, first, full - 1, c, from, limit, d0) && Turned(moments[first + full - 1], c, limit, d0, d)
  {
    hide Turned;
    d0 :| Pages(moments, first, full - 1, c, from, limit, d0) && Turned(moments[first + full - 1], c, limit, d0, d);
  }

  lemma TurnedFetches(m: Moment, c: string, t: Tick, limit: nat, d: DrainState, d': DrainState)
    requires Turned(m, c, limit, d, d')
    ensures ValidWorld(m.world) && ValidRequest(m.world, d.req) && InWindow(m.world, d.req)
    ensures AfterFetch(m.world, c, t.(phase := Phase.Paging(d)), limit, m.scanned) ==
              Some(t.(phase := Phase.Paging(d')))
  {
    hide Serve, InWindow, Absorb;
  }

  lemma EndedFetches(m: Moment, c: string, t: Tick, limit: nat, d: DrainState, batch: seq<Event>, highest: int,
                     end: nat)
    requires Ended(m, c, limit, d, batch, highest, end) && batch != []
    ensures AfterFetch(m.world, c, t.(phase := Phase.Paging(d)), limit, m.scanned) ==
              Some(t.(phase := Ready(batch, highest, end)))
  {
    hide Serve, InWindow, Readable;
  }

  /** A whole drain, as steps. */
  lemma {:induction false} DrainLeads(s: Sys, w: World, c: string, t: Tick, moments: seq<Moment>, first: nat, last: nat,
                                      limit: nat, batch: seq<Event>, highest: int, end: nat)
    requires 1 <= limit && ValidMoments(moments) && first <= last < |moments| && batch != []
    requires forall i | first <= i < |moments| :: Grows(w, moments[i].world)
    requires PagedOut(moments, first, last, c, t.from, limit, batch, highest, end)
    ensures Leads(At(s, w, c, t, Phase.Paging(Begin(t.from))),
                  DrainSteps(moments, first, last, c, limit),
                  At(s, moments[last].world, c, t, Ready(batch, highest, end)))
  {
    hide Grows, At, AfterFetch, InWindow, CallSteps, Serve, ValidWorld, Drained, Pages, PageSteps, Leads;
    var m, full := moments[last], last - first;
    var d :| Pages(moments, first, full, c, t.from, limit, d) && Ended(m, c, limit, d, batch, highest, end);
    PagesLead(s, w, c, t, moments, first, full, limit, d);
    EndedFetches(m, c, t, limit, d, batch, highest, end);
    var before := WorldAfter(w, moments, first, full);
    CallLeads(s, before, c, t, m, limit, d, Ready(batch, highest, end));
    LeadsOn(At(s, w, c, t, Phase.Paging(Begin(t.from))), PageSteps(moments, first, full, c, limit),
            At(s, before, c, t, Phase.Paging(d)), CallSteps(m, c, limit),
            At(s, m.world, c, t, Ready(batch, highest, end)));
  }

  lemma BeginLeads(s: Sys, c: string)
    requires c in s.db.contracts && c !in s.ticks
    ensures var start := StartLedger(s.db.contracts[c].last);
            var begun := Phase.Paging(Begin(start));
            Leads(s, [BeginTick(c)], At(s, s.world, c, Tick(start, start, begun, false), begun))
  {
    RunStep(s, BeginTick(c));
  }

  /** A rejection below the floor, classified: the drain begins again at the floor. */
  lemma {:induction false} RejectionLeads(s: Sys, c: string, start: int, w: World)
    requires Grows(s.world, w) && start < w.oldest && start <= w.latest
    ensures var begun, again := Phase.Paging(Begin(start)), Phase.Paging(Begin(w.oldest));
            Leads(At(s, s.world, c, Tick(start, start, begun, false), begun), [Reject(c), Grow(w), Health(c)],
                  At(s, w, c, Tick(start, w.oldest, again, false), again))
  {
    hide Grows, Leads;
    var begun, again := Phase.Paging(Begin(start)), Phase.Paging(Begin(w.oldest));
    var t := Tick(start, start, begun, false);
    var s0, s1 := At(s, s.world, c, t, begun), At(s, s.world, c, t, Rejected);
    var s2, s3 := At(s, w, c, t, Rejected), At(s, w, c, Tick(start, w.oldest, again, false), again);
    RejectLeads(s, c, start);
    GrowLeads(s1, w);
    HealthLeads(s, c, start, w);
    LeadsOn(s0, [Reject(c)], s1, [Grow(w)], s2);
    LeadsOn(s0, [Reject(c)] + [Grow(w)], s2, [Health(c)], s3);
    assert [Reject(c)] + [Grow(w)] + [Health(c)] == [Reject(c), Grow(w), Health(c)];
  }

  lemma RejectLeads(s: Sys, c: string, start: int)
    ensures var begun := Phase.Paging(Begin(start));
            var t := Tick(start, start, begun, false);
            Leads(At(s, s.world, c, t, begun), [Reject(c)], At(s, s.world, c, t, Rejected))
  {
    var begun := Phase.Paging(Begin(start));
    var t := Tick(start, start, begun, false);
    var s0 := At(s, s.world, c, t, begun);
    RunStep(s0, Reject(c));
    assert s0.ticks[c := t.(phase := Rejected)] == s.ticks[c := t.(phase := Rejected)];
  }

  lemma HealthLeads(s: Sys, c: string, start: int, w: World)
    requires start < w.oldest && start <= w.latest
    ensures var begun, again := Phase.Paging(Begin(start)), Phase.Paging(Begin(w.oldest));
            Leads(At(s, w, c, Tick(start, start, begun, false), Rejected), [Health(c)],
                  At(s, w, c, Tick(start, w.oldest, again, false), again))
  {
    var begun, again := Phase.Paging(Begin(start)), Phase.Paging(Begin(w.oldest));
    var s2 := At(s, w, c, Tick(start, start, begun, false), Rejected);
    RunStep(s2, Health(c));
    assert s2.ticks[c := Tick(start, w.oldest, again, false)] == s.ticks[c := Tick(start, w.oldest, again, false)];
  }

  /** The gaps known of a contract, and those a commit of this tick adds. */
  function WithSkipped(s: Sys, c: string, start: int, from: int): map<string, seq<Gap>>
    requires c in s.db.contracts
  {
    s.gaps[c := (if c in s.gaps then s.gaps[c] else []) + Skipped(s.db.contracts[c].last, start, from)]
  }

  lemma CommitLeads(s: Sys, w: World, c: string, t: Tick, batch: seq<Event>, highest: int, end: nat, ids: seq<int>,
                    post: Db)
    requires c in s.db.contracts && c !in s.ticks
    requires FreshIds(s.db.events, batch, ids) && Committed(s.db, c, batch, highest, ids) == Ok(post)
    ensures Leads(At(s, w, c, t, Ready(batch, highest, end)), [Commit(c, ids)],
                  Sys(w, post, s.ticks, WithSkipped(s, c, t.start, t.from)))
  {
    hide Committed, Skipped;
    var s1 := At(s, w, c, t, Ready(batch, highest, end));
    assert s1.ticks - {c} == s.ticks;
    EnoughIds(s1, c, ids);
    RunStep(s1, Commit(c, ids));
  }

  /** The state a tick that wrote leaves behind. */
  ghost function AfterTick(s: Sys, c: string, moments: seq<Moment>, o: Outcome, post: Db): Sys
    requires c in s.db.contracts && o.Wrote? && o.last < |moments|
  {
    Sys(moments[o.last].world, post, s.ticks, WithSkipped(s, c, StartLedger(s.db.contracts[c].last), o.from))
  }

  lemma OutcomeShape(moments: seq<Moment>, c: string, start: int, limit: nat, pre: Db, post: Db, o: Outcome)
    requires LegalOutcome(moments, c, start, limit, pre, post, o) && o.Wrote?
    ensures o.first <= o.last < |moments| && (o.health.Some? ==> o.health.value < o.first)
    ensures c in pre.contracts && o.batch != []
    ensures PagedOut(moments, o.first, o.last, c, o.from, limit, o.batch, o.highest, o.end)
    ensures BeginsAt(moments, o.first, start, o.health, o.from)
    ensures FreshIds(pre.events, o.batch, o.ids) && Committed(pre, c, o.batch, o.highest, o.ids) == Ok(post)
  {
    hide Drained, FreshIds, Committed, Pages, Ended;
  }

  /** What TickOnce does is nothing, or the protocol's own steps: begin the tick, classify a
      rejection, fetch each page it fetched in the world it met, commit. */
  lemma {:induction false} TickIsARun(s: Sys, c: string, moments: seq<Moment>, limit: nat, o: Outcome, post: Db)
    requires c in s.db.contracts && c !in s.ticks && 1 <= limit
    requires ValidMoments(moments) && forall i | 0 <= i < |moments| :: Grows(s.world, moments[i].world)
    requires LegalOutcome(moments, c, StartLedger(s.db.contracts[c].last), limit, s.db, post, o)
    ensures o.Unchanged? ==> post == s.db
    ensures o.Wrote? ==>
              && o.first <= o.last < |moments| && (o.health.Some? ==> o.health.value < |moments|)
              && Leads(s, TickSteps(moments, c, limit, o), AfterTick(s, c, moments, o, post))
  {
    hide Grows, PagedOut, FreshIds, Committed, DrainSteps, Leads, At;
    if o.Wrote? {
      var start := StartLedger(s.db.contracts[c].last);
      OutcomeShape(moments, c, start, limit, s.db, post, o);
      hide LegalOutcome, StartLedger;
      var begun, again := Phase.Paging(Begin(start)), Phase.Paging(Begin(o.from));
      var s0 := At(s, s.world, c, Tick(start, start, begun, false), begun);
      var t := Tick(start, o.from, again, false);
      var w := if o.health.Some? then moments[o.health.value].world else s.world;
      var s1, s2 := At(s, w, c, t, again), At(s, moments[o.last].world, c, t, Ready(o.batch, o.highest, o.end));
      BeginLeads(s, c);
      if o.health.Some? {
        RejectionLeads(s, c, start, w);
      } else {
        HoldsStill(s0);
      }
      DrainLeads(s, w, c, t, moments, o.first, o.last, limit, o.batch, o.highest, o.end);
      CommitLeads(s, moments[o.last].world, c, t, o.batch, o.highest, o.end, o.ids, post);
      var a, b := [BeginTick(c)], RejectionSteps(moments, c, o.health);
      var d := DrainSteps(moments, o.first, o.last, c, limit);
      LeadsOn(s, a, s0, b, s1);
      LeadsOn(s, a + b, s1, d, s2);
      LeadsOn(s, a + b + d, s2, [Commit(c, o.ids)], AfterTick(s, c, moments, o, post));
    } else {
      hide StartLedger;
    }
  }

  /** So what a tick writes keeps the invariant, and a reachable state stays reachable: the
      theorems about reachable states hold of the database the tick leaves behind. */
  lemma {:induction false} TickKeepsInvariant(s: Sys, c: string, moments: seq<Moment>, limit: nat, o: Outcome, post: Db)
    requires c in s.db.contracts && c !in s.ticks && 1 <= limit
    requires ValidMoments(moments) && forall i | 0 <= i < |moments| :: Grows(s.world, moments[i].world)
    requires LegalOutcome(moments, c, StartLedger(s.db.contracts[c].last), limit, s.db, post, o)
    ensures o.Unchanged? ==> post == s.db
    ensures o.Wrote? && Inv(s) ==> o.last < |moments| && Inv(AfterTick(s, c, moments, o, post))
    ensures o.Wrote? && Ingest.Reachable(s) ==>
              o.last < |moments| && Ingest.Reachable(AfterTick(s, c, moments, o, post))
  {
    hide Inv, ValidMoments, LegalOutcome, AfterTick, StartLedger, TickSteps, Possible, Run;
    TickIsARun(s, c, moments, limit, o, post);
    if o.Wrote? {
      var steps := TickSteps(moments, c, limit, o);
      if Inv(s) {
        RunKeeps(s, steps);
      }
      if Ingest.Reachable(s) {
        var s0, before :| Init(s0) && Possible(s0, before) && Run(s0, before) == s;
        RunConcat(s0, before, steps);
      }
    }
  }

  /** Run against the database of a reachable state, a tick leaves the database of a reachable state. */
  method TickStaysReachable(poller: Poller, rpc: RpcNode, db: Database, ghost s: Sys, c: string, faults: Faults,
                            gap: nat)
    returns (err: Option<TickError>, ghost s': Sys)
    requires rpc.Valid() && 1 <= poller.batchSize && db.saved == None
    requires Ingest.Reachable(s) && s.db == db.State() && c !in s.ticks
    requires forall i | 0 <= i < |rpc.moments| :: Grows(s.world, rpc.moments[i].world)
    modifies rpc`now, db
    ensures Ingest.Reachable(s') && s'.db == db.State() && s'.ticks == s.ticks
    ensures rpc.Valid() && db.saved == None
  {
    hide Ingest.Reachable, Grows, LegalOutcome, Classified, StoresBacklog, RejectedAt, Unhindered, ValidMoments,
        StartLedger;
    ghost var outcome;
    err, outcome := poller.TickOnce(rpc, db, c, faults, gap);
    s' := s;
    if outcome.Wrote? {
      TickKeepsInvariant(s, c, rpc.moments, poller.batchSize, outcome, db.State());
      s' := AfterTick(s, c, rpc.moments, outcome, db.State());
    }
  }

  // ---- What a tick with no fault can reach ----

  /** A decodable event of c that a drain from ledger `from` reaches: its ledger is one
      that RPC scans, which is always at least the first. */
  ghost predicate Reached(m: Moment, c: string, from: int, k: nat) {
    && k < |m.world.events| && m.world.events[k].contract == c && m.world.events[k].decoded.Some?
    && from <= m.world.events[k].ledger <= Clamp(m.scanned, from, m.world.latest)
  }

  lemma BacklogIsReached(m: Moment, c: string, from: int)
    requires ValidWorld(m.world) && from <= m.world.latest
    ensures Backlog(m, c, from) != [] <==> exists k: nat :: Reached(m, c, from, k)
  {
    var w, end := m.world, Reach(m.world, from, m.scanned);
    ReachIsAhead(w, from, m.scanned);
    CountBelowSplits(w.events, from);
    CountBelowSplits(w.events, Clamp(m.scanned, from, w.latest) + 1);
    if Backlog(m, c, from) != [] {
      var e := Backlog(m, c, from)[0];
      assert e in Slice(w.events, c, from, end);
      var k := SliceOrigin(w, c, from, end, e);
      assert WellFormed(w.events[k]);
      SliceIsOwn(w, c, from, end);
      assert Reached(m, c, from, k);
    }
    if k: nat :| Reached(m, c, from, k) {
      SliceMember(w, c, from, end, k);
    }
  }

  /** Every decodable event of c that the scan reaches is stored, under its key, and the
      progress is at or past it. */
  ghost predicate AllStored(m: Moment, c: string, from: int, db: Db) {
    && c in db.contracts
    && forall k: nat | Reached(m, c, from, k) ::
         var e := m.world.events[k].decoded.value;
         Conflicts(db.events, e) && e.ledger <= db.contracts[c].last
  }

  lemma ReachedIsInBacklog(m: Moment, c: string, from: int, k: nat)
    requires ValidWorld(m.world) && Reached(m, c, from, k)
    ensures m.world.events[k].decoded.value in Backlog(m, c, from)
  {
    var w, end := m.world, Reach(m.world, from, m.scanned);
    assert from <= w.latest;
    ReachIsAhead(w, from, m.scanned);
    CountBelowSplits(w.events, from);
    CountBelowSplits(w.events, Clamp(m.scanned, from, w.latest) + 1);
    SliceMember(w, c, from, end, k);
  }

  lemma CommittedStores(db: Db, post: Db, c: string, batch: seq<Event>, highest: int, ids: seq<int>)
    requires |batch| <= |ids| && Committed(db, c, batch, highest, ids) == Ok(post) && c in db.contracts
    ensures c in post.contracts && post.contracts[c].last == highest
    ensures forall i | 0 <= i < |batch| :: Conflicts(post.events, batch[i])
  {
    InsertStoresBatch(db.events, batch, ids);
  }

  lemma WroteAllStored(m: Moment, c: string, from: int, pre: Db, post: Db, highest: int, ids: seq<int>)
    requires ValidWorld(m.world) && from <= m.world.latest && c in pre.contracts
    requires var batch := Backlog(m, c, from);
             && batch != [] && |batch| <= |ids| && highest == MaxLedger(batch)
             && Committed(pre, c, batch, highest, ids) == Ok(post)
    ensures AllStored(m, c, from, post) && from <= post.contracts[c].last
  {
    hide Backlog, Committed, Conflicts;
    var batch := Backlog(m, c, from);
    CommittedStores(pre, post, c, batch, highest, ids);
    MaxLedgerBounds(batch);
    forall k: nat | Reached(m, c, from, k)
      ensures var e := m.world.events[k].decoded.value;
              Conflicts(post.events, e) && e.ledger <= highest
    {
      ReachedIsInBacklog(m, c, from, k);
      var i :| 0 <= i < |batch| && batch[i] == m.world.events[k].decoded.value;
    }
    BacklogIsReached(m, c, from);
    var k: nat :| Reached(m, c, from, k);
    assert WellFormed(m.world.events[k]);
  }

  /** With no fault and a window that stands still, a tick stores something exactly when RPC's
      scan reaches a decodable event of the contract and what it reaches fits one insert
      batch, and then it stores all of it. Otherwise it leaves the database as it was, and
      the next tick starts where it did. */
  method ProgressNeedsTheScan(poller: Poller, rpc: RpcNode, db: Database, c: string, gap: nat)
    returns (err: Option<TickError>)
    requires rpc.Valid() && 1 <= poller.batchSize && db.saved == None && c in db.contracts
    requires Unhindered(rpc.moments, rpc.now, c, StartLedger(db.contracts[c].last), poller.batchSize)
    modifies rpc`now, db
    ensures rpc.Valid() && db.saved == None
    ensures old(rpc.now) < |rpc.moments|
    ensures var m, start := rpc.moments[old(rpc.now)], StartLedger(old(db.contracts)[c].last);
            if !exists k: nat :: Reached(m, c, start, k) then err == None && db.State() == old(db.State())
            else if MAX_PAGE_SIZE < |Backlog(m, c, start)| then
              err == Some(StoreFailed(BatchTooLarge)) && db.State() == old(db.State())
            else err == None && AllStored(m, c, start, db.State()) && start <= db.contracts[c].last
  {
    hide Unhindered, LegalOutcome, Classified, RejectedAt, ValidMoments, StartLedger, Backlog, Reached, AllStored;
    ghost var start, first := StartLedger(db.contracts[c].last), rpc.now;
    UnhinderedFacts(rpc.moments, first, c, start, poller.batchSize);
    BacklogIsReached(rpc.moments[first], c, start);
    ghost var outcome;
    err, outcome := poller.TickOnce(rpc, db, c, NO_FAULTS, gap);
    if outcome.Wrote? {
      WroteIsCommitted(rpc.moments, c, start, poller.batchSize, old(db.State()), db.State(), outcome);
      WroteAllStored(rpc.moments[first], c, start, old(db.State()), db.State(), outcome.highest, outcome.ids);
    }
  }

  lemma WroteIsCommitted(moments: seq<Moment>, c: string, start: int, limit: nat, pre: Db, post: Db, o: Outcome)
    requires LegalOutcome(moments, c, start, limit, pre, post, o) && o.Wrote?
    ensures o.batch != [] && |o.batch| <= |o.ids| && o.highest == MaxLedger(o.batch)
    ensures Committed(pre, c, o.batch, o.highest, o.ids) == Ok(post)
  {
    hide Pages, Ended, Committed, BeginsAt;
  }

  // ---- Ticks that get nowhere ----

  /** Separate nodes, each of them in a window that stands still and lets a drain from start through. */
  ghost predicate EachUnhindered(rpcs: seq<RpcNode>, c: string, start: int, limit: nat)
    requires 1 <= limit
    reads rpcs
  {
    && (forall i, j | 0 <= i < j < |rpcs| :: rpcs[i] != rpcs[j])
    && (forall i | 0 <= i < |rpcs| :: rpcs[i].Valid() && Unhindered(rpcs[i].moments, rpcs[i].now, c, start, limit))
  }

  /** However often it ticks, a poller whose scans reach no decodable event of the contract
      succeeds, writes nothing and starts again at the same ledger. */
  method ShortScansStall(poller: Poller, rpcs: seq<RpcNode>, db: Database, c: string, gap: nat)
    returns (errs: seq<Option<TickError>>)
    requires 1 <= poller.batchSize && db.saved == None && c in db.contracts
    requires EachUnhindered(rpcs, c, StartLedger(db.contracts[c].last), poller.batchSize)
    requires forall i, k: nat | 0 <= i < |rpcs| ::
               rpcs[i].now < |rpcs[i].moments| ==>
                 !Reached(rpcs[i].moments[rpcs[i].now], c, StartLedger(db.contracts[c].last), k)
    modifies rpcs, db
    ensures db.State() == old(db.State())
    ensures |errs| == |rpcs| && forall i | 0 <= i < |errs| :: errs[i] == None
  {
    hide Unhindered, Backlog, Reached, AllStored, StartLedger, ValidMoments;
    errs := [];
    for i := 0 to |rpcs|
      invariant db.State() == old(db.State()) && db.saved == None
      invariant forall j | i <= j < |rpcs| :: rpcs[j].now == old(rpcs[j].now)
      invariant |errs| == i && forall j | 0 <= j < i :: errs[j] == None
    {
      var err := ProgressNeedsTheScan(poller, rpcs[i], db, c, gap);
      errs := errs + [err];
    }
  }

  /** While the chain grows and RPC scans no less far, the backlog only grows. */
  lemma BacklogOnlyGrows(m: Moment, m': Moment, c: string, from: int)
    requires ValidWorld(m.world) && Grows(m.world, m'.world) && from <= m.world.latest && m.scanned <= m'.scanned
    ensures Backlog(m, c, from) <= Backlog(m', c, from)
  {
    var w, w' := m.world, m'.world;
    var end, end' := Reach(w, from, m.scanned), Reach(w', from, m'.scanned);
    var top, top' := Clamp(m.scanned, from, w.latest) + 1, Clamp(m'.scanned, from, w'.latest) + 1;
    ReachIsAhead(w, from, m.scanned);
    CountBelowStable(w, w', top);
    CountBelowMonotone(w'.events, top, top');
    SliceStable(w, w', c, from, end);
    SliceExtends(w'.events, c, from, end, end');
  }

  /** From one node to the next the chain grows and RPC scans no less far. */
  ghost predicate ChainGrows(rpcs: seq<RpcNode>)
    reads rpcs
  {
    forall i | 0 < i < |rpcs| && rpcs[0].now < |rpcs[0].moments| && rpcs[i].now < |rpcs[i].moments| ::
      var first, later := rpcs[0].moments[rpcs[0].now], rpcs[i].moments[rpcs[i].now];
      Grows(first.world, later.world) && first.scanned <= later.scanned
  }

  /** A backlog too large for one batch fails on every tick, and nothing of it is ever stored. */
  method OversizedBacklogSticks(poller: Poller, rpcs: seq<RpcNode>, db: Database, c: string, gap: nat)
    returns (errs: seq<Option<TickError>>)
    requires 1 <= poller.batchSize && db.saved == None && c in db.contracts && rpcs != []
    requires EachUnhindered(rpcs, c, StartLedger(db.contracts[c].last), poller.batchSize) && ChainGrows(rpcs)
    requires rpcs[0].now < |rpcs[0].moments| ==>
               MAX_PAGE_SIZE < |Backlog(rpcs[0].moments[rpcs[0].now], c, StartLedger(db.contracts[c].last))|
    modifies rpcs, db
    ensures db.State() == old(db.State())
    ensures |errs| == |rpcs| && forall i | 0 <= i < |errs| :: errs[i] == Some(StoreFailed(BatchTooLarge))
  {
    hide Unhindered, Backlog, LegalOutcome, Classified, ValidMoments, RejectedAt, StartLedger;
    ghost var start := StartLedger(db.contracts[c].last);
    UnhinderedFacts(rpcs[0].moments, rpcs[0].now, c, start, poller.batchSize);
    ghost var first := rpcs[0].moments[rpcs[0].now];
    errs := [];
    for i := 0 to |rpcs|
      invariant db.State() == old(db.State()) && db.saved == None
      invariant forall j | i <= j < |rpcs| :: rpcs[j].now == old(rpcs[j].now)
      invariant |errs| == i && forall j | 0 <= j < i :: errs[j] == Some(StoreFailed(BatchTooLarge))
    {
      UnhinderedFacts(rpcs[i].moments, rpcs[i].now, c, start, poller.batchSize);
      StillOversized(rpcs[i].moments, rpcs[i].now, first, c, start, poller.batchSize, i == 0);
      var err, outcome := poller.TickOnce(rpcs[i], db, c, NO_FAULTS, gap);
      errs := errs + [err];
    }
  }

  lemma UnhinderedFacts(moments: seq<Moment>, now: nat, c: string, start: int, limit: nat)
    requires ValidMoments(moments) && 1 <= limit && Unhindered(moments, now, c, start, limit)
    ensures now < |moments| && ValidWorld(moments[now].world) && start <= moments[now].world.latest
  {
  }

  lemma StillOversized(moments: seq<Moment>, now: nat, first: Moment, c: string, start: int, limit: nat, same: bool)
    requires ValidMoments(moments) && 1 <= limit && Unhindered(moments, now, c, start, limit)
    requires ValidWorld(first.world) && start <= first.world.latest && MAX_PAGE_SIZE < |Backlog(first, c, start)|
    requires if same then moments[now] == first
               else Grows(first.world, moments[now].world) && first.scanned <= moments[now].scanned
    ensures now < |moments| && MAX_PAGE_SIZE < |Backlog(moments[now], c, start)|
  {
    if !same {
      BacklogOnlyGrows(first, moments[now], c, start);
    }
  }
}
