/** What the ingest protocol guarantees over whole runs, and what a reader paging
    while it runs can rely on. */
module Ingest {
  import opened Wrappers
  import opened Chain
  import opened Store
  import opened Polling
  import opened Protocol
  import Paging
  import Keyset

  ghost predicate Reachable(s: Sys) {
    exists s0: Sys, steps: seq<Step> :: Init(s0) && Possible(s0, steps) && Run(s0, steps) == s
  }

  lemma ReachableKeepsInv(s: Sys)
    requires Reachable(s)
    ensures Inv(s)
  {
    var s0, steps :| Init(s0) && Possible(s0, steps) && Run(s0, steps) == s;
    InitEstablishes(s0);
    RunKeeps(s0, steps);
  }

  /** Nobody deletes c along the way. */
  ghost predicate Undeleted(c: string, steps: seq<Step>) {
    forall i | 0 <= i < |steps| :: steps[i] != Delete(c)
  }
  // ---- Completeness ----

  /** Stored progress never runs ahead of the events it claims: a decodable event at
      or below it is stored exactly when its ledger is in no recorded gap, and a
      retention gap only ever holds ledgers RPC has stopped serving. */
  lemma ProgressMeansStored(s: Sys, c: string, k: nat)
    requires Reachable(s) && c in s.db.contracts
    requires k < |s.world.events| && s.world.events[k].contract == c && s.world.events[k].decoded.Some?
    requires s.world.events[k].ledger <= s.db.contracts[c].last
    ensures c in s.gaps
    ensures Stored(s.db.events, s.world.events[k].decoded.value) <==> !InGap(s.gaps[c], s.world.events[k].ledger)
    ensures forall i | 0 <= i < |s.gaps[c]| :: s.gaps[c][i].cause.RetentionSkip? ==> s.gaps[c][i].hi < s.world.oldest
  {
    ReachableKeepsInv(s);
    assert Complete(s.world, s.db, s.gaps[c], c);
  }

  /** No row is invented and none is stored twice. */
  lemma RowsAreChainEvents(s: Sys)
    requires Reachable(s)
    ensures forall i | 0 <= i < |s.db.events| :: OnChain(s.world, s.db.events[i].event)
    ensures UniqueKeys(s.db.events)
  {
    ReachableKeepsInv(s);
    forall i, j | 0 <= i < j < |s.db.events|
      ensures InOrder(s.db.events[i], s.db.events[j])
    {
    }
  }

  /** A commit that the store accepts: its contract is tracked and its batch is not too large. */
  ghost predicate GoesThrough(s: Sys, c: string)
    requires c in s.ticks && s.ticks[c].phase.Ready?
  {
    c in s.db.contracts && |s.ticks[c].phase.batch| <= MAX_PAGE_SIZE
  }

  /** The tick about to commit began right above the progress it is about to replace. */
  ghost predicate Current(s: Sys, c: string)
    requires c in s.ticks && c in s.db.contracts
  {
    s.ticks[c].start == s.db.contracts[c].last + 1
  }

  /** Every commit that goes through is current when it is taken. */
  ghost predicate CurrentCommits(s: Sys, steps: seq<Step>)
    requires Possible(s, steps)
    decreases |steps|
  {
    steps != [] ==>
      && (steps[0].Commit? && GoesThrough(s, steps[0].c) ==> Current(s, steps[0].c))
      && CurrentCommits(Apply(s, steps[0]), steps[1..])
  }

  ghost predicate OnlyRetention(gaps: seq<Gap>) {
    forall i | 0 <= i < |gaps| :: gaps[i].cause.RetentionSkip?
  }

  ghost predicate OnlyRetentionGaps(s: Sys) {
    forall c | c in s.gaps :: OnlyRetention(s.gaps[c])
  }

  /** A commit that goes through records a stale gap exactly when it is not current, and
      the gap is what lies between the progress and the tick's start. */
  lemma CommitRecordsStaleGap(s: Sys, c: string, ids: seq<int>)
    requires Inv(s) && Enabled(s, Commit(c, ids)) && GoesThrough(s, c)
    ensures var last, start := s.db.contracts[c].last, s.ticks[c].start;
            var s' := Apply(s, Commit(c, ids));
            && c in s.gaps && c in s'.gaps && s.gaps[c] <= s'.gaps[c] && s'.gaps == s.gaps[c := s'.gaps[c]]
            && (Current(s, c) <==> OnlyRetention(s'.gaps[c][|s.gaps[c]|..]))
            && (!Current(s, c) ==> s.ticks[c].stale && Gap(last + 1, start - 1, StaleCommit) in s'.gaps[c])
  {
    hide Inv, Apply, Skipped, BatchOk, Stamp, TickOk, OnlyRetention;
    CommitEffect(s, c, ids);
    TickFacts(s, c);
    SkippedCauses(s.gaps[c], s.db.contracts[c].last, s.ticks[c].start, s.ticks[c].from);
  }

  lemma TickFacts(s: Sys, c: string)
    requires Inv(s) && c in s.ticks && c in s.db.contracts
    ensures c in s.gaps && s.db.contracts[c].last < s.ticks[c].start <= s.ticks[c].from
    ensures !s.ticks[c].stale ==> s.ticks[c].start == s.db.contracts[c].last + 1
  {
    assert TickOk(s.world, s.db, c, s.ticks[c]);
  }

  lemma SkippedCauses(gaps: seq<Gap>, last: int, start: int, from: int)
    requires last < start <= from
    ensures var all := gaps + Skipped(last, start, from);
            && (start == last + 1 <==> OnlyRetention(all[|gaps|..]))
            && (start != last + 1 ==> Gap(last + 1, start - 1, StaleCommit) in all)
  {
    var more := Skipped(last, start, from);
    assert (gaps + more)[|gaps|..] == more;
    if start != last + 1 {
      assert more[0] == Gap(last + 1, start - 1, StaleCommit);
      assert (gaps + more)[|gaps|] == more[0];
    }
  }

  lemma StepStaysCurrent(s: Sys, step: Step)
    requires Inv(s) && Enabled(s, step) && OnlyRetentionGaps(s)
    requires step.Commit? && GoesThrough(s, step.c) ==> Current(s, step.c)
    ensures OnlyRetentionGaps(Apply(s, step))
  {
    if step.Commit? {
      CommitStaysCurrent(s, step.c, step.ids);
    }
    hide Inv;
  }

  lemma CommitStaysCurrent(s: Sys, c: string, ids: seq<int>)
    requires Inv(s) && Enabled(s, Commit(c, ids)) && OnlyRetentionGaps(s)
    requires GoesThrough(s, c) ==> Current(s, c)
    ensures OnlyRetentionGaps(Apply(s, Commit(c, ids)))
  {
    hide Inv, Apply, OnlyRetention, GoesThrough, Current;
    var s' := Apply(s, Commit(c, ids));
    if GoesThrough(s, c) {
      CommitRecordsStaleGap(s, c, ids);
      OnlyRetentionExtends(s.gaps[c], s'.gaps[c]);
    } else {
      FailedCommitKeepsGaps(s, c, ids);
    }
  }

  lemma OnlyRetentionExtends(gaps: seq<Gap>, more: seq<Gap>)
    requires gaps <= more && OnlyRetention(gaps) && OnlyRetention(more[|gaps|..])
    ensures OnlyRetention(more)
  {
    assert forall i | |gaps| <= i < |more| :: more[i] == more[|gaps|..][i - |gaps|];
  }

  lemma FailedCommitKeepsGaps(s: Sys, c: string, ids: seq<int>)
    requires Inv(s) && Enabled(s, Commit(c, ids)) && !GoesThrough(s, c)
    ensures Apply(s, Commit(c, ids)).gaps == s.gaps
  {
    CommitEffect(s, c, ids);
    hide Inv, Apply;
  }


  lemma {:induction false} RunStaysCurrent(s: Sys, steps: seq<Step>)
    requires Inv(s) && OnlyRetentionGaps(s) && Possible(s, steps) && CurrentCommits(s, steps)
    ensures OnlyRetentionGaps(Run(s, steps))
    decreases |steps|
  {
    if steps != [] {
      StepKeeps(s, steps[0]);
      StepStaysCurrent(s, steps[0]);
      RunStaysCurrent(Apply(s, steps[0]), steps[1..]);
    }
  }

  /** If every commit that goes through is current, whatever is deleted and whenever,
      every decodable event up to the progress that RPC still serves is stored. */
  lemma RetentionIsTheOnlyLoss(s0: Sys, steps: seq<Step>, c: string, k: nat)
    requires Init(s0) && Possible(s0, steps) && CurrentCommits(s0, steps)
    requires var s := Run(s0, steps);
             && c in s.db.contracts
             && k < |s.world.events| && s.world.events[k].contract == c && s.world.events[k].decoded.Some?
             && s.world.oldest <= s.world.events[k].ledger <= s.db.contracts[c].last
    ensures var s := Run(s0, steps);
            Stored(s.db.events, s.world.events[k].decoded.value)
  {
    InitEstablishes(s0);
    RunStaysCurrent(s0, steps);
    var s := Run(s0, steps);
    ProgressMeansStored(s, c, k);
    hide CurrentCommits, Possible, Run, Inv;
    assert OnlyRetention(s.gaps[c]);
  }

  /** A tick whose contract was not deleted since it began commits current. */
  lemma UndisturbedIsCurrent(s: Sys, c: string)
    requires Reachable(s) && c in s.ticks && !s.ticks[c].stale
    ensures c in s.db.contracts && Current(s, c)
  {
    ReachableKeepsInv(s);
    assert TickOk(s.world, s.db, c, s.ticks[c]);
  }

  /** Short of deleting c, no step takes back c's progress or forgets one of its gaps. */
  lemma GapsOnlyGrow(s: Sys, step: Step, c: string)
    requires Inv(s) && Enabled(s, step) && c in s.db.contracts && step != Delete(c)
    ensures var s' := Apply(s, step);
            && c in s.gaps && c in s'.gaps && s.gaps[c] <= s'.gaps[c]
            && c in s'.db.contracts && s.db.contracts[c].last <= s'.db.contracts[c].last
            && s.world.events <= s'.world.events
  {
    if step.Commit? {
      CommitEffect(s, step.c, step.ids);
      if step.c == c && GoesThrough(s, c) {
        TickIsAhead(s, c);
      }
      hide Apply, Enabled;
    }
    hide Complete, Faithful, TableOrder, GapsExplained, TickOk, Skipped, Stamp, BatchOk;
  }

  /** An event that the progress has passed without storing it. */
  ghost predicate Missed(s: Sys, c: string, k: nat) {
    && c in s.db.contracts
    && k < |s.world.events| && s.world.events[k].contract == c && s.world.events[k].decoded.Some?
    && s.world.events[k].ledger <= s.db.contracts[c].last
    && !Stored(s.db.events, s.world.events[k].decoded.value)
  }

  lemma StepStaysMissed(s: Sys, step: Step, c: string, k: nat)
    requires Inv(s) && Enabled(s, step) && step != Delete(c) && Missed(s, c, k)
    ensures Missed(Apply(s, step), c, k)
  {
    hide Stored, Apply, Enabled;
    var s' := Apply(s, step);
    StepKeeps(s, step);
    GapsOnlyGrow(s, step, c);
    MissedIsInGap(s, c, k);
    InGapExtends(s.gaps[c], s'.gaps[c], s.world.events[k].ledger);
    assert s'.world.events[k] == s.world.events[k];
    InGapIsUnstored(s', c, k);
    hide Inv;
  }

  lemma MissedIsInGap(s: Sys, c: string, k: nat)
    requires Inv(s) && Missed(s, c, k)
    ensures c in s.gaps && InGap(s.gaps[c], s.world.events[k].ledger)
  {
    assert Complete(s.world, s.db, s.gaps[c], c);
  }

  lemma InGapIsUnstored(s: Sys, c: string, k: nat)
    requires Inv(s) && c in s.db.contracts && c in s.gaps
    requires k < |s.world.events| && s.world.events[k].contract == c && s.world.events[k].decoded.Some?
    requires s.world.events[k].ledger <= s.db.contracts[c].last && InGap(s.gaps[c], s.world.events[k].ledger)
    ensures !Stored(s.db.events, s.world.events[k].decoded.value)
  {
    assert Complete(s.world, s.db, s.gaps[c], c);
  }

  lemma InGapExtends(gaps: seq<Gap>, more: seq<Gap>, ledger: int)
    requires gaps <= more && InGap(gaps, ledger)
    ensures InGap(more, ledger)
  {
    var i :| 0 <= i < |gaps| && gaps[i].lo <= ledger <= gaps[i].hi;
    assert more[i] == gaps[i];
  }

  /** What the progress has passed without storing stays unstored for as long as the contract
      is not deleted. */
  lemma {:induction false} MissedIsLost(s: Sys, steps: seq<Step>, c: string, k: nat)
    requires Inv(s) && Possible(s, steps) && Undeleted(c, steps) && Missed(s, c, k)
    ensures Missed(Run(s, steps), c, k)
    decreases |steps|
  {
    hide Inv, Missed, Enabled, Apply;
    if steps != [] {
      assert steps[0] != Delete(c);
      StepKeeps(s, steps[0]);
      StepStaysMissed(s, steps[0], c, k);
      assert forall i | 0 <= i < |steps[1..]| :: steps[1..][i] == steps[i + 1];
      MissedIsLost(Apply(s, steps[0]), steps[1..], c, k);
    }
  }

  /** A commit under a contract deleted and registered again loses every decodable event
      between the new row's progress and the ledger the tick began at, for as long as the
      contract is not deleted once more. */
  lemma StaleCommitLoses(s: Sys, c: string, ids: seq<int>, k: nat, later: seq<Step>)
    requires Reachable(s) && Enabled(s, Commit(c, ids)) && c in s.db.contracts
    requires |s.ticks[c].phase.batch| <= MAX_PAGE_SIZE
    requires k < |s.world.events| && s.world.events[k].contract == c && s.world.events[k].decoded.Some?
    requires s.db.contracts[c].last < s.world.events[k].ledger < s.ticks[c].start
    requires Possible(Apply(s, Commit(c, ids)), later) && Undeleted(c, later)
    ensures s.ticks[c].stale
    ensures Missed(Apply(s, Commit(c, ids)), c, k)
    ensures Missed(Run(Apply(s, Commit(c, ids)), later), c, k)
  {
    ReachableKeepsInv(s);
    CommitKeeps(s, c, ids);
    StaleCommitMisses(s, c, ids, k);
    MissedIsLost(Apply(s, Commit(c, ids)), later, c, k);
  }

  lemma StaleCommitMisses(s: Sys, c: string, ids: seq<int>, k: nat)
    requires Inv(s) && Enabled(s, Commit(c, ids)) && c in s.db.contracts
    requires |s.ticks[c].phase.batch| <= MAX_PAGE_SIZE
    requires k < |s.world.events| && s.world.events[k].contract == c && s.world.events[k].decoded.Some?
    requires s.db.contracts[c].last < s.world.events[k].ledger < s.ticks[c].start
    ensures s.ticks[c].stale
    ensures Missed(Apply(s, Commit(c, ids)), c, k)
  {
    hide Apply, Skipped, Stamp, BatchOk;
    CommitEffect(s, c, ids);
    CommitKeeps(s, c, ids);
    TickFacts(s, c);
    TickIsAhead(s, c);
    var s' := Apply(s, Commit(c, ids));
    var more := Skipped(s.db.contracts[c].last, s.ticks[c].start, s.ticks[c].from);
    SkippedHolds(s.db.contracts[c].last, s.ticks[c].start, s.ticks[c].from, s.world.events[k].ledger);
    GapsConcat(s.gaps[c], more, s.world.events[k].ledger);
    InGapIsUnstored(s', c, k);
    hide Inv;
  }


  // ---- Emission order ----

  /** Within a contract ids run exactly in emission order, however ids of contracts interleave. */
  lemma IdsFollowEmission(s: Sys, i: nat, j: nat)
    requires Reachable(s) && i < |s.db.events| && j < |s.db.events|
    requires s.db.events[i].event.contract == s.db.events[j].event.contract
    ensures var a, b := s.db.events[i], s.db.events[j];
            a.id < b.id <==> Before(a.event.ledger, a.event.index, b.event.ledger, b.event.index)
  {
    ReachableKeepsInv(s);
    assert i < j ==> InOrder(s.db.events[i], s.db.events[j]);
    assert j < i ==> InOrder(s.db.events[j], s.db.events[i]);
  }

  /** The event comes after every stored row of its contract. */
  ghost predicate ComesLast(rows: seq<Row>, e: Event) {
    forall i | 0 <= i < |rows| && rows[i].event.contract == e.contract ::
      Before(rows[i].event.ledger, rows[i].event.index, e.ledger, e.index)
  }

  /** Each event of the batch meets a stored key, or comes after its contract's rows. */
  ghost predicate Follows(rows: seq<Row>, batch: seq<Event>) {
    forall i | 0 <= i < |batch| :: Conflicts(rows, batch[i]) || ComesLast(rows, batch[i])
  }

  lemma AppendKeepsOrder(rows: seq<Row>, r: Row)
    requires TableOrder(rows) && !Conflicts(rows, r.event)
    requires forall i | 0 <= i < |rows| ::
               rows[i].id != r.id && (rows[i].event.contract == r.event.contract ==> rows[i].id < r.id)
    ensures TableOrder(rows + [r]) <==> ComesLast(rows, r.event)
  {
    var all := rows + [r];
    if TableOrder(all) {
      forall i | 0 <= i < |rows| && rows[i].event.contract == r.event.contract
        ensures Before(rows[i].event.ledger, rows[i].event.index, r.event.ledger, r.event.index)
      {
        assert InOrder(all[i], all[|rows|]);
      }
    }
  }

  lemma FollowsStep(rows: seq<Row>, batch: seq<Event>, id: int)
    requires batch != [] && EventsInOrder(batch)
    ensures EventsInOrder(batch[1..])
    ensures Conflicts(rows, batch[0]) ==> (Follows(rows, batch) <==> Follows(rows, batch[1..]))
    ensures !Conflicts(rows, batch[0]) ==>
              (Follows(rows, batch) <==> ComesLast(rows, batch[0]) && Follows(rows + [Row(id, batch[0])], batch[1..]))
  {
    var rest, next := batch[1..], rows + [Row(id, batch[0])];
    forall i | 0 <= i < |rest|
      ensures rest[i] == batch[i + 1]
      ensures Conflicts(next, rest[i]) <==> Conflicts(rows, rest[i])
      ensures ComesLast(next, rest[i]) <==> ComesLast(rows, rest[i])
    {
      NextRow(rows, Row(id, batch[0]), rest[i]);
    }
    hide Conflicts, ComesLast;
    assert forall i | 0 < i < |batch| :: batch[i] == rest[i - 1];
  }

  lemma NextRow(rows: seq<Row>, r: Row, e: Event)
    requires Before(r.event.ledger, r.event.index, e.ledger, e.index)
    ensures Conflicts(rows + [r], e) <==> Conflicts(rows, e)
    ensures ComesLast(rows + [r], e) <==> ComesLast(rows, e)
  {
    var next := rows + [r];
    assert forall i | 0 <= i < |rows| :: next[i] == rows[i];
    assert next[|rows|] == r;
  }

  lemma PrefixInOrder(rows: seq<Row>, more: seq<Row>)
    requires rows <= more && TableOrder(more)
    ensures TableOrder(rows)
  {
    forall i, j | 0 <= i < j < |rows|
      ensures InOrder(rows[i], rows[j])
    {
      assert InOrder(more[i], more[j]);
    }
  }

  /** Inserting a batch keeps emission order exactly when every event of it that is
      actually inserted comes after the rows its contract already has. */
  lemma {:induction false} InsertKeepsOrderExactly(rows: seq<Row>, batch: seq<Event>, ids: seq<int>)
    requires TableOrder(rows) && EventsInOrder(batch) && FreshIds(rows, batch, ids)
    ensures TableOrder(InsertAll(rows, batch, ids)) <==> Follows(rows, batch)
    decreases |batch|
  {
    if batch != [] {
      FollowsStep(rows, batch, ids[0]);
      if Conflicts(rows, batch[0]) {
        InsertKeepsOrderExactly(rows, batch[1..], ids);
      } else {
        var r := Row(ids[0], batch[0]);
        AppendKeepsOrder(rows, r);
        if ComesLast(rows, batch[0]) {
          InsertKeepsOrderExactly(rows + [r], batch[1..], ids[1..]);
        } else if TableOrder(InsertAll(rows, batch, ids)) {
          PrefixInOrder(rows + [r], InsertAll(rows, batch, ids));
        }
      }
    }
  }

  // ---- Progress ----

  /** A commit that goes through strictly advances its contract, writes the first
      ledger once and at most the last, stores its whole batch with no conflict, and
      touches no other contract. */
  lemma CommitAdvances(s: Sys, c: string, ids: seq<int>)
    requires Reachable(s) && Enabled(s, Commit(c, ids))
    ensures c in s.db.contracts ==> c in Apply(s, Commit(c, ids)).db.contracts
    ensures var s' := Apply(s, Commit(c, ids));
            if c in s.db.contracts && |s.ticks[c].phase.batch| <= MAX_PAGE_SIZE then
              var row, row' := s.db.contracts[c], s'.db.contracts[c];
              && row.last < row'.last <= s.world.latest
              && row'.first.Some? && row'.first.value <= row'.last
              && (row.first.Some? ==> row'.first == row.first)
              && s'.db.events == s.db.events + Stamp(s.ticks[c].phase.batch, ids)
              && s'.db.contracts == s.db.contracts[c := row']
            else s'.db == s.db
  {
    ReachableKeepsInv(s);
    CommitEffect(s, c, ids);
    if c in s.db.contracts && |s.ticks[c].phase.batch| <= MAX_PAGE_SIZE {
      TickIsAhead(s, c);
    }
    hide Inv, Enabled, Apply;
  }

  lemma TickIsAhead(s: Sys, c: string)
    requires Inv(s) && c in s.ticks && c in s.db.contracts && s.ticks[c].phase.Ready?
    ensures var row, t := s.db.contracts[c], s.ticks[c];
            && row.last < t.from <= t.phase.highest <= s.world.latest
            && (row.first.Some? ==> row.first.value <= row.last)
  {
    hide Complete, Faithful, TableOrder, GapsExplained;
    var t := s.ticks[c];
    DrainedBatchOk(s.world, c, t.from, t.phase.batch, t.phase.highest, t.phase.end);
  }

  /** The uint32 conversion of the start ledger never truncates. */
  lemma StartLedgerNeverTruncates(s: Sys, c: string)
    requires Reachable(s) && c in s.db.contracts
    ensures StartLedger(s.db.contracts[c].last) == s.db.contracts[c].last + 1
  {
    ReachableKeepsInv(s);
    StartLedgerExact(s.db.contracts[c].last);
  }

  // ---- Reading while polling ----


  lemma StepOnlyAppends(s: Sys, step: Step, c: string)
    requires Inv(s) && Enabled(s, step) && c in s.db.contracts && step != Delete(c)
    ensures c in Apply(s, step).db.contracts
    ensures Keyset.Later(c, s.db.events, Apply(s, step).db.events)
  {
    match step {
      case Delete(b) => DeleteOnlyDrops(s, b, c);
      case Commit(b, ids) => CommitOnlyAppends(s, b, ids, c);
      case _ => LaterSelf(c, s.db.events);
    }
    hide Inv, Keyset.Later, Committed, Skipped, AfterFetch, Without;
  }

  lemma DeleteOnlyDrops(s: Sys, b: string, c: string)
    requires c in s.db.contracts && b != c
    ensures c in Apply(s, Delete(b)).db.contracts
    ensures Keyset.Later(c, s.db.events, Apply(s, Delete(b)).db.events)
  {
    WithoutMembers(s.db.events, b);
    hide Without;
  }

  lemma CommitOnlyAppends(s: Sys, b: string, ids: seq<int>, c: string)
    requires Inv(s) && Enabled(s, Commit(b, ids)) && c in s.db.contracts
    ensures c in Apply(s, Commit(b, ids)).db.contracts
    ensures Keyset.Later(c, s.db.events, Apply(s, Commit(b, ids)).db.events)
  {
    CommitEffect(s, b, ids);
    StampIsLater(s.db.events, s.ticks[b].phase.batch, ids, c);
    hide Inv, Keyset.Later;
  }

  lemma StampIsLater(rows: seq<Row>, batch: seq<Event>, ids: seq<int>, c: string)
    requires FreshIds(rows, batch, ids)
    ensures Keyset.Later(c, rows, rows) && Keyset.Later(c, rows, rows + Stamp(batch, ids))
  {
    var all := rows + Stamp(batch, ids);
    forall r, r' | r' in all && r'.event.contract == c && r' !in rows && r in rows && r.event.contract == c
      ensures r.id < r'.id
    {
      var j :| 0 <= j < |all| && all[j] == r';
      var i :| 0 <= i < |rows| && rows[i] == r;
      assert r' == Row(ids[j - |rows|], batch[j - |rows|]);
    }
  }

  lemma LaterChains(c: string, a: seq<Row>, b: seq<Row>, d: seq<Row>)
    requires Keyset.Later(c, a, b) && Keyset.Later(c, b, d)
    ensures Keyset.Later(c, a, d)
  {
  }

  /** Over any stretch of a run that does not delete c, readers of c only see rows appended in emission order. */
  lemma {:induction false} RunOnlyAppends(s: Sys, steps: seq<Step>, c: string)
    requires Inv(s) && Possible(s, steps) && c in s.db.contracts && Undeleted(c, steps)
    ensures c in Run(s, steps).db.contracts
    ensures Keyset.Later(c, s.db.events, Run(s, steps).db.events)
    decreases |steps|
  {
    if steps != [] {
      var s1 := Apply(s, steps[0]);
      StepKeeps(s, steps[0]);
      StepOnlyAppends(s, steps[0], c);
      RunOnlyAppends(s1, steps[1..], c);
      LaterChains(c, s.db.events, s1.db.events, Run(s1, steps[1..]).db.events);
    }
  }

  /** The tables a reader meets: page i is read after the i-th stretch of steps. */
  ghost function Tables(s: Sys, stretches: seq<seq<Step>>): seq<seq<Row>>
    requires PossibleStretches(s, stretches)
    decreases |stretches|
  {
    if stretches == [] then []
    else var s1 := Run(s, stretches[0]); [s1.db.events] + Tables(s1, stretches[1..])
  }

  ghost predicate PossibleStretches(s: Sys, stretches: seq<seq<Step>>)
    decreases |stretches|
  {
    stretches != [] ==> Possible(s, stretches[0]) && PossibleStretches(Run(s, stretches[0]), stretches[1..])
  }

  lemma {:induction false} TablesGrow(s: Sys, stretches: seq<seq<Step>>, c: string)
    requires Inv(s) && PossibleStretches(s, stretches) && c in s.db.contracts
    requires forall i | 0 <= i < |stretches| :: Undeleted(c, stretches[i])
    ensures |Tables(s, stretches)| == |stretches|
    ensures Keyset.Growing(c, Tables(s, stretches))
    ensures forall i | 0 <= i < |stretches| :: Keyset.Later(c, s.db.events, Tables(s, stretches)[i])
    decreases |stretches|
  {
    hide Keyset.Later, TableOrder, Undeleted, Complete, Faithful, GapsExplained, Progress, TickOk, Possible, Run;
    if stretches != [] {
      var s1 := Run(s, stretches[0]);
      RunKeeps(s, stretches[0]);
      RunOnlyAppends(s, stretches[0], c);
      TablesGrow(s1, stretches[1..], c);
      var rest := Tables(s1, stretches[1..]);
      forall i | 0 <= i < |rest|
        ensures Keyset.Later(c, s.db.events, rest[i])
      {
        LaterChains(c, s.db.events, s1.db.events, rest[i]);
      }
      LaterSelf(c, s1.db.events);
    }
  }

  lemma LaterSelf(c: string, rows: seq<Row>)
    ensures Keyset.Later(c, rows, rows)
  {
  }

  /** Paging a contract while it is being indexed, from any reachable state and with
      any steps between pages short of deleting it: newest first yields exactly what
      matched at the first page; oldest first yields every row of the first page's
      table and after them only newer ones, ending with exactly the last table. */
  lemma PagingWhilePolling(s: Sys, stretches: seq<seq<Step>>, q: Paging.Query, after: Option<int>, limit: nat)
    requires Reachable(s) && PossibleStretches(s, stretches) && stretches != [] && q.contract in s.db.contracts
    requires forall i | 0 <= i < |stretches| :: Undeleted(q.contract, stretches[i])
    requires 1 <= limit
    ensures |Tables(s, stretches)| == |stretches|
    ensures var down := Keyset.Walk(Tables(s, stretches), q, false, after, limit);
            down.done ==> down.rows == Keyset.Found(Tables(s, stretches)[0], q, false, after)
    ensures var up := Keyset.Walk(Tables(s, stretches), q, true, after, limit);
            up.done ==>
              && 1 <= up.pages <= |stretches|
              && up.rows == Keyset.Found(Tables(s, stretches)[up.pages - 1], q, true, after)
              && Keyset.Found(Tables(s, stretches)[0], q, true, after) <= up.rows
              && Keyset.ById(true, up.rows)
  {
    hide Keyset.Later, TableOrder, Undeleted, Keyset.Found;
    ReachableKeepsInv(s);
    TablesGrow(s, stretches, q.contract);
    var tables := Tables(s, stretches);
    Keyset.DescendingWalkIsStable(tables, q, after, limit);
    Keyset.AscendingWalkCatchesUp(tables, q, after, limit);
    if Keyset.Walk(tables, q, true, after, limit).done {
      Keyset.AscendingWalkKeepsStart(tables, q, after, limit);
    }
  }
}
