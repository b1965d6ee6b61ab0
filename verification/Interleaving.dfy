/** Decodes that share one fallback counter and run at once: each step of a decode takes
    one value, counts it if it falls back, and leaves the values inside it to be taken. */
module Interleaving {
  import opened Decoder

  function KeysAndValues(entries: seq<ScEntry>): seq<ScVal> {
    if entries == [] then []
    else
      var e := entries[|entries| - 1];
      KeysAndValues(entries[..|entries| - 1]) + [e.key, e.val]
  }

  /** The values a value's decode goes on to, in order. */
  function Inside(v: ScVal): seq<ScVal> {
    match v
    case ScvVec(items) => items
    case ScvMap(entries) => KeysAndValues(entries)
    case _ => []
  }

  /** What each running decode has still to take, and the counter they share. */
  datatype Decodes = Decodes(pending: seq<seq<ScVal>>, counter: int)

  predicate CanStep(d: Decodes, i: nat) {
    i < |d.pending| && d.pending[i] != []
  }

  /** The i-th decode takes its next value. The counter is bumped atomically. */
  function Step(codec: Codec, d: Decodes, i: nat): Decodes
    requires CanStep(d, i)
  {
    var v := d.pending[i][0];
    Decodes(d.pending[i := Inside(v) + d.pending[i][1..]], d.counter + if FallsBack(codec, v) then 1 else 0)
  }

  predicate CanRun(codec: Codec, d: Decodes, schedule: seq<nat>)
    decreases |schedule|
  {
    schedule != [] ==> CanStep(d, schedule[0]) && CanRun(codec, Step(codec, d, schedule[0]), schedule[1..])
  }

  /** The decodes interleaved as a schedule says. */
  function Run(codec: Codec, d: Decodes, schedule: seq<nat>): Decodes
    requires CanRun(codec, d, schedule)
    decreases |schedule|
  {
    if schedule == [] then d else Run(codec, Step(codec, d, schedule[0]), schedule[1..])
  }

  // ---- What is still to be counted ----

  /** The unknown nodes in the results of some values. */
  function Owed(codec: Codec, values: seq<ScVal>): nat {
    if values == [] then 0
    else Owed(codec, values[..|values| - 1]) + Unknowns(Decoded(codec, values[|values| - 1]))
  }

  function TotalOwed(codec: Codec, pending: seq<seq<ScVal>>): nat {
    if pending == [] then 0
    else TotalOwed(codec, pending[..|pending| - 1]) + Owed(codec, pending[|pending| - 1])
  }

  lemma {:induction false} OwedConcat(codec: Codec, a: seq<ScVal>, b: seq<ScVal>)
    ensures Owed(codec, a + b) == Owed(codec, a) + Owed(codec, b)
  {
    hide Unknowns, Decoded;
    if b == [] {
      assert a + b == a;
    } else {
      assert (a + b)[..|a + b| - 1] == a + b[..|b| - 1];
      OwedConcat(codec, a, b[..|b| - 1]);
    }
  }

  lemma {:induction false} OwedOne(codec: Codec, v: ScVal)
    ensures Owed(codec, [v]) == Unknowns(Decoded(codec, v))
  {
    hide Unknowns, Decoded;
    assert [v][..0] == [] && Owed(codec, []) == 0;
  }

  lemma {:induction false} ItemsOwe(codec: Codec, items: seq<ScVal>)
    ensures UnknownsIn(DecodedItems(codec, items)) == Owed(codec, items)
  {
    hide Unknowns, Decoded;
    if items != [] {
      var init := items[..|items| - 1];
      ItemsOwe(codec, init);
      assert DecodedItems(codec, items)[..|init|] == DecodedItems(codec, init);
    }
  }

  lemma {:induction false} EntriesOwe(codec: Codec, entries: seq<ScEntry>)
    ensures UnknownsInEntries(DecodedEntries(codec, entries)) == Owed(codec, KeysAndValues(entries))
  {
    hide Unknowns, Decoded;
    if entries != [] {
      var init, e := entries[..|entries| - 1], entries[|entries| - 1];
      EntriesOwe(codec, init);
      assert DecodedEntries(codec, entries)[..|init|] == DecodedEntries(codec, init);
      OwedConcat(codec, KeysAndValues(init), [e.key, e.val]);
      assert [e.key, e.val] == [e.key] + [e.val];
      OwedConcat(codec, [e.key], [e.val]);
      OwedOne(codec, e.key);
      OwedOne(codec, e.val);
    }
  }

  /** A value owes its own fallback and what the values inside it owe. */
  lemma {:induction false} ValueOwes(codec: Codec, v: ScVal)
    ensures Unknowns(Decoded(codec, v)) == (if FallsBack(codec, v) then 1 else 0) + Owed(codec, Inside(v))
  {
    hide Unknowns, Decoded, DecodedItems, DecodedEntries, UnknownsIn, UnknownsInEntries;
    UnknownsOf(codec, v);
    match v {
      case ScvVec(items) => ItemsOwe(codec, items);
      case ScvMap(entries) => EntriesOwe(codec, entries);
      case _ =>
        assert Owed(codec, []) == 0;
    }
  }

  lemma {:induction false} TotalAfterUpdate(codec: Codec, pending: seq<seq<ScVal>>, i: nat, values: seq<ScVal>)
    requires i < |pending|
    ensures TotalOwed(codec, pending[i := values]) ==
              TotalOwed(codec, pending) - Owed(codec, pending[i]) + Owed(codec, values)
  {
    hide Owed;
    var n := |pending| - 1;
    var after := pending[i := values];
    if i == n {
      assert after[..n] == pending[..n];
    } else {
      assert after[..n] == pending[..n][i := values];
      TotalAfterUpdate(codec, pending[..n], i, values);
    }
  }

  lemma {:induction false} StepConserves(codec: Codec, d: Decodes, i: nat)
    requires CanStep(d, i)
    ensures var t := Step(codec, d, i);
            t.counter + TotalOwed(codec, t.pending) == d.counter + TotalOwed(codec, d.pending)
  {
    var v, rest := d.pending[i][0], d.pending[i][1..];
    ValueOwes(codec, v);
    hide Unknowns, Decoded, FallsBack, Inside;
    assert d.pending[i] == [v] + rest;
    OwedConcat(codec, [v], rest);
    OwedOne(codec, v);
    OwedConcat(codec, Inside(v), rest);
    TotalAfterUpdate(codec, d.pending, i, Inside(v) + rest);
  }

  /** At every point of every interleaving, what was counted and what is still owed add up
      to what was there at the start. */
  lemma {:induction false} RunConserves(codec: Codec, d: Decodes, schedule: seq<nat>)
    requires CanRun(codec, d, schedule)
    ensures var t := Run(codec, d, schedule);
            t.counter + TotalOwed(codec, t.pending) == d.counter + TotalOwed(codec, d.pending)
    decreases |schedule|
  {
    hide Step, TotalOwed;
    if schedule != [] {
      StepConserves(codec, d, schedule[0]);
      RunConserves(codec, Step(codec, d, schedule[0]), schedule[1..]);
    }
  }

  // ---- Whole decodes ----

  function EachAlone(values: seq<ScVal>): (pending: seq<seq<ScVal>>)
    ensures |pending| == |values|
  {
    seq(|values|, i requires 0 <= i < |values| => [values[i]])
  }

  predicate Finished(d: Decodes) {
    forall i | 0 <= i < |d.pending| :: d.pending[i] == []
  }

  lemma {:induction false} FinishedOwesNothing(codec: Codec, pending: seq<seq<ScVal>>)
    requires forall i | 0 <= i < |pending| :: pending[i] == []
    ensures TotalOwed(codec, pending) == 0
  {
    if pending != [] {
      FinishedOwesNothing(codec, pending[..|pending| - 1]);
    }
  }

  lemma {:induction false} EachAloneOwes(codec: Codec, values: seq<ScVal>)
    ensures TotalOwed(codec, EachAlone(values)) == Owed(codec, values)
  {
    hide Unknowns, Decoded;
    if values != [] {
      var init, v := values[..|values| - 1], values[|values| - 1];
      assert EachAlone(values) == EachAlone(init) + [[v]];
      assert (EachAlone(init) + [[v]])[..|init|] == EachAlone(init);
      EachAloneOwes(codec, init);
      OwedOne(codec, v);
    }
  }

  /** However any number of decodes interleave, once all are done the counter has grown by
      exactly the unknown nodes of all their results. */
  lemma {:induction false} EveryInterleavingCountsAll(codec: Codec, values: seq<ScVal>, counter: int,
                                                      schedule: seq<nat>)
    requires CanRun(codec, Decodes(EachAlone(values), counter), schedule)
    requires Finished(Run(codec, Decodes(EachAlone(values), counter), schedule))
    ensures Run(codec, Decodes(EachAlone(values), counter), schedule).counter == counter + Owed(codec, values)
  {
    var d := Decodes(EachAlone(values), counter);
    RunConserves(codec, d, schedule);
    FinishedOwesNothing(codec, Run(codec, d, schedule).pending);
    EachAloneOwes(codec, values);
    hide Run, CanRun, Owed, TotalOwed, EachAlone;
  }

  // ---- Every schedule ends ----

  /** The values in a value, itself included. */
  function Nodes(v: ScVal): (n: nat)
    ensures 1 <= n
    decreases v, 1
  {
    match v
    case ScvVec(items) => 1 + NodesIn(items)
    case ScvMap(entries) => 1 + NodesInEntries(entries)
    case _ => 1
  }

  function NodesIn(items: seq<ScVal>): nat
    decreases items, 0
  {
    if items == [] then 0 else NodesIn(items[..|items| - 1]) + Nodes(items[|items| - 1])
  }

  function NodesInEntries(entries: seq<ScEntry>): nat
    decreases entries, 0
  {
    if entries == [] then 0 else NodesInEntries(entries[..|entries| - 1]) + NodesInEntry(entries[|entries| - 1])
  }

  function NodesInEntry(e: ScEntry): nat
    decreases e, 1
  {
    Nodes(e.key) + Nodes(e.val)
  }

  function TotalNodes(pending: seq<seq<ScVal>>): nat {
    if pending == [] then 0 else TotalNodes(pending[..|pending| - 1]) + NodesIn(pending[|pending| - 1])
  }

  lemma {:induction false} NodesConcat(a: seq<ScVal>, b: seq<ScVal>)
    ensures NodesIn(a + b) == NodesIn(a) + NodesIn(b)
  {
    hide Nodes;
    if b == [] {
      assert a + b == a;
    } else {
      assert (a + b)[..|a + b| - 1] == a + b[..|b| - 1];
      NodesConcat(a, b[..|b| - 1]);
    }
  }

  lemma {:induction false} NodesOfOne(v: ScVal)
    ensures NodesIn([v]) == Nodes(v)
  {
    hide Nodes;
    assert [v][..0] == [] && NodesIn([]) == 0;
  }

  lemma {:induction false} EntriesHold(entries: seq<ScEntry>)
    ensures NodesIn(KeysAndValues(entries)) == NodesInEntries(entries)
  {
    hide Nodes;
    if entries != [] {
      var init, e := entries[..|entries| - 1], entries[|entries| - 1];
      EntriesHold(init);
      NodesConcat(KeysAndValues(init), [e.key, e.val]);
      assert [e.key, e.val] == [e.key] + [e.val];
      NodesConcat([e.key], [e.val]);
      NodesOfOne(e.key);
      NodesOfOne(e.val);
    }
  }

  lemma {:induction false} ValueHolds(v: ScVal)
    ensures Nodes(v) == 1 + NodesIn(Inside(v))
  {
    hide NodesIn, NodesInEntries, KeysAndValues;
    match v {
      case ScvVec(items) =>
      case ScvMap(entries) => EntriesHold(entries);
      case _ => NodesOfNone();
    }
  }

  lemma NodesOfNone()
    ensures NodesIn([]) == 0
  {
  }

  lemma {:induction false} TotalNodesAfterUpdate(pending: seq<seq<ScVal>>, i: nat, values: seq<ScVal>)
    requires i < |pending|
    ensures TotalNodes(pending[i := values]) == TotalNodes(pending) - NodesIn(pending[i]) + NodesIn(values)
  {
    hide NodesIn;
    var n := |pending| - 1;
    var after := pending[i := values];
    if i == n {
      assert after[..n] == pending[..n];
    } else {
      assert after[..n] == pending[..n][i := values];
      TotalNodesAfterUpdate(pending[..n], i, values);
    }
  }

  /** Each step takes exactly one value off what is left. */
  lemma {:induction false} StepTakesOne(codec: Codec, d: Decodes, i: nat)
    requires CanStep(d, i)
    ensures TotalNodes(d.pending) == 1 + TotalNodes(Step(codec, d, i).pending)
  {
    hide Nodes, NodesIn, Inside, FallsBack;
    var v, rest := d.pending[i][0], d.pending[i][1..];
    assert d.pending[i] == [v] + rest;
    NodesConcat([v], rest);
    NodesOfOne(v);
    NodesConcat(Inside(v), rest);
    ValueHolds(v);
    TotalNodesAfterUpdate(d.pending, i, Inside(v) + rest);
  }

  lemma {:induction false} RunTakes(codec: Codec, d: Decodes, schedule: seq<nat>)
    requires CanRun(codec, d, schedule)
    ensures TotalNodes(d.pending) == |schedule| + TotalNodes(Run(codec, d, schedule).pending)
    decreases |schedule|
  {
    hide Step, TotalNodes;
    if schedule != [] {
      StepTakesOne(codec, d, schedule[0]);
      RunTakes(codec, Step(codec, d, schedule[0]), schedule[1..]);
    }
  }

  lemma {:induction false} NothingLeft(pending: seq<seq<ScVal>>)
    ensures TotalNodes(pending) == 0 <==> forall i | 0 <= i < |pending| :: pending[i] == []
  {
    hide Nodes;
    if pending != [] {
      var n := |pending| - 1;
      NothingLeft(pending[..n]);
      assert forall i | 0 <= i < n :: pending[..n][i] == pending[i];
    }
  }

  lemma {:induction false} EachAloneHolds(values: seq<ScVal>)
    ensures TotalNodes(EachAlone(values)) == NodesIn(values)
  {
    hide Nodes;
    if values != [] {
      var init, v := values[..|values| - 1], values[|values| - 1];
      assert EachAlone(values) == EachAlone(init) + [[v]];
      assert (EachAlone(init) + [[v]])[..|init|] == EachAlone(init);
      EachAloneHolds(init);
      NodesOfOne(v);
    }
  }

  /** No schedule gets stuck and none goes on for ever: it has finished exactly when it has
      taken as many steps as there are values, and until then some decode can go on. */
  lemma {:induction false} EveryScheduleEnds(codec: Codec, values: seq<ScVal>, counter: int, schedule: seq<nat>)
    requires CanRun(codec, Decodes(EachAlone(values), counter), schedule)
    ensures |schedule| <= NodesIn(values)
    ensures var d := Run(codec, Decodes(EachAlone(values), counter), schedule);
            && (Finished(d) <==> |schedule| == NodesIn(values))
            && (Finished(d) <==> !exists i: nat :: CanStep(d, i))
  {
    hide Run, CanRun, NodesIn, TotalNodes, EachAlone;
    var d := Decodes(EachAlone(values), counter);
    RunTakes(codec, d, schedule);
    EachAloneHolds(values);
    var t := Run(codec, d, schedule);
    NothingLeft(t.pending);
    if !Finished(t) {
      var i :| 0 <= i < |t.pending| && t.pending[i] != [];
      assert CanStep(t, i);
    }
  }
}
