/** The migration runner: every migration runs in one transaction together with the
    row that records it, and any call to the database may fail. */
module Migrations {
  import opened Wrappers
  import opened Splitter

  /** One numbered schema change and its reversal. */
  datatype Migration = Migration(version: int, name: string, up: string, down: string)

  /** Versions start at 1 and have no gaps. */
  predicate Contiguous(ms: seq<Migration>) {
    forall i | 0 <= i < |ms| :: ms[i].version == i + 1
  }

  // ---- What a migration does to a schema, for an engine given by its effect ----

  type Engine<!S> = (S, string) -> Option<S>

  function ExecAll<S>(exec: Engine<S>, schema: S, statements: seq<string>): Option<S> {
    if statements == [] then Some(schema)
    else
      var r := ExecAll(exec, schema, statements[..|statements| - 1]);
      if r.None? then None else exec(r.value, statements[|statements| - 1])
  }

  /** The effect of a file: it must split, hold a statement, and every statement must run. */
  function Effect<S>(exec: Engine<S>, schema: S, body: string): Option<S> {
    var statements := Statements(body);
    if statements.Err? || statements.value == [] then None else ExecAll(exec, schema, statements.value)
  }

  // ---- What running a file means, state by state ----

  /** Every statement ran, in order, each one on the schema the one before it left. */
  ghost predicate Ran<S>(exec: Engine<S>, schemas: seq<S>, statements: seq<string>) {
    && |schemas| == |statements| + 1
    && forall i | 0 <= i < |statements| :: exec(schemas[i], statements[i]) == Some(schemas[i + 1])
  }

  ghost predicate RanBetween<S>(exec: Engine<S>, schemas: seq<S>, statements: seq<string>, from: S, to: S) {
    Ran(exec, schemas, statements) && schemas[0] == from && schemas[|statements|] == to
  }

  /** A file takes one schema to another: it splits, holds a statement, and all of them ran. */
  ghost predicate Takes<S(!new)>(exec: Engine<S>, body: string, from: S, to: S) {
    && Statements(body).Ok? && Statements(body).value != []
    && exists schemas: seq<S> :: RanBetween(exec, schemas, Statements(body).value, from, to)
  }

  ghost predicate Runs<S(!new)>(exec: Engine<S>, body: string, from: S) {
    exists to: S :: Takes(exec, body, from, to)
  }

  function Body(ms: seq<Migration>, version: int, forward: bool): string {
    if 1 <= version <= |ms| then if forward then ms[version - 1].up else ms[version - 1].down else ""
  }

  /** The files of some versions took the schema on, one version after the other. */
  ghost predicate Carried<S(!new)>(exec: Engine<S>, ms: seq<Migration>, versions: seq<int>, forward: bool,
                                   schemas: seq<S>) {
    && |schemas| == |versions| + 1
    && forall j | 0 <= j < |versions| ::
         1 <= versions[j] <= |ms| && Takes(exec, Body(ms, versions[j], forward), schemas[j], schemas[j + 1])
  }

  ghost predicate CarriedBetween<S(!new)>(exec: Engine<S>, ms: seq<Migration>, versions: seq<int>, forward: bool,
                                          schemas: seq<S>, from: S, to: S) {
    Carried(exec, ms, versions, forward, schemas) && schemas[0] == from && schemas[|versions|] == to
  }

  ghost predicate Carries<S(!new)>(exec: Engine<S>, ms: seq<Migration>, versions: seq<int>, forward: bool, from: S,
                                   to: S) {
    exists schemas: seq<S> :: CarriedBetween(exec, ms, versions, forward, schemas, from, to)
  }

  ghost predicate CanCarry<S(!new)>(exec: Engine<S>, ms: seq<Migration>, versions: seq<int>, forward: bool, from: S) {
    exists to: S :: Carries(exec, ms, versions, forward, from, to)
  }

  /** The schema that migrations 1..k build from an empty database. */
  function SchemaAt<S>(exec: Engine<S>, initial: S, ms: seq<Migration>, k: nat): Option<S>
    requires k <= |ms|
  {
    if k == 0 then Some(initial)
    else
      var r := SchemaAt(exec, initial, ms, k - 1);
      if r.None? then None else Effect(exec, r.value, ms[k - 1].up)
  }

  /** Each down file, whenever it runs, undoes its up file. */
  ghost predicate Reversible<S>(exec: Engine<S>, initial: S, ms: seq<Migration>) {
    forall k | 1 <= k <= |ms| && SchemaAt(exec, initial, ms, k).Some? ::
      var r := Effect(exec, SchemaAt(exec, initial, ms, k).value, ms[k - 1].down);
      r.None? || r == SchemaAt(exec, initial, ms, k - 1)
  }

  /** The down files of the versions above low, up to high, all run on the schema they meet. */
  ghost predicate DownsRun<S>(exec: Engine<S>, initial: S, ms: seq<Migration>, low: nat, high: nat)
    requires high <= |ms|
  {
    forall k: nat | low < k <= high && SchemaAt(exec, initial, ms, k).Some? ::
      Effect(exec, SchemaAt(exec, initial, ms, k).value, ms[k - 1].down).Some?
  }

  // ---- Sets of versions ----

  predicate Within(low: int, v: int, high: int) {
    low < v <= high
  }

  function Versions(low: int, high: int): set<int> {
    set v | low < v <= high && Within(low, v, high)
  }

  lemma {:induction false} VersionsSize(k: nat)
    ensures |Versions(0, k)| == k
  {
    if k > 0 {
      VersionsSize(k - 1);
      assert Versions(0, k) == Versions(0, k - 1) + {k};
    }
  }

  function Elements(s: seq<int>): set<int> {
    set v | v in s
  }

  function Lesser(a: int, b: int): int {
    if a < b then a else b
  }

  function Greater(a: int, b: int): int {
    if a < b then b else a
  }

  /** The versions of 1..c that are not recorded, in order. */
  function Missing(recorded: set<int>, c: nat): seq<int> {
    if c == 0 then []
    else Missing(recorded, c - 1) + (if c in recorded then [] else [c])
  }

  /** The recorded versions above c and up to n, newest first. */
  function Above(recorded: set<int>, c: nat, n: nat): seq<int>
    decreases n - c
  {
    if n <= c then []
    else Above(recorded, c + 1, n) + (if c + 1 in recorded then [c + 1] else [])
  }

  /** lo+1, ..., hi. */
  function Rising(lo: nat, hi: nat): seq<int>
    decreases hi
  {
    if hi <= lo then [] else Rising(lo, hi - 1) + [hi]
  }

  /** hi, ..., lo+1. */
  function Falling(lo: nat, hi: nat): seq<int>
    decreases hi - lo
  {
    if hi <= lo then [] else Falling(lo + 1, hi) + [lo + 1]
  }

  /** What ran is what was missing up to some version, the last one on success. */
  ghost predicate RanUpTo(recorded: set<int>, n: nat, ran: seq<int>, ok: bool) {
    exists c | 0 <= c <= n :: ran == Missing(recorded, c) && (ok ==> c == n)
  }

  /** What was reversed is what was recorded above some version, the target on success. */
  ghost predicate RevertedDownTo(recorded: set<int>, n: nat, target: nat, reverted: seq<int>, ok: bool) {
    exists c: nat | target <= c :: reverted == Above(recorded, c, n) && (ok ==> c == target)
  }

  lemma {:induction false} RanTo(recorded: set<int>, n: nat, c: nat)
    requires c <= n
    ensures RanUpTo(recorded, n, Missing(recorded, c), c == n)
    ensures RanUpTo(recorded, n, Missing(recorded, c), false)
  {
    hide Missing;
  }

  lemma {:induction false} RevertedTo(recorded: set<int>, n: nat, target: nat, c: nat)
    requires target <= c
    ensures RevertedDownTo(recorded, n, target, Above(recorded, c, n), c == target)
    ensures RevertedDownTo(recorded, n, target, Above(recorded, c, n), false)
  {
    hide Above;
  }

  lemma {:induction false} MissingElements(recorded: set<int>, c: nat)
    ensures Elements(Missing(recorded, c)) == Versions(0, c) - recorded
  {
    if c > 0 {
      MissingElements(recorded, c - 1);
      assert forall v :: v in Elements(Missing(recorded, c)) <==>
        v in Elements(Missing(recorded, c - 1)) || (v == c && c !in recorded);
      assert Versions(0, c) == Versions(0, c - 1) + {c};
    }
  }

  lemma {:induction false} AboveElements(recorded: set<int>, c: nat, n: nat)
    ensures Elements(Above(recorded, c, n)) == Versions(c, n) * recorded
    decreases n - c
  {
    if c < n {
      AboveElements(recorded, c + 1, n);
      var newest, rest := if c + 1 in recorded then [c + 1] else [], Above(recorded, c + 1, n);
      assert Elements(rest + newest) == Elements(rest) + Elements(newest);
      assert Versions(c, n) == Versions(c + 1, n) + {c + 1};
    }
  }

  /** Oldest first: the missing versions are those of 1..c not recorded, each once, rising. */
  lemma {:induction false} MissingRises(recorded: set<int>, c: nat)
    ensures forall v :: v in Missing(recorded, c) <==> 1 <= v <= c && v !in recorded
    ensures forall i, j | 0 <= i < j < |Missing(recorded, c)| :: Missing(recorded, c)[i] < Missing(recorded, c)[j]
  {
    if c > 0 {
      var init := Missing(recorded, c - 1);
      MissingRises(recorded, c - 1);
      assert forall i | 0 <= i < |init| :: init[i] in init;
    }
  }

  /** Newest first: the versions to reverse are the recorded ones of c+1..n, each once, falling. */
  lemma {:induction false} AboveFalls(recorded: set<int>, c: nat, n: nat)
    ensures forall v :: v in Above(recorded, c, n) <==> c < v <= n && v in recorded
    ensures forall i, j | 0 <= i < j < |Above(recorded, c, n)| :: Above(recorded, c, n)[j] < Above(recorded, c, n)[i]
    decreases n - c
  {
    if c < n {
      var init := Above(recorded, c + 1, n);
      AboveFalls(recorded, c + 1, n);
      assert forall i | 0 <= i < |init| :: init[i] in init;
    }
  }

  /** A complete Up records everything from 1 to n. */
  lemma {:induction false} AllRan(recorded: set<int>, n: nat)
    ensures recorded + Elements(Missing(recorded, n)) == recorded + Versions(0, n)
  {
    MissingElements(recorded, n);
  }

  /** A complete Down leaves nothing recorded from target + 1 to n. */
  lemma {:induction false} AllReverted(recorded: set<int>, target: nat, n: nat)
    ensures recorded - Elements(Above(recorded, target, n)) == recorded - Versions(target, n)
  {
    AboveElements(recorded, target, n);
  }

  /** What is missing from 1..k, up to c, is k+1..c. */
  lemma {:induction false} MissingFromPrefix(k: nat, c: nat)
    ensures Missing(Versions(0, k), c) == Rising(k, c)
  {
    if c > 0 {
      MissingFromPrefix(k, c - 1);
    }
  }

  /** What 1..k records above c is k, ..., c+1. */
  lemma {:induction false} AboveInPrefix(k: nat, c: nat, n: nat)
    requires k <= n
    ensures Above(Versions(0, k), c, n) == Falling(c, k)
    decreases n - c
  {
    if c < n {
      AboveInPrefix(k, c + 1, n);
    }
  }

  predicate IsPrefix(recorded: set<int>) {
    recorded == Versions(0, |recorded|)
  }

  /** A complete Down with n migration files takes 1..k to a prefix exactly when the files
      cover what is recorded, or there is nothing among them to reverse. */
  lemma {:induction false} DownKeepsPrefix(k: nat, n: nat, target: nat)
    ensures IsPrefix(Versions(0, k) - Versions(target, n)) <==> k <= n || n <= target
  {
    var left := Versions(0, k) - Versions(target, n);
    if n <= target {
      assert left == Versions(0, k);
      VersionsSize(k);
    } else if k <= n {
      var m := if k < target then k else target;
      assert left == Versions(0, m);
      VersionsSize(m);
    } else {
      assert k in left && target + 1 !in left;
      assert IsPrefix(left) ==> left == Versions(0, |left|) && k in Versions(0, |left|);
    }
  }

  // ---- Steps of a run ----

  /** The recorded versions are a prefix of the files, and the schema is what they build. */
  ghost predicate Consistent<S>(exec: Engine<S>, initial: S, ms: seq<Migration>, schema: S, recorded: set<int>) {
    && IsPrefix(recorded) && |recorded| <= |ms|
    && SchemaAt(exec, initial, ms, |recorded|) == Some(schema)
  }

  lemma {:induction false} ExecAllStops<S>(exec: Engine<S>, schema: S, statements: seq<string>, k: nat)
    requires k <= |statements| && ExecAll(exec, schema, statements[..k]).None?
    ensures ExecAll(exec, schema, statements).None?
  {
    if k == |statements| {
      assert statements[..k] == statements;
    } else {
      assert statements[..|statements| - 1][..k] == statements[..k];
      ExecAllStops(exec, schema, statements[..|statements| - 1], k);
    }
  }

  lemma EffectSplits<S>(exec: Engine<S>, schema: S, body: string)
    ensures Effect(exec, schema, body) ==
            match Statements(body)
            case Err(_) => None
            case Ok(statements) => if statements == [] then None else ExecAll(exec, schema, statements)
  {
    hide Statements, ExecAll;
  }

  lemma ExecNothing<S>(exec: Engine<S>, schema: S, statements: seq<string>)
    ensures ExecAll(exec, schema, statements[..0]) == Some(schema)
  {
  }

  lemma ExecOneMore<S>(exec: Engine<S>, schema: S, statements: seq<string>, i: nat, reached: S)
    requires i < |statements| && ExecAll(exec, schema, statements[..i]) == Some(reached)
    ensures ExecAll(exec, schema, statements[..i + 1]) == exec(reached, statements[i])
  {
    assert statements[..i + 1][..i] == statements[..i];
  }

  lemma {:induction false} SchemaStops<S>(exec: Engine<S>, initial: S, ms: seq<Migration>, k: nat, n: nat)
    requires k <= n <= |ms| && SchemaAt(exec, initial, ms, k).None?
    ensures SchemaAt(exec, initial, ms, n).None?
  {
    hide Effect;
    if k < n {
      SchemaStops(exec, initial, ms, k, n - 1);
    }
  }

  lemma {:induction false} ApplyKeeps<S>(exec: Engine<S>, initial: S, ms: seq<Migration>, schema: S,
                                         recorded: set<int>, schema': S)
    requires Consistent(exec, initial, ms, schema, recorded) && |recorded| < |ms|
    requires Effect(exec, schema, ms[|recorded|].up) == Some(schema')
    ensures var recorded' := recorded + {|recorded| + 1};
            Consistent(exec, initial, ms, schema', recorded') && |recorded'| == |recorded| + 1
  {
    hide Effect;
    var k := |recorded|;
    assert recorded + {k + 1} == Versions(0, k + 1);
    VersionsSize(k + 1);
  }

  lemma {:induction false} RevertKeeps<S>(exec: Engine<S>, initial: S, ms: seq<Migration>, schema: S,
                                          recorded: set<int>, schema': S)
    requires Consistent(exec, initial, ms, schema, recorded) && 0 < |recorded|
    requires Reversible(exec, initial, ms)
    requires Effect(exec, schema, ms[|recorded| - 1].down) == Some(schema')
    ensures var recorded' := recorded - {|recorded|};
            Consistent(exec, initial, ms, schema', recorded') && |recorded'| == |recorded| - 1
  {
    hide Effect;
    var k := |recorded|;
    assert recorded - {k} == Versions(0, k - 1);
    VersionsSize(k - 1);
  }

  lemma {:induction false} NothingRan(recorded: set<int>)
    ensures Missing(recorded, 0) == [] && Elements([]) == {} && recorded + Elements([]) == recorded
  {
  }

  lemma {:induction false} OneMoreRan(recorded: set<int>, ran: seq<int>, v: nat)
    requires v > 0 && ran == Missing(recorded, v - 1)
    ensures Missing(recorded, v) == if v in recorded then ran else ran + [v]
    ensures v !in recorded ==> recorded + Elements(ran + [v]) == recorded + Elements(ran) + {v}
  {
    assert Elements(ran + [v]) == Elements(ran) + {v};
  }

  lemma {:induction false} NothingReverted(recorded: set<int>, n: nat)
    ensures forall c: nat | n <= c :: Above(recorded, c, n) == []
    ensures Elements([]) == {} && recorded - Elements([]) == recorded && Falling(|recorded|, |recorded|) == []
  {
  }

  lemma {:induction false} OneMoreReverted(recorded: set<int>, reverted: seq<int>, v: nat, n: nat)
    requires 0 < v <= n && reverted == Above(recorded, v, n)
    ensures Above(recorded, v - 1, n) == if v in recorded then reverted + [v] else reverted
    ensures recorded - Elements(reverted + [v]) == recorded - Elements(reverted) - {v}
  {
    assert Elements(reverted + [v]) == Elements(reverted) + {v};
  }

  /** Starting from 1..k, what has been reversed above c is k, ..., c+1. */
  lemma {:induction false} PrefixReverted(recorded: set<int>, c: nat, n: nat)
    requires IsPrefix(recorded) && |recorded| <= n
    ensures Above(recorded, c, n) == Falling(Lesser(|recorded|, c), |recorded|)
  {
    AboveInPrefix(|recorded|, c, n);
  }

  /** In a consistent state the next version is recorded exactly when it is not above the level. */
  lemma {:induction false} NextVersion(recorded: set<int>, v: nat)
    requires IsPrefix(recorded) && v > 0
    ensures v in recorded <==> v <= |recorded|
  {
  }

  /** Starting from 1..k, what has run up to c is k+1..c. */
  lemma {:induction false} PrefixRan(recorded: set<int>, c: nat)
    requires IsPrefix(recorded)
    ensures Missing(recorded, c) == Rising(|recorded|, Greater(|recorded|, c))
  {
    MissingFromPrefix(|recorded|, c);
  }

  lemma {:induction false} ConsistentFacts<S>(exec: Engine<S>, initial: S, ms: seq<Migration>, schema: S,
                                              recorded: set<int>)
    requires Consistent(exec, initial, ms, schema, recorded)
    ensures IsPrefix(recorded) && |recorded| <= |ms| && SchemaAt(exec, initial, ms, |recorded|) == Some(schema)
  {
  }

  lemma {:induction false} NextFails<S>(exec: Engine<S>, initial: S, ms: seq<Migration>, schema: S, recorded: set<int>)
    requires Consistent(exec, initial, ms, schema, recorded) && |recorded| < |ms|
    ensures Effect(exec, schema, ms[|recorded|].up).Some? || SchemaAt(exec, initial, ms, |ms|).None?
  {
    if Effect(exec, schema, ms[|recorded|].up).None? {
      SchemaStops(exec, initial, ms, |recorded| + 1, |ms|);
    }
  }

  /** The next version in a consistent state: it is not recorded yet, running it goes one
      level up, and if its file does not run there is no top level. */
  lemma {:induction false} OneUp<S>(exec: Engine<S>, initial: S, ms: seq<Migration>, i: nat, schema: S,
                                    recorded: map<int, string>, schema': S)
    requires Consistent(exec, initial, ms, schema, recorded.Keys) && |recorded.Keys| == i < |ms|
    ensures i + 1 !in recorded
    ensures Effect(exec, schema, ms[i].up) == Some(schema') ==>
              var next := recorded[i + 1 := ms[i].name];
              Consistent(exec, initial, ms, schema', next.Keys) && |next.Keys| == i + 1
    ensures Effect(exec, schema, ms[i].up).None? ==> SchemaAt(exec, initial, ms, |ms|).None?
  {
    hide Effect, SchemaAt, Consistent, IsPrefix;
    ConsistentFacts(exec, initial, ms, schema, recorded.Keys);
    NextVersion(recorded.Keys, i + 1);
    NextFails(exec, initial, ms, schema, recorded.Keys);
    assert recorded[i + 1 := ms[i].name].Keys == recorded.Keys + {i + 1};
    if Effect(exec, schema, ms[i].up) == Some(schema') {
      ApplyKeeps(exec, initial, ms, schema, recorded.Keys, schema');
    }
  }

  /** One more down file decides whether all of them run. */
  lemma {:induction false} NextDown<S>(exec: Engine<S>, initial: S, ms: seq<Migration>, schema: S, low: nat, k: nat,
                                       high: nat)
    requires low < k <= high <= |ms| && SchemaAt(exec, initial, ms, k) == Some(schema)
    ensures Effect(exec, schema, ms[k - 1].down).None? ==> !DownsRun(exec, initial, ms, low, high)
    ensures Effect(exec, schema, ms[k - 1].down).Some? && DownsRun(exec, initial, ms, k, high) ==>
              DownsRun(exec, initial, ms, k - 1, high)
  {
    hide Effect, SchemaAt;
  }

  lemma {:induction false} NoDownsToRun<S>(exec: Engine<S>, initial: S, ms: seq<Migration>, high: nat)
    requires high <= |ms|
    ensures forall low: nat | high <= low :: DownsRun(exec, initial, ms, low, high)
  {
  }

  // ---- The effect of a file is what running it means ----

  /** Running a file's statements one by one comes to a schema exactly when there are states
      in between, each the effect of its statement on the one before. */
  lemma {:induction false} ExecAllRan<S(!new)>(exec: Engine<S>, from: S, statements: seq<string>, to: S)
    ensures ExecAll(exec, from, statements) == Some(to) <==>
              exists schemas: seq<S> :: RanBetween(exec, schemas, statements, from, to)
  {
    if ExecAll(exec, from, statements) == Some(to) {
      var schemas := ExecAllStates(exec, from, statements, to);
    }
    if schemas: seq<S> :| RanBetween(exec, schemas, statements, from, to) {
      RanIsExecAll(exec, schemas, statements, |statements|);
      assert statements[..|statements|] == statements;
    }
  }

  lemma {:induction false} ExecAllStates<S>(exec: Engine<S>, from: S, statements: seq<string>, to: S)
    returns (schemas: seq<S>)
    requires ExecAll(exec, from, statements) == Some(to)
    ensures RanBetween(exec, schemas, statements, from, to)
  {
    if statements == [] {
      schemas := [from];
    } else {
      var n := |statements| - 1;
      var init := ExecAllStates(exec, from, statements[..n], ExecAll(exec, from, statements[..n]).value);
      schemas := init + [to];
      forall i | 0 <= i < |statements|
        ensures exec(schemas[i], statements[i]) == Some(schemas[i + 1])
      {
        assert i < n ==> statements[i] == statements[..n][i];
      }
    }
  }

  lemma {:induction false} RanIsExecAll<S>(exec: Engine<S>, schemas: seq<S>, statements: seq<string>, k: nat)
    requires Ran(exec, schemas, statements) && k <= |statements|
    ensures ExecAll(exec, schemas[0], statements[..k]) == Some(schemas[k])
  {
    if k > 0 {
      RanIsExecAll(exec, schemas, statements, k - 1);
      assert statements[..k][..k - 1] == statements[..k - 1];
    }
  }

  lemma {:induction false} EffectTakes<S(!new)>(exec: Engine<S>, body: string, from: S, to: S)
    ensures Effect(exec, from, body) == Some(to) <==> Takes(exec, body, from, to)
  {
    hide Statements, ExecAll, RanBetween;
    if Statements(body).Ok? {
      ExecAllRan(exec, from, Statements(body).value, to);
    }
  }

  lemma {:induction false} EffectRuns<S(!new)>(exec: Engine<S>, body: string, from: S)
    ensures Effect(exec, from, body).Some? <==> Runs(exec, body, from)
  {
    hide Effect, Takes;
    if Effect(exec, from, body).Some? {
      EffectTakes(exec, body, from, Effect(exec, from, body).value);
    }
    if to: S :| Takes(exec, body, from, to) {
      EffectTakes(exec, body, from, to);
    }
  }

  lemma {:induction false} CarriesNone<S(!new)>(exec: Engine<S>, ms: seq<Migration>, forward: bool, from: S)
    ensures Carries(exec, ms, [], forward, from, from)
  {
    assert CarriedBetween(exec, ms, [], forward, [from], from, from);
  }

  lemma {:induction false} CarriesOneMore<S(!new)>(exec: Engine<S>, ms: seq<Migration>, versions: seq<int>,
                                                   forward: bool, from: S, at: S, version: int, to: S)
    requires Carries(exec, ms, versions, forward, from, at)
    requires 1 <= version <= |ms| && Takes(exec, Body(ms, version, forward), at, to)
    ensures Carries(exec, ms, versions + [version], forward, from, to)
  {
    hide Takes, Body;
    var schemas :| CarriedBetween(exec, ms, versions, forward, schemas, from, at);
    assert CarriedBetween(exec, ms, versions + [version], forward, schemas + [to], from, to);
  }

  /** A file takes a schema to one schema only. */
  lemma {:induction false} TakesToOne<S(!new)>(exec: Engine<S>, body: string, from: S, a: S, b: S)
    requires Takes(exec, body, from, a) && Takes(exec, body, from, b)
    ensures a == b
  {
    hide Takes, Effect;
    EffectTakes(exec, body, from, a);
    EffectTakes(exec, body, from, b);
  }

  lemma {:induction false} CarriedToOne<S(!new)>(exec: Engine<S>, ms: seq<Migration>, forward: bool,
                                                 versions: seq<int>, a: seq<S>, more: seq<int>, b: seq<S>, k: nat)
    requires Carried(exec, ms, versions, forward, a) && Carried(exec, ms, more, forward, b)
    requires versions <= more && a[0] == b[0] && k <= |versions|
    ensures a[k] == b[k]
  {
    hide Takes, Body;
    if k > 0 {
      CarriedToOne(exec, ms, forward, versions, a, more, b, k - 1);
      assert versions[k - 1] == more[k - 1];
      TakesToOne(exec, Body(ms, versions[k - 1], forward), a[k - 1], a[k], b[k]);
    }
  }

  lemma {:induction false} RunsNext<S(!new)>(exec: Engine<S>, ms: seq<Migration>, forward: bool, versions: seq<int>,
                                             from: S, at: S, more: seq<int>, to: S)
    requires Carries(exec, ms, versions, forward, from, at) && Carries(exec, ms, more, forward, from, to)
    requires |versions| < |more| && versions <= more
    ensures Runs(exec, Body(ms, more[|versions|], forward), at)
  {
    hide Takes, Body;
    var k := |versions|;
    var a :| CarriedBetween(exec, ms, versions, forward, a, from, at);
    var b :| CarriedBetween(exec, ms, more, forward, b, from, to);
    CarriedToOne(exec, ms, forward, versions, a, more, b, k);
    assert Takes(exec, Body(ms, more[k], forward), b[k], b[k + 1]);
  }

  /** A file that does not run where the ones before it lead blocks the whole series. */
  lemma {:induction false} BlocksTheRest<S(!new)>(exec: Engine<S>, ms: seq<Migration>, forward: bool,
                                                  versions: seq<int>, from: S, at: S, more: seq<int>)
    requires Carries(exec, ms, versions, forward, from, at)
    requires |versions| < |more| && versions <= more && !Runs(exec, Body(ms, more[|versions|], forward), at)
    ensures !CanCarry(exec, ms, more, forward, from)
  {
    hide Carries, Runs, Body;
    if to: S :| Carries(exec, ms, more, forward, from, to) {
      RunsNext(exec, ms, forward, versions, from, at, more, to);
    }
  }

  /** The schema of a level is what running the up files of 1..k, in order, makes of an empty
      database, and there is none exactly when one of them does not run. */
  lemma {:induction false} SchemaIsBuilt<S(!new)>(exec: Engine<S>, initial: S, ms: seq<Migration>, k: nat, schema: S)
    requires k <= |ms|
    ensures SchemaAt(exec, initial, ms, k) == Some(schema) <==>
              Carries(exec, ms, Rising(0, k), true, initial, schema)
  {
    hide Effect, Takes, Carries;
    if k == 0 {
      CarriesNone(exec, ms, true, initial);
      if Carries(exec, ms, [], true, initial, schema) {
        CarriesNowhere(exec, ms, initial, schema);
      }
    } else if SchemaAt(exec, initial, ms, k - 1).Some? {
      var before := SchemaAt(exec, initial, ms, k - 1).value;
      SchemaIsBuilt(exec, initial, ms, k - 1, before);
      EffectTakes(exec, ms[k - 1].up, before, schema);
      if SchemaAt(exec, initial, ms, k) == Some(schema) {
        CarriesOneMore(exec, ms, Rising(0, k - 1), true, initial, before, k, schema);
      }
      if Carries(exec, ms, Rising(0, k), true, initial, schema) {
        var at := CarriesLast(exec, ms, Rising(0, k - 1), true, initial, k, schema);
        CarriesToOne(exec, ms, Rising(0, k - 1), true, initial, at, before);
      }
    } else if Carries(exec, ms, Rising(0, k), true, initial, schema) {
      var at := CarriesLast(exec, ms, Rising(0, k - 1), true, initial, k, schema);
      SchemaIsBuilt(exec, initial, ms, k - 1, at);
    }
  }

  lemma CarriesNowhere<S(!new)>(exec: Engine<S>, ms: seq<Migration>, from: S, to: S)
    requires Carries(exec, ms, [], true, from, to)
    ensures from == to
  {
  }

  lemma {:induction false} CarriesToOne<S(!new)>(exec: Engine<S>, ms: seq<Migration>, versions: seq<int>,
                                                 forward: bool, from: S, a: S, b: S)
    requires Carries(exec, ms, versions, forward, from, a) && Carries(exec, ms, versions, forward, from, b)
    ensures a == b
  {
    hide Takes, Body;
    var x :| CarriedBetween(exec, ms, versions, forward, x, from, a);
    var y :| CarriedBetween(exec, ms, versions, forward, y, from, b);
    CarriedToOne(exec, ms, forward, versions, x, versions, y, |versions|);
  }

  lemma {:induction false} CarriesLast<S(!new)>(exec: Engine<S>, ms: seq<Migration>, versions: seq<int>,
                                                forward: bool, from: S, version: int, to: S) returns (at: S)
    requires Carries(exec, ms, versions + [version], forward, from, to)
    ensures Carries(exec, ms, versions, forward, from, at)
    ensures 1 <= version <= |ms| && Takes(exec, Body(ms, version, forward), at, to)
  {
    hide Takes, Body;
    var all := versions + [version];
    var schemas :| CarriedBetween(exec, ms, all, forward, schemas, from, to);
    var n := |versions|;
    at := schemas[n];
    assert all[n] == version && forall j | 0 <= j < n :: all[j] == versions[j];
    assert CarriedBetween(exec, ms, versions, forward, schemas[..n + 1], from, at);
  }

  lemma {:induction false} MissingGrows(recorded: set<int>, c: nat, n: nat)
    requires c <= n
    ensures Missing(recorded, c) <= Missing(recorded, n)
  {
    if c < n {
      MissingGrows(recorded, c, n - 1);
    }
  }

  lemma {:induction false} AboveGrows(recorded: set<int>, c: nat, d: nat, n: nat)
    requires c <= d
    ensures Above(recorded, d, n) <= Above(recorded, c, n)
    decreases d - c
  {
    if c < d {
      AboveGrows(recorded, c + 1, d, n);
    }
  }

  /** Every row carries its file's name if it is new, and what it carried before if not. */
  predicate NamesRecorded(ms: seq<Migration>, before: map<int, string>, after: map<int, string>) {
    forall v | v in after ::
      if v in before then after[v] == before[v] else 1 <= v <= |ms| && after[v] == ms[v - 1].name
  }

  lemma NamesStay(ms: seq<Migration>, before: map<int, string>)
    ensures NamesRecorded(ms, before, before)
  {
  }

  lemma NameJoins(ms: seq<Migration>, before: map<int, string>, after: map<int, string>, v: int)
    requires NamesRecorded(ms, before, after) && v !in before && 1 <= v <= |ms|
    ensures NamesRecorded(ms, before, after[v := ms[v - 1].name])
  {
  }

  lemma NameLeaves(ms: seq<Migration>, before: map<int, string>, after: map<int, string>, v: int)
    requires NamesRecorded(ms, before, after)
    ensures NamesRecorded(ms, before, after - {v})
  {
  }

  lemma CarriesCan<S(!new)>(exec: Engine<S>, ms: seq<Migration>, versions: seq<int>, forward: bool, from: S, to: S)
    requires Carries(exec, ms, versions, forward, from, to)
    ensures CanCarry(exec, ms, versions, forward, from)
  {
    hide Carries;
  }

  lemma {:induction false} NotYetRan(applied: set<int>, ran: seq<int>, i: nat)
    requires ran == Missing(applied, i) && i + 1 !in applied
    ensures i + 1 !in applied + Elements(ran)
  {
    MissingElements(applied, i);
  }

  lemma {:induction false} UpIsBlocked<S(!new)>(exec: Engine<S>, ms: seq<Migration>, applied: set<int>,
                                                ran: seq<int>, i: nat, from: S, at: S)
    requires i < |ms| && ran == Missing(applied, i) && i + 1 !in applied
    requires Carries(exec, ms, ran, true, from, at) && !Runs(exec, ms[i].up, at)
    ensures !CanCarry(exec, ms, Missing(applied, |ms|), true, from)
  {
    hide Carries, Runs, CanCarry;
    MissingGrows(applied, i + 1, |ms|);
    assert Missing(applied, i + 1) == ran + [i + 1];
    assert Missing(applied, |ms|)[|ran|] == Missing(applied, i + 1)[|ran|];
    BlocksTheRest(exec, ms, true, ran, from, at, Missing(applied, |ms|));
  }

  lemma {:induction false} DownIsBlocked<S(!new)>(exec: Engine<S>, ms: seq<Migration>, applied: set<int>,
                                                  reverted: seq<int>, target: nat, i: nat, from: S, at: S)
    requires target <= i < |ms| && reverted == Above(applied, i + 1, |ms|) && i + 1 in applied
    requires Carries(exec, ms, reverted, false, from, at) && !Runs(exec, ms[i].down, at)
    ensures !CanCarry(exec, ms, Above(applied, target, |ms|), false, from)
  {
    hide Carries, Runs, CanCarry;
    AboveGrows(applied, target, i, |ms|);
    assert Above(applied, i, |ms|) == reverted + [i + 1];
    assert Above(applied, target, |ms|)[|reverted|] == Above(applied, i, |ms|)[|reverted|];
    BlocksTheRest(exec, ms, false, reverted, from, at, Above(applied, target, |ms|));
  }

  // ---- An Up under way ----

  /** Every version up to i has been dealt with. */
  ghost predicate Ascended<S(!new)>(exec: Engine<S>, initial: S, ms: seq<Migration>, before: map<int, string>, i: nat,
                                    start: S, ran: seq<int>, schema: S, recorded: map<int, string>, good: bool) {
    && i <= |ms|
    && ran == Missing(before.Keys, i)
    && recorded.Keys == before.Keys + Elements(ran) && NamesRecorded(ms, before, recorded)
    && Carries(exec, ms, ran, true, start, schema)
    && (ran == [] ==> schema == start && recorded == before)
    && (good ==>
          && IsPrefix(before.Keys) && Consistent(exec, initial, ms, schema, recorded.Keys)
          && |recorded.Keys| == Greater(|before.Keys|, i))
  }

  lemma {:induction false} AscentStarts<S(!new)>(exec: Engine<S>, initial: S, ms: seq<Migration>,
                                                 before: map<int, string>, start: S, good: bool)
    requires good ==> Consistent(exec, initial, ms, start, before.Keys)
    ensures Ascended(exec, initial, ms, before, 0, start, [], start, before, good)
  {
    hide Carries, SchemaAt, NamesRecorded;
    NothingRan(before.Keys);
    NamesStay(ms, before);
    CarriesNone(exec, ms, true, start);
  }

  lemma {:induction false} AscentSkips<S(!new)>(exec: Engine<S>, initial: S, ms: seq<Migration>,
                                                before: map<int, string>, i: nat, start: S, ran: seq<int>, schema: S,
                                                recorded: map<int, string>, good: bool)
    requires Ascended(exec, initial, ms, before, i, start, ran, schema, recorded, good)
    requires i < |ms| && i + 1 in before
    ensures Ascended(exec, initial, ms, before, i + 1, start, ran, schema, recorded, good)
  {
    hide Carries, Consistent, NamesRecorded, Elements;
    OneMoreRan(before.Keys, ran, i + 1);
    if good {
      NextVersion(before.Keys, i + 1);
    }
    hide IsPrefix;
  }

  lemma {:induction false} AscentMeets<S(!new)>(exec: Engine<S>, initial: S, ms: seq<Migration>,
                                                before: map<int, string>, i: nat, start: S, ran: seq<int>, schema: S,
                                                recorded: map<int, string>, good: bool)
    requires Ascended(exec, initial, ms, before, i, start, ran, schema, recorded, good)
    requires i < |ms| && i + 1 !in before
    ensures i + 1 !in recorded
    ensures good ==> Consistent(exec, initial, ms, schema, recorded.Keys) && |recorded.Keys| == i
  {
    hide Carries, Consistent, NamesRecorded, Elements, Missing;
    NotYetRan(before.Keys, ran, i);
    if good {
      NextVersion(before.Keys, i + 1);
    }
    hide IsPrefix;
  }

  lemma {:induction false} AscentTakes<S(!new)>(exec: Engine<S>, initial: S, ms: seq<Migration>,
                                                before: map<int, string>, i: nat, start: S, ran: seq<int>, schema: S,
                                                recorded: map<int, string>, good: bool, schema': S)
    requires Ascended(exec, initial, ms, before, i, start, ran, schema, recorded, good)
    requires i < |ms| && i + 1 !in before && Takes(exec, ms[i].up, schema, schema')
    requires var recorded' := recorded[i + 1 := ms[i].name];
             good ==> Consistent(exec, initial, ms, schema', recorded'.Keys) && |recorded'.Keys| == i + 1
    ensures Ascended(exec, initial, ms, before, i + 1, start, ran + [i + 1], schema', recorded[i + 1 := ms[i].name],
                     good)
  {
    hide Carries, Consistent, NamesRecorded, Elements, Takes;
    OneMoreRan(before.Keys, ran, i + 1);
    NameJoins(ms, before, recorded, i + 1);
    CarriesOneMore(exec, ms, ran, true, start, schema, i + 1, schema');
    if good {
      NextVersion(before.Keys, i + 1);
    }
    hide IsPrefix;
  }

  lemma {:induction false} AscentBlocked<S(!new)>(exec: Engine<S>, initial: S, ms: seq<Migration>,
                                                  before: map<int, string>, i: nat, start: S, ran: seq<int>,
                                                  schema: S, recorded: map<int, string>, good: bool)
    requires Ascended(exec, initial, ms, before, i, start, ran, schema, recorded, good)
    requires i < |ms| && i + 1 !in before && !Runs(exec, ms[i].up, schema)
    ensures !CanCarry(exec, ms, Missing(before.Keys, |ms|), true, start)
  {
    hide Carries, Consistent, NamesRecorded, Elements, Missing, CanCarry, Runs;
    UpIsBlocked(exec, ms, before.Keys, ran, i, start, schema);
  }

  /** Wherever an Up stops, it has run the oldest missing versions in order. */
  lemma {:induction false} AscentStops<S(!new)>(exec: Engine<S>, initial: S, ms: seq<Migration>,
                                                before: map<int, string>, i: nat, start: S, ran: seq<int>, schema: S,
                                                recorded: map<int, string>, good: bool)
    requires Ascended(exec, initial, ms, before, i, start, ran, schema, recorded, good)
    ensures recorded.Keys == before.Keys + Elements(ran) && NamesRecorded(ms, before, recorded)
    ensures RanUpTo(before.Keys, |ms|, ran, i == |ms|) && RanUpTo(before.Keys, |ms|, ran, false)
    ensures i == |ms| ==> recorded.Keys == before.Keys + Versions(0, |ms|)
    ensures Carries(exec, ms, ran, true, start, schema)
    ensures i == |ms| ==> CanCarry(exec, ms, Missing(before.Keys, |ms|), true, start)
    ensures ran == [] ==> schema == start && recorded == before
    ensures good ==>
              && Consistent(exec, initial, ms, schema, recorded.Keys)
              && |before.Keys| <= |recorded.Keys| && ran == Rising(|before.Keys|, |recorded.Keys|)
              && |recorded.Keys| <= |ms| && (i == |ms| ==> |recorded.Keys| == |ms|)
  {
    hide Carries, Consistent, NamesRecorded, Elements, Missing, CanCarry, RanUpTo, Versions;
    RanTo(before.Keys, |ms|, i);
    AllRan(before.Keys, |ms|);
    CarriesCan(exec, ms, ran, true, start, schema);
    if good {
      PrefixRan(before.Keys, i);
      ConsistentFacts(exec, initial, ms, schema, recorded.Keys);
    }
    hide IsPrefix, Rising;
  }

  // ---- A Down under way ----

  /** Every version above i, and above the target, has been dealt with. */
  ghost predicate Descended<S>(exec: Engine<S>, initial: S, ms: seq<Migration>, applied: set<int>, target: nat, i: nat,
                               start: S, reverted: seq<int>, schema: S, recorded: set<int>, good: bool) {
    && i <= |ms|
    && reverted == Above(applied, Greater(i, target), |ms|)
    && recorded == applied - Elements(reverted)
    && (reverted == [] ==> schema == start)
    && (good ==> DescendedWell(exec, initial, ms, applied, Greater(i, target), schema, recorded))
  }

  /** From a consistent state: the level has come down to the floor reached, and every down file met has run. */
  ghost predicate DescendedWell<S>(exec: Engine<S>, initial: S, ms: seq<Migration>, applied: set<int>, floor: nat,
                                   schema: S, recorded: set<int>) {
    && IsPrefix(applied) && |applied| <= |ms|
    && Consistent(exec, initial, ms, schema, recorded)
    && |recorded| == Lesser(|applied|, floor)
    && DownsRun(exec, initial, ms, floor, |applied|)
  }

  lemma {:induction false} DescentStarts<S>(exec: Engine<S>, initial: S, ms: seq<Migration>, applied: set<int>,
                                            target: nat, schema: S, good: bool)
    requires good ==> Consistent(exec, initial, ms, schema, applied)
    ensures Descended(exec, initial, ms, applied, target, |ms|, schema, [], schema, applied, good)
  {
    hide SchemaAt, Effect;
    NothingReverted(applied, |ms|);
    if good {
      NoDownsToRun(exec, initial, ms, |applied|);
    }
  }

  lemma {:induction false} DescentSkips<S>(exec: Engine<S>, initial: S, ms: seq<Migration>, applied: set<int>,
                                           target: nat, i: nat,
                                           start: S, reverted: seq<int>, schema: S, recorded: set<int>, good: bool)
    requires Descended(exec, initial, ms, applied, target, i + 1, start, reverted, schema, recorded, good)
    requires i + 1 <= target || i + 1 !in applied
    ensures Descended(exec, initial, ms, applied, target, i, start, reverted, schema, recorded, good)
  {
    hide SchemaAt, Effect, Consistent, IsPrefix, Above, Elements;
    if target < i + 1 {
      OneMoreReverted(applied, reverted, i + 1, |ms|);
      if good {
        NextVersion(applied, i + 1);
      }
    }
  }

  lemma {:induction false} DescentMeets<S>(exec: Engine<S>, initial: S, ms: seq<Migration>, applied: set<int>,
                                           target: nat, i: nat,
                                           start: S, reverted: seq<int>, schema: S, recorded: set<int>, good: bool)
    requires Descended(exec, initial, ms, applied, target, i + 1, start, reverted, schema, recorded, good)
    requires target < i + 1 && i + 1 in applied
    ensures good ==> Consistent(exec, initial, ms, schema, recorded) && |recorded| == i + 1 <= |applied| <= |ms|
  {
    hide SchemaAt, Effect, Consistent, IsPrefix, Above, Elements, DownsRun;
    if good {
      NextVersion(applied, i + 1);
    }
  }

  lemma {:induction false} DescentReverted<S>(exec: Engine<S>, initial: S, ms: seq<Migration>, applied: set<int>,
                                              target: nat, i: nat,
                                              start: S, reverted: seq<int>, schema: S, recorded: set<int>, good: bool)
    requires Descended(exec, initial, ms, applied, target, i, start, reverted, schema, recorded, good)
    ensures target <= i ==> reverted == Above(applied, i, |ms|)
    ensures i == 0 ==> reverted == Above(applied, target, |ms|)
  {
    hide Consistent, DescendedWell, Above, Elements;
  }

  lemma {:induction false} DescentTakes<S>(exec: Engine<S>, initial: S, ms: seq<Migration>, applied: set<int>,
                                           target: nat, i: nat,
                                           start: S, reverted: seq<int>, schema: S, recorded: set<int>, good: bool,
                                           schema': S, recorded': set<int>)
    requires Descended(exec, initial, ms, applied, target, i + 1, start, reverted, schema, recorded, good)
    requires target < i + 1 && i + 1 in applied
    requires recorded' == recorded - {i + 1}
    requires good ==> Consistent(exec, initial, ms, schema', recorded') && |recorded'| == i
    requires Effect(exec, schema, ms[i].down).Some?
    ensures Descended(exec, initial, ms, applied, target, i, start, reverted + [i + 1], schema', recorded', good)
  {
    DescentMeets(exec, initial, ms, applied, target, i, start, reverted, schema, recorded, good);
    OneMoreReverted(applied, reverted, i + 1, |ms|);
    if good {
      ConsistentFacts(exec, initial, ms, schema, recorded);
      NextDown(exec, initial, ms, schema, i, i + 1, |applied|);
    }
    hide SchemaAt, Effect, Consistent, IsPrefix, Above, Elements, DownsRun;
  }

  /** Wherever a Down stops, it has reversed the newest versions in order, and a down file
      that does not run is why it could not go on. */
  lemma {:induction false} DescentStops<S>(exec: Engine<S>, initial: S, ms: seq<Migration>, applied: set<int>,
                                           target: nat, i: nat,
                                           start: S, reverted: seq<int>, schema: S, recorded: set<int>, good: bool)
    requires Descended(exec, initial, ms, applied, target, i, start, reverted, schema, recorded, good)
    ensures recorded == applied - Elements(reverted) && (reverted == [] ==> schema == start)
    ensures i <= target ==> recorded == applied - Versions(target, |ms|)
    ensures RevertedDownTo(applied, |ms|, target, reverted, i <= target)
    ensures RevertedDownTo(applied, |ms|, target, reverted, false)
    ensures good ==>
              && Consistent(exec, initial, ms, schema, recorded)
              && |recorded| <= |applied| <= |ms| && (i <= target ==> |recorded| == Lesser(|applied|, target))
              && reverted == Falling(|recorded|, |applied|)
              && (i <= target ==> DownsRun(exec, initial, ms, target, |applied|))
              && (target < i <= |applied| && Effect(exec, schema, ms[i - 1].down).None? ==>
                    !DownsRun(exec, initial, ms, target, |applied|))
  {
    RevertedTo(applied, |ms|, target, Greater(i, target));
    AllReverted(applied, target, |ms|);
    if good {
      PrefixReverted(applied, Greater(i, target), |ms|);
      ConsistentFacts(exec, initial, ms, schema, recorded);
      if target < i <= |applied| {
        NextDown(exec, initial, ms, schema, target, i, |applied|);
      }
    }
    hide SchemaAt, Effect, Consistent, IsPrefix, Above, Elements, DownsRun, RevertedDownTo, Falling, Versions;
  }

  // ---- The runner ----

  datatype VersionError = Dirty | Unreadable

  /** Whether the table has a gap below its highest version. */
  predicate Gapped(recorded: set<int>) {
    exists h | h in recorded :: exists v | 1 <= v < h :: v !in recorded
  }

  predicate IsHighest(recorded: set<int>, h: int) {
    (forall v | v in recorded :: v <= h) && (h == 0 || h in recorded)
  }

  lemma {:induction false} PrefixHasNoGap(recorded: set<int>)
    ensures IsPrefix(recorded) ==> !Gapped(recorded)
    ensures IsPrefix(recorded) ==> forall h: nat | IsHighest(recorded, h) :: h == |recorded|
  {
    if IsPrefix(recorded) {
      var k := |recorded|;
      forall h: nat | IsHighest(recorded, h)
        ensures h == k
      {
        assert k > 0 ==> k in recorded;
      }
    }
  }

  /** What is recorded once a complete Down with n migration files has taken 1..k down. */
  function LeftByDown(k: nat, n: nat, target: nat): set<int> {
    Versions(0, k) - Versions(target, n)
  }

  /** It has a gap exactly when the files miss something recorded and there was something
      to reverse; otherwise it is a prefix. */
  lemma {:induction false} DownLeavesGap(k: nat, n: nat, target: nat)
    ensures Gapped(LeftByDown(k, n, target)) <==> target < n < k
    ensures !(target < n < k) ==>
              IsPrefix(LeftByDown(k, n, target)) &&
              |LeftByDown(k, n, target)| == if n <= target then k else Lesser(k, target)
  {
    var left := LeftByDown(k, n, target);
    if target < n < k {
      assert k in left && target + 1 !in left;
    } else {
      var m := if n <= target then k else Lesser(k, target);
      assert left == Versions(0, m);
      VersionsSize(m);
      PrefixHasNoGap(left);
    }
  }

  method Highest(applied: set<int>) returns (highest: int)
    ensures IsHighest(applied, highest) && 0 <= highest
  {
    highest := 0;
    var unseen := applied;
    while unseen != {}
      invariant unseen <= applied
      invariant forall v | v in applied && v !in unseen :: v <= highest
      invariant 0 <= highest && (highest == 0 || highest in applied)
      decreases |unseen|
    {
      assert (forall v: int :: v !in unseen) ==> unseen == {};
      var version: int :| version in unseen;
      if version > highest {
        highest := version;
      }
      unseen := unseen - {version};
    }
  }

  datatype MigrateCall = CallUp | CallDown(target: int) | CallVersion

  predicate Calm(faults: seq<bool>) {
    forall i | 0 <= i < |faults| :: !faults[i]
  }

  class Runner<!S(!new)> {
    const exec: Engine<S>
    const initial: S
    var schema: S
    var recorded: map<int, string>
    /** Whether each coming call to the database fails; calls beyond the list succeed. */
    var faults: seq<bool>

    constructor (exec: Engine<S>, initial: S, faults: seq<bool>)
      ensures this.exec == exec && this.initial == initial && this.faults == faults
      ensures schema == initial && recorded == map[]
    {
      this.exec := exec;
      this.initial := initial;
      this.schema := initial;
      this.recorded := map[];
      this.faults := faults;
    }

    ghost function Level(): nat
      reads this
    {
      |recorded.Keys|
    }

    ghost predicate At(ms: seq<Migration>)
      reads this
    {
      Consistent(exec, initial, ms, schema, recorded.Keys)
    }

    /** Any call to the database. */
    method Call() returns (ok: bool)
      modifies this`faults
      ensures faults == if old(faults) == [] then [] else old(faults)[1..]
      ensures ok <==> old(faults) == [] || !old(faults)[0]
      ensures Calm(old(faults)) ==> ok && Calm(faults)
    {
      if faults == [] {
        return true;
      }
      ok := !faults[0];
      faults := faults[1..];
    }

    /** Runs one file and its bookkeeping together: both take effect, or neither does. */
    method InTransaction(m: Migration, body: string, forward: bool) returns (ok: bool)
      modifies this
      ensures ok ==> Takes(exec, body, old(schema), schema)
      ensures ok ==> Effect(exec, old(schema), body) == Some(schema)
      ensures ok ==> recorded == if forward then old(recorded)[m.version := m.name] else old(recorded) - {m.version}
      ensures ok && forward ==> m.version !in old(recorded)
      ensures !ok ==> schema == old(schema) && recorded == old(recorded)
      ensures Calm(old(faults)) ==> Calm(faults)
      ensures Calm(old(faults)) ==>
                (ok <==> Runs(exec, body, old(schema)) && (forward ==> m.version !in old(recorded)))
    {
      hide Calm, Statements, Takes, Runs, ExecAll, Effect;
      EffectRuns(exec, body, schema);
      EffectSplits(exec, schema, body);
      var split := SplitStatements(body);
      if split.Err? || split.value == [] {
        return false;
      }
      var begun := Call();
      if !begun {
        return false;
      }
      var statements := split.value;
      var pending := schema;
      ExecNothing(exec, schema, statements);
      for i := 0 to |statements|
        invariant schema == old(schema) && recorded == old(recorded)
        invariant ExecAll(exec, schema, statements[..i]) == Some(pending)
        invariant Calm(old(faults)) ==> Calm(faults)
      {
        ExecOneMore(exec, schema, statements, i, pending);
        var reached := Call();
        var r := exec(pending, statements[i]);
        if !reached || r.None? {
          if r.None? {
            ExecAllStops(exec, schema, statements, i + 1);
          }
          return false;
        }
        pending := r.value;
      }
      assert statements[..|statements|] == statements;
      var written := Call();
      if !written || (forward && m.version in recorded) {
        return false;
      }
      var committed := Call();
      if !committed {
        return false;
      }
      EffectTakes(exec, body, schema, pending);
      schema := pending;
      recorded := if forward then recorded[m.version := m.name] else recorded - {m.version};
      return true;
    }

    /** One pending migration, given whether the state was consistent before. */
    method ApplyOne(ms: seq<Migration>, i: nat, ghost good: bool) returns (ok: bool)
      requires Contiguous(ms) && i < |ms|
      requires good ==> At(ms) && Level() == i
      modifies this
      ensures recorded == if ok then old(recorded)[i + 1 := ms[i].name] else old(recorded)
      ensures ok ==> Takes(exec, ms[i].up, old(schema), schema)
      ensures !ok ==> schema == old(schema)
      ensures good ==> At(ms) && Level() == if ok then i + 1 else i
      ensures Calm(old(faults)) ==> Calm(faults)
      ensures Calm(old(faults)) && !ok ==> i + 1 in old(recorded) || !Runs(exec, ms[i].up, schema)
      ensures good && Calm(old(faults)) && !ok ==> SchemaAt(exec, initial, ms, |ms|).None?
    {
      assert ms[i].version == i + 1;
      hide Takes, Runs, Calm, Effect, SchemaAt, Reversible, Consistent, IsPrefix, Statements, Contiguous;
      EffectRuns(exec, ms[i].up, schema);
      ghost var was, before := schema, recorded;
      ok := InTransaction(ms[i], ms[i].up, true);
      if good {
        OneUp(exec, initial, ms, i, was, before, schema);
      }
    }

    /** Applies, oldest first, every migration that is not recorded. */
    method Up(ms: seq<Migration>) returns (ran: seq<int>, ok: bool)
      requires Contiguous(ms)
      modifies this
      ensures RanUpTo(old(recorded.Keys), |ms|, ran, ok)
      ensures Carries(exec, ms, ran, true, old(schema), schema)
      ensures Calm(old(faults)) ==> (ok <==> CanCarry(exec, ms, Missing(old(recorded.Keys), |ms|), true, old(schema)))
      ensures recorded.Keys == old(recorded.Keys) + Elements(ran)
      ensures NamesRecorded(ms, old(recorded), recorded)
      ensures ok ==> recorded.Keys == old(recorded.Keys) + Versions(0, |ms|)
      ensures ran == [] ==> schema == old(schema) && recorded == old(recorded)
      ensures old(At(ms)) ==> At(ms) && old(Level()) <= Level() && ran == Rising(old(Level()), Level())
      ensures old(At(ms)) && ok ==> Level() == |ms|
      ensures Calm(old(faults)) ==> Calm(faults)
      ensures old(At(ms)) && Calm(old(faults)) ==> (ok <==> SchemaAt(exec, initial, ms, |ms|).Some?)
    {
      hide Calm, Effect, SchemaAt, Reversible, Missing, Rising, Elements, Consistent, IsPrefix, RanUpTo, Versions,
          Takes, Runs, Carries, CanCarry, NamesRecorded, Ascended;
      var applied := recorded.Keys;
      ghost var good, before, start := At(ms), recorded, schema;
      AscentStarts(exec, initial, ms, before, start, good);
      AscentStops(exec, initial, ms, before, 0, start, [], schema, recorded, good);
      var ensured := Call();
      if !ensured {
        return [], false;
      }
      var read := Call();
      if !read {
        return [], false;
      }
      ran := [];
      for i := 0 to |ms|
        invariant Ascended(exec, initial, ms, before, i, start, ran, schema, recorded, good)
        invariant Calm(old(faults)) ==> Calm(faults)
      {
        assert ms[i].version == i + 1;
        if ms[i].version in applied {
          AscentSkips(exec, initial, ms, before, i, start, ran, schema, recorded, good);
          continue;
        }
        AscentMeets(exec, initial, ms, before, i, start, ran, schema, recorded, good);
        AscentStops(exec, initial, ms, before, i, start, ran, schema, recorded, good);
        ghost var was, rows := schema, recorded;
        var done := ApplyOne(ms, i, good);
        if !done {
          if Calm(old(faults)) {
            AscentBlocked(exec, initial, ms, before, i, start, ran, schema, recorded, good);
          }
          return ran, false;
        }
        AscentTakes(exec, initial, ms, before, i, start, ran, was, rows, good, schema);
        ran := ran + [ms[i].version];
      }
      AscentStops(exec, initial, ms, before, |ms|, start, ran, schema, recorded, good);
      if good {
        ConsistentFacts(exec, initial, ms, schema, recorded.Keys);
      }
      return ran, true;
    }

    /** One recorded migration, given whether the state was consistent before. */
    method RevertOne(ms: seq<Migration>, i: nat, ghost good: bool) returns (ok: bool)
      requires Contiguous(ms) && i < |ms|
      requires good ==> At(ms) && Level() == i + 1 && Reversible(exec, initial, ms)
      modifies this
      ensures recorded == if ok then old(recorded) - {i + 1} else old(recorded)
      ensures ok ==> Takes(exec, ms[i].down, old(schema), schema)
      ensures !ok ==> schema == old(schema)
      ensures good ==> At(ms) && Level() == if ok then i else i + 1
      ensures Calm(old(faults)) ==> Calm(faults)
      ensures ok ==> Effect(exec, old(schema), ms[i].down).Some?
      ensures Calm(old(faults)) ==> (ok <==> Runs(exec, ms[i].down, old(schema)))
    {
      assert ms[i].version == i + 1;
      hide Takes, Runs, Calm, Effect, SchemaAt, Reversible, Consistent, IsPrefix, Statements, Contiguous;
      EffectRuns(exec, ms[i].down, schema);
      ghost var was, before := schema, recorded.Keys;
      ok := InTransaction(ms[i], ms[i].down, false);
      if good && ok {
        RevertKeeps(exec, initial, ms, was, before, schema);
      }
    }

    /** The loop of Down: stops at the end, or before the version that could not be reversed. */
    method RevertAbove(ms: seq<Migration>, target: nat, applied: set<int>, ghost good: bool)
      returns (reverted: seq<int>, ok: bool, ghost i: nat)
      requires Contiguous(ms) && recorded.Keys == applied
      requires good ==> At(ms) && Reversible(exec, initial, ms)
      modifies this
      ensures i <= |ms| && Descended(exec, initial, ms, applied, target, i, old(schema), reverted, schema,
                                     recorded.Keys, good)
      ensures ok ==> i == 0
      ensures !ok ==> target < i && (good ==> i <= |applied|)
      ensures Calm(old(faults)) ==> Calm(faults)
      ensures Calm(old(faults)) && !ok ==> Effect(exec, schema, ms[i - 1].down).None?
      ensures Carries(exec, ms, reverted, false, old(schema), schema)
      ensures NamesRecorded(ms, old(recorded), recorded)
      ensures Calm(old(faults)) ==> (ok <==> CanCarry(exec, ms, Above(applied, target, |ms|), false, old(schema)))
    {
      hide Calm, Effect, SchemaAt, Reversible, Above, Falling, Elements, Consistent, IsPrefix, DownsRun, Descended,
          DescendedWell, Lesser, Greater, Takes, Runs, Carries, CanCarry, NamesRecorded;
      NamesStay(ms, recorded);
      CarriesNone(exec, ms, false, schema);
      reverted := [];
      ghost var start := schema;
      DescentStarts(exec, initial, ms, applied, target, start, good);
      var n := |ms|;
      while 0 < n
        invariant 0 <= n <= |ms|
        invariant Descended(exec, initial, ms, applied, target, n, start, reverted, schema, recorded.Keys, good)
        invariant Carries(exec, ms, reverted, false, start, schema) && NamesRecorded(ms, old(recorded), recorded)
        invariant Calm(old(faults)) ==> Calm(faults)
      {
        n := n - 1;
        if ms[n].version <= target || ms[n].version !in applied {
          DescentSkips(exec, initial, ms, applied, target, n, start, reverted, schema, recorded.Keys, good);
          continue;
        }
        ghost var was, before := schema, recorded.Keys;
        DescentMeets(exec, initial, ms, applied, target, n, start, reverted, was, before, good);
        NameLeaves(ms, old(recorded), recorded, n + 1);
        DescentReverted(exec, initial, ms, applied, target, n + 1, start, reverted, was, before, good);
        var done := RevertOne(ms, n, good);
        if !done {
          if Calm(old(faults)) {
            EffectRuns(exec, ms[n].down, schema);
            DownIsBlocked(exec, ms, applied, reverted, target, n, old(schema), schema);
          }
          return reverted, false, n + 1;
        }
        CarriesOneMore(exec, ms, reverted, false, start, was, n + 1, schema);
        DescentTakes(exec, initial, ms, applied, target, n, start, reverted, was, before, good, schema, recorded.Keys);
        reverted := reverted + [ms[n].version];
      }
      DescentReverted(exec, initial, ms, applied, target, 0, start, reverted, schema, recorded.Keys, good);
      CarriesCan(exec, ms, reverted, false, start, schema);
      return reverted, true, 0;
    }

    /** Reverses, newest first, every recorded migration above the target. */
    method Down(ms: seq<Migration>, target: int) returns (reverted: seq<int>, ok: bool)
      requires Contiguous(ms)
      modifies this
      ensures target < 0 ==> !ok && reverted == [] && faults == old(faults)
      ensures 0 <= target ==> RevertedDownTo(old(recorded.Keys), |ms|, target, reverted, ok)
      ensures recorded.Keys == old(recorded.Keys) - Elements(reverted)
      ensures ok ==> 0 <= target && recorded.Keys == old(recorded.Keys) - Versions(target, |ms|)
      ensures reverted == [] ==> schema == old(schema)
      ensures Carries(exec, ms, reverted, false, old(schema), schema)
      ensures NamesRecorded(ms, old(recorded), recorded)
      ensures Calm(old(faults)) && 0 <= target ==>
                (ok <==> CanCarry(exec, ms, Above(old(recorded.Keys), target, |ms|), false, old(schema)))
      ensures old(At(ms)) && Reversible(exec, initial, ms) ==>
                At(ms) && Level() <= old(Level()) && reverted == Falling(Level(), old(Level()))
      ensures old(At(ms)) && Reversible(exec, initial, ms) && ok ==> Level() == Lesser(old(Level()), target)
      ensures old(At(ms)) && Reversible(exec, initial, ms) && Calm(old(faults)) && 0 <= target ==>
                (ok <==> DownsRun(exec, initial, ms, target, old(Level())))
      ensures Calm(old(faults)) ==> Calm(faults)
    {
      hide Calm, Effect, SchemaAt, Reversible, Above, Falling, Elements, Consistent, IsPrefix, RevertedDownTo,
          DownsRun, Descended, Versions, Takes, Runs, Carries, CanCarry, NamesRecorded;
      NamesStay(ms, recorded);
      CarriesNone(exec, ms, false, schema);
      reverted := [];
      NothingReverted(recorded.Keys, |ms|);
      if target < 0 {
        return [], false;
      }
      var applied := recorded.Keys;
      ghost var good := At(ms) && Reversible(exec, initial, ms);
      DescentStarts(exec, initial, ms, applied, target, schema, good);
      DescentStops(exec, initial, ms, applied, target, |ms|, schema, [], schema, applied, good);
      var ensured := Call();
      if !ensured {
        return [], false;
      }
      var read := Call();
      if !read {
        return [], false;
      }
      ghost var i;
      reverted, ok, i := RevertAbove(ms, target, applied, good);
      DescentStops(exec, initial, ms, applied, target, i, old(schema), reverted, schema, recorded.Keys, good);
    }

    /** The highest recorded version, refused when the table has a gap below it. */
    method Version() returns (r: Result<nat, VersionError>)
      modifies this`faults
      ensures r == Err(Dirty) ==> Gapped(recorded.Keys)
      ensures r.Ok? ==> !Gapped(recorded.Keys) && IsHighest(recorded.Keys, r.value)
      ensures IsPrefix(recorded.Keys) && r != Err(Unreadable) ==> r == Ok(Level())
      ensures Calm(old(faults)) ==> r != Err(Unreadable) && Calm(faults)
    {
      hide Calm;
      var ensured := Call();
      if !ensured {
        return Err(Unreadable);
      }
      var read := Call();
      if !read {
        return Err(Unreadable);
      }
      var applied := recorded.Keys;
      PrefixHasNoGap(applied);
      if |applied| == 0 {
        return Ok(0);
      }
      var highest := Highest(applied);
      for version := 1 to highest + 1
        invariant forall v | 1 <= v < version :: v in applied
      {
        if version !in applied {
          return Err(Dirty);
        }
      }
      return Ok(highest);
    }

    /** Version after a Down that succeeded: it finds the table dirty exactly when the files
        missed something recorded, and otherwise the level that is left. */
    method DownThenVersion(ms: seq<Migration>, target: nat, ghost k: nat)
      returns (ok: bool, r: Result<nat, VersionError>)
      requires Contiguous(ms) && recorded.Keys == Versions(0, k)
      modifies this
      ensures ok && r != Err(Unreadable) ==>
                r == if target < |ms| < k then Err(Dirty) else Ok(if |ms| <= target then k else Lesser(k, target))
      ensures Calm(old(faults)) ==> r != Err(Unreadable)
    {
      hide Calm, Versions, IsPrefix, Gapped, IsHighest, SchemaAt, Reversible, RevertedDownTo, Consistent;
      var reverted;
      reverted, ok := Down(ms, target);
      DownLeavesGap(k, |ms|, target);
      assert ok ==> recorded.Keys == LeftByDown(k, |ms|, target);
      hide LeftByDown;
      r := Version();
      assert r.Err? ==> r.error.Dirty? || r.error.Unreadable?;
    }

    /** Any sequence of calls, each failing anywhere, keeps the schema what the recorded
        prefix of the files builds, and no Version call ever finds a gap. */
    method RunCalls(ms: seq<Migration>, calls: seq<MigrateCall>) returns (answers: seq<Result<nat, VersionError>>)
      requires Contiguous(ms) && At(ms) && Reversible(exec, initial, ms)
      modifies this
      ensures At(ms)
      ensures Level() == old(Level()) ==> schema == old(schema) && recorded.Keys == old(recorded.Keys)
      ensures forall i | 0 <= i < |answers| :: answers[i] != Err(Dirty)
      ensures Calm(old(faults)) ==> forall i | 0 <= i < |answers| :: answers[i].Ok?
    {
      hide Calm, SchemaAt, Reversible, Effect;
      answers := [];
      for i := 0 to |calls|
        invariant At(ms)
        invariant Calm(old(faults)) ==> Calm(faults)
        invariant forall i | 0 <= i < |answers| :: answers[i] != Err(Dirty)
        invariant Calm(old(faults)) ==> forall i | 0 <= i < |answers| :: answers[i].Ok?
      {
        match calls[i] {
          case CallUp =>
            var ran, ok := Up(ms);
          case CallDown(target) =>
            var reverted, ok := Down(ms, target);
          case CallVersion =>
            var r := Version();
            answers := answers + [r];
        }
      }
    }
  }
}
