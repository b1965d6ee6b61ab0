/** The fixed-window rate limiter and its lazy sweep. */
module RateLimiter {

  datatype Window = Window(count: nat, windowStart: int)

  datatype Answer = Answer(allowed: bool, remaining: int, resetAt: int)

  /** One call: the key, and what the clock read. */
  datatype Call = Call(key: string, now: int)

  datatype Limits = Limits(limit: int, windowMs: int)

  // ---- The limiter that never sweeps ----

  predicate Live(cfg: Limits, w: Window, now: int) {
    now - w.windowStart < cfg.windowMs
  }

  /** The window a call falls in, counting the call. */
  function Entered(cfg: Limits, windows: map<string, Window>, c: Call): Window {
    if c.key in windows && Live(cfg, windows[c.key], c.now)
    then Window(windows[c.key].count + 1, windows[c.key].windowStart)
    else Window(1, c.now)
  }

  function AnswerOf(cfg: Limits, w: Window): Answer {
    var allowed := w.count <= cfg.limit;
    Answer(allowed, if allowed then cfg.limit - w.count else 0, w.windowStart + cfg.windowMs)
  }

  function Plain(cfg: Limits, windows: map<string, Window>, calls: seq<Call>): (answers: seq<Answer>)
    ensures |answers| == |calls|
    decreases |calls|
  {
    if calls == [] then []
    else
      var w := Entered(cfg, windows, calls[0]);
      [AnswerOf(cfg, w)] + Plain(cfg, windows[calls[0].key := w], calls[1..])
  }

  // ---- The limiter that sweeps ----

  datatype State = State(windows: map<string, Window>, lastSweep: int)

  function Swept(cfg: Limits, windows: map<string, Window>, now: int): map<string, Window> {
    map key | key in windows && Live(cfg, windows[key], now) :: windows[key]
  }

  function AfterSweep(cfg: Limits, s: State, now: int): State {
    if now - s.lastSweep < cfg.windowMs then s else State(Swept(cfg, s.windows, now), now)
  }

  function AfterCheck(cfg: Limits, s: State, c: Call): State {
    var t := AfterSweep(cfg, s, c.now);
    t.(windows := t.windows[c.key := Entered(cfg, t.windows, c)])
  }

  function Sweeping(cfg: Limits, s: State, calls: seq<Call>): (answers: seq<Answer>)
    ensures |answers| == |calls|
    decreases |calls|
  {
    if calls == [] then []
    else
      var t := AfterSweep(cfg, s, calls[0].now);
      [AnswerOf(cfg, Entered(cfg, t.windows, calls[0]))] + Sweeping(cfg, AfterCheck(cfg, s, calls[0]), calls[1..])
  }

  function StateAfter(cfg: Limits, s: State, calls: seq<Call>): State
    decreases |calls|
  {
    if calls == [] then s else StateAfter(cfg, AfterCheck(cfg, s, calls[0]), calls[1..])
  }

  /** The limiter itself, with the clock's reading passed to each call. */
  class Limiter {
    const cfg: Limits
    var windows: map<string, Window>
    var lastSweep: int

    constructor (cfg: Limits, now: int)
      ensures this.cfg == cfg && Abstract() == State(map[], now)
    {
      this.cfg := cfg;
      this.windows := map[];
      this.lastSweep := now;
    }

    ghost function Abstract(): State
      reads this
    {
      State(windows, lastSweep)
    }

    method Sweep(currentTime: int)
      modifies this
      ensures Abstract() == AfterSweep(cfg, old(Abstract()), currentTime)
    {
      if currentTime - lastSweep < cfg.windowMs {
        return;
      }
      var pending := windows.Keys;
      ghost var all := windows;
      while pending != {}
        invariant pending <= windows.Keys <= all.Keys
        invariant forall key | key in windows :: windows[key] == all[key]
        invariant forall key | key in all && key !in pending :: key in windows <==> Live(cfg, all[key], currentTime)
        invariant lastSweep == old(lastSweep)
        decreases |pending|
      {
        assert (forall key :: key !in pending) ==> pending == {};
        var key :| key in pending;
        if currentTime - windows[key].windowStart >= cfg.windowMs {
          windows := windows - {key};
        }
        pending := pending - {key};
      }
      assert windows == Swept(cfg, all, currentTime);
      lastSweep := currentTime;
    }

    method Check(key: string, currentTime: int) returns (r: Answer)
      modifies this
      ensures Abstract() == AfterCheck(cfg, old(Abstract()), Call(key, currentTime))
      ensures [r] == Sweeping(cfg, old(Abstract()), [Call(key, currentTime)])
    {
      Sweep(currentTime);
      var state := Window(0, currentTime);
      if key in windows && currentTime - windows[key].windowStart < cfg.windowMs {
        state := windows[key];
      }
      state := state.(count := state.count + 1);
      windows := windows[key := state];
      var resetAt := state.windowStart + cfg.windowMs;
      var allowed := state.count <= cfg.limit;
      var remaining := if allowed then cfg.limit - state.count else 0;
      r := Answer(allowed, remaining, resetAt);
    }
  }

  // ---- When the sweep shows ----

  /** One call at each reading of a clock. */
  function Calls(keys: seq<string>, clock: seq<int>): (calls: seq<Call>)
    requires |keys| == |clock|
    ensures |calls| == |keys|
  {
    seq(|keys|, i requires 0 <= i < |keys| => Call(keys[i], clock[i]))
  }

  /** When the last sweep before the n-th call was; the clock alone decides it. */
  function LastSweep(cfg: Limits, lastSweep: int, clock: seq<int>, n: nat): int
    requires n <= |clock|
    decreases n
  {
    if n == 0 then lastSweep
    else LastSweep(cfg, if clock[0] - lastSweep < cfg.windowMs then lastSweep else clock[0], clock[1..], n - 1)
  }

  predicate Sweeps(cfg: Limits, lastSweep: int, clock: seq<int>, n: nat)
    requires n < |clock|
  {
    cfg.windowMs <= clock[n] - LastSweep(cfg, lastSweep, clock, n)
  }

  /** A window begun at a time is swept by the j-th call and would be live again at the k-th. */
  predicate Forgets(cfg: Limits, lastSweep: int, clock: seq<int>, begun: int, j: nat, k: nat) {
    && j < k < |clock| && Sweeps(cfg, lastSweep, clock, j)
    && begun + cfg.windowMs <= clock[j] && clock[k] < begun + cfg.windowMs
  }

  /** Some call is forgotten by a later sweep, and the clock then goes back into its window. */
  predicate Shows(cfg: Limits, lastSweep: int, clock: seq<int>) {
    exists i, j, k | 0 <= i < j < k < |clock| :: Forgets(cfg, lastSweep, clock, clock[i], j, k)
  }

  lemma {:induction false} ForgetsLater(cfg: Limits, lastSweep: int, clock: seq<int>, begun: int, j: nat, k: nat)
    requires 0 < |clock|
    ensures var next := if clock[0] - lastSweep < cfg.windowMs then lastSweep else clock[0];
            Forgets(cfg, next, clock[1..], begun, j, k) <==> Forgets(cfg, lastSweep, clock, begun, j + 1, k + 1)
  {
  }

  /** The swept windows are among the kept ones, the missing ones stay dead, and no
      window still held is going to be forgotten. */
  ghost predicate Shadows(cfg: Limits, s: State, kept: map<string, Window>, clock: seq<int>) {
    && (forall key | key in s.windows :: key in kept && kept[key] == s.windows[key])
    && (forall key, k | key in kept && key !in s.windows && 0 <= k < |clock| :: !Live(cfg, kept[key], clock[k]))
    && (forall key, j, k | key in s.windows && 0 <= j < k ::
          !Forgets(cfg, s.lastSweep, clock, s.windows[key].windowStart, j, k))
    && (forall i, j, k | 0 <= i < j < k < |clock| :: !Forgets(cfg, s.lastSweep, clock, clock[i], j, k))
  }

  lemma {:induction false} ShadowsStep(cfg: Limits, s: State, kept: map<string, Window>, key: string, clock: seq<int>)
    requires clock != [] && Shadows(cfg, s, kept, clock)
    ensures var c := Call(key, clock[0]);
            var w := Entered(cfg, kept, c);
            && Entered(cfg, AfterSweep(cfg, s, c.now).windows, c) == w
            && Shadows(cfg, AfterCheck(cfg, s, c), kept[key := w], clock[1..])
  {
    var c := Call(key, clock[0]);
    var t := AfterSweep(cfg, s, c.now);
    var w := Entered(cfg, kept, c);
    forall x | x in kept && x !in t.windows
      ensures !Live(cfg, kept[x], clock[0])
      ensures forall k | 0 <= k < |clock[1..]| :: !Live(cfg, kept[x], clock[1..][k])
    {
      if x in s.windows {
        assert Sweeps(cfg, s.lastSweep, clock, 0);
        forall k | 0 <= k < |clock[1..]|
          ensures !Live(cfg, kept[x], clock[1..][k])
        {
          assert !Forgets(cfg, s.lastSweep, clock, s.windows[x].windowStart, 0, k + 1);
        }
      }
    }
    assert Entered(cfg, t.windows, c) == w;
    ShadowsLater(cfg, s, kept, key, clock);
  }

  lemma {:induction false} ShadowsLater(cfg: Limits, s: State, kept: map<string, Window>, key: string, clock: seq<int>)
    requires clock != [] && Shadows(cfg, s, kept, clock)
    ensures var t := AfterCheck(cfg, s, Call(key, clock[0]));
            && (forall x, j, k | x in t.windows && 0 <= j < k ::
                  !Forgets(cfg, t.lastSweep, clock[1..], t.windows[x].windowStart, j, k))
            && (forall i, j, k | 0 <= i < j < k < |clock[1..]| ::
                !Forgets(cfg, t.lastSweep, clock[1..], clock[1..][i], j, k))
  {
    var t := AfterCheck(cfg, s, Call(key, clock[0]));
    hide Forgets;
    forall x, j, k | x in t.windows && 0 <= j < k
      ensures !Forgets(cfg, t.lastSweep, clock[1..], t.windows[x].windowStart, j, k)
    {
      ForgetsLater(cfg, s.lastSweep, clock, t.windows[x].windowStart, j, k);
      NotForgotten(cfg, s.lastSweep, clock, j + 1, k + 1);
    }
    forall i, j, k | 0 <= i < j < k < |clock[1..]|
      ensures !Forgets(cfg, t.lastSweep, clock[1..], clock[1..][i], j, k)
    {
      ForgetsLater(cfg, s.lastSweep, clock, clock[1..][i], j, k);
      assert clock[1..][i] == clock[i + 1];
    }
  }

  lemma NotForgotten(cfg: Limits, lastSweep: int, clock: seq<int>, j: nat, k: nat)
    requires clock != [] && 0 < j < k
    requires forall i, j, k | 0 <= i < j < k < |clock| :: !Forgets(cfg, lastSweep, clock, clock[i], j, k)
    ensures !Forgets(cfg, lastSweep, clock, clock[0], j, k)
  {
  }

  /** With nothing to forget, the answers are those of the limiter that never sweeps. */
  lemma {:induction false} ShadowsAnswersAlike(cfg: Limits, s: State, kept: map<string, Window>, keys: seq<string>,
                                               clock: seq<int>)
    requires |keys| == |clock| && Shadows(cfg, s, kept, clock)
    ensures Sweeping(cfg, s, Calls(keys, clock)) == Plain(cfg, kept, Calls(keys, clock))
    decreases |keys|
  {
    if keys != [] {
      var calls := Calls(keys, clock);
      assert calls[1..] == Calls(keys[1..], clock[1..]);
      ShadowsStep(cfg, s, kept, keys[0], clock);
      hide Shadows, Entered, AfterSweep, Calls;
      ShadowsAnswersAlike(cfg, AfterCheck(cfg, s, calls[0]), kept[keys[0] := Entered(cfg, kept, calls[0])],
                          keys[1..], clock[1..]);
    }
  }

  /** The keys that show a forgotten call: one key for it and for its return, another for all else. */
  function Telling(n: nat, i: nat, k: nat): seq<string> {
    seq(n, x => if x == i || x == k then "a" else "b")
  }

  /** The n-th state on the way to the return of a forgotten call. */
  ghost predicate Telltale(cfg: Limits, s: State, kept: map<string, Window>, lastSweep: int, clock: seq<int>, i: nat,
                           j: nat, n: nat)
    requires i < j < |clock| && n <= |clock|
  {
    && s.lastSweep == LastSweep(cfg, lastSweep, clock, n)
    && (n <= i ==> "a" !in s.windows && "a" !in kept)
    && (i < n ==> "a" in kept && kept["a"] == Window(1, clock[i]))
    && (i < n ==> "a" in s.windows ==> s.windows["a"] == Window(1, clock[i]))
    && (j < n ==> "a" !in s.windows)
  }

  lemma {:induction false} LastSweepStep(cfg: Limits, lastSweep: int, clock: seq<int>, n: nat)
    requires n < |clock|
    ensures LastSweep(cfg, lastSweep, clock, n + 1) ==
            if Sweeps(cfg, lastSweep, clock, n) then clock[n] else LastSweep(cfg, lastSweep, clock, n)
    decreases n
  {
    if n > 0 {
      var next := if clock[0] - lastSweep < cfg.windowMs then lastSweep else clock[0];
      LastSweepStep(cfg, next, clock[1..], n - 1);
    }
  }

  lemma {:induction false} TelltaleStep(cfg: Limits, s: State, kept: map<string, Window>, lastSweep: int,
                                        clock: seq<int>, i: nat, j: nat, k: nat, n: nat)
    requires 0 < cfg.windowMs && i < j < |clock| && n < k && Forgets(cfg, lastSweep, clock, clock[i], j, k)
    requires Telltale(cfg, s, kept, lastSweep, clock, i, j, n)
    ensures var c := Call(Telling(|clock|, i, k)[n], clock[n]);
            Telltale(cfg, AfterCheck(cfg, s, c), kept[c.key := Entered(cfg, kept, c)], lastSweep, clock, i, j, n + 1)
  {
    LastSweepStep(cfg, lastSweep, clock, n);
    hide LastSweep;
    assert "a" != "b";
  }

  /** At the return the two limiters answer differently. */
  lemma {:induction false} TelltaleTells(cfg: Limits, s: State, kept: map<string, Window>, lastSweep: int,
                                         clock: seq<int>, i: nat, j: nat, k: nat)
    requires 0 < cfg.windowMs && 1 <= cfg.limit && i < j < |clock| && Forgets(cfg, lastSweep, clock, clock[i], j, k)
    requires Telltale(cfg, s, kept, lastSweep, clock, i, j, k)
    ensures var c := Call("a", clock[k]);
            AnswerOf(cfg, Entered(cfg, AfterSweep(cfg, s, c.now).windows, c)) != AnswerOf(cfg, Entered(cfg, kept, c))
  {
    hide LastSweep;
    var c := Call("a", clock[k]);
    assert Entered(cfg, AfterSweep(cfg, s, c.now).windows, c) == Window(1, clock[k]);
    assert Entered(cfg, kept, c) == Window(2, clock[i]);
  }

  lemma {:induction false} TelltaleDiffers(cfg: Limits, s: State, kept: map<string, Window>, lastSweep: int,
                                           clock: seq<int>, i: nat, j: nat, k: nat, n: nat)
    requires 0 < cfg.windowMs && 1 <= cfg.limit && i < j < |clock| && n <= k
               && Forgets(cfg, lastSweep, clock, clock[i], j, k)
    requires Telltale(cfg, s, kept, lastSweep, clock, i, j, n)
    ensures var calls := Calls(Telling(|clock|, i, k), clock)[n..]; Sweeping(cfg, s, calls) != Plain(cfg, kept, calls)
    decreases k - n
  {
    var all := Calls(Telling(|clock|, i, k), clock);
    var calls := all[n..];
    assert calls[0] == all[n] && calls[1..] == all[n + 1..];
    assert Sweeping(cfg, s, calls)[0] ==
        AnswerOf(cfg, Entered(cfg, AfterSweep(cfg, s, calls[0].now).windows, calls[0]));
    assert Plain(cfg, kept, calls)[0] == AnswerOf(cfg, Entered(cfg, kept, calls[0]));
    if n == k {
      TelltaleTells(cfg, s, kept, lastSweep, clock, i, j, k);
    } else {
      var s', kept' := AfterCheck(cfg, s, calls[0]), kept[calls[0].key := Entered(cfg, kept, calls[0])];
      TelltaleStep(cfg, s, kept, lastSweep, clock, i, j, k, n);
      TelltaleDiffers(cfg, s', kept', lastSweep, clock, i, j, k, n + 1);
      assert Sweeping(cfg, s, calls)[1..] == Sweeping(cfg, s', calls[1..]);
      assert Plain(cfg, kept, calls)[1..] == Plain(cfg, kept', calls[1..]);
    }
  }

  /** A clock keeps the sweep invisible, whatever the keys, exactly when it never goes back
      into the window of a call that a sweep has forgotten. */
  lemma {:induction false} SweepShowsExactly(cfg: Limits, start: int, clock: seq<int>)
    requires 0 < cfg.windowMs && 1 <= cfg.limit
    ensures (forall keys: seq<string> | |keys| == |clock| ::
               Sweeping(cfg, State(map[], start), Calls(keys, clock)) == Plain(cfg, map[], Calls(keys, clock)))
            <==> !Shows(cfg, start, clock)
  {
    hide Forgets, Sweeping, Plain, Calls;
    var s := State(map[], start);
    if i, j, k :| 0 <= i < j < k < |clock| && Forgets(cfg, start, clock, clock[i], j, k) {
      TelltaleDiffers(cfg, s, map[], start, clock, i, j, k, 0);
      var keys := Telling(|clock|, i, k);
      assert Calls(keys, clock)[0..] == Calls(keys, clock);
    } else {
      forall keys: seq<string> | |keys| == |clock|
        ensures Sweeping(cfg, s, Calls(keys, clock)) == Plain(cfg, map[], Calls(keys, clock))
      {
        ShadowsAnswersAlike(cfg, s, map[], keys, clock);
      }
    }
  }

  // ---- A clock that never goes back ----

  /** No call reads an earlier time than the one before it, and none before start. */
  predicate Forward(start: int, calls: seq<Call>)
    decreases |calls|
  {
    calls != [] ==> start <= calls[0].now && Forward(calls[0].now, calls[1..])
  }

  lemma {:induction false} ForwardRises(start: int, calls: seq<Call>, j: nat, k: nat)
    requires Forward(start, calls) && j <= k < |calls|
    ensures start <= calls[j].now <= calls[k].now
    decreases k
  {
    if j > 0 {
      ForwardRises(calls[0].now, calls[1..], j - 1, k - 1);
    } else if k > 0 {
      ForwardRises(calls[0].now, calls[1..], 0, k - 1);
    }
  }

  /** The swept windows are among the kept ones, and miss only dead windows. */
  ghost predicate Covers(cfg: Limits, s: State, kept: map<string, Window>, now: int) {
    && (forall key | key in s.windows :: key in kept && kept[key] == s.windows[key])
    && (forall key | key in kept && key !in s.windows :: !Live(cfg, kept[key], now))
  }

  /** For a clock that never goes back there is nothing to forget: the answers are those
      of the limiter that never sweeps. */
  lemma {:induction false} SweepIsInvisible(cfg: Limits, s: State, kept: map<string, Window>, now: int,
                                            calls: seq<Call>)
    requires Covers(cfg, s, kept, now) && Forward(now, calls)
    ensures Sweeping(cfg, s, calls) == Plain(cfg, kept, calls)
  {
    var keys := seq(|calls|, i requires 0 <= i < |calls| => calls[i].key);
    var clock := seq(|calls|, i requires 0 <= i < |calls| => calls[i].now);
    assert Calls(keys, clock) == calls;
    forall j: nat, k: nat | j <= k < |calls|
      ensures now <= clock[j] <= clock[k]
    {
      ForwardRises(now, calls, j, k);
    }
    assert Shadows(cfg, s, kept, clock);
    ShadowsAnswersAlike(cfg, s, kept, keys, clock);
  }

  /** A clock that goes back after a sweep can show it: the swept limiter forgets a window
      that is live again at the earlier time. */
  lemma {:induction false} ClockGoingBackShowsTheSweep()
    ensures var cfg := Limits(1, 10);
            var calls := [Call("a", 0), Call("b", 10), Call("a", 9)];
            && Sweeping(cfg, State(map[], 0), calls)[2].allowed
            && !Plain(cfg, map[], calls)[2].allowed
  {
    var cfg := Limits(1, 10);
    var calls := [Call("a", 0), Call("b", 10), Call("a", 9)];
    assert calls[1..] == [Call("b", 10), Call("a", 9)] && calls[1..][1..] == [Call("a", 9)];
    var m1 := map["a" := Window(1, 0)];
    assert map[]["a" := Window(1, 0)] == m1;
    var m2 := m1["b" := Window(1, 10)];
    assert Plain(cfg, map[], calls)[1..] == Plain(cfg, m1, calls[1..]);
    assert Plain(cfg, m1, calls[1..])[1..] == Plain(cfg, m2, calls[1..][1..]);
    assert Entered(cfg, m2, Call("a", 9)) == Window(2, 0);
    var s0 := State(map[], 0);
    var s1 := AfterCheck(cfg, s0, calls[0]);
    assert s1 == State(m1, 0);
    var s2 := AfterCheck(cfg, s1, calls[1]);
    assert Swept(cfg, m1, 10) == map[];
    assert s2 == State(map["b" := Window(1, 10)], 10);
    assert Sweeping(cfg, s0, calls)[1..] == Sweeping(cfg, s1, calls[1..]);
    assert Sweeping(cfg, s1, calls[1..])[1..] == Sweeping(cfg, s2, calls[1..][1..]);
    assert Entered(cfg, s2.windows, Call("a", 9)) == Window(1, 9);
  }

  /** And a window can admit more than the limit: swept, it begins once more when the clock
      reads its first time again. */
  lemma {:induction false} ForgottenWindowAdmitsTwice()
    ensures var cfg := Limits(1, 10);
            var calls := [Call("a", 0), Call("b", 10), Call("a", 0)];
            AdmittedInWindow(calls, Sweeping(cfg, State(map[], 0), calls), "a", 10) == 2
  {
    var cfg := Limits(1, 10);
    var calls := [Call("a", 0), Call("b", 10), Call("a", 0)];
    var s1, s2 := State(map["a" := Window(1, 0)], 0), State(map["b" := Window(1, 10)], 10);
    assert map[]["a" := Window(1, 0)] == s1.windows && Swept(cfg, s1.windows, 10) == map[];
    assert map[]["b" := Window(1, 10)] == s2.windows;
    assert AfterCheck(cfg, State(map[], 0), calls[0]) == s1 && AfterCheck(cfg, s1, calls[1]) == s2;
    assert calls[1..][1..] == [calls[2]] && [calls[2]][1..] == [];
    assert Sweeping(cfg, s2, [calls[2]]) == [Answer(true, 0, 10)];
    assert Sweeping(cfg, s1, calls[1..]) == [Answer(true, 0, 20), Answer(true, 0, 10)];
    assert Sweeping(cfg, State(map[], 0), calls) == [Answer(true, 0, 10), Answer(true, 0, 20), Answer(true, 0, 10)];
    assert [Answer(true, 0, 10), Answer(true, 0, 20), Answer(true, 0, 10)][1..][1..] == [Answer(true, 0, 10)];
  }

  // ---- What is retained ----

  /** Every retained window began less than two window lengths before now, and was begun by a past call. */
  ghost predicate Recent(cfg: Limits, s: State, past: seq<Call>, now: int) {
    && s.lastSweep <= now
    && (forall key | key in s.windows :: s.lastSweep - cfg.windowMs < s.windows[key].windowStart <= now)
    && (forall key | key in s.windows :: Call(key, s.windows[key].windowStart) in past)
  }

  lemma {:induction false} CheckKeepsRecent(cfg: Limits, s: State, past: seq<Call>, now: int, c: Call)
    requires 0 < cfg.windowMs && Recent(cfg, s, past, now) && now <= c.now
    ensures var t := AfterCheck(cfg, s, c);
            Recent(cfg, t, past + [c], c.now)
                && forall key | key in t.windows :: c.now - 2 * cfg.windowMs < t.windows[key].windowStart
  {
    assert c in past + [c];
  }

  /** After every check, each retained window is younger than two window lengths: so the
      map holds at most the keys first checked in that time. */
  lemma {:induction false} RetainsOnlyRecent(cfg: Limits, s: State, past: seq<Call>, now: int, calls: seq<Call>)
    requires 0 < cfg.windowMs && Recent(cfg, s, past, now) && Forward(now, calls)
    ensures var t := StateAfter(cfg, s, calls);
            && (calls != [] ==> forall key | key in t.windows ::
                 calls[|calls| - 1].now - 2 * cfg.windowMs < t.windows[key].windowStart <= calls[|calls| - 1].now)
            && (forall key | key in t.windows :: Call(key, t.windows[key].windowStart) in past + calls)
    decreases |calls|
  {
    if calls != [] {
      var c := calls[0];
      var t := AfterCheck(cfg, s, c);
      CheckKeepsRecent(cfg, s, past, now, c);
      RetainsOnlyRecent(cfg, t, past + [c], c.now, calls[1..]);
      assert past + [c] + calls[1..] == past + calls;
      hide Recent, AfterCheck;
      assert |calls| > 1 ==> calls[|calls| - 1] == calls[1..][|calls| - 2];
      assert |calls| == 1 ==> calls[1..] == [];
      assert StateAfter(cfg, s, calls) == StateAfter(cfg, t, calls[1..]);
    }
  }

  // ---- How much is admitted ----

  /** Calls for a key that are admitted at a time in [from, until). */
  function Admitted(calls: seq<Call>, answers: seq<Answer>, key: string, from: int, until: int): nat
    requires |calls| == |answers|
    decreases |calls|
  {
    if calls == [] then 0
    else
      (if calls[0].key == key && from <= calls[0].now < until && answers[0].allowed then 1 else 0)
      + Admitted(calls[1..], answers[1..], key, from, until)
  }

  /** Calls for a key that fall in the window resetting at a given time. */
  function InWindow(calls: seq<Call>, answers: seq<Answer>, key: string, resetAt: int): nat
    requires |calls| == |answers|
    decreases |calls|
  {
    if calls == [] then 0
    else
      (if calls[0].key == key && answers[0].resetAt == resetAt then 1 else 0)
      + InWindow(calls[1..], answers[1..], key, resetAt)
  }

  function AdmittedInWindow(calls: seq<Call>, answers: seq<Answer>, key: string, resetAt: int): nat
    requires |calls| == |answers|
    decreases |calls|
  {
    if calls == [] then 0
    else
      (if calls[0].key == key && answers[0].resetAt == resetAt && answers[0].allowed then 1 else 0)
      + AdmittedInWindow(calls[1..], answers[1..], key, resetAt)
  }

  function Least(a: int, b: int): int {
    if a < b then a else b
  }

  function Left(cfg: Limits, count: nat): nat {
    if count < cfg.limit then cfg.limit - count else 0
  }

  /** Every window holds at least the call that began it. */
  ghost predicate Sound(windows: map<string, Window>) {
    forall key | key in windows :: 1 <= windows[key].count
  }

  /** What the window resetting at a given time can still admit. */
  function LeftInWindow(cfg: Limits, windows: map<string, Window>, key: string, resetAt: int): nat {
    if key in windows && windows[key].windowStart + cfg.windowMs == resetAt then Left(cfg, windows[key].count)
    else Left(cfg, 0)
  }

  predicate Closed(cfg: Limits, windows: map<string, Window>, key: string, resetAt: int) {
    key in windows && resetAt < windows[key].windowStart + cfg.windowMs
  }

  /** What the next call does to the counts of a window, whatever the clock reads: it is in
      that window or not, and a window once left is never entered again. */
  lemma {:induction false} WindowStep(cfg: Limits, windows: map<string, Window>, c: Call, key: string, resetAt: int)
    requires 0 < cfg.windowMs
    ensures var w := Entered(cfg, windows, c);
            var next, answer := windows[c.key := w], AnswerOf(cfg, w);
            var left, left' := LeftInWindow(cfg, windows, key, resetAt), LeftInWindow(cfg, next, key, resetAt);
            && (Closed(cfg, windows, key, resetAt) ==> Closed(cfg, next, key, resetAt))
            && (if c.key == key && answer.resetAt == resetAt then
                  && !Closed(cfg, windows, key, resetAt)
                  && (if answer.allowed then left == left' + 1 else left == left' == 0)
                else Closed(cfg, next, key, resetAt) || left == left')
  {
  }

  /** A window admits its first calls up to the limit and refuses the others: as many are
      admitted as there are calls in it, up to what the limit leaves. The clock may go back. */
  lemma {:induction false} WindowAdmitsItsFirst(cfg: Limits, windows: map<string, Window>, calls: seq<Call>,
                                                key: string, resetAt: int)
    requires 0 < cfg.windowMs
    ensures var answers := Plain(cfg, windows, calls);
            var asked, admitted := InWindow(calls, answers, key, resetAt),
                AdmittedInWindow(calls, answers, key, resetAt);
            && admitted == Least(asked, LeftInWindow(cfg, windows, key, resetAt))
            && (Closed(cfg, windows, key, resetAt) ==> asked == 0)
    decreases |calls|
  {
    hide LeftInWindow, Closed, Entered, AnswerOf;
    if calls != [] {
      var c := calls[0];
      var next := windows[c.key := Entered(cfg, windows, c)];
      assert Plain(cfg, windows, calls)[1..] == Plain(cfg, next, calls[1..]);
      WindowStep(cfg, windows, c, key, resetAt);
      WindowAdmitsItsFirst(cfg, next, calls[1..], key, resetAt);
    }
  }

  /** What two calls of one key see, sweep and all: a fresh window is reset one window length
      after its first call, calls before then leave it be, and a call at or past it opens a
      window of its own with the whole limit less one. */
  lemma {:induction false} ResetIsExact(cfg: Limits, s: State, c: Call, d: Call)
    requires c.key == d.key
    ensures var a, b := Sweeping(cfg, s, [c, d])[0], Sweeping(cfg, s, [c, d])[1];
            && (c.key !in s.windows ==> a == Answer(1 <= cfg.limit, Most(cfg.limit - 1, 0), c.now + cfg.windowMs))
            && (d.now < a.resetAt ==> b.resetAt == a.resetAt && b.remaining == Most(a.remaining - 1, 0)
                                      && (b.allowed <==> 0 < a.remaining))
            && (a.resetAt <= d.now ==> b == Answer(1 <= cfg.limit, Most(cfg.limit - 1, 0), d.now + cfg.windowMs))
  {
    var t := AfterCheck(cfg, s, c);
    assert [c, d][1..] == [d];
    assert Sweeping(cfg, s, [c, d])[1..] == Sweeping(cfg, t, [d]);
  }

  function Most(a: int, b: int): int {
    if a < b then b else a
  }

  /** `remaining` is honest: after an answer, exactly that many of the calls to come are
      still admitted in its window, or all of them if there are fewer. */
  lemma {:induction false} RemainingIsExact(cfg: Limits, windows: map<string, Window>, c: Call, calls: seq<Call>)
    requires 0 < cfg.windowMs
    ensures var next := windows[c.key := Entered(cfg, windows, c)];
            var answer, answers := Plain(cfg, windows, [c] + calls)[0], Plain(cfg, next, calls);
            AdmittedInWindow(calls, answers, c.key, answer.resetAt) ==
                Least(InWindow(calls, answers, c.key, answer.resetAt), answer.remaining)
  {
    var next := windows[c.key := Entered(cfg, windows, c)];
    assert ([c] + calls)[1..] == calls;
    WindowAdmitsItsFirst(cfg, next, calls, c.key, next[c.key].windowStart + cfg.windowMs);
  }

  /** How often the clock goes back below a time: a reading at or past it, then one below.
      `past` tells where the reading before the first call was. */
  function Returns(calls: seq<Call>, past: bool, t: int): nat
    decreases |calls|
  {
    if calls == [] then 0
    else (if past && calls[0].now < t then 1 else 0) + Returns(calls[1..], t <= calls[0].now, t)
  }

  /** What those returns let in: each one opens a window, begun later, to all its calls but the first. */
  function LetIn(cfg: Limits, calls: seq<Call>, past: bool, t: int): nat
    decreases |calls|
  {
    if calls == [] then 0
    else (if past && calls[0].now < t then Left(cfg, 1) else 0) + LetIn(cfg, calls[1..], t <= calls[0].now, t)
  }

  lemma {:induction false} LetInByReturns(cfg: Limits, calls: seq<Call>, past: bool, t: int)
    ensures LetIn(cfg, calls, past, t) == Left(cfg, 1) * Returns(calls, past, t)
    decreases |calls|
  {
    if calls != [] {
      LetInByReturns(cfg, calls[1..], t <= calls[0].now, t);
      var r := Returns(calls[1..], t <= calls[0].now, t);
      assert Left(cfg, 1) * (1 + r) == Left(cfg, 1) + Left(cfg, 1) * r;
    }
  }

  /** What a time interval of one window length, from a, can still admit without a return. */
  function LeftInInterval(cfg: Limits, windows: map<string, Window>, key: string, a: int, past: bool): nat {
    if cfg.limit < 1 then 0
    else if key !in windows || windows[key].windowStart + cfg.windowMs <= a then 2 * cfg.limit - 1
    else if windows[key].windowStart < a then Left(cfg, windows[key].count) + cfg.limit
    else if windows[key].windowStart < a + cfg.windowMs || !past then Left(cfg, windows[key].count)
    else 0
  }

  lemma {:induction false} IntervalStep(cfg: Limits, windows: map<string, Window>, c: Call, key: string, a: int,
                                        past: bool)
    requires 0 < cfg.windowMs && Sound(windows)
    ensures var w := Entered(cfg, windows, c);
            var next, until := windows[c.key := w], a + cfg.windowMs;
            && Sound(next)
            && (if c.key == key && a <= c.now < until && AnswerOf(cfg, w).allowed then 1 else 0)
                + LeftInInterval(cfg, next, key, a, until <= c.now) <=
                LeftInInterval(cfg, windows, key, a, past) + if past && c.now < until then Left(cfg, 1) else 0
  {
  }

  /** An interval of one window length, whatever the clock does: what it can still admit, and
      what each return of the clock lets in besides. */
  lemma {:induction false} IntervalAdmits(cfg: Limits, windows: map<string, Window>, calls: seq<Call>, key: string,
                                          a: int, past: bool)
    requires 0 < cfg.windowMs && Sound(windows)
    ensures Admitted(calls, Plain(cfg, windows, calls), key, a, a + cfg.windowMs) <=
              LeftInInterval(cfg, windows, key, a, past) + Left(cfg, 1) * Returns(calls, past, a + cfg.windowMs)
  {
    IntervalLetsIn(cfg, windows, calls, key, a, past);
    LetInByReturns(cfg, calls, past, a + cfg.windowMs);
  }

  lemma {:induction false} IntervalLetsIn(cfg: Limits, windows: map<string, Window>, calls: seq<Call>, key: string,
                                          a: int, past: bool)
    requires 0 < cfg.windowMs && Sound(windows)
    ensures Admitted(calls, Plain(cfg, windows, calls), key, a, a + cfg.windowMs) <=
              LeftInInterval(cfg, windows, key, a, past) + LetIn(cfg, calls, past, a + cfg.windowMs)
    decreases |calls|
  {
    hide LeftInInterval, Sound, Entered, AnswerOf, Left;
    if calls != [] {
      var c := calls[0];
      var next := windows[c.key := Entered(cfg, windows, c)];
      assert Plain(cfg, windows, calls)[1..] == Plain(cfg, next, calls[1..]);
      IntervalStep(cfg, windows, c, key, a, past);
      IntervalLetsIn(cfg, next, calls[1..], key, a, a + cfg.windowMs <= c.now);
    }
  }

  /** Over any run of the sweeping limiter whose clock keeps the sweep invisible: a window
      admits exactly its first calls up to the limit, and an interval of one window length
      at most 2 * limit - 1, and limit - 1 more for each time the clock goes back into it. */
  lemma {:induction false} ClockRunAdmits(cfg: Limits, start: int, keys: seq<string>, clock: seq<int>, key: string,
                                          a: int, resetAt: int)
    requires 0 < cfg.windowMs && |keys| == |clock| && !Shows(cfg, start, clock)
    ensures var calls := Calls(keys, clock);
            var answers := Sweeping(cfg, State(map[], start), calls);
            && Admitted(calls, answers, key, a, a + cfg.windowMs) <=
                (if cfg.limit < 1 then 0
                 else 2 * cfg.limit - 1 + (cfg.limit - 1) * Returns(calls, false, a + cfg.windowMs))
            && AdmittedInWindow(calls, answers, key, resetAt) ==
                Least(InWindow(calls, answers, key, resetAt), Left(cfg, 0))
  {
    hide Sweeping, Plain, Admitted, InWindow, AdmittedInWindow, Returns;
    var calls := Calls(keys, clock);
    EmptyShadows(cfg, start, clock);
    ShadowsAnswersAlike(cfg, State(map[], start), map[], keys, clock);
    IntervalAdmits(cfg, map[], calls, key, a, false);
    WindowAdmitsItsFirst(cfg, map[], calls, key, resetAt);
    if cfg.limit < 1 {
      assert Left(cfg, 1) * Returns(calls, false, a + cfg.windowMs) == 0;
    }
  }

  lemma {:induction false} EmptyShadows(cfg: Limits, start: int, clock: seq<int>)
    requires !Shows(cfg, start, clock)
    ensures Shadows(cfg, State(map[], start), map[], clock)
  {
    hide Forgets;
  }

  lemma {:induction false} ForwardNeverReturns(start: int, calls: seq<Call>, past: bool, t: int)
    requires Forward(start, calls) && (past ==> t <= start)
    ensures Returns(calls, past, t) == 0
    decreases |calls|
  {
    if calls != [] {
      ForwardNeverReturns(calls[0].now, calls[1..], t <= calls[0].now, t);
    }
  }

  /** In particular, over any run with a clock that never goes back, an interval of one window
      length admits at most 2 * limit - 1. */
  lemma {:induction false} RunAdmits(cfg: Limits, start: int, calls: seq<Call>, key: string, a: int, resetAt: int)
    requires 0 < cfg.windowMs && Forward(start, calls)
    ensures var answers := Sweeping(cfg, State(map[], start), calls);
            && Admitted(calls, answers, key, a, a + cfg.windowMs) <= (if cfg.limit < 1 then 0 else 2 * cfg.limit - 1)
            && AdmittedInWindow(calls, answers, key, resetAt) ==
                Least(InWindow(calls, answers, key, resetAt), Left(cfg, 0))
  {
    hide Sweeping, Plain, Admitted, InWindow, AdmittedInWindow, Forward;
    SweepIsInvisible(cfg, State(map[], start), map[], start, calls);
    ForwardNeverReturns(start, calls, false, a + cfg.windowMs);
    IntervalAdmits(cfg, map[], calls, key, a, false);
    WindowAdmitsItsFirst(cfg, map[], calls, key, resetAt);
  }

  // ---- The interval bound is reached ----

  function Burst(n: nat, key: string, t: int): seq<Call> {
    if n == 0 then [] else [Call(key, t)] + Burst(n - 1, key, t)
  }

  /** From time t on, r times over: a call begins a window, and the clock goes back to 1 for a
      burst in it. */
  function Trips(cfg: Limits, key: string, t: int, r: nat): seq<Call>
    requires 1 <= cfg.limit
    decreases r
  {
    if r == 0 then []
    else Burst(1, key, t) + (Burst(cfg.limit - 1, key, 1) + Trips(cfg, key, t + cfg.windowMs, r - 1))
  }

  /** One call at time 0, then a full burst up to the limit at 1, then a full burst in the next
      window, then r trips of the clock back to 1. */
  function WorstRun(cfg: Limits, key: string, r: nat): seq<Call>
    requires 1 <= cfg.limit
  {
    Burst(1, key, 0) +
    (Burst(cfg.limit - 1, key, 1) + (Burst(cfg.limit, key, cfg.windowMs) + Trips(cfg, key, 2 * cfg.windowMs, r)))
  }

  /** Counting one more admitted call of the key inside the interval. */
  lemma {:induction false} CallAdmits(cfg: Limits, windows: map<string, Window>, calls: seq<Call>, key: string, a: int)
    requires calls != [] && calls[0].key == key && a <= calls[0].now < a + cfg.windowMs
    requires Entered(cfg, windows, calls[0]).count <= cfg.limit
    ensures var next := windows[key := Entered(cfg, windows, calls[0])];
            Admitted(calls, Plain(cfg, windows, calls), key, a, a + cfg.windowMs) ==
            1 + Admitted(calls[1..], Plain(cfg, next, calls[1..]), key, a, a + cfg.windowMs)
  {
    var next := windows[key := Entered(cfg, windows, calls[0])];
    assert Plain(cfg, windows, calls)[1..] == Plain(cfg, next, calls[1..]);
  }

  lemma {:induction false} BurstAdmits(cfg: Limits, windows: map<string, Window>, n: nat, key: string, t: int,
                                       rest: seq<Call>, a: int)
    requires key in windows && Live(cfg, windows[key], t) && windows[key].count + n <= cfg.limit
    requires a <= t < a + cfg.windowMs
    ensures var next := windows[key := Window(windows[key].count + n, windows[key].windowStart)];
            Admitted(Burst(n, key, t) + rest, Plain(cfg, windows, Burst(n, key, t) + rest), key, a, a + cfg.windowMs)
            == n + Admitted(rest, Plain(cfg, next, rest), key, a, a + cfg.windowMs)
    decreases n
  {
    hide Admitted, Plain, Burst;
    var calls := Burst(n, key, t) + rest;
    if n == 0 {
      NoBurst(key, t, rest);
      assert windows[key := windows[key]] == windows;
    } else {
      var w := Window(windows[key].count + 1, windows[key].windowStart);
      var next := windows[key := w];
      BurstUnfolds(n, key, t, rest);
      assert Entered(cfg, windows, calls[0]) == w;
      CallAdmits(cfg, windows, calls, key, a);
      BurstAdmits(cfg, next, n - 1, key, t, rest, a);
      assert next[key := Window(w.count + (n - 1), w.windowStart)] ==
          windows[key := Window(windows[key].count + n, windows[key].windowStart)];
    }
  }

  lemma NoBurst(key: string, t: int, rest: seq<Call>)
    ensures Burst(0, key, t) + rest == rest
  {
  }

  lemma BurstUnfolds(n: nat, key: string, t: int, rest: seq<Call>)
    requires 0 < n
    ensures var calls := Burst(n, key, t) + rest;
            calls != [] && calls[0] == Call(key, t) && calls[1..] == Burst(n - 1, key, t) + rest
  {
  }

  /** A burst that begins a window is admitted up to the limit. */
  lemma {:induction false} FreshBurst(cfg: Limits, windows: map<string, Window>, key: string, t: int, n: nat,
                                      rest: seq<Call>, a: int)
    requires 1 <= n <= cfg.limit && 0 < cfg.windowMs && (key in windows ==> !Live(cfg, windows[key], t))
    ensures Admitted(Burst(n, key, t) + rest, Plain(cfg, windows, Burst(n, key, t) + rest), key, a, a + cfg.windowMs)
            == (if a <= t < a + cfg.windowMs then 1 else 0)
               + Admitted(Burst(n - 1, key, t) + rest,
                          Plain(cfg, windows[key := Window(1, t)], Burst(n - 1, key, t) + rest), key, a,
                              a + cfg.windowMs)
  {
    var calls := Burst(n, key, t) + rest;
    BurstUnfolds(n, key, t, rest);
    hide Burst;
    var next := windows[key := Window(1, t)];
    assert Entered(cfg, windows, calls[0]) == Window(1, t);
    assert Plain(cfg, windows, calls)[1..] == Plain(cfg, next, calls[1..]);
  }

  lemma NoneAdmitted(cfg: Limits, windows: map<string, Window>, key: string)
    ensures Admitted([], Plain(cfg, windows, []), key, 1, 1 + cfg.windowMs) == 0
  {
  }

  /** Each trip admits limit - 1 calls at time 1. */
  lemma {:induction false} TripsAdmit(cfg: Limits, windows: map<string, Window>, key: string, t: int, r: nat)
    requires 1 <= cfg.limit && 2 <= cfg.windowMs && 1 + cfg.windowMs <= t
    requires key in windows && !Live(cfg, windows[key], t)
    ensures var calls := Trips(cfg, key, t, r);
            Admitted(calls, Plain(cfg, windows, calls), key, 1, 1 + cfg.windowMs) == (cfg.limit - 1) * r
    decreases r
  {
    hide Admitted, Plain, Burst;
    if r == 0 {
      NoneAdmitted(cfg, windows, key);
    } else {
      var rest := Trips(cfg, key, t + cfg.windowMs, r - 1);
      var w1 := windows[key := Window(1, t)];
      var w2 := w1[key := Window(cfg.limit, t)];
      FreshBurst(cfg, windows, key, t, 1, Burst(cfg.limit - 1, key, 1) + rest, 1);
      NoBurst(key, t, Burst(cfg.limit - 1, key, 1) + rest);
      BurstAdmits(cfg, w1, cfg.limit - 1, key, 1, rest, 1);
      TripsAdmit(cfg, w2, key, t + cfg.windowMs, r - 1);
      assert (cfg.limit - 1) * r == (cfg.limit - 1) + (cfg.limit - 1) * (r - 1);
    }
  }

  lemma {:induction false} BurstReturns(n: nat, key: string, t: int, rest: seq<Call>, past: bool, until: int)
    ensures Returns(Burst(n, key, t) + rest, past, until) ==
            if n == 0 then Returns(rest, past, until)
            else (if past && t < until then 1 else 0) + Returns(rest, until <= t, until)
    decreases n
  {
    hide Burst;
    if n == 0 {
      NoBurst(key, t, rest);
    } else {
      BurstUnfolds(n, key, t, rest);
      BurstReturns(n - 1, key, t, rest, until <= t, until);
    }
  }

  lemma {:induction false} TripsReturn(cfg: Limits, key: string, t: int, r: nat)
    requires 2 <= cfg.limit && 0 < cfg.windowMs && 1 + cfg.windowMs <= t
    ensures Returns(Trips(cfg, key, t, r), false, 1 + cfg.windowMs) == r
    decreases r
  {
    if r > 0 {
      var rest := Trips(cfg, key, t + cfg.windowMs, r - 1);
      BurstReturns(1, key, t, Burst(cfg.limit - 1, key, 1) + rest, false, 1 + cfg.windowMs);
      BurstReturns(cfg.limit - 1, key, 1, rest, true, 1 + cfg.windowMs);
      TripsReturn(cfg, key, t + cfg.windowMs, r - 1);
    }
  }

  lemma {:induction false} WorstRunReturns(cfg: Limits, key: string, r: nat)
    requires 2 <= cfg.limit && 2 <= cfg.windowMs
    ensures Returns(WorstRun(cfg, key, r), false, 1 + cfg.windowMs) == r
  {
    var trips := Trips(cfg, key, 2 * cfg.windowMs, r);
    var second := Burst(cfg.limit, key, cfg.windowMs) + trips;
    BurstReturns(1, key, 0, Burst(cfg.limit - 1, key, 1) + second, false, 1 + cfg.windowMs);
    BurstReturns(cfg.limit - 1, key, 1, second, false, 1 + cfg.windowMs);
    BurstReturns(cfg.limit, key, cfg.windowMs, trips, false, 1 + cfg.windowMs);
    TripsReturn(cfg, key, 2 * cfg.windowMs, r);
    hide Burst, Trips, Returns;
  }

  predicate OnlyKey(calls: seq<Call>, key: string) {
    forall i | 0 <= i < |calls| :: calls[i].key == key
  }

  lemma {:induction false} BurstIsOneKey(n: nat, key: string, t: int)
    ensures OnlyKey(Burst(n, key, t), key)
  {
    if n > 0 {
      BurstIsOneKey(n - 1, key, t);
    }
  }

  lemma NothingIsOneKey(key: string)
    ensures OnlyKey([], key)
  {
  }

  lemma OnlyKeyConcat(a: seq<Call>, b: seq<Call>, key: string)
    requires OnlyKey(a, key) && OnlyKey(b, key)
    ensures OnlyKey(a + b, key)
  {
  }

  lemma {:induction false} TripsAreOneKey(cfg: Limits, key: string, t: int, r: nat)
    requires 1 <= cfg.limit
    ensures OnlyKey(Trips(cfg, key, t, r), key)
    decreases r
  {
    hide OnlyKey, Burst;
    if r == 0 {
      NothingIsOneKey(key);
    } else {
      var rest := Trips(cfg, key, t + cfg.windowMs, r - 1);
      TripsAreOneKey(cfg, key, t + cfg.windowMs, r - 1);
      BurstIsOneKey(cfg.limit - 1, key, 1);
      BurstIsOneKey(1, key, t);
      OnlyKeyConcat(Burst(cfg.limit - 1, key, 1), rest, key);
      OnlyKeyConcat(Burst(1, key, t), Burst(cfg.limit - 1, key, 1) + rest, key);
    }
  }

  lemma {:induction false} WorstRunIsOneKey(cfg: Limits, key: string, r: nat)
    requires 1 <= cfg.limit
    ensures OnlyKey(WorstRun(cfg, key, r), key)
  {
    hide OnlyKey, Burst, Trips;
    var trips := Trips(cfg, key, 2 * cfg.windowMs, r);
    TripsAreOneKey(cfg, key, 2 * cfg.windowMs, r);
    BurstIsOneKey(1, key, 0);
    BurstIsOneKey(cfg.limit - 1, key, 1);
    BurstIsOneKey(cfg.limit, key, cfg.windowMs);
    OnlyKeyConcat(Burst(cfg.limit, key, cfg.windowMs), trips, key);
    OnlyKeyConcat(Burst(cfg.limit - 1, key, 1), Burst(cfg.limit, key, cfg.windowMs) + trips, key);
    OnlyKeyConcat(Burst(1, key, 0), Burst(cfg.limit - 1, key, 1) + (Burst(cfg.limit, key, cfg.windowMs) + trips), key);
  }

  /** A lone key's sweep never shows: its own calls sweep nothing but its own dead window. */
  lemma {:induction false} LoneKeySweepsAlike(cfg: Limits, s: State, calls: seq<Call>, key: string)
    requires 0 < cfg.windowMs && OnlyKey(calls, key) && s.windows.Keys <= {key}
    ensures Sweeping(cfg, s, calls) == Plain(cfg, s.windows, calls)
    decreases |calls|
  {
    if calls != [] {
      var c := calls[0];
      var w := Entered(cfg, s.windows, c);
      var t := AfterSweep(cfg, s, c.now);
      assert Entered(cfg, t.windows, c) == w;
      assert t.windows[key := w] == map[key := w] == s.windows[key := w];
      LoneKeySweepsAlike(cfg, AfterCheck(cfg, s, c), calls[1..], key);
    }
  }

  /** The bounds are exact: the sweeping limiter admits 2 * limit - 1 calls in some interval of
      one window length, with a clock that never goes back, and limit - 1 more for each of any
      number of times the clock goes back into it. */
  lemma {:induction false} IntervalBoundIsReached(cfg: Limits, key: string, r: nat)
    requires 1 <= cfg.limit && 2 <= cfg.windowMs
    ensures var calls := WorstRun(cfg, key, r);
            && (r == 0 ==> Forward(0, calls))
            && (2 <= cfg.limit ==> Returns(calls, false, 1 + cfg.windowMs) == r)
            && Admitted(calls, Sweeping(cfg, State(map[], 0), calls), key, 1, 1 + cfg.windowMs) ==
                2 * cfg.limit - 1 + (cfg.limit - 1) * r
  {
    hide Sweeping, Plain, Admitted, WorstRun, Returns, Forward, OnlyKey;
    WorstRunIsOneKey(cfg, key, r);
    LoneKeySweepsAlike(cfg, State(map[], 0), WorstRun(cfg, key, r), key);
    PlainReachesBound(cfg, key, r);
    if r == 0 {
      WorstRunIsForward(cfg, key);
    }
    if 2 <= cfg.limit {
      WorstRunReturns(cfg, key, r);
    }
  }

  lemma {:induction false} BurstIsForward(start: int, n: nat, key: string, t: int, rest: seq<Call>)
    requires start <= t && Forward(t, rest)
    ensures Forward(start, Burst(n, key, t) + rest)
    decreases n
  {
    hide Burst;
    if n == 0 {
      NoBurst(key, t, rest);
      ForwardFromEarlier(start, t, rest);
    } else {
      BurstUnfolds(n, key, t, rest);
      BurstIsForward(t, n - 1, key, t, rest);
    }
  }

  lemma ForwardFromEarlier(start: int, t: int, calls: seq<Call>)
    requires start <= t && Forward(t, calls)
    ensures Forward(start, calls)
  {
  }

  lemma {:induction false} WorstRunIsForward(cfg: Limits, key: string)
    requires 1 <= cfg.limit && 2 <= cfg.windowMs
    ensures Forward(0, WorstRun(cfg, key, 0))
  {
    var second := Burst(cfg.limit, key, cfg.windowMs) + [];
    BurstIsForward(1, cfg.limit, key, cfg.windowMs, []);
    BurstIsForward(0, cfg.limit - 1, key, 1, second);
    BurstIsForward(0, 1, key, 0, Burst(cfg.limit - 1, key, 1) + second);
    hide Burst, Forward;
  }

  lemma {:induction false} PlainReachesBound(cfg: Limits, key: string, r: nat)
    requires 1 <= cfg.limit && 2 <= cfg.windowMs
    ensures var calls := WorstRun(cfg, key, r);
            Admitted(calls, Plain(cfg, map[], calls), key, 1, 1 + cfg.windowMs) ==
              2 * cfg.limit - 1 + (cfg.limit - 1) * r
  {
    hide Admitted, Plain, Burst, Trips;
    var trips := Trips(cfg, key, 2 * cfg.windowMs, r);
    var second := Burst(cfg.limit, key, cfg.windowMs) + trips;
    var w1 := map[][key := Window(1, 0)];
    var w2 := w1[key := Window(cfg.limit, 0)];
    FreshBurst(cfg, map[], key, 0, 1, Burst(cfg.limit - 1, key, 1) + second, 1);
    NoBurst(key, 0, Burst(cfg.limit - 1, key, 1) + second);
    BurstAdmits(cfg, w1, cfg.limit - 1, key, 1, second, 1);
    SecondAdmits(cfg, w2, key, r);
  }

  lemma {:induction false} SecondAdmits(cfg: Limits, windows: map<string, Window>, key: string, r: nat)
    requires 1 <= cfg.limit && 2 <= cfg.windowMs && key in windows && windows[key] == Window(cfg.limit, 0)
    ensures var calls := Burst(cfg.limit, key, cfg.windowMs) + Trips(cfg, key, 2 * cfg.windowMs, r);
            Admitted(calls, Plain(cfg, windows, calls), key, 1, 1 + cfg.windowMs) ==
              cfg.limit + (cfg.limit - 1) * r
  {
    hide Admitted, Plain, Burst, Trips;
    var trips := Trips(cfg, key, 2 * cfg.windowMs, r);
    var w3 := windows[key := Window(1, cfg.windowMs)];
    var w4 := w3[key := Window(cfg.limit, cfg.windowMs)];
    FreshBurst(cfg, windows, key, cfg.windowMs, cfg.limit, trips, 1);
    BurstAdmits(cfg, w3, cfg.limit - 1, key, cfg.windowMs, trips, 1);
    TripsAdmit(cfg, w4, key, 2 * cfg.windowMs, r);
  }
}
