/**
 * The process launcher (apps/api/src/launcher.ts, lines 21-210): an event-driven supervisor that
 * restarts its child when the child exits with code 42, at most ten times a minute. Event
 * handlers run one at a time; times are readings of the clock in milliseconds.
 */
module Launcher {

  const RESTART_CODE := 42
  const MAX_RESTARTS: nat := 10
  const RESTART_WINDOW := 60000

  import opened Options

  /**
   * The launcher's variables, and around them the world it acts on: the children that run, the
   * timers that are armed, how many children were ever spawned, when every accepted restart
   * happened, and the last reading of the clock. Children and timers are numbered.
   */
  datatype State = State(
    restartTimestamps: seq<int>, restartCount: nat, serverProcess: Option<nat>, isShuttingDown: bool,
    restartTimer: Option<nat>, exitCode: Option<int>,
    live: set<nat>, armed: set<nat>, spawned: nat, history: seq<int>, clock: int)

  datatype Event =
    | Signal
    | ChildExit(child: nat, code: int, killed: bool, checked: int, recorded: int)
    | ChildError(child: nat)
    | TimerFires(timer: nat)

  /** What can happen while the launcher runs; the two clock readings of an exit do not go back. */
  predicate Possible(s: State, e: Event) {
    && s.exitCode.None?
    && match e
       case Signal => true
       case ChildExit(child, _, _, checked, recorded) => child in s.live && s.clock <= checked <= recorded
       case ChildError(child) => child in s.live
       case TimerFires(timer) => timer in s.armed
  }

  /** The timestamps still inside the window. */
  function Recent(timestamps: seq<int>, now: int): seq<int> {
    if timestamps == [] then []
    else
      var last := timestamps[|timestamps| - 1];
      Recent(timestamps[..|timestamps| - 1], now) + if now - last < RESTART_WINDOW then [last] else []
  }

  /** The positions, from left to right, of exactly the timestamps inside the window. */
  ghost predicate SurviveAt(positions: seq<nat>, kept: seq<int>, timestamps: seq<int>, now: int) {
    && |positions| == |kept|
    && (forall i :: 0 <= i < |kept| ==> positions[i] < |timestamps| && kept[i] == timestamps[positions[i]])
    && (forall i, j :: 0 <= i < j < |positions| ==> positions[i] < positions[j])
    && (forall k :: 0 <= k < |timestamps| ==> (k in positions <==> now - timestamps[k] < RESTART_WINDOW))
  }

  ghost predicate Survivors(kept: seq<int>, timestamps: seq<int>, now: int) {
    exists positions :: SurviveAt(positions, kept, timestamps, now)
  }

  lemma OneMoreSurvives(positions: seq<nat>, kept: seq<int>, timestamps: seq<int>, last: int, now: int)
    requires SurviveAt(positions, kept, timestamps, now) && now - last < RESTART_WINDOW
    ensures SurviveAt(positions + [|timestamps|], kept + [last], timestamps + [last], now)
  {
    var more := positions + [|timestamps|];
    forall k | 0 <= k < |timestamps| ensures k in more <==> k in positions {
    }
    assert more[|positions|] == |timestamps|;
    assert forall i :: 0 <= i < |positions| ==> positions[i] < |timestamps|;
  }

  lemma OneMoreIsForgotten(positions: seq<nat>, kept: seq<int>, timestamps: seq<int>, last: int, now: int)
    requires SurviveAt(positions, kept, timestamps, now) && now - last >= RESTART_WINDOW
    ensures SurviveAt(positions, kept, timestamps + [last], now)
  {
    assert forall i :: 0 <= i < |positions| ==> positions[i] < |timestamps|;
  }

  lemma {:induction false} RecentSurvives(timestamps: seq<int>, now: int) returns (positions: seq<nat>)
    ensures SurviveAt(positions, Recent(timestamps, now), timestamps, now)
  {
    positions := [];
    if timestamps != [] {
      hide SurviveAt;
      var n := |timestamps| - 1;
      positions := RecentSurvives(timestamps[..n], now);
      assert timestamps == timestamps[..n] + [timestamps[n]];
      if now - timestamps[n] < RESTART_WINDOW {
        OneMoreSurvives(positions, Recent(timestamps[..n], now), timestamps[..n], timestamps[n], now);
        positions := positions + [n];
      } else {
        OneMoreIsForgotten(positions, Recent(timestamps[..n], now), timestamps[..n], timestamps[n], now);
        assert Recent(timestamps, now) == Recent(timestamps[..n], now);
      }
    }
  }

  function Spawned(s: State): State {
    s.(serverProcess := Some(s.spawned), live := s.live + {s.spawned}, spawned := s.spawned + 1)
  }

  /** Loading the launcher starts the first child. */
  const BOOTED: State := State([], 0, Some(0), false, None, None, {0}, {}, 1, [], 0)

  function Step(s: State, e: Event): State {
    match e
    case Signal =>
      if s.isShuttingDown then s
      else
        var stopped := s.(isShuttingDown := true, restartTimer := None,
                          armed := if s.restartTimer.Some? then s.armed - {s.restartTimer.value} else s.armed);
        if s.serverProcess.Some? then stopped else stopped.(exitCode := Some(0))
    case ChildError(child) => s.(serverProcess := None, exitCode := Some(1))
    case ChildExit(child, code, killed, checked, recorded) =>
      var gone := s.(serverProcess := None, live := s.live - {child}, clock := recorded);
      if killed then gone.(exitCode := Some(1))
      else if code != RESTART_CODE then gone.(exitCode := Some(code))
      else
        var pruned := gone.(restartTimestamps := Recent(s.restartTimestamps, checked));
        if |pruned.restartTimestamps| >= MAX_RESTARTS then pruned.(exitCode := Some(1))
        else if s.isShuttingDown then pruned.(exitCode := Some(0))
        else pruned.(restartTimestamps := pruned.restartTimestamps + [recorded], restartCount := s.restartCount + 1,
                     restartTimer := Some(s.restartCount), armed := s.armed + {s.restartCount},
                     history := s.history + [recorded])
    case TimerFires(timer) =>
      var fired := s.(armed := s.armed - {timer});
      if s.isShuttingDown then fired else Spawned(fired)
  }

  /**
   * What the end of a child leads to: a killed one and one restart too many end the launcher with 1,
   * any other code than 42 with that code, and a restart during shutdown with 0; else a timer is
   * armed and the restart recorded.
   */
  ghost predicate ExitDoes(s: State, t: State, child: nat, code: int, killed: bool, checked: int, recorded: int) {
    && t.exitCode == (if killed then Some(1) else if code != 42 then Some(code)
                      else if |Recent(s.restartTimestamps, checked)| >= 10 then Some(1)
                      else if s.isShuttingDown then Some(0) else None)
    && (t.exitCode.Some? ==> t.armed == s.armed && t.history == s.history && t.restartCount == s.restartCount)
    && (t.exitCode.None? ==>
          && t.restartTimer == Some(s.restartCount) && t.armed == s.armed + {s.restartCount}
          && t.restartTimestamps == Recent(s.restartTimestamps, checked) + [recorded]
          && t.history == s.history + [recorded] && t.restartCount == s.restartCount + 1)
    && t.live == s.live - {child} && t.serverProcess == None && t.spawned == s.spawned
    && t.isShuttingDown == s.isShuttingDown && t.clock == recorded
  }

  lemma ExitMeans(s: State, child: nat, code: int, killed: bool, checked: int, recorded: int)
    requires s.exitCode.None?
    ensures var e := ChildExit(child, code, killed, checked, recorded);
            ExitDoes(s, Step(s, e), child, code, killed, checked, recorded)
  {
    hide Recent;
  }

  // ----- The handlers -----

  class Supervisor {
    var restartTimestamps: seq<int>
    var restartCount: nat
    var serverProcess: Option<nat>
    var isShuttingDown: bool
    var restartTimer: Option<nat>
    var exitCode: Option<int>

    ghost var live: set<nat>
    ghost var armed: set<nat>
    ghost var history: seq<int>
    ghost var clock: int
    var spawned: nat

    ghost function Stored(): State
      reads this
    {
      State(restartTimestamps, restartCount, serverProcess, isShuttingDown, restartTimer, exitCode,
            live, armed, spawned, history, clock)
    }

    constructor ()
      ensures Stored() == BOOTED
    {
      restartTimestamps, restartCount, serverProcess, isShuttingDown, restartTimer := [], 0, None, false, None;
      exitCode, live, armed, spawned, history, clock := None, {}, {}, 0, [], 0;
      new;
      StartServer();
    }

    /** Handles a termination signal, the first time only. */
    method OnSignal()
      requires Possible(Stored(), Signal)
      modifies this
      ensures Stored() == Step(old(Stored()), Signal)
      ensures isShuttingDown && live == old(live) && spawned == old(spawned) && history == old(history)
      ensures old(isShuttingDown) ==> Stored() == old(Stored())
      ensures !old(isShuttingDown) ==>
                && exitCode == (if serverProcess.None? then Some(0) else old(exitCode)) && restartTimer == None
                && armed == old(armed) - (if old(restartTimer).Some? then {old(restartTimer).value} else {})
    {
      if isShuttingDown {
        return;
      }
      isShuttingDown := true;
      if restartTimer.Some? {
        armed := armed - {restartTimer.value};
        restartTimer := None;
      }
      if serverProcess.None? {
        exitCode := Some(0);
      }
    }

    /**
     * Forgets the timestamps that are a window old, and no others, and keeps the rest in order. As
     * long as only such were forgotten before, the answer is that of the whole history: a restart
     * is allowed when fewer than ten accepted ones are less than a window old.
     */
    method ShouldAllowRestart(now: int) returns (allowed: bool)
      modifies this`restartTimestamps
      ensures restartTimestamps == Recent(old(restartTimestamps), now)
      ensures Survivors(restartTimestamps, old(restartTimestamps), now)
      ensures old(RemembersEnough(Stored())) && now >= clock ==>
                (allowed <==> |Recent(history, now)| < MAX_RESTARTS)
      ensures allowed <==> |restartTimestamps| < MAX_RESTARTS
    {
      ghost var positions := RecentSurvives(restartTimestamps, now);
      restartTimestamps := Recent(restartTimestamps, now);
      allowed := |restartTimestamps| < MAX_RESTARTS;
    }

    method StartServer()
      modifies this
      ensures Stored() == if old(isShuttingDown) then old(Stored()) else Spawned(old(Stored()))
    {
      if isShuttingDown {
        return;
      }
      serverProcess := Some(spawned);
      live := live + {spawned};
      spawned := spawned + 1;
    }

    method OnError(child: nat)
      requires Possible(Stored(), ChildError(child))
      modifies this
      ensures Stored() == Step(old(Stored()), ChildError(child))
      ensures exitCode == Some(1) && serverProcess == None && armed == old(armed) && live == old(live)
    {
      serverProcess := None;
      exitCode := Some(1);
    }

    method OnExit(child: nat, code: int, killed: bool, checked: int, recorded: int)
      requires Possible(Stored(), ChildExit(child, code, killed, checked, recorded))
      modifies this
      ensures Stored() == Step(old(Stored()), ChildExit(child, code, killed, checked, recorded))
      ensures ExitDoes(old(Stored()), Stored(), child, code, killed, checked, recorded)
    {
      ExitMeans(Stored(), child, code, killed, checked, recorded);
      hide Recent, ExitDoes, Survivors, SurviveAt, RemembersEnough;
      live := live - {child};
      serverProcess := None;
      clock := recorded;
      if killed {
        exitCode := Some(1);
      } else if code == RESTART_CODE {
        var allowed := ShouldAllowRestart(checked);
        if !allowed {
          exitCode := Some(1);
        } else if isShuttingDown {
          exitCode := Some(0);
        } else {
          restartTimestamps := restartTimestamps + [recorded];
          history := history + [recorded];
          restartTimer := Some(restartCount);
          armed := armed + {restartCount};
          restartCount := restartCount + 1;
        }
      } else {
        exitCode := Some(code);
      }
    }

    method OnTimer(timer: nat)
      requires Possible(Stored(), TimerFires(timer))
      modifies this
      ensures Stored() == Step(old(Stored()), TimerFires(timer))
      ensures armed == old(armed) - {timer} && exitCode == old(exitCode)
      ensures isShuttingDown ==> live == old(live) && spawned == old(spawned)
      ensures !isShuttingDown ==> && live == old(live) + {old(spawned)} && serverProcess == Some(old(spawned))
                                  && spawned == old(spawned) + 1
    {
      armed := armed - {timer};
      if !isShuttingDown {
        StartServer();
      }
    }
  }

  // ----- Runs -----

  function After(s: State, events: seq<Event>): State {
    if events == [] then s else Step(After(s, events[..|events| - 1]), events[|events| - 1])
  }

  ghost predicate Run(s: State, events: seq<Event>) {
    events == [] || (Run(s, events[..|events| - 1]) && Possible(After(s, events[..|events| - 1]), events[|events| - 1]))
  }

  /** A run goes on one event at a time. */
  lemma AfterNext(s: State, events: seq<Event>, e: Event)
    ensures After(s, []) == s && After(s, events + [e]) == Step(After(s, events), e)
    ensures Run(s, events + [e]) <==> Run(s, events) && Possible(After(s, events), e)
  {
    assert (events + [e])[..|events|] == events;
  }

  /**
   * While the launcher runs it waits for exactly one thing: the child it knows, or an armed timer
   * it can cancel; and for the child only, once it is shutting down. When it has exited, at most
   * one child is left behind.
   */
  ghost predicate WaitsForOne(s: State) {
    if s.exitCode.Some? then |s.live| <= 1 && s.armed == {}
    else if s.serverProcess.Some? then s.live == {s.serverProcess.value} && s.armed == {}
    else !s.isShuttingDown && s.live == {} && s.restartTimer.Some? && s.armed == {s.restartTimer.value}
  }

  lemma ExitWaitsForOne(s: State, e: Event)
    requires WaitsForOne(s) && Possible(s, e) && e.ChildExit?
    ensures WaitsForOne(Step(s, e))
  {
    hide Recent;
    assert s.live == {e.child};
    assert s.live - {e.child} == {};
  }

  lemma TimerWaitsForOne(s: State, e: Event)
    requires WaitsForOne(s) && Possible(s, e) && e.TimerFires?
    ensures WaitsForOne(Step(s, e))
  {
    assert s.armed - {e.timer} == {} && s.live == {};
  }

  lemma StepWaitsForOne(s: State, e: Event)
    requires WaitsForOne(s) && Possible(s, e)
    ensures WaitsForOne(Step(s, e))
  {
    match e {
      case ChildExit(_, _, _, _, _) => ExitWaitsForOne(s, e);
      case TimerFires(_) => TimerWaitsForOne(s, e);
      case _ =>
    }
  }

  /** In every order of events, the live children and the armed timers together are one, or none after exit. */
  lemma {:induction false} OneChildOrTimer(events: seq<Event>)
    requires Run(BOOTED, events)
    ensures var s := After(BOOTED, events);
            && WaitsForOne(s) && |s.live| + |s.armed| <= 1
            && (s.exitCode.None? ==> |s.live| + |s.armed| == 1)
  {
    hide Step, Possible;
    if events != [] {
      OneChildOrTimer(events[..|events| - 1]);
      StepWaitsForOne(After(BOOTED, events[..|events| - 1]), events[|events| - 1]);
    }
  }

  /** Once a signal has arrived, no child is spawned any more, whatever happens next. */
  lemma {:induction false} NoSpawnAfterShutdown(s: State, events: seq<Event>)
    requires s.isShuttingDown
    ensures After(s, events).isShuttingDown
    ensures After(s, events).spawned == s.spawned && After(s, events).history == s.history
    decreases |events|
  {
    if events != [] {
      NoSpawnAfterShutdown(s, events[..|events| - 1]);
    }
  }

  /** Every child but the first answers an accepted restart; only a shutdown can cancel one. */
  ghost predicate Accounted(s: State) {
    && s.restartCount == |s.history| && s.spawned + |s.armed| <= 1 + |s.history|
    && (s.exitCode.None? && !s.isShuttingDown ==> s.spawned + |s.armed| == 1 + |s.history|)
  }

  lemma StepIsAccounted(s: State, e: Event)
    requires WaitsForOne(s) && Accounted(s) && Possible(s, e)
    ensures Accounted(Step(s, e))
  {
    hide Recent;
    if e.TimerFires? {
      assert s.armed - {e.timer} == {};
    }
  }

  lemma {:induction false} RestartsAreAccounted(events: seq<Event>)
    requires Run(BOOTED, events)
    ensures Accounted(After(BOOTED, events))
  {
    hide Step, Possible;
    if events != [] {
      RestartsAreAccounted(events[..|events| - 1]);
      OneChildOrTimer(events[..|events| - 1]);
      StepIsAccounted(After(BOOTED, events[..|events| - 1]), events[|events| - 1]);
    }
  }

  // ----- The limiter -----

  lemma {:induction false} RecentOfMore(a: seq<int>, b: seq<int>, now: int)
    ensures Recent(a + b, now) == Recent(a, now) + Recent(b, now)
    decreases |b|
  {
    if b == [] {
      assert a + b == a;
    } else {
      assert (a + b)[..|a + b| - 1] == a + b[..|b| - 1];
      RecentOfMore(a, b[..|b| - 1], now);
    }
  }

  /** Pruning at one moment loses nothing that matters later. */
  lemma {:induction false} PruningIsHarmless(a: seq<int>, now: int, later: int)
    requires now <= later
    ensures Recent(Recent(a, now), later) == Recent(a, later)
  {
    if a != [] {
      var last := a[|a| - 1];
      PruningIsHarmless(a[..|a| - 1], now, later);
      RecentOfMore(Recent(a[..|a| - 1], now), if now - last < RESTART_WINDOW then [last] else [], later);
    }
  }

  ghost predicate Sorted(a: seq<int>) {
    forall i, j :: 0 <= i < j < |a| ==> a[i] <= a[j]
  }

  /** Every eleventh restart comes at least a window after the first of them. */
  ghost predicate Spread(history: seq<int>) {
    forall i, j :: 0 <= i && j == i + MAX_RESTARTS < |history| ==> history[i] + RESTART_WINDOW <= history[j]
  }

  /** The pruned timestamps decide like the full history, from the last reading of the clock on. */
  ghost predicate RemembersEnough(s: State) {
    forall now :: now >= s.clock ==> Recent(s.restartTimestamps, now) == Recent(s.history, now)
  }

  ghost predicate Limited(s: State) {
    && Sorted(s.history) && Spread(s.history) && RemembersEnough(s)
    && forall i :: 0 <= i < |s.history| ==> s.history[i] <= s.clock
  }

  /** In a sorted history, a recent entry is followed by recent ones only. */
  lemma {:induction false} RecentTail(a: seq<int>, i: nat, now: int)
    requires Sorted(a) && i < |a| && now - a[i] < RESTART_WINDOW
    ensures |Recent(a, now)| >= |a| - i
  {
    if i < |a| - 1 {
      RecentTail(a[..|a| - 1], i, now);
    }
  }

  /** An accepted restart keeps every eleven a window apart. */
  lemma AcceptedKeepsSpread(history: seq<int>, checked: int, recorded: int)
    requires Sorted(history) && Spread(history) && checked <= recorded
    requires forall i :: 0 <= i < |history| ==> history[i] <= checked
    requires |Recent(history, checked)| < MAX_RESTARTS
    ensures Sorted(history + [recorded]) && Spread(history + [recorded])
  {
    var n := |history|;
    if n >= MAX_RESTARTS && checked - history[n - MAX_RESTARTS] < RESTART_WINDOW {
      RecentTail(history, n - MAX_RESTARTS, checked);
    }
  }

  lemma StepStaysLimited(s: State, e: Event)
    requires Limited(s) && Possible(s, e)
    ensures Limited(Step(s, e))
    ensures e.ChildExit? && !e.killed && e.code == RESTART_CODE ==>
              (Step(s, e).exitCode == Some(1) <==> |Recent(s.history, e.checked)| >= MAX_RESTARTS)
  {
    hide Recent, Spread;
    if e.ChildExit? && !e.killed && e.code == RESTART_CODE {
      var t := Step(s, e);
      var pruned := Recent(s.restartTimestamps, e.checked);
      assert pruned == Recent(s.history, e.checked);
      forall now | now >= e.recorded ensures Recent(t.restartTimestamps, now) == Recent(t.history, now) {
        PruningIsHarmless(s.restartTimestamps, e.checked, now);
        RecentOfMore(pruned, [e.recorded], now);
        RecentOfMore(s.history, [e.recorded], now);
      }
      if |pruned| < MAX_RESTARTS {
        AcceptedKeepsSpread(s.history, e.checked, e.recorded);
      }
    }
  }

  lemma {:induction false} AlwaysLimited(events: seq<Event>)
    requires Run(BOOTED, events)
    ensures Limited(After(BOOTED, events))
  {
    hide Limited, Step, Possible;
    if events != [] {
      AlwaysLimited(events[..|events| - 1]);
      StepStaysLimited(After(BOOTED, events[..|events| - 1]), events[|events| - 1]);
    } else {
      BootedIsLimited();
    }
  }

  lemma BootedIsLimited()
    ensures Limited(BOOTED)
  {
  }

  /** How many restarts were accepted in the half-open window from `start`. */
  function CountIn(history: seq<int>, start: int): nat {
    if history == [] then 0
    else
      var last := history[|history| - 1];
      CountIn(history[..|history| - 1], start) + if start <= last < start + RESTART_WINDOW then 1 else 0
  }

  /** It is the number of entries in the window. */
  lemma {:induction false} CountIsExact(history: seq<int>, start: int)
    ensures CountIn(history, start) == |set i | 0 <= i < |history| && start <= history[i] < start + 60000|
  {
    var within := set i | 0 <= i < |history| && start <= history[i] < start + 60000;
    if history == [] {
      assert within == {};
    } else {
      var n := |history| - 1;
      var earlier := history[..n];
      CountIsExact(earlier, start);
      var before := set i | 0 <= i < |earlier| && start <= earlier[i] < start + 60000;
      assert within == before + (if start <= history[n] < start + 60000 then {n} else {});
    }
  }

  lemma {:induction false} CountSkips(history: seq<int>, start: int, k: nat)
    requires k <= |history| && forall i :: 0 <= i < k ==> history[i] < start
    ensures CountIn(history, start) <= |history| - k
  {
    if k < |history| {
      CountSkips(history[..|history| - 1], start, k);
    } else if history != [] {
      CountSkips(history[..|history| - 1], start, k - 1);
    }
  }

  lemma {:induction false} WindowsAreSmall(history: seq<int>, start: int)
    requires Sorted(history) && Spread(history)
    ensures CountIn(history, start) <= MAX_RESTARTS
  {
    var n := |history|;
    if n <= MAX_RESTARTS {
      CountSkips(history, start, 0);
    } else if history[n - 1] < start + RESTART_WINDOW {
      assert history[n - 1 - MAX_RESTARTS] + RESTART_WINDOW <= history[n - 1];
      CountSkips(history, start, n - MAX_RESTARTS);
    } else {
      WindowsAreSmall(history[..n - 1], start);
    }
  }

  /** In every run, every half-open minute holds at most ten accepted restarts. */
  lemma RestartsAreLimited(events: seq<Event>, start: int)
    requires Run(BOOTED, events)
    ensures var history := After(BOOTED, events).history;
            |set i | 0 <= i < |history| && start <= history[i] < start + 60000| <= 10
  {
    hide Run, After, CountIn;
    CountIsExact(After(BOOTED, events).history, start);
    AlwaysLimited(events);
    WindowsAreSmall(After(BOOTED, events).history, start);
  }
}
