/**
 The timer and its stop protocol in cmd/wecert/binding_refresh.go, as a system whose steps interleave freely: the
 ticker, the loop's two `select` branches, refreshes that take any time, cancellation of the parent context, and
 any number of callers of the stop function.

 The clock counts instants. It moves only when nobody has a step to take that does not wait: a goroutine that can
 run does so before the clock moves on, a refresh takes as long as it likes.
 */
module BindingRefresh {

  datatype Loop = Waiting | Refreshing | Exited

  datatype Outcome = Draining | Drained(at: nat) | TimedOut(at: nat)

  /** A call of the stop function. */
  datatype Caller = Caller(calledAt: nat, outcome: Outcome)

  type Positive = n: nat | n > 0 witness 1

  /** `every` is the interval and `drain` the drain bound. */
  datatype Config = Config(every: Positive, drain: Positive)

  /** `due` numbers the interval at whose start the next tick is due. */
  datatype State = State(
    clock: nat,
    due: nat,
    ticks: nat,
    tickPending: bool,
    cancelled: bool,
    loop: Loop,
    started: nat,
    finished: nat,
    busyAt: Busy,
    closes: nat,
    callers: seq<Caller>)

  /** The last instant at which a refresh was in flight. */
  datatype Busy = Never | At(instant: nat)

  datatype Action =
    | Tick | Take | Return | SeeCancel
    | CancelParent | CallStop | Drain(caller: nat) | TimeOut(caller: nat)
    | Advance

  function Start(c: Config): State {
    State(0, 1, 0, false, false, Waiting, 0, 0, Never, 0, [])
  }

  // ---------- steps ----------

  /** The interval the clock is in. */
  function Interval(c: Config, s: State): nat { s.clock / c.every }

  predicate TickDue(c: Config, s: State) { Interval(c, s) >= s.due }

  predicate IsDraining(s: State, k: nat) { k < |s.callers| && s.callers[k].outcome.Draining? }

  predicate Expired(c: Config, s: State, k: nat)
    requires k < |s.callers|
  {
    s.clock >= s.callers[k].calledAt + c.drain
  }

  /** A stop call with one of its `select` branches ready. */
  predicate CallerReady(c: Config, s: State, k: nat) {
    IsDraining(s, k) && (s.closes > 0 || Expired(c, s, k))
  }

  predicate LoopReady(s: State) { s.loop.Waiting? && (s.cancelled || s.tickPending) }

  predicate Quiet(c: Config, s: State) {
    !LoopReady(s) && forall k :: 0 <= k < |s.callers| ==> !CallerReady(c, s, k)
  }

  predicate Enabled(c: Config, s: State, a: Action) {
    match a
    case Tick => !s.loop.Exited? && TickDue(c, s)
    case Take => s.loop.Waiting? && s.tickPending
    case Return => s.loop.Refreshing?
    case SeeCancel => s.loop.Waiting? && s.cancelled
    case CancelParent => true
    case CallStop => true
    case Drain(k) => IsDraining(s, k) && s.closes > 0
    case TimeOut(k) => IsDraining(s, k) && Expired(c, s, k)
    case Advance => Quiet(c, s)
  }

  function Settle(s: State, k: nat, outcome: Outcome): State
    requires k < |s.callers|
  {
    s.(callers := s.callers[k := s.callers[k].(outcome := outcome)])
  }

  function Apply(c: Config, s: State, a: Action): State
    requires Enabled(c, s, a)
  {
    match a
    // a late tick makes up for those that were missed
    case Tick => s.(due := Interval(c, s) + 1, ticks := s.ticks + 1, tickPending := true)
    case Take => s.(loop := Refreshing, tickPending := false, started := s.started + 1, busyAt := At(s.clock))
    case Return => s.(loop := Waiting, finished := s.finished + 1)
    case SeeCancel => s.(loop := Exited, closes := s.closes + 1)
    case CancelParent => s.(cancelled := true)
    case CallStop => s.(cancelled := true, callers := s.callers + [Caller(s.clock, Draining)])
    case Drain(k) => Settle(s, k, Drained(s.clock))
    case TimeOut(k) => Settle(s, k, TimedOut(s.clock))
    case Advance =>
      s.(clock := s.clock + 1, busyAt := if s.loop.Refreshing? then At(s.clock + 1) else s.busyAt)
  }

  predicate Runs(c: Config, s: State, run: seq<Action>)
    decreases run
  {
    run == [] || (Enabled(c, s, run[0]) && Runs(c, Apply(c, s, run[0]), run[1..]))
  }

  function After(c: Config, s: State, run: seq<Action>): State
    requires Runs(c, s, run)
    decreases run
  {
    if run == [] then s else After(c, Apply(c, s, run[0]), run[1..])
  }

  // ---------- what every step keeps ----------

  predicate LoopInv(c: Config, s: State) {
    && s.started == s.finished + (if s.loop.Refreshing? then 1 else 0)
    && s.closes == (if s.loop.Exited? then 1 else 0)
    && (s.loop.Exited? ==> s.cancelled)
    && (s.loop.Refreshing? ==> s.busyAt == At(s.clock))
    && s.started + (if s.tickPending then 1 else 0) <= s.ticks
    && s.ticks < s.due <= Interval(c, s) + 1
  }

  predicate CallerInv(c: Config, s: State, caller: Caller) {
    && caller.calledAt <= s.clock
    && s.cancelled
    && match caller.outcome
       case Draining =>
         && s.clock <= caller.calledAt + c.drain
         && (caller.calledAt < s.clock ==> s.busyAt == At(s.clock))
       case Drained(at) => s.loop.Exited? && caller.calledAt <= at <= caller.calledAt + c.drain && at <= s.clock
       case TimedOut(at) =>
         && at == caller.calledAt + c.drain <= s.clock
         && s.busyAt.At? && s.busyAt.instant >= at
  }

  predicate Inv(c: Config, s: State) {
    LoopInv(c, s) && forall k :: 0 <= k < |s.callers| ==> CallerInv(c, s, s.callers[k])
  }

  lemma Scaled(m: nat, n: nat, e: nat)
    requires m >= n
    ensures m * e >= n * e
  {
    assert (m - n) * e >= 0;
  }

  lemma InInterval(now: nat, e: Positive)
    ensures var q := now / e; q * e <= now < (q + 1) * e
  {
    assert now == now / e * e + now % e;
  }

  lemma IntervalGrows(c: Config, now: nat, later: nat)
    requires now <= later
    ensures now / c.every <= later / c.every
  {
    var e, m, n := c.every, now / c.every, later / c.every;
    InInterval(now, e);
    InInterval(later, e);
    if m > n { Scaled(m, n + 1, e); }
  }

  lemma StepLoopInv(c: Config, s: State, a: Action)
    requires LoopInv(c, s) && Enabled(c, s, a)
    ensures LoopInv(c, Apply(c, s, a))
  {
    IntervalGrows(c, s.clock, s.clock + 1);
  }

  lemma StepInv(c: Config, s: State, a: Action)
    requires Inv(c, s) && Enabled(c, s, a)
    ensures Inv(c, Apply(c, s, a))
  {
    StepLoopInv(c, s, a);
    var t := Apply(c, s, a);
    forall k | 0 <= k < |t.callers| ensures CallerInv(c, t, t.callers[k]) {
      if k < |s.callers| { assert CallerInv(c, s, s.callers[k]) && (a.Advance? ==> !CallerReady(c, s, k)); }
    }
  }

  lemma {:induction false} RunInv(c: Config, s: State, run: seq<Action>)
    requires Inv(c, s) && Runs(c, s, run)
    ensures Inv(c, After(c, s, run))
    decreases run
  {
    if run != [] {
      StepInv(c, s, run[0]);
      RunInv(c, Apply(c, s, run[0]), run[1..]);
    }
  }

  lemma {:induction false} Concat(c: Config, s: State, a: seq<Action>, b: seq<Action>)
    requires Runs(c, s, a) && Runs(c, After(c, s, a), b)
    ensures Runs(c, s, a + b) && After(c, s, a + b) == After(c, After(c, s, a), b)
    decreases a
  {
    if a == [] {
      assert a + b == b;
    } else {
      assert (a + b)[0] == a[0] && (a + b)[1..] == a[1..] + b;
      Concat(c, Apply(c, s, a[0]), a[1..], b);
    }
  }

  // ---------- safety over whole runs ----------

  /** At most one refresh is in flight; `done` is closed at most once, and only with no refresh in flight; and there
      are never more refreshes than intervals that are over, so none runs before the first is. */
  lemma OneAtATime(c: Config, run: seq<Action>)
    requires Runs(c, Start(c), run)
    ensures var s := After(c, Start(c), run);
      && s.finished <= s.started <= s.finished + 1
      && s.closes <= 1
      && (s.closes == 1 ==> s.started == s.finished)
      && s.started <= Interval(c, s)
  {
    RunInv(c, Start(c), run);
  }

  /** In any stretch of a run there is at most one tick for each interval the stretch touches. */
  lemma {:induction false} TicksInStretch(c: Config, s: State, run: seq<Action>)
    requires Inv(c, s) && Runs(c, s, run)
    ensures var t := After(c, s, run);
      && t.ticks - s.ticks <= Interval(c, t) - Interval(c, s) + 1
      && t.ticks - s.ticks <= t.due - s.due
      && t.due <= Interval(c, t) + 1
    decreases run
  {
    if run != [] {
      StepInv(c, s, run[0]);
      IntervalGrows(c, s.clock, s.clock + 1);
      TicksInStretch(c, Apply(c, s, run[0]), run[1..]);
    }
  }

  /** What has begun or is about to: the refreshes begun and the tick that is waiting. */
  function Claimed(s: State): nat { s.started + if s.tickPending then 1 else 0 }

  lemma {:induction false} ClaimsAreTicks(c: Config, s: State, run: seq<Action>)
    requires Runs(c, s, run)
    ensures var t := After(c, s, run); Claimed(t) - Claimed(s) <= t.ticks - s.ticks
    decreases run
  {
    if run != [] { ClaimsAreTicks(c, Apply(c, s, run[0]), run[1..]); }
  }

  /** In any stretch of any run at most one refresh begins for each interval the stretch touches, and one more if a
      tick was waiting when it began. */
  lemma AtMostOneAnInterval(c: Config, before: seq<Action>, stretch: seq<Action>)
    requires Runs(c, Start(c), before) && Runs(c, After(c, Start(c), before), stretch)
    ensures var s := After(c, Start(c), before);
      var t := After(c, s, stretch);
      t.started - s.started <= (Interval(c, t) - Interval(c, s) + 1) + if s.tickPending then 1 else 0
  {
    RunInv(c, Start(c), before);
    TicksInStretch(c, After(c, Start(c), before), stretch);
    ClaimsAreTicks(c, After(c, Start(c), before), stretch);
  }

  /** A stop call that has waited the drain bound has returned, and every call returns within it. */
  lemma StopIsBounded(c: Config, run: seq<Action>, k: nat)
    requires Runs(c, Start(c), run)
    ensures var s := After(c, Start(c), run);
      k < |s.callers| ==>
        var caller := s.callers[k];
        match caller.outcome
        case Draining => s.clock <= caller.calledAt + c.drain
        case Drained(at) => caller.calledAt <= at <= caller.calledAt + c.drain
        case TimedOut(at) => at == caller.calledAt + c.drain
  {
    RunInv(c, Start(c), run);
    var s := After(c, Start(c), run);
    if k < |s.callers| { assert CallerInv(c, s, s.callers[k]); }
  }

  lemma ExitedStep(c: Config, s: State, a: Action)
    requires Inv(c, s) && Enabled(c, s, a) && s.loop.Exited?
    ensures var t := Apply(c, s, a); t.loop.Exited? && t.started == s.started && t.closes == s.closes
  {
  }

  lemma {:induction false} ExitedRun(c: Config, s: State, run: seq<Action>)
    requires Inv(c, s) && Runs(c, s, run) && s.loop.Exited?
    ensures var t := After(c, s, run); t.loop.Exited? && t.started == s.started && t.closes == s.closes
    decreases run
  {
    if run != [] {
      StepInv(c, s, run[0]);
      ExitedStep(c, s, run[0]);
      ExitedRun(c, Apply(c, s, run[0]), run[1..]);
    }
  }

  /** Once one stop call has returned through `done`, no refresh is in flight and none ever begins. */
  lemma DrainedMeansDone(c: Config, before: seq<Action>, k: nat, later: seq<Action>)
    requires Runs(c, Start(c), before)
    requires var s := After(c, Start(c), before);
      k < |s.callers| && s.callers[k].outcome.Drained? && Runs(c, s, later)
    ensures var s := After(c, Start(c), before);
      var t := After(c, s, later);
      t.started == s.started == t.finished && t.closes == 1
  {
    RunInv(c, Start(c), before);
    var s := After(c, Start(c), before);
    assert CallerInv(c, s, s.callers[k]);
    ExitedRun(c, s, later);
    RunInv(c, s, later);
  }

  // ---------- the warning ----------

  /** At some point of the run a refresh is in flight at that instant. */
  ghost predicate InFlightAt(c: Config, s: State, run: seq<Action>, instant: nat)
    requires Runs(c, s, run)
    decreases run
  {
    || (s.loop.Refreshing? && s.clock == instant)
    || (run != [] && InFlightAt(c, Apply(c, s, run[0]), run[1..], instant))
  }

  lemma BusyStep(c: Config, s: State, a: Action)
    requires Enabled(c, s, a)
    ensures var t := Apply(c, s, a);
      t.busyAt == s.busyAt || (t.loop.Refreshing? && t.busyAt == At(t.clock))
  {
  }

  lemma {:induction false} BusyMeansInFlight(c: Config, s: State, run: seq<Action>)
    requires Runs(c, s, run)
    ensures var t := After(c, s, run);
      t.busyAt == s.busyAt || (t.busyAt.At? && InFlightAt(c, s, run, t.busyAt.instant))
    decreases run
  {
    if run != [] {
      BusyStep(c, s, run[0]);
      var t := Apply(c, s, run[0]);
      BusyMeansInFlight(c, t, run[1..]);
      var end := After(c, t, run[1..]);
      if end.busyAt == t.busyAt && t.busyAt != s.busyAt {
        assert InFlightAt(c, t, run[1..], t.clock);
      }
    }
  }

  /** The stop call gives up only at its deadline, and its warning is true: a refresh was in flight at that instant. */
  lemma WarningIsTrue(c: Config, run: seq<Action>, k: nat)
    requires Runs(c, Start(c), run) && Enabled(c, After(c, Start(c), run), TimeOut(k))
    ensures var s := After(c, Start(c), run);
      && s.clock == s.callers[k].calledAt + c.drain
      && InFlightAt(c, Start(c), run, s.clock)
  {
    RunInv(c, Start(c), run);
    var s := After(c, Start(c), run);
    assert CallerInv(c, s, s.callers[k]);
    BusyMeansInFlight(c, Start(c), run);
  }

  // ---------- time is never blocked ----------

  lemma One(c: Config, s: State, a: Action)
    requires Enabled(c, s, a)
    ensures Runs(c, s, [a]) && After(c, s, [a]) == Apply(c, s, a)
  {
    assert Runs(c, Apply(c, s, a), [a][1..]);
  }

  predicate QuietBelow(c: Config, s: State, k: nat) {
    forall j :: 0 <= j < |s.callers| && j < k ==> !CallerReady(c, s, j)
  }

  lemma {:induction false} CallersSettle(c: Config, s: State, k: nat) returns (run: seq<Action>)
    requires !LoopReady(s) && k <= |s.callers| && QuietBelow(c, s, k)
    ensures Runs(c, s, run)
    ensures var t := After(c, s, run); Quiet(c, t) && t == s.(callers := t.callers)
    ensures |run| <= |s.callers| - k
    decreases |s.callers| - k
  {
    if k == |s.callers| {
      run := [];
    } else if CallerReady(c, s, k) {
      var a := if s.closes > 0 then Drain(k) else TimeOut(k);
      var t := Apply(c, s, a);
      forall j | 0 <= j < k + 1 ensures !CallerReady(c, t, j) {
        if j < k { assert !CallerReady(c, s, j); }
      }
      One(c, s, a);
      var rest := CallersSettle(c, t, k + 1);
      Concat(c, s, [a], rest);
      run := [a] + rest;
    } else {
      run := CallersSettle(c, s, k + 1);
    }
  }

  /** A step that is taken at once by a goroutine that can run: a branch of the loop's `select` or of a caller's. */
  predicate Prompt(a: Action) { a.Take? || a.SeeCancel? || a.Drain? || a.TimeOut? }

  predicate AllPrompt(run: seq<Action>) { run == [] || (Prompt(run[0]) && AllPrompt(run[1..])) }

  /** The callers that have not returned. */
  function DrainingCount(callers: seq<Caller>): nat {
    if callers == [] then 0
    else DrainingCount(callers[1..]) + if callers[0].outcome.Draining? then 1 else 0
  }

  /** How many goroutines can still take such a step: the callers that have not returned, and a waiting loop. */
  function Unsettled(s: State): nat { DrainingCount(s.callers) + if s.loop.Waiting? then 1 else 0 }

  lemma {:induction false} OneFewer(callers: seq<Caller>, k: nat, caller: Caller)
    requires k < |callers| && callers[k].outcome.Draining? && !caller.outcome.Draining?
    ensures DrainingCount(callers[k := caller]) == DrainingCount(callers) - 1
    decreases callers
  {
    if k == 0 {
      assert callers[k := caller][1..] == callers[1..];
    } else {
      assert callers[k := caller][1..] == callers[1..][k - 1 := caller];
      OneFewer(callers[1..], k - 1, caller);
    }
  }

  lemma PromptSettles(c: Config, s: State, a: Action)
    requires Prompt(a) && Enabled(c, s, a)
    ensures Unsettled(Apply(c, s, a)) == Unsettled(s) - 1
  {
    match a
    case Drain(k) => OneFewer(s.callers, k, s.callers[k].(outcome := Drained(s.clock)));
    case TimeOut(k) => OneFewer(s.callers, k, s.callers[k].(outcome := TimedOut(s.clock)));
    case _ =>
  }

  /** The clock is held up exactly as long as such a step can be taken. */
  lemma QuietExactly(c: Config, s: State)
    ensures Enabled(c, s, Advance) <==> forall a :: Prompt(a) ==> !Enabled(c, s, a)
  {
    if Quiet(c, s) {
      forall a | Prompt(a) ensures !Enabled(c, s, a) { QuietRefuses(c, s, a); }
    } else if LoopReady(s) {
      var a := if s.cancelled then SeeCancel else Take;
      assert Prompt(a) && Enabled(c, s, a);
    } else {
      var k :| 0 <= k < |s.callers| && CallerReady(c, s, k);
      var a := if s.closes > 0 then Drain(k) else TimeOut(k);
      assert Prompt(a) && Enabled(c, s, a);
    }
  }

  lemma QuietRefuses(c: Config, s: State, a: Action)
    requires Quiet(c, s) && Prompt(a)
    ensures !Enabled(c, s, a)
  {
    match a
    case Drain(k) => assert k < |s.callers| ==> !CallerReady(c, s, k);
    case TimeOut(k) => assert k < |s.callers| ==> !CallerReady(c, s, k);
    case _ =>
  }

  /** However the goroutines that can run are scheduled, they come to rest: each takes at most one step, and when none
      is left to take the clock moves on. Together with `StopIsBounded`, every stop call returns. */
  lemma {:induction false} PromptRunsEnd(c: Config, s: State, run: seq<Action>)
    requires Runs(c, s, run) && AllPrompt(run)
    ensures |run| == Unsettled(s) - Unsettled(After(c, s, run))
    decreases run
  {
    if run != [] {
      PromptSettles(c, s, run[0]);
      PromptRunsEnd(c, Apply(c, s, run[0]), run[1..]);
    }
  }

  /** From every state there is such a schedule to the end. */
  lemma TimeNeverBlocks(c: Config, s: State) returns (run: seq<Action>)
    ensures Runs(c, s, run) && Enabled(c, After(c, s, run), Advance) && After(c, s, run).clock == s.clock
    ensures |run| <= |s.callers| + 1
  {
    if LoopReady(s) {
      var a := if s.cancelled then SeeCancel else Take;
      One(c, s, a);
      var rest := CallersSettle(c, Apply(c, s, a), 0);
      Concat(c, s, [a], rest);
      run := [a] + rest;
    } else {
      run := CallersSettle(c, s, 0);
    }
  }

  // ---------- when a refresh can still begin ----------

  /** Whether a refresh can still begin: the loop has not returned, and unless it is in a refresh or free to wait for
      the next tick, a tick is there to be taken. */
  predicate CanBegin(c: Config, s: State) {
    && !s.loop.Exited?
    && (!s.cancelled || s.tickPending || TickDue(c, s) || s.loop.Refreshing?)
  }

  lemma {:induction false} NeverBegins(c: Config, s: State, run: seq<Action>)
    requires !CanBegin(c, s) && Runs(c, s, run)
    ensures After(c, s, run).started == s.started
    decreases run
  {
    if run != [] { NeverBegins(c, Apply(c, s, run[0]), run[1..]); }
  }

  lemma Extend(c: Config, s: State, a: Action, rest: seq<Action>) returns (run: seq<Action>)
    requires Enabled(c, s, a) && Runs(c, Apply(c, s, a), rest)
    ensures Runs(c, s, run) && After(c, s, run) == After(c, Apply(c, s, a), rest)
  {
    One(c, s, a);
    Concat(c, s, [a], rest);
    run := [a] + rest;
  }

  lemma DueLater(c: Config, s: State)
    requires !TickDue(c, s)
    ensures s.clock < s.due * c.every
  {
    InInterval(s.clock, c.every);
    Scaled(s.due, Interval(c, s) + 1, c.every);
  }

  /** A loop in a refresh, or waiting and not cancelled, can stay as it is until the next tick is due. */
  lemma {:induction false} WaitsForTick(c: Config, s: State) returns (run: seq<Action>)
    requires Inv(c, s) && !s.loop.Exited? && !LoopReady(s)
    ensures Runs(c, s, run)
    ensures var t := After(c, s, run);
      TickDue(c, t) && t == s.(clock := t.clock, busyAt := t.busyAt, callers := t.callers)
    decreases s.due * c.every - s.clock
  {
    if TickDue(c, s) {
      run := [];
    } else {
      DueLater(c, s);
      var settle := CallersSettle(c, s, 0);
      RunInv(c, s, settle);
      var quiet := After(c, s, settle);
      StepInv(c, quiet, Advance);
      var rest := WaitsForTick(c, Apply(c, quiet, Advance));
      rest := Extend(c, quiet, Advance, rest);
      Concat(c, s, settle, rest);
      run := settle + rest;
    }
  }

  /** A tick that is due, or there already, can be taken by a loop that has not returned. */
  lemma TakesTick(c: Config, s: State) returns (run: seq<Action>)
    requires !s.loop.Exited? && (s.tickPending || TickDue(c, s))
    ensures Runs(c, s, run) && After(c, s, run).started == s.started + 1
  {
    var t := if s.tickPending then s else Apply(c, s, Tick);
    var u := if t.loop.Refreshing? then Apply(c, t, Return) else t;
    One(c, u, Take);
    run := [Take];
    if t.loop.Refreshing? { run := Extend(c, t, Return, run); }
    if !s.tickPending { run := Extend(c, s, Tick, run); }
  }

  lemma Begins(c: Config, s: State) returns (run: seq<Action>)
    requires Inv(c, s) && CanBegin(c, s)
    ensures Runs(c, s, run) && After(c, s, run).started == s.started + 1
  {
    if s.tickPending || TickDue(c, s) {
      run := TakesTick(c, s);
    } else {
      var wait := WaitsForTick(c, s);
      var rest := TakesTick(c, After(c, s, wait));
      Concat(c, s, wait, rest);
      run := wait + rest;
    }
  }

  /** Exactly when a refresh can still begin. Cancellation rules it out only for a loop that is waiting with no tick
      there or due; the return of the loop, which closes `done`, always does. */
  lemma BeginsExactly(c: Config, s: State)
    requires Inv(c, s)
    ensures (exists run :: Runs(c, s, run) && After(c, s, run).started > s.started) <==> CanBegin(c, s)
  {
    if CanBegin(c, s) {
      var run := Begins(c, s);
      assert Runs(c, s, run) && After(c, s, run).started > s.started;
    } else {
      forall run | Runs(c, s, run) ensures After(c, s, run).started == s.started { NeverBegins(c, s, run); }
    }
  }

  /** The context is cancelled from the first cancellation of the parent or call of the stop function on. */
  lemma {:induction false} CancelledExactly(c: Config, s: State, run: seq<Action>)
    requires Runs(c, s, run)
    ensures After(c, s, run).cancelled <==> s.cancelled || CancelParent in run || CallStop in run
    decreases run
  {
    if run != [] {
      assert run == [run[0]] + run[1..];
      CancelledExactly(c, Apply(c, s, run[0]), run[1..]);
    }
  }

  /** Cancelled while it waits with no tick there or due, the loop never begins another refresh. */
  lemma CancelStops(c: Config, s: State, a: Action, later: seq<Action>)
    requires a == CancelParent || a == CallStop
    requires s.loop.Waiting? && !s.tickPending && !TickDue(c, s)
    requires Runs(c, Apply(c, s, a), later)
    ensures After(c, Apply(c, s, a), later).started == s.started
  {
    NeverBegins(c, Apply(c, s, a), later);
  }

  /** A cancelled loop can always leave, before the clock moves and without another refresh, a tick there or not. */
  lemma LeavesAtOnce(c: Config, s: State) returns (run: seq<Action>)
    requires s.cancelled && !s.loop.Exited?
    ensures Runs(c, s, run)
    ensures var t := After(c, s, run); t.loop.Exited? && t.started == s.started && t.clock == s.clock
  {
    var t := if s.loop.Refreshing? then Apply(c, s, Return) else s;
    One(c, t, SeeCancel);
    run := [SeeCancel];
    if s.loop.Refreshing? { run := Extend(c, s, Return, run); }
  }

  lemma CallersCancel(c: Config, s: State)
    requires Inv(c, s)
    ensures s.cancelled || s.callers == []
  {
    if s.callers != [] { assert CallerInv(c, s, s.callers[0]); }
  }

  /** Cancellation alone is no barrier, whatever the interval: there is a run in which a stop is called before any
      refresh, and one begins nonetheless. */
  lemma RefreshAfterCancel(c: Config) returns (before: seq<Action>, later: seq<Action>)
    ensures Runs(c, Start(c), before) && Runs(c, After(c, Start(c), before), later)
    ensures var s := After(c, Start(c), before);
      s.cancelled && |s.callers| == 1 && s.started == 0 && After(c, s, later).started == 1
  {
    var wait := WaitsForTick(c, Start(c));
    var due := After(c, Start(c), wait);
    RunInv(c, Start(c), wait);
    CallersCancel(c, due);
    One(c, due, CallStop);
    Concat(c, Start(c), wait, [CallStop]);
    before := wait + [CallStop];
    later := TakesTick(c, Apply(c, due, CallStop));
  }
}
