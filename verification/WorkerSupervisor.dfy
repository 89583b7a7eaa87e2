/**
 * The worker-child supervisor: a crash window, bounded exponential backoff and a terminal state.
 *
 * `State` holds the supervisor's own variables together with what its environment remembers: which
 * children were forked, have exited or were killed, when each pending restart timer is due, the clock,
 * when the current child was forked, and the exits counted since the last `start()`. `Step` is one
 * handler; the class at the end is the imperative supervisor, each method proved to make exactly that step.
 */
module WorkerSupervisor {
  import opened Wrappers

  // ---- backoff ------------------------------------------------------------------------------

  const RESTART_BASE_MS := 500
  const RESTART_CAP_MS := 10000
  const CRASH_LOOP_THRESHOLD := 5
  const CRASH_LOOP_WINDOW_MS := 60000

  function Pow2(n: nat): nat { if n == 0 then 1 else 2 * Pow2(n - 1) }

  function Min(a: int, b: int): int { if a <= b then a else b }

  function RestartBackoffMs(attempt: int): int {
    var a := if attempt < 1 then 1 else attempt;
    Min(RESTART_BASE_MS * Pow2(Min(a - 1, 20)), RESTART_CAP_MS)
  }

  lemma {:induction false} Pow2Grows(m: nat, n: nat)
    requires m <= n
    ensures 1 <= Pow2(m) <= Pow2(n)
    decreases n
  {
    if m < n { Pow2Grows(m, n - 1); }
    else if n > 0 { Pow2Grows(n - 1, n - 1); }
  }

  /** Backoff grows with the attempt, stays within [500, 10000] and is at the cap exactly from attempt 6 on. */
  lemma BackoffShape(a: int, b: int)
    requires a <= b
    ensures RestartBackoffMs(a) <= RestartBackoffMs(b)
    ensures RESTART_BASE_MS <= RestartBackoffMs(a) <= RESTART_CAP_MS
    ensures RestartBackoffMs(a) == RESTART_CAP_MS <==> a >= 6
  {
    var m, n := Min((if a < 1 then 1 else a) - 1, 20), Min((if b < 1 then 1 else b) - 1, 20);
    Pow2Grows(m, n);
    FirstPowers();
    if m >= 5 { Pow2Grows(5, m); } else { Pow2Grows(m, 4); }
  }

  lemma FirstPowers()
    ensures Pow2(0) == 1 && Pow2(1) == 2 && Pow2(2) == 4 && Pow2(3) == 8 && Pow2(4) == 16 && Pow2(5) == 32
  {
    assert Pow2(2) == 4;
    assert Pow2(4) == 16;
  }

  /** The first backoff is 500 ms and each later one twice the last, up to the cap; below one counts as the first. */
  lemma BackoffDoubles(a: int)
    ensures a <= 1 ==> RestartBackoffMs(a) == 500
    ensures a > 1 ==> RestartBackoffMs(a) == Min(2 * RestartBackoffMs(a - 1), 10000)
  {
    FirstPowers();
    if a > 6 { BackoffShape(6, a - 1); }
  }

  // ---- state --------------------------------------------------------------------------------

  type ChildId = nat
  type TimerId = nat

  datatype Status = Starting | Ready | Restarting | Stopped | WorkerDown

  datatype State = State(
    child: Option<ChildId>,
    stopped: bool,
    attempt: nat,
    status: Status,
    cancelTimer: Option<TimerId>,
    crashes: seq<int>,
    // the environment
    forked: nat,
    exited: set<ChildId>,
    killed: set<ChildId>,
    timers: nat,
    pending: map<TimerId, int>,
    clock: int,
    born: int,
    history: seq<int>)

  function InitialState(clock: int): State {
    State(None, false, 0, Stopped, None, [], 0, {}, {}, 0, map[], clock, clock, [])
  }

  datatype Event =
    | Start(now: int)
    | Stop
    | ReadyMessage(from: ChildId)
    | ErrorMessage(from: ChildId)
    | Exit(who: ChildId, now: int)
    | TimerFires(timer: TimerId, now: int)

  predicate Running(s: State) { s.status.Starting? || s.status.Ready? || s.status.Restarting? }

  predicate Alive(s: State, c: ChildId) { c < s.forked && c !in s.exited && c !in s.killed }

  /**
   * What the environment may do next: `start()` comes only while not running, a child exits once, an
   * exited or killed child sends nothing, a timer fires only while pending, the clock never goes back.
   */
  predicate Enabled(s: State, e: Event) {
    match e
    case Start(now) => !Running(s) && s.clock <= now
    case Stop => true
    case ReadyMessage(c) => Alive(s, c)
    case ErrorMessage(c) => Alive(s, c)
    case Exit(c, now) => c < s.forked && c !in s.exited && s.clock <= now
    case TimerFires(t, now) => t in s.pending && s.clock <= now
  }

  // ---- steps --------------------------------------------------------------------------------

  function Spawn(s: State): State {
    if s.stopped then s
    else s.(status := if s.attempt == 0 then Starting else Restarting, child := Some(s.forked), forked := s.forked + 1,
            born := s.clock)
  }

  /** Shift crashes off the front of the deque while they are at or before `windowStart`. */
  function Shift(crashes: seq<int>, windowStart: int): seq<int> {
    if crashes != [] && crashes[0] <= windowStart then Shift(crashes[1..], windowStart) else crashes
  }

  function CountCrash(s: State, now: int): State {
    var crashes := Shift(s.crashes + [now], now - CRASH_LOOP_WINDOW_MS);
    RespawnOrGiveUp(s.(crashes := crashes, history := s.history + [now]), now)
  }

  function RespawnOrGiveUp(s: State, now: int): State {
    if |s.crashes| >= CRASH_LOOP_THRESHOLD then
      s.(stopped := true, child := None, status := WorkerDown)
    else
      s.(attempt := s.attempt + 1, status := Restarting, cancelTimer := Some(s.timers), timers := s.timers + 1,
         pending := s.pending[s.timers := now + RestartBackoffMs(s.attempt + 1)])
  }

  predicate Counts(s: State, c: ChildId) { !s.stopped && s.child == Some(c) }

  function Step(s: State, e: Event): State {
    match e
    case Start(now) => Spawn(s.(stopped := false, attempt := 0, crashes := [], history := [], clock := now))
    case Stop =>
      s.(stopped := true, status := Stopped,
         pending := if s.cancelTimer.Some? then s.pending - {s.cancelTimer.value} else s.pending,
         cancelTimer := None,
         killed := if s.child.Some? then s.killed + {s.child.value} else s.killed,
         child := None)
    case ReadyMessage(_) => s.(status := Ready, attempt := 0)
    case ErrorMessage(_) => s
    case Exit(c, now) =>
      var t := s.(exited := s.exited + {c}, clock := now);
      if Counts(s, c) then CountCrash(t, now) else t
    case TimerFires(t, now) => Spawn(s.(pending := s.pending - {t}, clock := now))
  }

  function Run(s: State, es: seq<Event>): State
    decreases |es|
  {
    if es == [] then s else Step(Run(s, es[..|es| - 1]), es[|es| - 1])
  }

  /** Every event of the run is one the environment may produce at that point. */
  predicate Possible(s: State, es: seq<Event>)
    decreases |es|
  {
    es == [] || (Possible(s, es[..|es| - 1]) && Enabled(Run(s, es[..|es| - 1]), es[|es| - 1]))
  }

  // ---- the window -----------------------------------------------------------------------------

  predicate Sorted(h: seq<int>) { forall i, j :: 0 <= i < j < |h| ==> h[i] <= h[j] }

  /** The exits after `now - 60000`, in order. */
  function InWindow(h: seq<int>, now: int): seq<int> {
    if h == [] then []
    else
      InWindow(h[..|h| - 1], now)
      + (if h[|h| - 1] > now - CRASH_LOOP_WINDOW_MS then [h[|h| - 1]] else [])
  }

  /** What the deque holds: the counted exits inside the window of the latest one. */
  function Window(h: seq<int>): seq<int> {
    if h == [] then [] else InWindow(h, h[|h| - 1])
  }

  lemma {:induction false} NothingInWindow(h: seq<int>, now: int)
    requires forall i :: 0 <= i < |h| ==> h[i] <= now - CRASH_LOOP_WINDOW_MS
    ensures InWindow(h, now) == []
  {
    if h != [] { NothingInWindow(h[..|h| - 1], now); }
  }

  /** In a sorted history the window is a suffix. */
  lemma {:induction false} WindowIsSuffix(h: seq<int>, now: int) returns (k: nat)
    requires Sorted(h)
    ensures k <= |h| && InWindow(h, now) == h[k..]
    ensures forall i :: 0 <= i < |h| ==> (i >= k <==> h[i] > now - CRASH_LOOP_WINDOW_MS)
    decreases |h|
  {
    if h == [] || h[|h| - 1] <= now - CRASH_LOOP_WINDOW_MS {
      NothingInWindow(h, now);
      k := |h|;
    } else {
      var front := h[..|h| - 1];
      k := WindowIsSuffix(front, now);
      assert h[k..] == front[k..] + [h[|h| - 1]];
      assert forall i :: 0 <= i < |front| ==> front[i] == h[i];
    }
  }

  lemma {:induction false} ShiftToSuffix(h: seq<int>, k: nat, windowStart: int)
    requires k <= |h|
    requires forall i :: 0 <= i < |h| ==> (i >= k <==> h[i] > windowStart)
    ensures Shift(h, windowStart) == h[k..]
    decreases k
  {
    if k > 0 {
      assert forall i :: 0 <= i < |h| - 1 ==> h[1..][i] == h[i + 1];
      ShiftToSuffix(h[1..], k - 1, windowStart);
    }
  }

  /** Shifting any suffix that still contains the window leaves the window. */
  lemma ShiftSuffix(h: seq<int>, k: nat, now: int)
    requires Sorted(h) && k <= |h|
    requires forall i :: 0 <= i < k ==> h[i] <= now - CRASH_LOOP_WINDOW_MS
    ensures Shift(h[k..], now - CRASH_LOOP_WINDOW_MS) == InWindow(h, now)
  {
    var k' := WindowIsSuffix(h, now);
    var deque := h[k..];
    assert k <= k';
    assert forall i :: 0 <= i < |deque| ==> deque[i] == h[k + i];
    ShiftToSuffix(deque, k' - k, now - CRASH_LOOP_WINDOW_MS);
    assert deque[k' - k..] == h[k'..];
  }

  lemma SortedFront(h: seq<int>, now: int)
    requires Sorted(h + [now])
    ensures Sorted(h) && forall i :: 0 <= i < |h| ==> h[i] <= now
  {
    var w := h + [now];
    assert forall i :: 0 <= i < |h| ==> w[i] == h[i];
    assert w[|h|] == now;
    forall i | 0 <= i < |h| ensures h[i] <= now { assert w[i] <= w[|h|]; }
    forall i, j | 0 <= i < j < |h| ensures h[i] <= h[j] { assert w[i] <= w[j]; }
  }

  lemma SortedAppend(h: seq<int>, now: int)
    requires Sorted(h) && (h != [] ==> h[|h| - 1] <= now)
    ensures Sorted(h + [now])
  {}

  /** Pushing an exit and shifting the deque gives the window of the longer history. */
  lemma PushThenShift(h: seq<int>, now: int)
    requires Sorted(h + [now])
    ensures Shift(Window(h) + [now], now - CRASH_LOOP_WINDOW_MS) == Window(h + [now])
  {
    var h' := h + [now];
    SortedFront(h, now);
    var k := 0;
    if h != [] { k := WindowIsSuffix(h, h[|h| - 1]); }
    assert Window(h) + [now] == h'[k..];
    ShiftSuffix(h', k, now);
  }

  /** The window holds five exits exactly when the last five span less than the window's length. */
  lemma WindowFull(h: seq<int>)
    requires Sorted(h)
    ensures |Window(h)| >= CRASH_LOOP_THRESHOLD <==>
      |h| >= CRASH_LOOP_THRESHOLD && h[|h| - 1] - h[|h| - CRASH_LOOP_THRESHOLD] < CRASH_LOOP_WINDOW_MS
  {
    if h != [] { var k := WindowIsSuffix(h, h[|h| - 1]); }
  }

  // ---- the invariant --------------------------------------------------------------------------

  /** Bookkeeping: ids are in range and every child but the current one has exited or been killed. */
  predicate InvChildren(s: State) {
    && (forall c :: c in s.exited ==> c < s.forked)
    && (forall c :: c in s.killed ==> c < s.forked)
    && (forall c :: 0 <= c < s.forked && s.child != Some(c) ==> c in s.exited || c in s.killed)
    && (s.child.Some? ==> s.child.value < s.forked && s.child.value !in s.killed)
    && (s.stopped ==> s.child.None?)
  }

  /** While running the current child is alive and no timer is pending, or it exited and one timer is. */
  predicate InvLifeline(s: State) {
    && (forall t :: t in s.pending ==> t < s.timers)
    && (Running(s) ==> !s.stopped && s.child.Some?)
    && (Running(s) && s.child.value !in s.exited ==> s.pending == map[])
    && (Running(s) && s.child.value in s.exited ==> s.cancelTimer.Some? && s.pending.Keys == {s.cancelTimer.value})
    && (!Running(s) ==> s.pending == map[] && s.child.None?)
  }

  predicate InvWindow(s: State) {
    && Sorted(s.history)
    && (s.history != [] ==> s.history[|s.history| - 1] <= s.clock)
    && s.crashes == Window(s.history)
    && (Running(s) ==> |s.crashes| < CRASH_LOOP_THRESHOLD)
    && (s.status.WorkerDown? ==> |s.crashes| == CRASH_LOOP_THRESHOLD)
  }

  predicate Inv(s: State) { InvChildren(s) && InvLifeline(s) && InvWindow(s) }

  lemma {:induction false} ShiftShortens(crashes: seq<int>, windowStart: int)
    ensures |Shift(crashes, windowStart)| <= |crashes|
  {
    if crashes != [] && crashes[0] <= windowStart { ShiftShortens(crashes[1..], windowStart); }
  }

  lemma CountKeepsWindow(s: State, c: ChildId, now: int)
    requires Inv(s) && Enabled(s, Exit(c, now)) && Counts(s, c)
    ensures InvWindow(Step(s, Exit(c, now)))
  {
    DequeIsWindow(s, c, now);
    ShiftShortens(s.crashes + [now], now - CRASH_LOOP_WINDOW_MS);
    assert (s.history + [now])[|s.history|] == now;
  }

  lemma CountKeepsInv(s: State, c: ChildId, now: int)
    requires Inv(s) && Enabled(s, Exit(c, now)) && Counts(s, c)
    ensures Inv(Step(s, Exit(c, now)))
  {
    CountKeepsWindow(s, c, now);
    var t := Step(s, Exit(c, now));
    assert t.exited == s.exited + {c} && t.forked == s.forked && t.killed == s.killed;
    assert s.pending == map[];
    assert InvChildren(t);
  }

  lemma StartKeepsInv(s: State, now: int)
    requires Inv(s) && Enabled(s, Start(now))
    ensures Inv(Step(s, Start(now)))
  {
    var t := Step(s, Start(now));
    assert t.child == Some(s.forked) && t.forked == s.forked + 1 && t.exited == s.exited && t.killed == s.killed;
    assert InvChildren(t);
  }

  lemma StopKeepsInv(s: State)
    requires Inv(s)
    ensures Inv(Step(s, Stop))
  {
    var t := Step(s, Stop);
    if s.cancelTimer.Some? { assert (s.pending - {s.cancelTimer.value}).Keys == {}; }
    assert t.pending == map[];
    assert forall c :: c in t.killed <==> c in s.killed || s.child == Some(c);
    assert InvChildren(t);
  }

  lemma StaleExitKeepsInv(s: State, c: ChildId, now: int)
    requires Inv(s) && Enabled(s, Exit(c, now)) && !Counts(s, c)
    ensures Inv(Step(s, Exit(c, now)))
  {
    var t := Step(s, Exit(c, now));
    assert t.exited == s.exited + {c} && s.child != Some(c);
    assert InvChildren(t);
  }

  lemma FireKeepsInv(s: State, timer: TimerId, now: int)
    requires Inv(s) && Enabled(s, TimerFires(timer, now))
    ensures Inv(Step(s, TimerFires(timer, now)))
  {
    var t := Step(s, TimerFires(timer, now));
    assert timer in s.pending.Keys && timer == s.cancelTimer.value;
    assert (s.pending - {timer}).Keys == {};
    assert t.pending == map[];
    assert t.child == Some(s.forked) && t.forked == s.forked + 1 && t.exited == s.exited && t.killed == s.killed;
    assert InvChildren(t);
  }

  lemma StepKeepsInv(s: State, e: Event)
    requires Inv(s) && Enabled(s, e)
    ensures Inv(Step(s, e))
  {
    match e
    case Exit(c, now) =>
      if Counts(s, c) { CountKeepsInv(s, c, now); } else { StaleExitKeepsInv(s, c, now); }
    case TimerFires(t, now) => FireKeepsInv(s, t, now);
    case Start(now) => StartKeepsInv(s, now);
    case Stop => StopKeepsInv(s);
    case _ =>
  }

  lemma {:induction false} RunKeepsInv(s: State, es: seq<Event>)
    requires Inv(s) && Possible(s, es)
    ensures Inv(Run(s, es))
    decreases |es|
  {
    if es != [] {
      RunKeepsInv(s, es[..|es| - 1]);
      StepKeepsInv(Run(s, es[..|es| - 1]), es[|es| - 1]);
    }
  }

  // ---- theorems over every run ----------------------------------------------------------------

  /**
   * After any run: while running, exactly one of "the current child lives, un-killed" and "one restart
   * timer is pending" holds; otherwise neither does; and no other child lives un-killed.
   */
  lemma OneLifeline(clock: int, es: seq<Event>)
    requires Possible(InitialState(clock), es)
    ensures var s := Run(InitialState(clock), es);
      && (Running(s) ==> s.child.Some? && (Alive(s, s.child.value) <==> |s.pending| != 1) && |s.pending| <= 1)
      && (!Running(s) ==> s.pending == map[] && forall c: nat :: !Alive(s, c))
      && (forall c: nat :: Alive(s, c) ==> s.child == Some(c))
  {
    RunKeepsInv(InitialState(clock), es);
    var s := Run(InitialState(clock), es);
    assert |s.pending| == |s.pending.Keys|;
    if Running(s) && s.child.value in s.exited { assert |{s.cancelTimer.value}| == 1; }
  }

  /** While not running nothing but `start()` forks, however long that lasts. */
  lemma {:induction false} OnlyStartForks(s: State, es: seq<Event>)
    requires Inv(s) && !Running(s)
    requires Possible(s, es) && forall e :: e in es ==> !e.Start?
    ensures Run(s, es).forked == s.forked && !Running(Run(s, es))
    decreases |es|
  {
    if es != [] {
      var front, e := es[..|es| - 1], es[|es| - 1];
      assert es == front + [e];
      OnlyStartForks(s, front);
      RunKeepsInv(s, front);
    }
  }

  /** An exit of a replaced or killed child changes no variable of the supervisor and no timer. */
  lemma StaleExitIsIgnored(s: State, c: ChildId, now: int)
    requires Inv(s) && s.child != Some(c)
    ensures Step(s, Exit(c, now)) == s.(exited := s.exited + {c}, clock := now)
  {}

  /**
   * The deque refines the full history. After any run it holds exactly the exits since the last
   * `start()` that fall inside the window of the latest one, and it holds at most four while running
   * and exactly five in the terminal state.
   */
  lemma DequeRefinesHistory(clock: int, es: seq<Event>)
    requires Possible(InitialState(clock), es)
    ensures var s := Run(InitialState(clock), es);
      && s.crashes == Window(s.history)
      && (Running(s) ==> |s.crashes| <= 4)
      && (s.status.WorkerDown? ==> |s.crashes| == 5)
  {
    RunKeepsInv(InitialState(clock), es);
  }

  /** What counting an exit does, with the deque as it stands. */
  lemma CountedStep(s: State, c: ChildId, now: int)
    requires Counts(s, c) && s.pending == map[]
    ensures var t, crashes := Step(s, Exit(c, now)), Shift(s.crashes + [now], now - CRASH_LOOP_WINDOW_MS);
      && t.history == s.history + [now] && t.forked == s.forked && t.killed == s.killed
      && (|crashes| >= CRASH_LOOP_THRESHOLD ==> t.status.WorkerDown? && t.child.None? && t.pending == map[])
      && (|crashes| < CRASH_LOOP_THRESHOLD ==>
        && t.status.Restarting? && t.child == s.child && !t.stopped && t.attempt == s.attempt + 1
        && t.cancelTimer == Some(s.timers) && t.pending == map[s.timers := now + RestartBackoffMs(s.attempt + 1)])
  {}

  lemma NothingPendingWhileUp(s: State, c: ChildId)
    requires InvLifeline(s) && Running(s) && s.child == Some(c) && c !in s.exited
    ensures s.pending == map[]
  {}

  /**
   * A counted exit is terminal exactly when the last five exits since `start()` span less than 60000 ms;
   * otherwise one restart is scheduled, after the backoff of the next attempt.
   */
  lemma DownExactlyWhenLooping(s: State, c: ChildId, now: int)
    requires Inv(s) && Running(s) && Enabled(s, Exit(c, now)) && s.child == Some(c)
    ensures var h, t := s.history + [now], Step(s, Exit(c, now));
      && t.history == h
      && (t.status.WorkerDown? <==> |h| >= 5 && h[|h| - 1] - h[|h| - 5] < 60000)
      && (!t.status.WorkerDown? ==>
        t.status.Restarting? && t.pending == map[s.timers := now + RestartBackoffMs(s.attempt + 1)])
  {
    NothingPendingWhileUp(s, c);
    CountedStep(s, c, now);
    DequeIsWindow(s, c, now);
    WindowFull(s.history + [now]);
  }

  lemma DequeIsWindow(s: State, c: ChildId, now: int)
    requires InvWindow(s) && Enabled(s, Exit(c, now))
    ensures Sorted(s.history + [now])
    ensures Shift(s.crashes + [now], now - CRASH_LOOP_WINDOW_MS) == Window(s.history + [now])
  {
    SortedAppend(s.history, now);
    PushThenShift(s.history, now);
  }

  // ---- the events decide ----------------------------------------------------------------------

  /*
   * What the supervisor does, told by the events alone: each of the following reads the list of events and no state.
   */

  /** How often a child was forked: once per `start()` and once per timer. */
  function Forks(es: seq<Event>): nat
    decreases |es|
  {
    if es == [] then 0
    else Forks(es[..|es| - 1]) + (if es[|es| - 1].Start? || es[|es| - 1].TimerFires? then 1 else 0)
  }

  /** The latest child was forked, and neither `stop()` nor a crash loop came after. */
  predicate Up(es: seq<Event>)
    decreases |es|, 1
  {
    es != [] &&
    var front, e := es[..|es| - 1], es[|es| - 1];
    match e
    case Start(_) => true
    case TimerFires(_, _) => true
    case Stop => false
    case Exit(_, _) => Up(front) && !(IsCrash(front, e) && IsLoop(CrashTimes(es)))
    case _ => Up(front)
  }

  /** The exit of the latest child, while it is up. */
  predicate IsCrash(es: seq<Event>, e: Event)
    decreases |es|, 2
  {
    e.Exit? && Up(es) && e.who + 1 == Forks(es)
  }

  /** When the crashes since the last `start()` happened. */
  function CrashTimes(es: seq<Event>): seq<int>
    decreases |es|, 0
  {
    if es == [] || es[|es| - 1].Start? then []
    else
      var front, e := es[..|es| - 1], es[|es| - 1];
      CrashTimes(front) + (if IsCrash(front, e) then [e.now] else [])
  }

  /** The last five crashes span less than a minute. */
  predicate IsLoop(times: seq<int>) { |times| >= 5 && times[|times| - 1] - times[|times| - 5] < 60000 }

  /** The crashes since the last `start()` or ready message, whichever is later. */
  function Failures(es: seq<Event>): nat
    decreases |es|
  {
    if es == [] || es[|es| - 1].Start? || es[|es| - 1].ReadyMessage? then 0
    else Failures(es[..|es| - 1]) + (if IsCrash(es[..|es| - 1], es[|es| - 1]) then 1 else 0)
  }

  /** The status the last event that has a say gives: ready exactly when that is a ready message. */
  function StatusAfter(es: seq<Event>): Status
    decreases |es|
  {
    if es == [] then Stopped
    else
      var front, e := es[..|es| - 1], es[|es| - 1];
      match e
      case Start(_) => Starting
      case ReadyMessage(_) => Ready
      case TimerFires(_, _) => Restarting
      case Stop => Stopped
      case Exit(_, _) =>
        if !IsCrash(front, e) then StatusAfter(front)
        else if IsLoop(CrashTimes(es)) then WorkerDown
        else Restarting
      case ErrorMessage(_) => StatusAfter(front)
  }

  /** When the respawn that is being waited for is due: the backoff of the failures so far after the last crash. */
  function Due(es: seq<Event>): Option<int>
    decreases |es|
  {
    if es == [] then None
    else
      var front, e := es[..|es| - 1], es[|es| - 1];
      match e
      case Exit(_, now) =>
        if !IsCrash(front, e) then Due(front)
        else if IsLoop(CrashTimes(es)) then None
        else Some(now + RestartBackoffMs(Failures(es)))
      case ReadyMessage(_) => Due(front)
      case ErrorMessage(_) => Due(front)
      case _ => None
  }

  /** The children `stop()` has killed: each the latest one, up at the time. */
  function Killed(es: seq<Event>): set<ChildId>
    decreases |es|
  {
    if es == [] then {}
    else
      var front := es[..|es| - 1];
      Killed(front) + (if es[|es| - 1].Stop? && Up(front) && Forks(front) > 0 then {Forks(front) - 1} else {})
  }

  ghost predicate Follows(s: State, es: seq<Event>) {
    && s.status == StatusAfter(es)
    && s.history == CrashTimes(es)
    && (Up(es) ==> s.attempt == Failures(es))
    && s.forked == Forks(es) && s.killed == Killed(es)
    && (Up(es) ==> !s.stopped && s.child.Some? && s.child.value + 1 == Forks(es))
    && (!Up(es) ==> s.child.None?)
    && (Due(es).None? ==> s.pending == map[])
    && (Due(es).Some? ==>
      Failures(es) > 0 && s.cancelTimer.Some? && s.pending == map[s.cancelTimer.value := Due(es).value])
  }

  /** What a crash adds to the events' account. */
  lemma CrashTold(es: seq<Event>, e: Event)
    requires IsCrash(es, e)
    ensures var all, times := es + [e], CrashTimes(es) + [e.now];
      && CrashTimes(all) == times && Failures(all) == Failures(es) + 1
      && Forks(all) == Forks(es) && Killed(all) == Killed(es)
      && Up(all) == !IsLoop(times)
      && StatusAfter(all) == (if IsLoop(times) then WorkerDown else Restarting)
      && Due(all) == (if IsLoop(times) then None else Some(e.now + RestartBackoffMs(Failures(es) + 1)))
  {
    var all := es + [e];
    assert all[..|all| - 1] == es;
  }

  lemma CrashFollows(s: State, es: seq<Event>, e: Event)
    requires Inv(s) && Follows(s, es) && Enabled(s, e) && IsCrash(es, e)
    ensures Follows(Step(s, e), es + [e])
  {
    var all, t := es + [e], Step(s, e);
    assert CrashTimes(all) == t.history && Failures(all) == s.attempt + 1
      && Forks(all) == t.forked && Killed(all) == t.killed
      && Up(all) == !IsLoop(t.history)
      && StatusAfter(all) == (if IsLoop(t.history) then WorkerDown else Restarting)
      && Due(all) == (if IsLoop(t.history) then None else Some(e.now + RestartBackoffMs(s.attempt + 1))) by
    {
      CrashTold(es, e);
      CrashDone(s, e.who, e.now);
    }
    CrashDone(s, e.who, e.now);
  }

  lemma CrashDone(s: State, c: ChildId, now: int)
    requires Inv(s) && Enabled(s, Exit(c, now)) && Counts(s, c)
    ensures var t := Step(s, Exit(c, now));
      && t.history == s.history + [now] && t.forked == s.forked && t.killed == s.killed
      && (IsLoop(t.history) ==> t.status.WorkerDown? && t.child.None? && t.pending == map[])
      && (!IsLoop(t.history) ==>
        && t.status.Restarting? && t.child == s.child && !t.stopped && t.attempt == s.attempt + 1
        && t.cancelTimer == Some(s.timers) && t.pending == map[s.timers := now + RestartBackoffMs(s.attempt + 1)])
  {
    CountedMeansRunning(s, c);
    NothingPendingWhileUp(s, c);
    CountedStep(s, c, now);
    LoopIsFull(s, c, now);
  }

  lemma LoopIsFull(s: State, c: ChildId, now: int)
    requires InvWindow(s) && Enabled(s, Exit(c, now))
    ensures IsLoop(s.history + [now]) <==>
      |Shift(s.crashes + [now], now - CRASH_LOOP_WINDOW_MS)| >= CRASH_LOOP_THRESHOLD
  {
    DequeIsWindow(s, c, now);
    WindowFull(s.history + [now]);
  }

  lemma FireFollows(s: State, es: seq<Event>, t: TimerId, now: int)
    requires Inv(s) && Follows(s, es) && Enabled(s, TimerFires(t, now))
    ensures Follows(Step(s, TimerFires(t, now)), es + [TimerFires(t, now)])
  {
    var all := es + [TimerFires(t, now)];
    assert all[..|all| - 1] == es;
    assert Running(s) && Due(es).Some? && s.pending.Keys == {t};
    assert (s.pending - {t}).Keys == {};
    assert s.pending - {t} == map[];
  }

  lemma StopFollows(s: State, es: seq<Event>)
    requires Inv(s) && Follows(s, es)
    ensures Follows(Step(s, Stop), es + [Stop])
  {
    var all := es + [Stop];
    assert all[..|all| - 1] == es;
    StopKeepsInv(s);
  }

  lemma StepFollows(s: State, es: seq<Event>, e: Event)
    requires Inv(s) && Follows(s, es) && Enabled(s, e)
    ensures Follows(Step(s, e), es + [e])
  {
    var all := es + [e];
    assert all[..|all| - 1] == es;
    match e
    case Exit(c, now) => if IsCrash(es, e) { CrashFollows(s, es, e); } else { assert !Counts(s, c); }
    case ReadyMessage(c) =>
      assert Due(es).Some? ==> s.cancelTimer.value in s.pending;
      NoneWaitingWhileAlive(s, c);
    case TimerFires(t, now) => FireFollows(s, es, t, now);
    case Stop => StopFollows(s, es);
    case _ =>
  }

  lemma NoneWaitingWhileAlive(s: State, c: ChildId)
    requires Inv(s) && Alive(s, c)
    ensures s.pending == map[]
  {
    if s.child == Some(c) && Running(s) { NothingPendingWhileUp(s, c); }
  }

  /**
   * After every run the events decide the whole state: the status, the crashes counted, the delay of the respawn
   * waited for, which child is current and which were killed.
   */
  lemma {:induction false} EventsDecide(clock: int, es: seq<Event>)
    requires Possible(InitialState(clock), es)
    ensures Follows(Run(InitialState(clock), es), es)
    decreases |es|
  {
    if es != [] {
      var front, e := es[..|es| - 1], es[|es| - 1];
      assert es == front + [e];
      EventsDecide(clock, front);
      RunKeepsInv(InitialState(clock), front);
      StepFollows(Run(InitialState(clock), front), front, e);
    }
  }

  // ---- the restart budget ---------------------------------------------------------------------

  /** Timers fire exactly when due, and every counted run but the first after `start()` lasts at most `longest`. */
  predicate OnSchedule(s: State, e: Event, longest: int) {
    match e
    case TimerFires(t, now) => t in s.pending && now == s.pending[t]
    case Exit(c, now) => Counts(s, c) && s.history != [] ==> now - s.born <= longest
    case _ => true
  }

  /** The harshest schedule in that class: no run gets ready, and each lasts exactly `longest`. */
  predicate Harshest(s: State, e: Event, longest: int) {
    match e
    case TimerFires(t, now) => t in s.pending && now == s.pending[t]
    case Exit(c, now) => Counts(s, c) && s.history != [] ==> now - s.born == longest
    case ReadyMessage(_) => false
    case _ => true
  }

  predicate AlwaysOnSchedule(s: State, es: seq<Event>, longest: int)
    decreases |es|
  {
    es == [] ||
    (AlwaysOnSchedule(s, es[..|es| - 1], longest) && OnSchedule(Run(s, es[..|es| - 1]), es[|es| - 1], longest))
  }

  predicate AlwaysHarshest(s: State, es: seq<Event>, longest: int)
    decreases |es|
  {
    es == [] || (AlwaysHarshest(s, es[..|es| - 1], longest) && Harshest(Run(s, es[..|es| - 1]), es[|es| - 1], longest))
  }

  function DelaySum(n: nat): int { if n == 0 then 0 else DelaySum(n - 1) + RestartBackoffMs(n) }

  lemma DelaySums()
    ensures DelaySum(0) == 0 && DelaySum(1) == 500 && DelaySum(2) == 1500 && DelaySum(3) == 3500 && DelaySum(4) == 7500
  {
    FirstPowers();
    assert DelaySum(2) == 1500;
    assert DelaySum(3) == 3500;
  }

  /** The time of the current fork, or of the fork the pending timer will make. */
  function NextBorn(s: State): int
    requires InvLifeline(s) && Running(s)
  {
    if s.child.value in s.exited then s.pending[s.cancelTimer.value] else s.born
  }

  /** Upper bound on how far the current fork is from the first exit, for the first four exits. */
  ghost predicate InvBudget(s: State, longest: nat) {
    && Inv(s)
    && (Running(s) ==>
      && s.attempt <= |s.history| <= 4
      && (s.history == [] ==> s.child.value !in s.exited)
      && (s.history != [] ==> NextBorn(s) - s.history[0] <= DelaySum(|s.history|) + (|s.history| - 1) * longest))
  }

  /** On the harshest schedule that bound is met exactly. */
  ghost predicate InvHarshest(s: State, longest: nat) {
    && Inv(s)
    && (Running(s) && |s.history| <= 4 ==>
      && s.attempt == |s.history|
      && (s.history == [] ==> s.child.value !in s.exited)
      && (s.history != [] ==> NextBorn(s) - s.history[0] == DelaySum(|s.history|) + (|s.history| - 1) * longest))
  }

  lemma ExitKeepsBudget(s: State, c: ChildId, now: int)
    requires InvBudget(s, 13124) && Running(s) && Enabled(s, Exit(c, now)) && Counts(s, c)
    requires OnSchedule(s, Exit(c, now), 13124)
    ensures InvBudget(Step(s, Exit(c, now)), 13124)
    ensures |s.history| == 4 ==> Step(s, Exit(c, now)).status.WorkerDown?
  {
    var n := |s.history|;
    StepKeepsInv(s, Exit(c, now));
    DownExactlyWhenLooping(s, c, now);
    DelaySums();
    BackoffShape(s.attempt + 1, n + 1);
    if n > 0 { assert (s.history + [now])[0] == s.history[0]; }
  }

  lemma StepKeepsBudget(s: State, e: Event)
    requires InvBudget(s, 13124) && Enabled(s, e) && OnSchedule(s, e, 13124)
    ensures InvBudget(Step(s, e), 13124)
  {
    StepKeepsInv(s, e);
    match e
    case Exit(c, now) => if Counts(s, c) { ExitKeepsBudget(s, c, now); }
    case _ =>
  }

  lemma {:induction false} RunKeepsBudget(clock: int, es: seq<Event>)
    requires Possible(InitialState(clock), es) && AlwaysOnSchedule(InitialState(clock), es, 13124)
    ensures InvBudget(Run(InitialState(clock), es), 13124)
    decreases |es|
  {
    if es != [] {
      RunKeepsBudget(clock, es[..|es| - 1]);
      StepKeepsBudget(Run(InitialState(clock), es[..|es| - 1]), es[|es| - 1]);
    }
  }

  /**
   * The restart budget. On any run whose timers fire when due and whose workers, from the second after
   * each `start()` on, last under 13125 ms - ready or not - the fifth exit is terminal: the four delays
   * sum to at most 7500 ms. So the supervisor never runs with five exits behind it.
   */
  lemma FifthExitIsTerminal(clock: int, es: seq<Event>)
    requires Possible(InitialState(clock), es) && AlwaysOnSchedule(InitialState(clock), es, 13124) && es != []
    ensures var before, after := Run(InitialState(clock), es[..|es| - 1]), Run(InitialState(clock), es);
      && (Running(after) ==> |after.history| <= 4)
      && (|before.history| == 4 && |after.history| == 5 ==> after.status.WorkerDown?)
  {
    var front, e := es[..|es| - 1], es[|es| - 1];
    RunKeepsBudget(clock, es);
    RunKeepsBudget(clock, front);
    var s := Run(InitialState(clock), front);
    if e.Exit? && Counts(s, e.who) {
      CountedMeansRunning(s, e.who);
      ExitKeepsBudget(s, e.who, e.now);
    }
  }

  lemma CountedMeansRunning(s: State, c: ChildId)
    requires Inv(s) && Counts(s, c)
    ensures Running(s)
  {}

  lemma HarshestExit(s: State, c: ChildId, now: int)
    requires InvHarshest(s, 13125) && Running(s) && Enabled(s, Exit(c, now)) && Counts(s, c)
    requires Harshest(s, Exit(c, now), 13125)
    ensures InvHarshest(Step(s, Exit(c, now)), 13125)
    ensures |s.history| <= 4 ==> Running(Step(s, Exit(c, now)))
  {
    var n := |s.history|;
    StepKeepsInv(s, Exit(c, now));
    DownExactlyWhenLooping(s, c, now);
    DelaySums();
    if n > 0 { assert (s.history + [now])[0] == s.history[0]; }
    if n <= 4 { assert DelaySum(n + 1) == DelaySum(n) + RestartBackoffMs(n + 1); }
  }

  lemma {:induction false} RunKeepsHarshest(clock: int, es: seq<Event>)
    requires Possible(InitialState(clock), es) && AlwaysHarshest(InitialState(clock), es, 13125)
    ensures InvHarshest(Run(InitialState(clock), es), 13125)
    decreases |es|
  {
    if es != [] {
      var front, e := es[..|es| - 1], es[|es| - 1];
      RunKeepsHarshest(clock, front);
      var s := Run(InitialState(clock), front);
      StepKeepsInv(s, e);
      if e.Exit? && Counts(s, e.who) {
        CountedMeansRunning(s, e.who);
        HarshestExit(s, e.who, e.now);
      }
    }
  }

  lemma Extend(s: State, es: seq<Event>, e: Event, longest: int)
    requires Possible(s, es) && AlwaysHarshest(s, es, longest)
    requires Enabled(Run(s, es), e) && Harshest(Run(s, es), e, longest)
    ensures Possible(s, es + [e]) && AlwaysHarshest(s, es + [e], longest)
    ensures Run(s, es + [e]) == Step(Run(s, es), e)
  {
    assert (es + [e])[..|es|] == es;
  }

  /** From a state waiting to respawn: the timer fires when due, and the next worker exits 13125 ms later. */
  lemma RespawnAndExit(s: State)
    requires InvHarshest(s, 13125) && Running(s) && s.child.value in s.exited && 1 <= |s.history| <= 4
    requires s.clock <= s.pending[s.cancelTimer.value]
    ensures var due := s.pending[s.cancelTimer.value];
      var t := Step(s, TimerFires(s.cancelTimer.value, due));
      && InvHarshest(t, 13125) && Running(t) && t.child == Some(s.forked)
      && t.history == s.history && t.clock == t.born == due
      && Enabled(t, Exit(s.forked, due + 13125)) && Counts(t, s.forked)
  {
    StepKeepsInv(s, TimerFires(s.cancelTimer.value, s.pending[s.cancelTimer.value]));
  }

  /** Running on the harshest schedule with `n` exits behind it, the last of them just now waiting for its respawn. */
  ghost predicate Survived(s: State, n: nat) {
    && InvHarshest(s, 13125) && |s.history| == n
    && Running(s) && s.child.value in s.exited && s.clock <= s.pending[s.cancelTimer.value]
  }

  lemma ExitThenWaits(t: State, now: int)
    requires InvHarshest(t, 13125) && Running(t) && t.child.value !in t.exited && t.clock <= now && |t.history| <= 4
    requires t.history != [] ==> now - t.born == 13125
    ensures Survived(Step(t, Exit(t.child.value, now)), |t.history| + 1)
  {
    var c := t.child.value;
    HarshestExit(t, c, now);
    StillWaiting(t, c, now);
  }

  /** After a counted exit that is not terminal the new timer is due no earlier than the exit. */
  lemma StillWaiting(t: State, c: ChildId, now: int)
    requires Inv(t) && Running(t) && Enabled(t, Exit(c, now)) && t.child == Some(c)
    requires Running(Step(t, Exit(c, now)))
    ensures var u := Step(t, Exit(c, now));
      && |u.history| == |t.history| + 1 && u.child == Some(c) && c in u.exited
      && u.cancelTimer == Some(t.timers) && t.timers in u.pending && u.clock <= u.pending[t.timers]
  {
    NothingPendingWhileUp(t, c);
    CountedStep(t, c, now);
    BackoffShape(t.attempt + 1, t.attempt + 1);
  }

  lemma FirstExitSurvived(clock: int) returns (es: seq<Event>)
    ensures Possible(InitialState(clock), es) && AlwaysHarshest(InitialState(clock), es, 13125)
    ensures Survived(Run(InitialState(clock), es), 1)
  {
    var s0 := InitialState(clock);
    var start := [Start(clock)];
    Extend(s0, [], Start(clock), 13125);
    assert [] + [Start(clock)] == start;
    RunKeepsHarshest(clock, start);
    var s := Run(s0, start);
    ExitThenWaits(s, clock);
    es := start + [Exit(s.child.value, clock)];
    Extend(s0, start, Exit(s.child.value, clock), 13125);
  }

  lemma NextExitSurvived(clock: int, es: seq<Event>, n: nat) returns (more: seq<Event>)
    requires Possible(InitialState(clock), es) && AlwaysHarshest(InitialState(clock), es, 13125)
    requires 1 <= n <= 4 && Survived(Run(InitialState(clock), es), n)
    ensures Possible(InitialState(clock), more) && AlwaysHarshest(InitialState(clock), more, 13125)
    ensures Survived(Run(InitialState(clock), more), n + 1)
  {
    var s0 := InitialState(clock);
    var s := Run(s0, es);
    RespawnAndExit(s);
    var due := s.pending[s.cancelTimer.value];
    Extend(s0, es, TimerFires(s.cancelTimer.value, due), 13125);
    var fired := es + [TimerFires(s.cancelTimer.value, due)];
    var t := Run(s0, fired);
    ExitThenWaits(t, due + 13125);
    Extend(s0, fired, Exit(s.forked, due + 13125), 13125);
    more := fired + [Exit(s.forked, due + 13125)];
  }

  /**
   * The budget is tight: with runs two to five lasting 13125 ms and none getting ready, there is a run
   * of the system on which the supervisor survives five exits.
   */
  lemma {:induction false} FiveExitsSurvived(clock: int, n: nat) returns (es: seq<Event>)
    requires 1 <= n <= 5
    ensures Possible(InitialState(clock), es) && AlwaysHarshest(InitialState(clock), es, 13125)
    ensures Survived(Run(InitialState(clock), es), n)
  {
    if n == 1 { es := FirstExitSurvived(clock); }
    else {
      es := FiveExitsSurvived(clock, n - 1);
      es := NextExitSurvived(clock, es, n - 1);
    }
  }

  // ---- the imperative supervisor --------------------------------------------------------------

  function MessageEvent(from: ChildId, ready: bool): Event { if ready then ReadyMessage(from) else ErrorMessage(from) }

  /**
   * The closure of the source: each handler takes its step whenever it is called, and keeps the invariant whenever
   * the environment calls it as it may.
   */
  class Supervisor {
    var child: Option<ChildId>
    var stopped: bool
    var attempt: nat
    var status: Status
    var cancelTimer: Option<TimerId>
    var crashes: seq<int>
    // what the injected fork, kill, scheduleRestart and clock have done
    var forked: nat
    ghost var exited: set<ChildId>
    ghost var killed: set<ChildId>
    var timers: nat
    ghost var pending: map<TimerId, int>
    ghost var clock: int
    ghost var born: int
    ghost var history: seq<int>

    ghost function View(): State
      reads this
    {
      State(child, stopped, attempt, status, cancelTimer, crashes,
            forked, exited, killed, timers, pending, clock, born, history)
    }

    constructor (now: int)
      ensures View() == InitialState(now)
    {
      child, stopped, attempt, status, cancelTimer, crashes := None, false, 0, Stopped, None, [];
      forked, exited, killed, timers, pending, clock, born, history := 0, {}, {}, 0, map[], now, now, [];
    }

    method SpawnChild()
      modifies this
      ensures View() == Spawn(old(View()))
    {
      if stopped { return; }
      status := if attempt == 0 then Starting else Restarting;
      var current := forked;
      forked := forked + 1;
      born := clock;
      child := Some(current);
    }

    method Start(ghost now: int)
      modifies this
      ensures View() == Step(old(View()), Event.Start(now))
      ensures old(Inv(View()) && Enabled(View(), Event.Start(now))) ==> Inv(View())
    {
      if Inv(View()) && Enabled(View(), Event.Start(now)) { StepKeepsInv(View(), Event.Start(now)); }
      clock := now;
      stopped := false;
      attempt := 0;
      crashes := [];
      history := [];
      SpawnChild();
    }

    method Stop()
      modifies this
      ensures View() == Step(old(View()), Event.Stop)
      ensures old(Inv(View()) && Enabled(View(), Event.Stop)) ==> Inv(View())
    {
      if Inv(View()) && Enabled(View(), Event.Stop) { StepKeepsInv(View(), Event.Stop); }
      stopped := true;
      status := Stopped;
      if cancelTimer.Some? {
        pending := pending - {cancelTimer.value};
        cancelTimer := None;
      }
      if child.Some? {
        killed := killed + {child.value};
        child := None;
      }
    }

    method OnMessage(current: ChildId, ready: bool)
      modifies this
      ensures View() == Step(old(View()), MessageEvent(current, ready))
      ensures old(Inv(View()) && Enabled(View(), MessageEvent(current, ready))) ==> Inv(View())
    {
      if Inv(View()) && Enabled(View(), MessageEvent(current, ready)) {
        StepKeepsInv(View(), MessageEvent(current, ready));
      }
      if ready {
        status := Ready;
        attempt := 0;
      }
    }

    method OnExit(current: ChildId, now: int)
      modifies this
      ensures View() == Step(old(View()), Exit(current, now))
      ensures old(Inv(View()) && Enabled(View(), Exit(current, now))) ==> Inv(View())
    {
      if Inv(View()) && Enabled(View(), Exit(current, now)) { StepKeepsInv(View(), Exit(current, now)); }
      exited := exited + {current};
      clock := now;
      if stopped || Some(current) != child { return; }
      CountExit(now);
    }

    method CountExit(now: int)
      modifies this
      ensures View() == CountCrash(old(View()), now)
    {
      history := history + [now];
      crashes := crashes + [now];
      ShiftCrashes(now - CRASH_LOOP_WINDOW_MS);
      Respawn(now);
    }

    method Respawn(now: int)
      modifies this
      ensures View() == RespawnOrGiveUp(old(View()), now)
    {
      if |crashes| >= CRASH_LOOP_THRESHOLD {
        stopped := true;
        child := None;
        status := WorkerDown;
        return;
      }
      attempt := attempt + 1;
      status := Restarting;
      pending := pending[timers := now + RestartBackoffMs(attempt)];
      cancelTimer := Some(timers);
      timers := timers + 1;
    }

    method ShiftCrashes(windowStart: int)
      modifies this`crashes
      ensures crashes == Shift(old(crashes), windowStart)
    {
      while |crashes| > 0 && crashes[0] <= windowStart
        invariant Shift(crashes, windowStart) == Shift(old(crashes), windowStart)
        decreases |crashes|
      {
        crashes := crashes[1..];
      }
    }

    method OnTimer(timer: TimerId, ghost now: int)
      modifies this
      ensures View() == Step(old(View()), TimerFires(timer, now))
      ensures old(Inv(View()) && Enabled(View(), TimerFires(timer, now))) ==> Inv(View())
    {
      if Inv(View()) && Enabled(View(), TimerFires(timer, now)) { StepKeepsInv(View(), TimerFires(timer, now)); }
      clock := now;
      pending := pending - {timer};
      SpawnChild();
    }
  }
}
