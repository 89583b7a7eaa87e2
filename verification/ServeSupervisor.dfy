/**
 * The spawn / poll / respawn / dispose machine shared by the gbrain-serve and Temporal supervisors.
 *
 * Between two `await`s the source runs without interruption, so a step is one such stretch: `start()` up
 * to its first await, the code after a probe answer or a sleep, one exit callback, one `dispose()`. The
 * environment interleaves them in any order. `State` is the closure state plus what the environment
 * remembers; the class at the end is the imperative machine, each method proved to make one step.
 */
module ServeSupervisor {
  import opened Wrappers

  type Pid = nat

  /** `loopback` is the verdict on the configured address, which never changes. */
  datatype Config = Config(loopback: bool, readinessTimeoutMs: real, probeIntervalMs: real, maxRestarts: int)

  datatype Outcome = Ok | SpawnFailed | NotReady

  /** Where `start()` is: not called, awaiting probe or sleep number `i`, or returned. */
  datatype Phase = Idle | AtProbe(i: nat) | AtSleep(i: nat) | Returned(outcome: Outcome)

  datatype State = State(
    disposing: bool,
    started: bool,
    restarts: nat,
    handle: Option<Pid>,
    phase: Phase,
    // the environment
    spawned: nat,
    attempts: nat,
    exited: set<Pid>,
    killed: set<Pid>,
    probes: nat,
    sleeps: nat)

  const INITIAL := State(false, false, 0, None, Idle, 0, 0, {}, {}, 0, 0)

  datatype Event =
    | Start(spawns: bool)
    | ProbeAnswers(ready: bool)
    | SleepEnds
    | Exit(pid: Pid, respawns: bool)
    | Dispose

  function Ceil(x: real): int { -((-x).Floor) }

  function Max(a: int, b: int): int { if a >= b then a else b }

  function Min(a: int, b: int): int { if a <= b then a else b }

  function MaxPolls(cfg: Config): int {
    Max(1, Ceil(cfg.readinessTimeoutMs / (if cfg.probeIntervalMs < 1.0 then 1.0 else cfg.probeIntervalMs)))
  }

  /** A live process that nobody has killed. */
  predicate Live(s: State, p: Pid) { p < s.spawned && p !in s.exited && p !in s.killed }

  predicate Enabled(s: State, e: Event) {
    match e
    case Start(_) => true
    case ProbeAnswers(_) => s.phase.AtProbe?
    case SleepEnds => s.phase.AtSleep?
    case Exit(p, _) => p < s.spawned && p !in s.exited
    case Dispose => true
  }

  // ---- steps ----------------------------------------------------------------------------------

  function SpawnOnce(s: State, spawns: bool): State {
    var t := s.(attempts := s.attempts + 1);
    if spawns then t.(handle := Some(s.spawned), spawned := s.spawned + 1) else t
  }

  function Disposed(s: State): State {
    s.(disposing := true, handle := None,
       killed := if s.handle.Some? then s.killed + {s.handle.value} else s.killed)
  }

  function GiveUp(s: State): State { Disposed(s).(phase := Returned(NotReady)) }

  /** The head of the poll loop, about to make probe `i`. */
  function LoopHead(cfg: Config, s: State, i: nat): State {
    if i >= MaxPolls(cfg) || s.disposing then GiveUp(s)
    else s.(phase := AtProbe(i), probes := s.probes + 1)
  }

  function AfterProbe(cfg: Config, s: State, i: nat, ready: bool): State {
    if s.disposing then GiveUp(s)
    else if ready then s.(phase := Returned(Ok))
    else if i < MaxPolls(cfg) - 1 then s.(phase := AtSleep(i), sleeps := s.sleeps + 1)
    else LoopHead(cfg, s, i + 1)
  }

  function Step(cfg: Config, s: State, e: Event): State
    requires Enabled(s, e)
  {
    match e
    case Start(spawns) =>
      if !cfg.loopback || s.started then s
      else
        var t := SpawnOnce(s.(started := true), spawns);
        if spawns then LoopHead(cfg, t, 0) else t.(phase := Returned(SpawnFailed))
    case ProbeAnswers(ready) => AfterProbe(cfg, s, s.phase.i, ready)
    case SleepEnds => LoopHead(cfg, s, s.phase.i + 1)
    case Exit(p, respawns) =>
      var t := s.(exited := s.exited + {p});
      if s.disposing || s.restarts >= cfg.maxRestarts then t
      else SpawnOnce(t.(restarts := s.restarts + 1), respawns)
    case Dispose => Disposed(s)
  }

  /** The states a run passes through: `trace[0]` is where it starts, and each event leads to the next. */
  ghost predicate IsRun(cfg: Config, trace: seq<State>, es: seq<Event>) {
    && |trace| == |es| + 1
    && trace[0] == INITIAL
    && forall k :: 0 <= k < |es| ==> Enabled(trace[k], es[k]) && trace[k + 1] == Step(cfg, trace[k], es[k])
  }

  // ---- the invariant --------------------------------------------------------------------------

  predicate InvProcesses(s: State) {
    && (forall p :: p in s.exited ==> p < s.spawned)
    && (forall p :: p in s.killed ==> p < s.spawned)
    && (forall p :: 0 <= p < s.spawned && s.handle != Some(p) ==> p in s.exited || p in s.killed)
    && (s.handle.Some? ==> s.handle.value < s.spawned && s.handle.value !in s.killed)
    && (s.disposing ==> s.handle.None?)
    && (!s.disposing ==> s.killed == {})
  }

  predicate InvBudget(cfg: Config, s: State) {
    && s.spawned <= s.attempts
    && s.attempts == (if s.started then 1 + s.restarts else 0)
    && s.restarts <= Max(0, cfg.maxRestarts)
    && (!s.started ==> s.restarts == 0 && s.phase.Idle?)
    && (s.started ==> cfg.loopback && !s.phase.Idle?)
  }

  predicate InvPolls(cfg: Config, s: State) {
    match s.phase
    case Idle => s.probes == 0 && s.sleeps == 0
    case AtProbe(i) => i < MaxPolls(cfg) && s.probes == i + 1 && s.sleeps == i
    case AtSleep(i) => i < MaxPolls(cfg) - 1 && s.probes == i + 1 && s.sleeps == i + 1
    case Returned(outcome) =>
      && (outcome.NotReady? ==> s.disposing)
      && s.probes <= MaxPolls(cfg) && s.sleeps < MaxPolls(cfg)
  }

  predicate Inv(cfg: Config, s: State) { InvProcesses(s) && InvBudget(cfg, s) && InvPolls(cfg, s) }

  lemma StepKeepsInv(cfg: Config, s: State, e: Event)
    requires Inv(cfg, s) && Enabled(s, e)
    ensures Inv(cfg, Step(cfg, s, e))
  {
    match e
    case Start(_) =>
    case ProbeAnswers(_) =>
    case SleepEnds =>
    case Exit(p, _) => assert !s.disposing ==> s.handle == Some(p);
    case Dispose =>
  }

  lemma {:induction false} RunKeepsInv(cfg: Config, trace: seq<State>, es: seq<Event>, k: nat)
    requires IsRun(cfg, trace, es) && k <= |es|
    ensures Inv(cfg, trace[k])
  {
    if k > 0 {
      RunKeepsInv(cfg, trace, es, k - 1);
      StepKeepsInv(cfg, trace[k - 1], es[k - 1]);
    }
  }

  // ---- theorems over every interleaving -------------------------------------------------------

  /** At every moment at most one process lives un-killed, and it is the one `handle` names. */
  lemma OneProcess(cfg: Config, trace: seq<State>, es: seq<Event>, k: nat)
    requires IsRun(cfg, trace, es) && k <= |es|
    ensures forall p: nat :: Live(trace[k], p) ==> trace[k].handle == Some(p)
    ensures forall p: nat, q: nat :: Live(trace[k], p) && Live(trace[k], q) ==> p == q
  {
    RunKeepsInv(cfg, trace, es, k);
  }

  /** Over a lifetime there is one spawn attempt for `start()` and one per restart, within the budget. */
  lemma SpawnBudget(cfg: Config, trace: seq<State>, es: seq<Event>, k: nat)
    requires IsRun(cfg, trace, es) && k <= |es|
    ensures trace[k].attempts == if trace[k].started then 1 + trace[k].restarts else 0
    ensures trace[k].attempts <= 1 + Max(0, cfg.maxRestarts)
    ensures !cfg.loopback ==> trace[k].attempts == 0
  {
    RunKeepsInv(cfg, trace, es, k);
  }

  /**
   * No orphan: once `start()` and `dispose()` have both run, or the poll loop has failed, no process lives
   * un-killed and none is ever spawned again, whatever still interleaves.
   */
  lemma {:induction false} NoOrphan(cfg: Config, trace: seq<State>, es: seq<Event>, k: nat, later: nat)
    requires IsRun(cfg, trace, es) && k <= later <= |es|
    requires (trace[k].started && trace[k].disposing) || trace[k].phase == Returned(NotReady)
    ensures forall p: nat :: !Live(trace[later], p)
    ensures trace[later].attempts == trace[k].attempts && trace[later].spawned == trace[k].spawned
    ensures trace[later].started && trace[later].disposing
    decreases later
  {
    RunKeepsInv(cfg, trace, es, later);
    RunKeepsInv(cfg, trace, es, k);
    if later > k { NoOrphan(cfg, trace, es, k, later - 1); }
  }

  lemma {:induction false} DisposingIsForGood(cfg: Config, trace: seq<State>, es: seq<Event>, k: nat, later: nat)
    requires IsRun(cfg, trace, es) && k <= later <= |es|
    requires trace[k].disposing
    ensures trace[later].disposing
    decreases later
  {
    if later > k { DisposingIsForGood(cfg, trace, es, k, later - 1); }
  }

  /**
   * `start()` returns ok only on the step of a probe that answered true, and no dispose happened at any
   * earlier point of the run.
   */
  lemma {:induction false} OkIsSound(cfg: Config, trace: seq<State>, es: seq<Event>, k: nat) returns (at: nat)
    requires IsRun(cfg, trace, es) && k <= |es| && trace[k].phase == Returned(Ok)
    ensures at < k && es[at] == ProbeAnswers(true) && trace[at].phase.AtProbe? && trace[at + 1].phase == Returned(Ok)
    ensures forall j :: 0 <= j <= at ==> es[j] != Dispose && !trace[j].disposing
    decreases k
  {
    RunKeepsInv(cfg, trace, es, k - 1);
    if trace[k - 1].phase == Returned(Ok) {
      at := OkIsSound(cfg, trace, es, k - 1);
    } else {
      at := k - 1;
      forall j | 0 <= j <= at ensures es[j] != Dispose && !trace[j].disposing {
        if trace[j].disposing { DisposingIsForGood(cfg, trace, es, j, at); }
        if es[j] == Dispose { DisposingIsForGood(cfg, trace, es, j + 1, at + 1); }
      }
    }
  }

  // ---- what it does do ------------------------------------------------------------------------

  /** The machine has been disposed or has failed to get ready before event `k`. */
  ghost predicate GivenUp(trace: seq<State>, es: seq<Event>, k: nat)
    requires |trace| == |es| + 1 && k <= |es|
  {
    exists j :: 0 <= j < k && (es[j] == Dispose || trace[j + 1].phase == Returned(NotReady))
  }

  lemma DisposingStep(cfg: Config, s: State, e: Event)
    requires Inv(cfg, s) && Enabled(s, e)
    ensures var t := Step(cfg, s, e);
      t.disposing <==> s.disposing || e == Dispose || t.phase == Returned(NotReady)
  {
    StepKeepsInv(cfg, s, e);
  }

  lemma {:induction false} DisposingExactly(cfg: Config, trace: seq<State>, es: seq<Event>, k: nat)
    requires IsRun(cfg, trace, es) && k <= |es|
    ensures trace[k].disposing <==> GivenUp(trace, es, k)
  {
    if k > 0 {
      DisposingExactly(cfg, trace, es, k - 1);
      RunKeepsInv(cfg, trace, es, k - 1);
      DisposingStep(cfg, trace[k - 1], es[k - 1]);
      assert GivenUp(trace, es, k) <==>
        GivenUp(trace, es, k - 1) || es[k - 1] == Dispose || trace[k].phase == Returned(NotReady);
    }
  }

  /** The exits before event `k` that came before any dispose and before any failed poll. */
  ghost function Crashes(trace: seq<State>, es: seq<Event>, k: nat): nat
    requires |trace| == |es| + 1 && k <= |es|
  {
    if k == 0 then 0
    else Crashes(trace, es, k - 1) + (if es[k - 1].Exit? && !GivenUp(trace, es, k - 1) then 1 else 0)
  }

  lemma RestartStep(cfg: Config, s: State, e: Event)
    requires Enabled(s, e)
    ensures Step(cfg, s, e).restarts ==
      s.restarts + (if e.Exit? && !s.disposing && s.restarts < cfg.maxRestarts then 1 else 0)
  {}

  /** Every crash is answered by a restart until the budget is used up, and nothing else is. */
  lemma {:induction false} EveryCrashRestarts(cfg: Config, trace: seq<State>, es: seq<Event>, k: nat)
    requires IsRun(cfg, trace, es) && k <= |es|
    ensures trace[k].restarts == Min(Max(0, cfg.maxRestarts), Crashes(trace, es, k))
  {
    if k > 0 {
      EveryCrashRestarts(cfg, trace, es, k - 1);
      DisposingExactly(cfg, trace, es, k - 1);
      RestartStep(cfg, trace[k - 1], es[k - 1]);
    }
  }

  /**
   * A crash within the budget makes one spawn attempt: with a working spawner a fresh process lives and is
   * `handle`, otherwise `handle` stays at the dead one. Any other exit attempts nothing and changes no handle.
   */
  lemma CrashRespawns(cfg: Config, trace: seq<State>, es: seq<Event>, k: nat)
    requires IsRun(cfg, trace, es) && k < |es| && es[k].Exit?
    ensures var s, t := trace[k], trace[k + 1];
      if !GivenUp(trace, es, k) && Crashes(trace, es, k) < cfg.maxRestarts then
        && t.attempts == s.attempts + 1
        && (es[k].respawns ==> t.handle == Some(s.spawned) && Live(t, s.spawned))
        && (!es[k].respawns ==> t.handle == s.handle == Some(es[k].pid) && forall p: nat :: !Live(t, p))
      else t.attempts == s.attempts && t.handle == s.handle
  {
    EveryCrashRestarts(cfg, trace, es, k);
    DisposingExactly(cfg, trace, es, k);
    RunKeepsInv(cfg, trace, es, k);
    RunKeepsInv(cfg, trace, es, k + 1);
  }

  /** The first `start()` on a loopback address attempts a spawn; it fails when the spawner does or all is over. */
  lemma StartSpawns(cfg: Config, trace: seq<State>, es: seq<Event>, k: nat)
    requires IsRun(cfg, trace, es) && k < |es| && es[k].Start?
    ensures var s, t := trace[k], trace[k + 1];
      if !cfg.loopback || (exists j :: 0 <= j < k && es[j].Start?) then t == s
      else
        && t.attempts == s.attempts + 1
        && (!es[k].spawns ==> t.phase == Returned(SpawnFailed))
        && (es[k].spawns ==> t.spawned == s.spawned + 1)
        && (es[k].spawns && GivenUp(trace, es, k) ==> t.phase == Returned(NotReady))
        && (es[k].spawns && !GivenUp(trace, es, k) ==>
          t.phase == AtProbe(0) && t.handle == Some(s.spawned) && Live(t, s.spawned))
  {
    StartedExactly(cfg, trace, es, k);
    DisposingExactly(cfg, trace, es, k);
    RunKeepsInv(cfg, trace, es, k);
  }

  lemma {:induction false} StartedExactly(cfg: Config, trace: seq<State>, es: seq<Event>, k: nat)
    requires IsRun(cfg, trace, es) && k <= |es|
    ensures trace[k].started <==> cfg.loopback && exists j :: 0 <= j < k && es[j].Start?
  {
    if k > 0 {
      StartedExactly(cfg, trace, es, k - 1);
      assert (exists j :: 0 <= j < k && es[j].Start?) <==>
        (exists j :: 0 <= j < k - 1 && es[j].Start?) || es[k - 1].Start?;
    }
  }

  function Answers(es: seq<Event>): nat {
    if es == [] then 0 else Answers(es[..|es| - 1]) + (if es[|es| - 1].ProbeAnswers? then 1 else 0)
  }

  function SleepsOver(es: seq<Event>): nat {
    if es == [] then 0 else SleepsOver(es[..|es| - 1]) + (if es[|es| - 1].SleepEnds? then 1 else 0)
  }

  /**
   * Where a `start()` that spawned stands, told by the answers alone: a true one makes it return ok, `MaxPolls` false
   * ones make it fail, and before that probes and sleeps alternate.
   */
  function Polling(cfg: Config, es: seq<Event>): Phase {
    var answers, sleeps := Answers(es), SleepsOver(es);
    if ProbeAnswers(true) in es then Returned(Ok)
    else if answers == MaxPolls(cfg) then Returned(NotReady)
    else if answers == sleeps then AtProbe(answers)
    else AtSleep(sleeps)
  }

  predicate PollsFollow(cfg: Config, s: State, es: seq<Event>) {
    var answers, sleeps := Answers(es), SleepsOver(es);
    && (s.disposing ==> s.phase == Returned(NotReady))
    && if !s.started || s.phase == Returned(SpawnFailed) then answers == sleeps == 0 && ProbeAnswers(true) !in es
       else sleeps <= answers <= sleeps + 1 && answers <= MaxPolls(cfg) && s.phase == Polling(cfg, es)
  }

  lemma StepFollows(cfg: Config, s: State, es: seq<Event>, e: Event)
    requires Inv(cfg, s) && PollsFollow(cfg, s, es) && Enabled(s, e) && e != Dispose
    ensures PollsFollow(cfg, Step(cfg, s, e), es + [e])
  {
    var all := es + [e];
    assert all[..|all| - 1] == es;
    assert ProbeAnswers(true) in all <==> ProbeAnswers(true) in es || e == ProbeAnswers(true);
  }

  /** While nobody disposes, a `start()` that spawned stands where the answers put it. */
  lemma {:induction false} AnswersDecide(cfg: Config, trace: seq<State>, es: seq<Event>, k: nat)
    requires IsRun(cfg, trace, es) && k <= |es| && Dispose !in es[..k]
    ensures PollsFollow(cfg, trace[k], es[..k])
    ensures trace[k].started && trace[k].phase != Returned(SpawnFailed) ==> trace[k].phase == Polling(cfg, es[..k])
  {
    if k > 0 {
      assert es[..k] == es[..k - 1] + [es[k - 1]];
      assert forall e :: e in es[..k - 1] ==> e in es[..k];
      assert es[k - 1] in es[..k];
      AnswersDecide(cfg, trace, es, k - 1);
      RunKeepsInv(cfg, trace, es, k - 1);
      StepFollows(cfg, trace[k - 1], es[..k - 1], es[k - 1]);
    }
  }

  /** A true answer is success unless all is over by then, and an await that ends after a dispose is a failure. */
  lemma AwaitEnds(cfg: Config, trace: seq<State>, es: seq<Event>, k: nat)
    requires IsRun(cfg, trace, es) && k < |es| && (es[k].ProbeAnswers? || es[k].SleepEnds?)
    ensures es[k] == ProbeAnswers(true) && !GivenUp(trace, es, k) ==> trace[k + 1].phase == Returned(Ok)
    ensures GivenUp(trace, es, k) ==> trace[k + 1].phase == Returned(NotReady)
  {
    DisposingExactly(cfg, trace, es, k);
  }

  /** `MaxPolls` is the least number of intervals, and at least one, that covers the timeout. */
  lemma PollsCoverTimeout(cfg: Config, n: nat)
    ensures var interval := if cfg.probeIntervalMs < 1.0 then 1.0 else cfg.probeIntervalMs;
      MaxPolls(cfg) <= n <==> n >= 1 && n as real * interval >= cfg.readinessTimeoutMs
  {
    var interval := if cfg.probeIntervalMs < 1.0 then 1.0 else cfg.probeIntervalMs;
    var ratio := cfg.readinessTimeoutMs / interval;
    CeilBounds(ratio);
    assert ratio * interval == cfg.readinessTimeoutMs;
    if n as real >= ratio { assert n as real * interval >= ratio * interval; }
    if n as real < ratio { assert n as real * interval < ratio * interval; }
  }

  /** The polls made, and the time the loop asked to sleep between them. */
  function RequestedSleep(cfg: Config, s: State): real { s.sleeps as real * cfg.probeIntervalMs }

  lemma CeilBounds(x: real)
    ensures x <= Ceil(x) as real < x + 1.0
  {}

  /** One sleep fewer than the polls: with `n - 1 < t / i`, the sleeps total less than `t`. */
  lemma SleepsFit(sleeps: nat, n: int, timeout: real, interval: real)
    requires timeout > 0.0 && interval >= 1.0
    requires n == Max(1, Ceil(timeout / interval)) && sleeps <= n - 1
    ensures sleeps as real * interval < timeout
  {
    CeilBounds(timeout / interval);
    if sleeps > 0 {
      assert sleeps as real < timeout / interval;
      assert sleeps as real * interval < (timeout / interval) * interval;
      assert (timeout / interval) * interval == timeout;
    }
  }

  /** The poll loop makes at most `MaxPolls` probes, and never asks to sleep as long as the timeout. */
  lemma PollBound(cfg: Config, trace: seq<State>, es: seq<Event>, k: nat)
    requires IsRun(cfg, trace, es) && k <= |es|
    ensures trace[k].probes <= MaxPolls(cfg)
    ensures cfg.readinessTimeoutMs > 0.0 && cfg.probeIntervalMs >= 1.0 ==>
      RequestedSleep(cfg, trace[k]) < cfg.readinessTimeoutMs
  {
    RunKeepsInv(cfg, trace, es, k);
    if cfg.readinessTimeoutMs > 0.0 && cfg.probeIntervalMs >= 1.0 {
      SleepsFit(trace[k].sleeps, MaxPolls(cfg), cfg.readinessTimeoutMs, cfg.probeIntervalMs);
    }
  }

  // ---- the imperative supervisor --------------------------------------------------------------

  class Supervisor {
    const cfg: Config
    var disposing: bool
    var started: bool
    var restarts: nat
    var handle: Option<Pid>
    /** The suspended `start()`, with its loop counter. */
    var phase: Phase
    // what the injected spawn, kill, probe and sleep have done
    var spawned: nat
    ghost var attempts: nat
    ghost var exited: set<Pid>
    ghost var killed: set<Pid>
    ghost var probes: nat
    ghost var sleeps: nat

    ghost function View(): State
      reads this
    {
      State(disposing, started, restarts, handle, phase, spawned, attempts, exited, killed, probes, sleeps)
    }

    constructor (cfg: Config)
      ensures this.cfg == cfg && View() == INITIAL && Inv(cfg, View())
    {
      this.cfg := cfg;
      disposing, started, restarts, handle, phase := false, false, 0, None, Idle;
      spawned, attempts, exited, killed, probes, sleeps := 0, 0, {}, {}, 0, 0;
    }

    /** `spawns` is whether the injected spawner returns rather than throws. */
    method Spawn(spawns: bool)
      modifies this
      ensures View() == SpawnOnce(old(View()), spawns)
    {
      attempts := attempts + 1;
      if spawns {
        handle := Some(spawned);
        spawned := spawned + 1;
      }
    }

    method Kill()
      modifies this
      ensures View() == Disposed(old(View()))
    {
      disposing := true;
      if handle.Some? { killed := killed + {handle.value}; }
      handle := None;
    }

    method Dispose()
      requires Inv(cfg, View())
      modifies this
      ensures View() == Step(cfg, old(View()), Event.Dispose) && Inv(cfg, View())
    {
      StepKeepsInv(cfg, View(), Event.Dispose);
      Kill();
    }

    method PollFrom(i: nat)
      modifies this
      ensures View() == LoopHead(cfg, old(View()), i)
    {
      if i < MaxPolls(cfg) && !disposing {
        phase := AtProbe(i);
        probes := probes + 1;
        return;
      }
      Kill();
      phase := Returned(NotReady);
    }

    method Start(spawns: bool)
      requires Inv(cfg, View())
      modifies this
      ensures View() == Step(cfg, old(View()), Event.Start(spawns)) && Inv(cfg, View())
    {
      StepKeepsInv(cfg, View(), Event.Start(spawns));
      if !cfg.loopback { return; }
      if started { return; }
      started := true;
      Spawn(spawns);
      if !spawns {
        phase := Returned(SpawnFailed);
        return;
      }
      PollFrom(0);
    }

    method OnProbeAnswer(ready: bool)
      requires Inv(cfg, View()) && phase.AtProbe?
      modifies this
      ensures View() == Step(cfg, old(View()), ProbeAnswers(ready)) && Inv(cfg, View())
    {
      StepKeepsInv(cfg, View(), ProbeAnswers(ready));
      var i := phase.i;
      if disposing {
        Kill();
        phase := Returned(NotReady);
        return;
      }
      if ready {
        phase := Returned(Ok);
        return;
      }
      if i < MaxPolls(cfg) - 1 {
        phase := AtSleep(i);
        sleeps := sleeps + 1;
        return;
      }
      PollFrom(i + 1);
    }

    method OnSleepEnd()
      requires Inv(cfg, View()) && phase.AtSleep?
      modifies this
      ensures View() == Step(cfg, old(View()), SleepEnds) && Inv(cfg, View())
    {
      StepKeepsInv(cfg, View(), SleepEnds);
      PollFrom(phase.i + 1);
    }

    method OnExit(pid: Pid, respawns: bool)
      requires Inv(cfg, View()) && Enabled(View(), Exit(pid, respawns))
      modifies this
      ensures View() == Step(cfg, old(View()), Exit(pid, respawns)) && Inv(cfg, View())
    {
      StepKeepsInv(cfg, View(), Exit(pid, respawns));
      exited := exited + {pid};
      if disposing { return; }
      if restarts >= cfg.maxRestarts { return; }
      restarts := restarts + 1;
      Spawn(respawns);
    }
  }
}
