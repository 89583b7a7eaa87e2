/** Accounting, isolation and bounds of the schedule builder, over every plain-data configuration. */
module ScheduleTheorems {
  import opened Wrappers
  import opened Strings
  import opened Json
  import opened ScheduleSpecs

  function SpecsFor(specs: seq<Spec>, f: Family): seq<Spec> {
    if specs == [] then [] else (if specs[0].family == f then [specs[0]] else []) + SpecsFor(specs[1..], f)
  }

  function SkipsFor(skips: seq<Skip>, f: Family): seq<Skip> {
    if skips == [] then [] else (if skips[0].family == f then [skips[0]] else []) + SkipsFor(skips[1..], f)
  }

  // ---- each slot comes to its own outcome -----------------------------------------------------

  lemma {:induction false} SpecsForConcat(a: seq<Spec>, b: seq<Spec>, f: Family)
    ensures SpecsFor(a + b, f) == SpecsFor(a, f) + SpecsFor(b, f)
  {
    if a == [] {
      assert a + b == b;
    } else {
      var rest, first := a[1..], if a[0].family == f then [a[0]] else [];
      assert (a + b)[0] == a[0] && (a + b)[1..] == rest + b;
      SpecsForConcat(rest, b, f);
      Regroup(first, SpecsFor(rest, f), SpecsFor(b, f));
    }
  }

  lemma {:induction false} SkipsForConcat(a: seq<Skip>, b: seq<Skip>, f: Family)
    ensures SkipsFor(a + b, f) == SkipsFor(a, f) + SkipsFor(b, f)
  {
    if a == [] {
      assert a + b == b;
    } else {
      var rest, first := a[1..], if a[0].family == f then [a[0]] else [];
      assert (a + b)[0] == a[0] && (a + b)[1..] == rest + b;
      SkipsForConcat(rest, b, f);
      Regroup(first, SkipsFor(rest, f), SkipsFor(b, f));
    }
  }

  /** Slots of distinct families, each registering under its own. */
  predicate AreSlots(slots: seq<Slot>) {
    && (forall i, j :: 0 <= i < j < |slots| ==> slots[i].family != slots[j].family)
    && (forall i :: 0 <= i < |slots| && slots[i].outcome.Registered? ==>
      slots[i].outcome.spec.family == slots[i].family)
  }

  function OutcomeFor(slots: seq<Slot>, f: Family): Outcome {
    if slots == [] then Nothing
    else if slots[|slots| - 1].family == f then slots[|slots| - 1].outcome
    else OutcomeFor(slots[..|slots| - 1], f)
  }

  lemma {:induction false} NoSlotFor(slots: seq<Slot>, f: Family)
    requires forall i :: 0 <= i < |slots| ==> slots[i].family != f
    ensures OutcomeFor(slots, f) == Nothing
  {
    if slots != [] { NoSlotFor(slots[..|slots| - 1], f); }
  }

  /** What the builder returns for a family is its slot's outcome and nothing else. */
  lemma {:induction false} SlotsFor(slots: seq<Slot>, f: Family)
    requires AreSlots(slots)
    ensures SpecsFor(SpecsIn(slots), f) == SlotSpecs(OutcomeFor(slots, f))
    ensures SkipsFor(SkipsIn(slots), f) == SlotSkips(f, OutcomeFor(slots, f))
  {
    if slots != [] {
      var front, last := slots[..|slots| - 1], slots[|slots| - 1];
      SlotsFor(front, f);
      SpecsForConcat(SpecsIn(front), SlotSpecs(last.outcome), f);
      SkipsForConcat(SkipsIn(front), SlotSkips(last.family, last.outcome), f);
      if last.family == f { NoSlotFor(front, f); }
    }
  }

  lemma {:induction false} OutcomeAt(slots: seq<Slot>, k: nat)
    requires AreSlots(slots) && k < |slots|
    ensures OutcomeFor(slots, slots[k].family) == slots[k].outcome
  {
    if k < |slots| - 1 { OutcomeAt(slots[..|slots| - 1], k); }
  }

  function Position(f: Family): (k: nat)
    ensures k < |FAMILIES| && FAMILIES[k] == f
  {
    match f
    case IngestionTriage => 0
    case ProjectSync => 1
    case DailyBrief => 2
    case PeriodReviewWeekly => 3
    case PeriodReviewMonthly => 4
    case CrossCalendar => 5
  }

  lemma FamiliesAreDistinct()
    ensures forall i, j :: 0 <= i < j < |FAMILIES| ==> FAMILIES[i] != FAMILIES[j]
  {
    assert forall i :: 0 <= i < |FAMILIES| ==> Position(FAMILIES[i]) == i;
  }

  lemma SlotOutcome(config: Json, taskQueue: string, registry: seq<ScheduledScope>, f: Family)
    ensures SpecsFor(SpecsIn(SlotsOf(config, taskQueue, registry)), f) ==
      SlotSpecs(SlotOf(config, f, taskQueue, registry).outcome)
    ensures SkipsFor(SkipsIn(SlotsOf(config, taskQueue, registry)), f) ==
      SlotSkips(f, SlotOf(config, f, taskQueue, registry).outcome)
  {
    var slots := SlotsOf(config, taskQueue, registry);
    FamiliesAreDistinct();
    assert slots[Position(f)].family == f;
    SlotsFor(slots, f);
    OutcomeAt(slots, Position(f));
  }

  /** An armed slot yields exactly one spec or exactly one skip, a disarmed slot neither. */
  lemma Accounting(config: Json, taskQueue: string, registry: seq<ScheduledScope>, f: Family)
    ensures |SpecsFor(SpecsIn(SlotsOf(config, taskQueue, registry)), f)| +
      |SkipsFor(SkipsIn(SlotsOf(config, taskQueue, registry)), f)|
         == if IsArmed(BlockOf(config, f)) then 1 else 0
  {
    SlotOutcome(config, taskQueue, registry, f);
  }

  /** A slot depends on its own family's block only, whatever the rest of the configuration holds. */
  lemma Isolation(a: Json, b: Json, taskQueue: string, registry: seq<ScheduledScope>, f: Family)
    requires BlockOf(a, f) == BlockOf(b, f)
    ensures SpecsFor(SpecsIn(SlotsOf(a, taskQueue, registry)), f) ==
      SpecsFor(SpecsIn(SlotsOf(b, taskQueue, registry)), f)
    ensures SkipsFor(SkipsIn(SlotsOf(a, taskQueue, registry)), f) ==
      SkipsFor(SkipsIn(SlotsOf(b, taskQueue, registry)), f)
  {
    SlotOutcome(a, taskQueue, registry, f);
    SlotOutcome(b, taskQueue, registry, f);
  }

  /** A skip is reported exactly when the slot is armed and the named field is its first one at fault. */
  lemma SkipNamesTheFirstFault(config: Json, taskQueue: string, registry: seq<ScheduledScope>, f: Family, code: Code)
    ensures SkipsFor(SkipsIn(SlotsOf(config, taskQueue, registry)), f) == [Skip(f, code)] <==>
      IsArmed(BlockOf(config, f)) && IsFirstFaultOf(BlockOf(config, f), f, registry, Judged(f), code)
  {
    SlotOutcome(config, taskQueue, registry, f);
    FirstFaultIsFirst(BlockOf(config, f), f, registry, Judged(f), code);
  }

  ghost predicate IsFirstAt(block: Json, f: Family, registry: seq<ScheduledScope>, codes: seq<Code>, i: nat) {
    && i < |codes| && IsFaulty(block, f, registry, codes[i])
    && forall j :: 0 <= j < i ==> !IsFaulty(block, f, registry, codes[j])
  }

  ghost predicate IsFirstFaultOf(block: Json, f: Family, registry: seq<ScheduledScope>, codes: seq<Code>, code: Code) {
    exists i :: 0 <= i < |codes| && codes[i] == code && IsFirstAt(block, f, registry, codes, i)
  }

  lemma {:induction false} FirstAt(block: Json, f: Family, registry: seq<ScheduledScope>, codes: seq<Code>, i: nat)
    requires IsFirstAt(block, f, registry, codes, i)
    ensures FirstFault(block, f, registry, codes) == Some(codes[i])
  {
    if i > 0 { FirstAt(block, f, registry, codes[1..], i - 1); }
  }

  lemma {:induction false} FirstExists(block: Json, f: Family, registry: seq<ScheduledScope>, codes: seq<Code>)
    returns (i: nat)
    requires FirstFault(block, f, registry, codes).Some?
    ensures IsFirstAt(block, f, registry, codes, i)
  {
    if IsFaulty(block, f, registry, codes[0]) { i := 0; }
    else {
      i := FirstExists(block, f, registry, codes[1..]);
      assert forall j :: 0 < j < i + 1 ==> codes[j] == codes[1..][j - 1];
      i := i + 1;
    }
  }

  lemma FirstFaultIsFirst(block: Json, f: Family, registry: seq<ScheduledScope>, codes: seq<Code>, code: Code)
    ensures FirstFault(block, f, registry, codes) == Some(code) <==> IsFirstFaultOf(block, f, registry, codes, code)
  {
    if FirstFault(block, f, registry, codes).Some? {
      var i := FirstExists(block, f, registry, codes);
      FirstAt(block, f, registry, codes, i);
    }
    if IsFirstFaultOf(block, f, registry, codes, code) {
      var i :| 0 <= i < |codes| && codes[i] == code && IsFirstAt(block, f, registry, codes, i);
      FirstAt(block, f, registry, codes, i);
    }
  }

  // ---- bounds ---------------------------------------------------------------------------------

  /** Whole milliseconds from 1 to 9007199254, so that the nanosecond count is an exact integer. */
  predicate IsExactDuration(ms: int) { 1 <= ms <= 9007199254 && ms * 1_000_000 <= MAX_SAFE_INTEGER }

  predicate IsBounded(spec: Spec) {
    IsExactDuration(spec.intervalMs) && (spec.args.Envelope? ==> IsExactDuration(spec.args.catchUpWindowMs))
  }

  lemma ResolvedIsExact(armed: bool, configured: Option<Json>, fallback: int)
    ensures ResolveDurationMs(armed, configured, fallback).Some? ==>
      IsExactDuration(ResolveDurationMs(armed, configured, fallback).value)
  {}

  lemma RegisteredIsBounded(block: Json, f: Family, taskQueue: string, registry: seq<ScheduledScope>)
    requires OutcomeOf(block, f, taskQueue, registry).Registered?
    ensures IsBounded(OutcomeOf(block, f, taskQueue, registry).spec)
  {
    FaultInOrder(block, f, registry);
    ResolvedIsExact(IsArmed(block), Field(block, IntervalKey(f)), DefaultMs(f));
    var interval := IntervalOf(block, f).value;
    ResolvedIsExact(IsArmed(block), Field(block, "catchUpWindowMs"), 2 * interval);
  }

  lemma {:induction false} SpecIsSomeSlots(slots: seq<Slot>, spec: Spec) returns (k: nat)
    requires spec in SpecsIn(slots)
    ensures k < |slots| && slots[k].outcome == Registered(spec)
  {
    var n := |slots| - 1;
    if slots[n].outcome == Registered(spec) { k := n; } else { k := SpecIsSomeSlots(slots[..n], spec); }
  }

  /** Every cadence and catch-up window registered, the doubled fallback included, is exactly representable. */
  lemma SpecsAreBounded(config: Json, taskQueue: string, registry: seq<ScheduledScope>, spec: Spec)
    requires spec in SpecsIn(SlotsOf(config, taskQueue, registry))
    ensures IsBounded(spec)
  {
    var k := SpecIsSomeSlots(SlotsOf(config, taskQueue, registry), spec);
    RegisteredIsBounded(BlockOf(config, FAMILIES[k]), FAMILIES[k], taskQueue, registry);
  }

  /** With no window configured, the fallback is at fault exactly above half of the largest interval. */
  lemma DoubledFallback(block: Json, f: Family)
    requires IntervalOf(block, f).Some? && (Field(block, "catchUpWindowMs").None? || !IsArmed(block))
    ensures CatchUpOf(block, f) ==
      (if IntervalOf(block, f).value <= 4503599627 then Some(2 * IntervalOf(block, f).value) else None)
  {
    ResolvedIsExact(IsArmed(block), Field(block, IntervalKey(f)), DefaultMs(f));
  }

  // ---- what is registered ---------------------------------------------------------------------

  /** The duration configured under `k`, or the fallback when there is none; either way an exact one. */
  predicate DurationIs(block: Json, k: string, fallback: int, ms: int) {
    1 <= ms <= 9007199254 &&
    (Field(block, k) == Some(Num(ms as real)) || (Field(block, k).None? && ms == fallback))
  }

  predicate WorkspaceIs(block: Json, k: string, id: string) {
    || (Field(block, k) == Some(Str(id)) && IsWorkspaceId(id))
    || (Field(block, k).None? && id == "ws-global-coordination")
  }

  /** The raw item is this scope: a well-formed workspace id, and the brain id it carries if any. */
  predicate ScopeIs(raw: Json, scope: ScheduledScope) {
    && StringField(raw, "workspaceId") == Some(scope.workspaceId) && IsWorkspaceId(scope.workspaceId)
    && Field(raw, "brainId") == if scope.brainId.Some? then Some(Str(scope.brainId.value)) else None
  }

  predicate SourceIs(raw: Json, source: Source) {
    && StringField(raw, "sourceId") == Some(source.sourceId) && source.sourceId != ""
    && StringField(raw, "workspaceId") == Some(source.workspaceId) && IsWorkspaceId(source.workspaceId)
  }

  ghost predicate ScopesAre(block: Json, registry: seq<ScheduledScope>, scopes: seq<ScheduledScope>) {
    match Field(block, "scopes")
    case None => scopes == registry
    case Some(Arr(items)) => |scopes| == |items| && forall i :: 0 <= i < |items| ==> ScopeIs(items[i], scopes[i])
    case Some(_) => false
  }

  ghost predicate SourcesAre(block: Json, sources: seq<Source>) {
    match Field(block, "sources")
    case None => sources == []
    case Some(Arr(items)) => |sources| == |items| && forall i :: 0 <= i < |items| ==> SourceIs(items[i], sources[i])
    case Some(_) => false
  }

  /** The block configures this spec, field by field, under the names and with the defaults of the family. */
  ghost predicate Configures(block: Json, spec: Spec, registry: seq<ScheduledScope>) {
    match spec.family
    case IngestionTriage => DurationIs(block, "intervalMs", 21600000, spec.intervalMs) && spec.args.NoArgs?
    case ProjectSync => DurationIs(block, "intervalMs", 3600000, spec.intervalMs) && spec.args.NoArgs?
    case DailyBrief => DurationIs(block, "intervalMs", 86400000, spec.intervalMs) && Envelops(block, spec, registry)
    case PeriodReviewWeekly =>
      DurationIs(block, "weeklyIntervalMs", 604800000, spec.intervalMs) && Envelops(block, spec, registry)
    case PeriodReviewMonthly =>
      DurationIs(block, "monthlyIntervalMs", 2592000000, spec.intervalMs) && Envelops(block, spec, registry)
    case CrossCalendar =>
      && DurationIs(block, "intervalMs", 3600000, spec.intervalMs) && spec.args.Calendar?
      && WorkspaceIs(block, "organizerWorkspaceId", spec.args.organizerWorkspaceId)
      && SourcesAre(block, spec.args.sources)
  }

  ghost predicate Envelops(block: Json, spec: Spec, registry: seq<ScheduledScope>) {
    && spec.args.Envelope?
    && DurationIs(block, "catchUpWindowMs", 2 * spec.intervalMs, spec.args.catchUpWindowMs)
    && WorkspaceIs(block, "globalWorkspaceId", spec.args.globalWorkspaceId)
    && ScopesAre(block, registry, spec.args.scopes)
  }

  lemma DurationExactly(block: Json, k: string, fallback: int, ms: int)
    ensures ResolveDurationMs(true, Field(block, k), fallback) == Some(ms) <==> DurationIs(block, k, fallback, ms)
  {}

  lemma WorkspaceExactly(block: Json, k: string, id: string)
    ensures ResolveWorkspaceId(true, Field(block, k), DEFAULT_WORKSPACE) == Some(id) <==> WorkspaceIs(block, k, id)
  {}

  lemma ScopesExactly(block: Json, registry: seq<ScheduledScope>, scopes: seq<ScheduledScope>)
    requires IsArmed(block)
    ensures ScopesOf(block, registry) == Some(scopes) <==> ScopesAre(block, registry, scopes)
  {
    match Field(block, "scopes")
    case Some(Arr(items)) =>
      forall raw, scope ensures ReadScope(raw) == Some(scope) <==> ScopeIs(raw, scope) {}
      ReadAllReads(items, ReadScope);
      if ScopesAre(block, registry, scopes) { ReadsOneWay(items, ReadScope, Some(scopes)); }
    case _ =>
  }

  lemma SourcesExactly(block: Json, sources: seq<Source>)
    requires IsArmed(block)
    ensures SourcesOf(block) == Some(sources) <==> SourcesAre(block, sources)
  {
    match Field(block, "sources")
    case Some(Arr(items)) =>
      forall raw, source ensures ReadSource(raw) == Some(source) <==> SourceIs(raw, source) {}
      ReadAllReads(items, ReadSource);
      if SourcesAre(block, sources) { ReadsOneWay(items, ReadSource, Some(sources)); }
    case _ =>
  }

  /** An armed block comes to a spec exactly when it configures that spec. */
  lemma OutcomeExactly(block: Json, taskQueue: string, registry: seq<ScheduledScope>, spec: Spec)
    requires IsArmed(block)
    ensures OutcomeOf(block, spec.family, taskQueue, registry) == Registered(spec) <==>
      spec.taskQueue == taskQueue && Configures(block, spec, registry)
  {
    var f := spec.family;
    FaultInOrder(block, f, registry);
    DurationExactly(block, IntervalKey(f), DefaultMs(f), spec.intervalMs);
    match spec.args
    case Envelope(window, workspace, scopes) =>
      DurationExactly(block, "catchUpWindowMs", 2 * spec.intervalMs, window);
      WorkspaceExactly(block, WorkspaceKey(f), workspace);
      ScopesExactly(block, registry, scopes);
    case Calendar(workspace, sources) =>
      WorkspaceExactly(block, WorkspaceKey(f), workspace);
      SourcesExactly(block, sources);
    case NoArgs =>
  }

  /** The builder registers a spec exactly when the block of its family is armed and configures it. */
  lemma RegistersExactly(config: Json, taskQueue: string, registry: seq<ScheduledScope>, spec: Spec)
    ensures SpecsFor(SpecsIn(SlotsOf(config, taskQueue, registry)), spec.family) == [spec] <==> (
      var block := BlockOf(config, spec.family);
      Field(block, "enabled") == Some(Bool(true)) && spec.taskQueue == taskQueue && Configures(block, spec, registry))
  {
    SlotOutcome(config, taskQueue, registry, spec.family);
    if IsArmed(BlockOf(config, spec.family)) {
      OutcomeExactly(BlockOf(config, spec.family), taskQueue, registry, spec);
    }
  }
}
