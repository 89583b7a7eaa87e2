/**
 * The schedule-spec builder. `FirstFault` is the table of which field is judged first in each family, and
 * `OutcomeOf` what one slot must come to; the methods are the source's blocks, proved to append exactly that.
 */
module ScheduleSpecs {
  import opened Wrappers
  import opened Strings
  import opened Json

  datatype Family =
    | IngestionTriage
    | ProjectSync
    | DailyBrief
    | PeriodReviewWeekly
    | PeriodReviewMonthly
    | CrossCalendar

  datatype Code = InvalidWorkspaceId | InvalidIntervalMs | InvalidCatchUpWindowMs | InvalidScopes | InvalidSources

  datatype Skip = Skip(family: Family, code: Code)

  datatype ScheduledScope = ScheduledScope(workspaceId: string, brainId: Option<string>)

  datatype Source = Source(sourceId: string, workspaceId: string)

  datatype Args =
    | NoArgs
    | Envelope(catchUpWindowMs: int, globalWorkspaceId: string, scopes: seq<ScheduledScope>)
    | Calendar(organizerWorkspaceId: string, sources: seq<Source>)

  /** The schedule id, workflow type and period of a spec are fixed by its family. */
  datatype Spec = Spec(family: Family, taskQueue: string, intervalMs: int, args: Args)

  const DEFAULT_WORKSPACE := "ws-global-coordination"

  const MAX_SAFE_INTEGER := 9007199254740991

  const MAX_DURATION_MS := MAX_SAFE_INTEGER / 1_000_000

  // ---- reading one field ----------------------------------------------------------------------

  predicate IsDurationMs(n: int) { 0 < n <= MAX_DURATION_MS }

  /** A positive whole number of milliseconds whose nanoseconds are still exact. */
  function ReadDuration(v: Json): Option<int> {
    if v.Num? && v.n == v.n.Floor as real
      && -MAX_SAFE_INTEGER <= v.n.Floor <= MAX_SAFE_INTEGER && IsDurationMs(v.n.Floor)
    then Some(v.n.Floor) else None
  }

  function ResolveDurationMs(armed: bool, configured: Option<Json>, fallback: int): Option<int> {
    if armed && configured.Some? then ReadDuration(configured.value)
    else if IsDurationMs(fallback) then Some(fallback)
    else None
  }

  predicate IsSlugChar(c: char) { 'a' <= c <= 'z' || IsDigit(c) }

  /** A lower-case slug of at most 64 characters, with no dash at either end. */
  predicate IsWorkspaceId(s: string) {
    && 1 <= |s| <= 64
    && IsSlugChar(s[0]) && IsSlugChar(s[|s| - 1])
    && forall i :: 0 <= i < |s| ==> IsSlugChar(s[i]) || s[i] == '-'
  }

  function ResolveWorkspaceId(armed: bool, configured: Option<Json>, fallback: string): Option<string> {
    if !armed || configured.None? then Some(fallback)
    else if configured.value.Str? && IsWorkspaceId(configured.value.s) then Some(configured.value.s)
    else None
  }

  function ReadScope(raw: Json): Option<ScheduledScope> {
    var id, brain := Field(raw, "workspaceId"), Field(raw, "brainId");
    if id.None? || !id.value.Str? || (brain.Some? && !brain.value.Str?) || !IsWorkspaceId(id.value.s) then None
    else Some(ScheduledScope(id.value.s, if brain.Some? then Some(brain.value.s) else None))
  }

  function ReadSource(raw: Json): Option<Source> {
    var source, id := Field(raw, "sourceId"), Field(raw, "workspaceId");
    if source.None? || !source.value.Str? || source.value.s == ""
      || id.None? || !id.value.Str? || !IsWorkspaceId(id.value.s)
    then None
    else Some(Source(source.value.s, id.value.s))
  }

  /** Every item read, or None as soon as one cannot be: a bad entry spoils the whole list. */
  ghost predicate ReadsAs<T>(items: seq<Json>, read: Json -> Option<T>, r: Option<seq<T>>) {
    match r
    case Some(ts) => |ts| == |items| && forall i :: 0 <= i < |items| ==> read(items[i]) == Some(ts[i])
    case None => exists i :: 0 <= i < |items| && read(items[i]).None?
  }

  function ReadAll<T>(items: seq<Json>, read: Json -> Option<T>): Option<seq<T>> {
    if items == [] then Some([])
    else
      var n := |items| - 1;
      var front := ReadAll(items[..n], read);
      if front.None? || read(items[n]).None? then None else Some(front.value + [read(items[n]).value])
  }

  /** `resolveScheduleScopes` and `resolveScheduleSources`: an absent or disarmed override is the fallback. */
  function ResolveList<T>(armed: bool, configured: Option<Json>, fallback: seq<T>,
      read: Json -> Option<T>): Option<seq<T>> {
    if !armed || configured.None? then Some(fallback)
    else if !configured.value.Arr? then None
    else ReadAll(configured.value.items, read)
  }

  lemma {:induction false} ReadAllReads<T>(items: seq<Json>, read: Json -> Option<T>)
    ensures ReadsAs(items, read, ReadAll(items, read))
  {
    if items != [] {
      var n := |items| - 1;
      ReadAllReads(items[..n], read);
      if ReadAll(items[..n], read).None? {
        var i :| 0 <= i < n && read(items[..n][i]).None?;
        assert read(items[i]).None?;
      }
    }
  }

  lemma ReadsOneWay<T>(items: seq<Json>, read: Json -> Option<T>, r: Option<seq<T>>)
    requires ReadsAs(items, read, r)
    ensures r == ReadAll(items, read)
  {
    ReadAllReads(items, read);
    var s := ReadAll(items, read);
    if r.Some? && s.Some? { assert r.value == s.value; }
  }

  method ResolveScheduleScopes(armed: bool, configured: Option<Json>, fallback: seq<ScheduledScope>)
    returns (r: Option<seq<ScheduledScope>>)
    ensures r == ResolveList(armed, configured, fallback, ReadScope)
  {
    if !armed || configured.None? { return Some(fallback); }
    if !configured.value.Arr? { return None; }
    var items, scopes := configured.value.items, [];
    for i := 0 to |items|
      invariant |scopes| == i && forall k :: 0 <= k < i ==> ReadScope(items[k]) == Some(scopes[k])
    {
      var id, brain := Field(items[i], "workspaceId"), Field(items[i], "brainId");
      if id.None? || !id.value.Str? || (brain.Some? && !brain.value.Str?) || !IsWorkspaceId(id.value.s) {
        ReadsOneWay(items, ReadScope, None);
        return None;
      }
      scopes := scopes + [ScheduledScope(id.value.s, if brain.None? then None else Some(brain.value.s))];
    }
    ReadsOneWay(items, ReadScope, Some(scopes));
    return Some(scopes);
  }

  method ResolveScheduleSources(armed: bool, configured: Option<Json>, fallback: seq<Source>)
    returns (r: Option<seq<Source>>)
    ensures r == ResolveList(armed, configured, fallback, ReadSource)
  {
    if !armed || configured.None? { return Some(fallback); }
    if !configured.value.Arr? { return None; }
    var items, sources := configured.value.items, [];
    for i := 0 to |items|
      invariant |sources| == i && forall k :: 0 <= k < i ==> ReadSource(items[k]) == Some(sources[k])
    {
      var source, id := Field(items[i], "sourceId"), Field(items[i], "workspaceId");
      if source.None? || !source.value.Str? || |source.value.s| == 0
        || id.None? || !id.value.Str? || !IsWorkspaceId(id.value.s)
      {
        ReadsOneWay(items, ReadSource, None);
        return None;
      }
      sources := sources + [Source(source.value.s, id.value.s)];
    }
    ReadsOneWay(items, ReadSource, Some(sources));
    return Some(sources);
  }

  // ---- what one slot must come to -------------------------------------------------------------

  const FAMILIES := [IngestionTriage, ProjectSync, DailyBrief, PeriodReviewWeekly, PeriodReviewMonthly, CrossCalendar]

  function BlockKey(f: Family): string {
    match f
    case IngestionTriage => "ingestionTriageSchedule"
    case ProjectSync => "projectSyncSchedule"
    case DailyBrief => "dailyBriefSchedule"
    case PeriodReviewWeekly | PeriodReviewMonthly => "periodReviewSchedule"
    case CrossCalendar => "crossCalendarSchedulingSchedule"
  }

  function BlockOf(config: Json, f: Family): Json {
    var block := Field(config, BlockKey(f));
    if block.Some? then block.value else Null
  }

  function IntervalKey(f: Family): string {
    match f
    case PeriodReviewWeekly => "weeklyIntervalMs"
    case PeriodReviewMonthly => "monthlyIntervalMs"
    case _ => "intervalMs"
  }

  const HOUR := 60 * 60 * 1000

  function DefaultMs(f: Family): int {
    match f
    case IngestionTriage => 6 * HOUR
    case ProjectSync => HOUR
    case DailyBrief => 24 * HOUR
    case PeriodReviewWeekly => 7 * 24 * HOUR
    case PeriodReviewMonthly => 30 * 24 * HOUR
    case CrossCalendar => HOUR
  }

  predicate IsArmed(block: Json) { Field(block, "enabled") == Some(Bool(true)) }

  function IntervalOf(block: Json, f: Family): Option<int> {
    ResolveDurationMs(IsArmed(block), Field(block, IntervalKey(f)), DefaultMs(f))
  }

  /** The catch-up window rides on the family's own interval: twice it when none is configured. */
  function CatchUpOf(block: Json, f: Family): Option<int> {
    match IntervalOf(block, f)
    case None => None
    case Some(interval) => ResolveDurationMs(IsArmed(block), Field(block, "catchUpWindowMs"), 2 * interval)
  }

  function WorkspaceKey(f: Family): string {
    if f == CrossCalendar then "organizerWorkspaceId" else "globalWorkspaceId"
  }

  function WorkspaceOf(block: Json, f: Family): Option<string> {
    ResolveWorkspaceId(IsArmed(block), Field(block, WorkspaceKey(f)), DEFAULT_WORKSPACE)
  }

  function ScopesOf(block: Json, registry: seq<ScheduledScope>): Option<seq<ScheduledScope>> {
    ResolveList(IsArmed(block), Field(block, "scopes"), registry, ReadScope)
  }

  function SourcesOf(block: Json): Option<seq<Source>> {
    ResolveList(IsArmed(block), Field(block, "sources"), [], ReadSource)
  }

  /** The fields of a family in the order a fault in them is reported. */
  function Judged(f: Family): seq<Code> {
    match f
    case IngestionTriage | ProjectSync => [InvalidIntervalMs]
    case DailyBrief => [InvalidIntervalMs, InvalidWorkspaceId, InvalidCatchUpWindowMs, InvalidScopes]
    case PeriodReviewWeekly | PeriodReviewMonthly =>
      [InvalidWorkspaceId, InvalidScopes, InvalidIntervalMs, InvalidCatchUpWindowMs]
    case CrossCalendar => [InvalidIntervalMs, InvalidWorkspaceId, InvalidSources]
  }

  predicate IsFaulty(block: Json, f: Family, registry: seq<ScheduledScope>, code: Code) {
    match code
    case InvalidWorkspaceId => WorkspaceOf(block, f).None?
    case InvalidIntervalMs => IntervalOf(block, f).None?
    case InvalidCatchUpWindowMs => CatchUpOf(block, f).None?
    case InvalidScopes => ScopesOf(block, registry).None?
    case InvalidSources => SourcesOf(block).None?
  }

  function FirstFault(block: Json, f: Family, registry: seq<ScheduledScope>, codes: seq<Code>): Option<Code> {
    if codes == [] then None
    else if IsFaulty(block, f, registry, codes[0]) then Some(codes[0])
    else FirstFault(block, f, registry, codes[1..])
  }

  datatype Outcome = Nothing | Registered(spec: Spec) | Skipped(code: Code)

  function OrElse<T>(o: Option<T>, d: T): T { if o.Some? then o.value else d }

  function ArgsOf(block: Json, f: Family, registry: seq<ScheduledScope>): Args {
    var workspace := OrElse(WorkspaceOf(block, f), "");
    match f
    case IngestionTriage | ProjectSync => NoArgs
    case DailyBrief | PeriodReviewWeekly | PeriodReviewMonthly =>
      Envelope(OrElse(CatchUpOf(block, f), 0), workspace, OrElse(ScopesOf(block, registry), []))
    case CrossCalendar => Calendar(workspace, OrElse(SourcesOf(block), []))
  }

  /** The spec of a family none of whose judged fields is faulty. */
  function SpecOf(block: Json, f: Family, taskQueue: string, registry: seq<ScheduledScope>): Spec {
    Spec(f, taskQueue, OrElse(IntervalOf(block, f), 0), ArgsOf(block, f, registry))
  }

  function OutcomeOf(block: Json, f: Family, taskQueue: string, registry: seq<ScheduledScope>): Outcome {
    if !IsArmed(block) then Nothing
    else match FirstFault(block, f, registry, Judged(f))
      case Some(code) => Skipped(code)
      case None => Registered(SpecOf(block, f, taskQueue, registry))
  }

  function SlotSpecs(o: Outcome): seq<Spec> { if o.Registered? then [o.spec] else [] }

  function SlotSkips(f: Family, o: Outcome): seq<Skip> { if o.Skipped? then [Skip(f, o.code)] else [] }

  // ---- the builder ----------------------------------------------------------------------------

  /** The registrar's gates: a spec exactly when armed. */
  method Gate(armed: bool, spec: Spec) returns (specs: seq<Spec>)
    ensures specs == if armed then [spec] else []
  {
    if !armed { return []; }
    return [spec];
  }

  method BuildPlain(block: Json, f: Family, taskQueue: string, registry: seq<ScheduledScope>)
    returns (specs: seq<Spec>, skips: seq<Skip>)
    requires f in {IngestionTriage, ProjectSync}
    ensures specs == SlotSpecs(OutcomeOf(block, f, taskQueue, registry))
    ensures skips == SlotSkips(f, OutcomeOf(block, f, taskQueue, registry))
  {
    specs, skips := [], [];
    var enabled := IsArmed(block);
    var interval := ResolveDurationMs(enabled, Field(block, "intervalMs"), DefaultMs(f));
    FaultInOrder(block, f, registry);
    if interval.None? { skips := [Skip(f, InvalidIntervalMs)]; }
    else { specs := Gate(enabled, Spec(f, taskQueue, interval.value, NoArgs)); }
  }

  method BuildDailyBrief(block: Json, taskQueue: string, registry: seq<ScheduledScope>)
    returns (specs: seq<Spec>, skips: seq<Skip>)
    ensures specs == SlotSpecs(OutcomeOf(block, DailyBrief, taskQueue, registry))
    ensures skips == SlotSkips(DailyBrief, OutcomeOf(block, DailyBrief, taskQueue, registry))
  {
    specs, skips := [], [];
    var enabled := IsArmed(block);
    var interval := ResolveDurationMs(enabled, Field(block, "intervalMs"), 24 * 60 * 60 * 1000);
    var workspace := ResolveWorkspaceId(enabled, Field(block, "globalWorkspaceId"), DEFAULT_WORKSPACE);
    var catchUp := None;
    if interval.Some? { catchUp := ResolveDurationMs(enabled, Field(block, "catchUpWindowMs"), 2 * interval.value); }
    var scopes := ResolveScheduleScopes(enabled, Field(block, "scopes"), registry);
    FaultInOrder(block, DailyBrief, registry);
    if interval.None? { skips := [Skip(DailyBrief, InvalidIntervalMs)]; }
    else if workspace.None? { skips := [Skip(DailyBrief, InvalidWorkspaceId)]; }
    else if catchUp.None? { skips := [Skip(DailyBrief, InvalidCatchUpWindowMs)]; }
    else if scopes.None? { skips := [Skip(DailyBrief, InvalidScopes)]; }
    else {
      var args := Envelope(catchUp.value, workspace.value, scopes.value);
      specs := Gate(enabled, Spec(DailyBrief, taskQueue, interval.value, args));
    }
  }

  lemma CadenceOutcome(block: Json, f: Family, taskQueue: string, registry: seq<ScheduledScope>, workspace: string,
      scopes: seq<ScheduledScope>)
    requires f in {PeriodReviewWeekly, PeriodReviewMonthly}
    requires WorkspaceOf(block, f) == Some(workspace) && ScopesOf(block, registry) == Some(scopes)
    ensures OutcomeOf(block, f, taskQueue, registry) ==
      if !IsArmed(block) then Nothing
      else if IntervalOf(block, f).None? then Skipped(InvalidIntervalMs)
      else if CatchUpOf(block, f).None? then Skipped(InvalidCatchUpWindowMs)
      else Registered(Spec(f, taskQueue, IntervalOf(block, f).value,
        Envelope(CatchUpOf(block, f).value, workspace, scopes)))
  {
    FaultInOrder(block, f, registry);
  }

  /** One cadence of the period review, once the fields it shares with the other have resolved. */
  method BuildCadence(block: Json, f: Family, taskQueue: string, registry: seq<ScheduledScope>, workspace: string,
      scopes: seq<ScheduledScope>)
    returns (specs: seq<Spec>, skips: seq<Skip>)
    requires f in {PeriodReviewWeekly, PeriodReviewMonthly}
    requires WorkspaceOf(block, f) == Some(workspace) && ScopesOf(block, registry) == Some(scopes)
    ensures specs == SlotSpecs(OutcomeOf(block, f, taskQueue, registry))
    ensures skips == SlotSkips(f, OutcomeOf(block, f, taskQueue, registry))
  {
    specs, skips := [], [];
    var enabled := IsArmed(block);
    var interval := ResolveDurationMs(enabled, Field(block, IntervalKey(f)), DefaultMs(f));
    CadenceOutcome(block, f, taskQueue, registry, workspace, scopes);
    if interval.None? { skips := [Skip(f, InvalidIntervalMs)]; return; }
    var catchUp := ResolveDurationMs(enabled, Field(block, "catchUpWindowMs"), 2 * interval.value);
    if catchUp.None? { skips := [Skip(f, InvalidCatchUpWindowMs)]; return; }
    specs := Gate(enabled, Spec(f, taskQueue, interval.value, Envelope(catchUp.value, workspace, scopes)));
  }

  method BuildPeriodReviews(block: Json, taskQueue: string, registry: seq<ScheduledScope>)
    returns (specs: seq<Spec>, skips: seq<Skip>)
    ensures specs == SlotSpecs(OutcomeOf(block, PeriodReviewWeekly, taskQueue, registry))
                   + SlotSpecs(OutcomeOf(block, PeriodReviewMonthly, taskQueue, registry))
    ensures skips == SlotSkips(PeriodReviewWeekly, OutcomeOf(block, PeriodReviewWeekly, taskQueue, registry))
                   + SlotSkips(PeriodReviewMonthly, OutcomeOf(block, PeriodReviewMonthly, taskQueue, registry))
  {
    var enabled := IsArmed(block);
    var workspace := ResolveWorkspaceId(enabled, Field(block, "globalWorkspaceId"), DEFAULT_WORKSPACE);
    var scopes := ResolveScheduleScopes(enabled, Field(block, "scopes"), registry);
    FaultInOrder(block, PeriodReviewWeekly, registry);
    FaultInOrder(block, PeriodReviewMonthly, registry);
    if workspace.None? {
      return [], [Skip(PeriodReviewWeekly, InvalidWorkspaceId), Skip(PeriodReviewMonthly, InvalidWorkspaceId)];
    }
    if scopes.None? {
      return [], [Skip(PeriodReviewWeekly, InvalidScopes), Skip(PeriodReviewMonthly, InvalidScopes)];
    }
    var weeklySpecs, weeklySkips :=
      BuildCadence(block, PeriodReviewWeekly, taskQueue, registry, workspace.value, scopes.value);
    var monthlySpecs, monthlySkips :=
      BuildCadence(block, PeriodReviewMonthly, taskQueue, registry, workspace.value, scopes.value);
    return weeklySpecs + monthlySpecs, weeklySkips + monthlySkips;
  }

  method BuildCrossCalendar(block: Json, taskQueue: string, registry: seq<ScheduledScope>)
    returns (specs: seq<Spec>, skips: seq<Skip>)
    ensures specs == SlotSpecs(OutcomeOf(block, CrossCalendar, taskQueue, registry))
    ensures skips == SlotSkips(CrossCalendar, OutcomeOf(block, CrossCalendar, taskQueue, registry))
  {
    specs, skips := [], [];
    var enabled := IsArmed(block);
    var interval := ResolveDurationMs(enabled, Field(block, "intervalMs"), 60 * 60 * 1000);
    var organizer := ResolveWorkspaceId(enabled, Field(block, "organizerWorkspaceId"), DEFAULT_WORKSPACE);
    var sources := ResolveScheduleSources(enabled, Field(block, "sources"), []);
    FaultInOrder(block, CrossCalendar, registry);
    if interval.None? { skips := [Skip(CrossCalendar, InvalidIntervalMs)]; }
    else if organizer.None? { skips := [Skip(CrossCalendar, InvalidWorkspaceId)]; }
    else if sources.None? { skips := [Skip(CrossCalendar, InvalidSources)]; }
    else {
      specs := Gate(enabled, Spec(CrossCalendar, taskQueue, interval.value, Calendar(organizer.value, sources.value)));
    }
  }

  /** `FirstFault` over a table of at most four codes, read out. */
  lemma FirstOfFour(block: Json, f: Family, registry: seq<ScheduledScope>, cs: seq<Code>)
    requires 1 <= |cs| <= 4
    ensures FirstFault(block, f, registry, cs) ==
        if IsFaulty(block, f, registry, cs[0]) then Some(cs[0])
        else if |cs| > 1 && IsFaulty(block, f, registry, cs[1]) then Some(cs[1])
        else if |cs| > 2 && IsFaulty(block, f, registry, cs[2]) then Some(cs[2])
        else if |cs| > 3 && IsFaulty(block, f, registry, cs[3]) then Some(cs[3])
        else None
    decreases |cs|
  {
    if |cs| > 1 { FirstOfFour(block, f, registry, cs[1..]); }
  }

  lemma FaultInOrder(block: Json, f: Family, registry: seq<ScheduledScope>)
    ensures (var cs := Judged(f);
      FirstFault(block, f, registry, cs) ==
        if IsFaulty(block, f, registry, cs[0]) then Some(cs[0])
        else if |cs| > 1 && IsFaulty(block, f, registry, cs[1]) then Some(cs[1])
        else if |cs| > 2 && IsFaulty(block, f, registry, cs[2]) then Some(cs[2])
        else if |cs| > 3 && IsFaulty(block, f, registry, cs[3]) then Some(cs[3])
        else None)
  {
    FirstOfFour(block, f, registry, Judged(f));
  }

  /** A family and what its block came to. */
  datatype Slot = Slot(family: Family, outcome: Outcome)

  function SlotOf(config: Json, f: Family, taskQueue: string, registry: seq<ScheduledScope>): Slot {
    Slot(f, OutcomeOf(BlockOf(config, f), f, taskQueue, registry))
  }

  /** The six slots in the order their blocks run. */
  function SlotsOf(config: Json, taskQueue: string, registry: seq<ScheduledScope>): (slots: seq<Slot>)
    ensures |slots| == |FAMILIES|
    ensures forall i :: 0 <= i < |slots| ==> slots[i] == SlotOf(config, FAMILIES[i], taskQueue, registry)
  {
    seq(|FAMILIES|, i requires 0 <= i < |FAMILIES| => SlotOf(config, FAMILIES[i], taskQueue, registry))
  }

  function SpecsIn(slots: seq<Slot>): seq<Spec> {
    if slots == [] then [] else SpecsIn(slots[..|slots| - 1]) + SlotSpecs(slots[|slots| - 1].outcome)
  }

  function SkipsIn(slots: seq<Slot>): seq<Skip> {
    if slots == [] then []
    else SkipsIn(slots[..|slots| - 1]) + SlotSkips(slots[|slots| - 1].family, slots[|slots| - 1].outcome)
  }

  lemma Appended(slots: seq<Slot>, slot: Slot)
    ensures SpecsIn(slots + [slot]) == SpecsIn(slots) + SlotSpecs(slot.outcome)
    ensures SkipsIn(slots + [slot]) == SkipsIn(slots) + SlotSkips(slot.family, slot.outcome)
  {
    assert (slots + [slot])[..|slots|] == slots;
  }

  /** The blocks up to the daily brief. */
  method BuildFirstThree(config: Json, taskQueue: string, registryScopes: seq<ScheduledScope>, ghost slots: seq<Slot>)
    returns (specs: seq<Spec>, skips: seq<Skip>)
    requires |slots| == 6 && forall i :: 0 <= i < 3 ==>
      slots[i] == SlotOf(config, FAMILIES[i], taskQueue, registryScopes)
    ensures specs == SlotSpecs(slots[0].outcome) + SlotSpecs(slots[1].outcome) + SlotSpecs(slots[2].outcome)
    ensures skips == SlotSkips(slots[0].family, slots[0].outcome) + SlotSkips(slots[1].family, slots[1].outcome)
                   + SlotSkips(slots[2].family, slots[2].outcome)
  {
    specs, skips := BuildPlain(BlockOf(config, IngestionTriage), IngestionTriage, taskQueue, registryScopes);
    var newSpecs, newSkips := BuildPlain(BlockOf(config, ProjectSync), ProjectSync, taskQueue, registryScopes);
    specs, skips := specs + newSpecs, skips + newSkips;
    newSpecs, newSkips := BuildDailyBrief(BlockOf(config, DailyBrief), taskQueue, registryScopes);
    specs, skips := specs + newSpecs, skips + newSkips;
  }

  method BuildOutputWorkflowScheduleSpecs(config: Json, taskQueue: string, registryScopes: seq<ScheduledScope>)
    returns (specs: seq<Spec>, skips: seq<Skip>)
    ensures specs == SpecsIn(SlotsOf(config, taskQueue, registryScopes))
    ensures skips == SkipsIn(SlotsOf(config, taskQueue, registryScopes))
  {
    ghost var slots := SlotsOf(config, taskQueue, registryScopes);
    specs, skips := BuildFirstThree(config, taskQueue, registryScopes, slots);
    var newSpecs, newSkips := BuildPeriodReviews(BlockOf(config, PeriodReviewWeekly), taskQueue, registryScopes);
    specs, skips := specs + newSpecs, skips + newSkips;
    newSpecs, newSkips := BuildCrossCalendar(BlockOf(config, CrossCalendar), taskQueue, registryScopes);
    specs, skips := specs + newSpecs, skips + newSkips;
    SixSlots(slots);
  }

  /** Six slots, appended block by block; the fourth block fills two of them. */
  lemma SixSlots(slots: seq<Slot>)
    requires |slots| == 6
    ensures SpecsIn(slots) ==
      SlotSpecs(slots[0].outcome) + SlotSpecs(slots[1].outcome) + SlotSpecs(slots[2].outcome)
      + (SlotSpecs(slots[3].outcome) + SlotSpecs(slots[4].outcome)) + SlotSpecs(slots[5].outcome)
    ensures SkipsIn(slots) ==
      SlotSkips(slots[0].family, slots[0].outcome) + SlotSkips(slots[1].family, slots[1].outcome)
      + SlotSkips(slots[2].family, slots[2].outcome)
      + (SlotSkips(slots[3].family, slots[3].outcome) + SlotSkips(slots[4].family, slots[4].outcome))
      + SlotSkips(slots[5].family, slots[5].outcome)
  {
    var a, b, c, d, e, f := slots[0], slots[1], slots[2], slots[3], slots[4], slots[5];
    assert slots == [a, b, c] + [d, e] + [f];
    ThreeSlots(a, b, c);
    AppendedTwo([a, b, c], d, e);
    Appended([a, b, c] + [d, e], f);
  }

  lemma AppendedTwo(slots: seq<Slot>, a: Slot, b: Slot)
    ensures SpecsIn(slots + [a, b]) == SpecsIn(slots) + (SlotSpecs(a.outcome) + SlotSpecs(b.outcome))
    ensures SkipsIn(slots + [a, b]) ==
      SkipsIn(slots) + (SlotSkips(a.family, a.outcome) + SlotSkips(b.family, b.outcome))
  {
    Appended(slots, a);
    Appended(slots + [a], b);
    assert slots + [a, b] == slots + [a] + [b];
    Regroup(SpecsIn(slots), SlotSpecs(a.outcome), SlotSpecs(b.outcome));
    Regroup(SkipsIn(slots), SlotSkips(a.family, a.outcome), SlotSkips(b.family, b.outcome));
  }

  lemma OneSlot(a: Slot)
    ensures SpecsIn([a]) == SlotSpecs(a.outcome) && SkipsIn([a]) == SlotSkips(a.family, a.outcome)
  {
    assert [a][..0] == [];
    assert SpecsIn([]) == [] && SkipsIn([]) == [];
  }

  lemma ThreeSlots(a: Slot, b: Slot, c: Slot)
    ensures SpecsIn([a, b, c]) == SlotSpecs(a.outcome) + SlotSpecs(b.outcome) + SlotSpecs(c.outcome)
    ensures SkipsIn([a, b, c]) ==
      SlotSkips(a.family, a.outcome) + SlotSkips(b.family, b.outcome) + SlotSkips(c.family, c.outcome)
  {
    OneSlot(a);
    Appended([a], b);
    assert [a] + [b] == [a, b];
    Appended([a, b], c);
    assert [a, b] + [c] == [a, b, c];
  }
}
