# Workspace-scoping, egress and supervision: a verified model

This project models four parts of a local-first assistant that keeps several workspaces apart, and proves what
each part promises. `dafny verify dfyconfig.toml` checks everything.

**Scoping of agent tool calls.** One store holds the content of every workspace. `WorkspaceScope` attributes a hit
to a workspace: by source id first, then by the longest segment-wise slug prefix; a tie or a malformed slug is
indeterminate and is dropped. `SlugTexts` says which texts are slugs and what the answer is on each. `ArgPolicy`
rewrites the arguments of a call before it is made, `ResultRedaction` filters and field-reduces the JSON that comes
back, and `ToolCatalog` says which tools exist and how they can be scoped. `RedactionTheorems` proves
non-interference, that only owned references are forwarded and that nothing is miscounted; `RedactionContent` says,
tool by tool, which raw items are in the answer, in which order and form; `RedactionIdempotence` proves exactly when
redacting twice changes nothing.

**Process supervisors.** `WorkerSupervisor` is the crash-loop guard: a sliding window of exit times, exponential
backoff and a terminal state. `ServeSupervisor` is the spawn / poll / respawn / dispose machine used twice, for the
store's server and for Temporal. In both, a class with the source's fields and handlers is proved, handler by
handler, to take the steps of a state machine, and the theorems quantify over every run of that machine: every
interleaving of exits, messages, timers, probe answers and disposes. `EventsDecide` tells
the worker's whole state by the events alone, and `EveryCrashRestarts` and `AnswersDecide` say what the serve machine
owes to each crash and each answer.

**Egress.** `UrlAuthority`, `Loopback`, `Ipv6` and `HostRanges` are the hand-written URL, loopback, IPv6 and
private-range parsers, each proved exact on everything a writer can spell; `Ipv6Spellings` proves that every
spelling of an address is read back, `Ipv6Exact` when an accepted text is one, and `HostNames` which host texts are
public, label by label. `Processors`, `Egress` and `EgressTheorems` decide which processor a route reaches, build
the provider matrix, resolve a route from it and veto it; the theorems run across all of these. `TemporalAddress` is
the address gate of the Temporal supervisor.

**Schedules and the audit probe.** `ScheduleSpecs` and `ScheduleTheorems` cover the builder that turns six owner
configuration slots into schedule specs or typed skips. `AuditField` recovers which field of an audit signal is
unsafe from a yes/no oracle alone.

`Strings`, `Json` and `Wrappers` hold what the modules share. A JSON object is the list of its entries in insertion
order, so that equal values serialise to equal text; `undefined` is an absent entry. Parsing and serialising are a
`Codec`, two functions of which a theorem asks that they read back the payload it is about;
`RedactionIdempotence.BothCanReadBack` shows that for every payload some do. Policies, matrices, routes and schedule
configurations are JSON values too, so that malformed rows take the branches they take in the source.

## Results where the code and its documentation part

- *Redaction is not textually idempotent.* A kept node whose `links` is a number or boolean, or a kept edge whose
  `to` is one, has that entry overwritten in place the first time and re-added last the second time;
  `ScalarLinksMove` is an input. And a hit or node kept by its source id is lost the second time, because the first
  strips the id; `SourceIdsAreNeeded` is an input. For every registry, `RedactingTwiceSameValues` says that the values
  stay the same exactly when every kept item was kept on its slug, and `RedactingTwice` that the text does exactly when
  each is also settled in the first sense.
- *Resolving a route can throw.* A null stored under a capability reaches a property access; `ThrowsExactlyOnNull`.
- *Leading zeros are decimal.* The comments on the private-range predicate say octal forms fail closed. Labels of up to
  three digits are read in decimal, so `012.0.0.1` is twelve and not private; `LeadingZerosAreDecimal` is that input.
  `NumericIsPrivateExactly` has the exact condition for every numeric host: what is no dotted quad is denied, and a
  dotted quad is denied exactly when its decimal address lies in a private block.
- *The IPv6 parser accepts more than addresses.* Digits or letters may run into a trailing dotted quad
  (`1:2:3:4:5:a1.2.3.4`, `GluedQuadIsAccepted`), and a `::` may stand between eight groups for nothing
  (`1:2:3:4::5:6:7:8`, `EmptyRunIsAccepted`). There is no third way: `AcceptsExactlyAddresses` says of every text that
  it is accepted, its trailing quad follows a colon and its `::` leaves room for a group, exactly when it is a
  lower-case address.
- *One endpoint reads two ways.* A bare `name:` with an empty port and a tail that begins `//` is also the start of a
  schemed endpoint, and is read as that: `AmbiguousIsSchemed`. Every other spelling is read back.
- *A doubled catch-up window is rejected* when no window is configured and the interval is above half the largest one;
  `DoubledFallback`.
- *Policing arguments twice* changes nothing unless the served source id itself reads as `__all__`; `PolicingIsStable`.
- A capability named `__proto__` never gets a route, because assigning under that name makes no own key; it is a case
  of `BuildThenResolve`.

## Model

| member | source | states |
|---|---|---|
| WorkspaceScope.PrefixMatchLen | packages/policy/src/copilot-workspace-scope.ts:122-130 | the loop returns the number of segments covered: all of the prefix's when it begins the slug's, else 0 |
| WorkspaceScope.LongestPrefixOf | packages/policy/src/copilot-workspace-scope.ts:146-150 | the inner loop returns the longest match any of a descriptor's prefixes makes, and 0 only when none matches |
| WorkspaceScope.LongestClaim | packages/policy/src/copilot-workspace-scope.ts:142-160 | the outer loop ends with the longest match over all descriptors, a workspace that holds it, and whether another workspace holds it too |
| WorkspaceScope.AttributeSlug | packages/policy/src/copilot-workspace-scope.ts:137-165 | the nested loops compute the declarative attribution of a slug, which `SlugTexts` pins on every text |
| WorkspaceScope.AttributeHit | packages/policy/src/copilot-workspace-scope.ts:173-188 | the source-id loop, then the slug loops, compute the declarative attribution of a hit |
| WorkspaceScope.LongestPrefixWins | packages/policy/src/copilot-workspace-scope.ts:137-165 | for a sound slug: legacy exactly when no prefix matches; otherwise the one workspace holding the longest match, or a tie exactly when two different ones hold it |
| WorkspaceScope.DecidedAtTop | packages/policy/src/copilot-workspace-scope.ts:152-164 | given any holder of the longest match, the answer is that workspace or, if another holds it, ambiguous |
| WorkspaceScope.OnlyClaimsMatter | packages/policy/src/copilot-workspace-scope.ts:173-188 | two registries that claim the same prefixes and sources for the same workspaces attribute every hit alike |
| WorkspaceScope.OrderIsInvisible | packages/policy/src/copilot-workspace-scope.ts:137-188 | permuting the descriptors, or any descriptor's prefixes, changes no attribution |
| WorkspaceScope.ExclusiveOwnership | packages/policy/src/copilot-workspace-scope.ts:197-219 | under one registry and policy no hit is kept for two served workspaces |
| WorkspaceScope.MatchesAtBoundary | packages/policy/src/copilot-workspace-scope.ts:113-130 | a clean prefix matches a sound slug exactly when the slug equals it or continues it with a slash |
| WorkspaceScope.DescriptorIsFirst | packages/policy/src/copilot-workspace-scope.ts:241-258 | the served descriptor is the first one registered for the workspace, and is missing exactly when none is |
| SlugTexts.SoundExactly | packages/policy/src/copilot-workspace-scope.ts:95-110 | a text is a sound slug exactly when it is proper segments joined by slashes, with or without one behind; it is empty exactly when blank, and otherwise malformed |
| SlugTexts.PathAttribution | packages/policy/src/copilot-workspace-scope.ts:137-165 | on every path: the workspace that alone claims the most leading segments, legacy exactly when nobody claims any, a tie exactly when two claim the most |
| SlugTexts.OtherTextsAreIndeterminate | packages/policy/src/copilot-workspace-scope.ts:138-139 | every text that is no path is indeterminate, as empty when blank and as malformed otherwise |
| SlugTexts.SourceAttribution | packages/policy/src/copilot-workspace-scope.ts:173-188 | a non-empty source id goes to the one workspace registered for it, is a tie exactly between two, and defers to the slug when nobody is |
| SlugTexts.PathDecision | packages/policy/src/copilot-workspace-scope.ts:197-219 | kept, or dropped for each of the four reasons, exactly by who claims the path |
| ToolCatalog.ReadToolsAreTheNonMutating | packages/policy/src/copilot-tool-catalog.ts:195-304 | a tool classifies as non-mutating exactly when it is one of the catalogued read tools |
| ToolCatalog.ScopingCoversReadTools | packages/policy/src/copilot-tool-catalog.ts:247-284 | the scoping table has a class for every read tool and for nothing else |
| ToolCatalog.ScopedIdsAre | packages/policy/src/copilot-tool-catalog.ts:290-296 | the allow-list holds exactly the given tools that are scopable, or all of them on a partitioned brain |
| ToolCatalog.AdmittedIffAllowListed | packages/policy/src/copilot-tool-catalog.ts:277-304 | an MCP name is admitted exactly when the id it maps to is in the brain's read-tool allow-list |
| ToolCatalog.AdmittedNamesAre | packages/policy/src/copilot-tool-catalog.ts:195-304 | the names admitted, written out: `query` and five more ops, and thirteen others exactly on a partitioned brain |
| ArgPolicy.PoliceGbrainToolArgs | packages/policy/src/copilot-arg-policy.ts:55-122 | the checks and the rewriting compute the declared verdict on a call |
| ArgPolicy.RewriteArgs | packages/policy/src/copilot-arg-policy.ts:72-121 | the assignments and deletes on the copied arguments compute the declared verdict for an admitted op |
| ArgPolicy.OtherArgsUntouched | packages/policy/src/copilot-arg-policy.ts:72-121 | no argument but `all_sources`, `source_id`, `slugPrefix` and `slug` is ever changed |
| ArgPolicy.JudgedIsScoped | packages/policy/src/copilot-arg-policy.ts:79-121 | allowed arguments of any op carry no `all_sources`, only the served source id or none on the default ops, never the wildcard elsewhere, and a seeded walk starts at a kept slug |
| ArgPolicy.AllowedArgsAreScoped | packages/policy/src/copilot-arg-policy.ts:74-121 | for every tool name and input the policer allows: no `all_sources`, only the served source id or none on the default ops, never the wildcard elsewhere, and a seeded walk starts at a kept slug |
| ArgPolicy.CorrectedTwice | packages/policy/src/copilot-arg-policy.ts:72-121 | rewriting rewritten arguments changes nothing |
| ArgPolicy.JudgedTwice | packages/policy/src/copilot-arg-policy.ts:79-121 | judging an allowed op's output again returns it unchanged, exactly unless a default-branch op is pinned to a source id reading as `__all__` |
| ArgPolicy.PolicingIsStable | packages/policy/src/copilot-arg-policy.ts:55-122 | for every tool name and input the policer allows: policing the output again returns it unchanged, exactly unless a default-branch call is pinned to a source id reading as `__all__` |
| ArgPolicy.PolicerAdmits | packages/policy/src/copilot-arg-policy.ts:60-71 | the policer passes its tool checks exactly for admitted names |
| ArgPolicy.VerdictByOp | packages/policy/src/copilot-arg-policy.ts:72-121 | for every admitted tool name: refused exactly for widening or, on `traverse_graph` and `get_timeline`, for a seed that is not kept; otherwise the value under every key, op by op |
| ArgPolicy.WidensExactly | packages/policy/src/copilot-arg-policy.ts:79-88 | exactly which flags and source ids count as widening, in whatever case and padding they are written |
| ResultRedaction.AllowItemFields | packages/policy/src/copilot-result-redaction.ts:149-157 | the loop keeps, in order, exactly the scalars and the allow-listed strings |
| ResultRedaction.RedactHitCollection | packages/policy/src/copilot-result-redaction.ts:212-225 | the hit loop forwards the reduced kept hits in order and counts the rest |
| ResultRedaction.RedactTraverseGraph | packages/policy/src/copilot-result-redaction.ts:232-244 | the node loop forwards the kept nodes with filtered edges in order and counts the rest |
| ResultRedaction.RedactContradictions | packages/policy/src/copilot-result-redaction.ts:287-307 | the pair loop forwards the stripped pairs both of whose sides are kept, in order, and counts the rest |
| ResultRedaction.RedactByOp | packages/policy/src/copilot-result-redaction.ts:182-205 | unpacking, parsing and dispatching on the op compute the declared redaction, which `RedactionContent` pins for each op by name |
| ResultRedaction.RedactGbrainToolResult | packages/policy/src/copilot-result-redaction.ts:165-205 | the whole redactor computes the declared redaction, failing closed on every fault |
| RedactionTheorems.HistoryIsInvisible | packages/policy/src/copilot-result-redaction.ts:149-335 | any series of edits to foreign items, foreign edges or whatever a kept item or edge holds unread: entries, an alias `target` under a string `to`, an overwritten scalar `to`, a `links` that forwards no edge, leaves the forwarded items identical |
| RedactionTheorems.EditsAreInvisible | packages/policy/src/copilot-result-redaction.ts:182-335 | for each kind of redaction, two results that differ by a series of those edits yield the same envelope |
| RedactionTheorems.NonInterference | packages/policy/src/copilot-result-redaction.ts:165-335 | for every tool the redactor admits, each op by name getting its own redaction, two accepted results that differ by a series of those edits yield the same envelope |
| RedactionTheorems.EdgesEditIsInvisible | packages/policy/src/copilot-result-redaction.ts:252-281 | foreign edges may come, go or change, kept edges may change unread entries, the unread alias `target` and an overwritten scalar `to`, without changing a node's forwarded edges |
| RedactionTheorems.AcceptedPayload | packages/policy/src/copilot-result-redaction.ts:212-335 | a forwarded payload the codec reads back is the kept items, and kept plus dropped is the input length |
| RedactionTheorems.KeptSlugIsOwned | packages/policy/src/copilot-result-redaction.ts:105-107 | a bare slug is kept exactly when it attributes to the served workspace or is legacy assigned to it |
| RedactionTheorems.ForwardedNodeIsOwned | packages/policy/src/copilot-result-redaction.ts:252-272 | a forwarded node is its own strings and scalars and a list of edges, each one owned target and otherwise scalars |
| RedactionTheorems.OwnedItemsOnly | packages/policy/src/copilot-result-redaction.ts:182-335 | for each kind of redaction, every forwarded edge target and contradiction side is owned and every hit and entry is flat, whatever the raw result held |
| RedactionTheorems.OnlyOwnedIsForwarded | packages/policy/src/copilot-result-redaction.ts:165-335 | for every tool the redactor admits, each op by name getting its own redaction: whatever the raw result held, every forwarded edge target and contradiction side is owned and every hit and entry is flat |
| RedactionTheorems.NoSharedItem | packages/policy/src/copilot-result-redaction.ts:98-107 | answers scoped to two different workspaces never share a hit, node or pair |
| RedactionTheorems.ThreeGuardsAgree | packages/policy/src/copilot-result-redaction.ts:69-180 | policer, redactor and allow-list admit the same tools on the same brains |
| RedactionContent.SearchAnswer | packages/policy/src/copilot-result-redaction.ts:212-225 | every op but three is answered with one item per raw record whose slug and source id belong to the served workspace, in order, each the record cut to its scalars and six named strings |
| RedactionContent.GraphAnswer | packages/policy/src/copilot-result-redaction.ts:232-272 | a graph walk is answered with the nodes that belong, in order, each cut in the same way and with exactly its edges that belong, each naming its target and otherwise scalars |
| RedactionContent.ContradictionsAnswer | packages/policy/src/copilot-result-redaction.ts:287-320 | contradictions are answered with the pairs both of whose sides belong, in order, each with two slugs and the three named values |
| RedactionContent.TimelineAnswer | packages/policy/src/copilot-result-redaction.ts:322-335 | a timeline is answered with every raw record, in order, cut to its scalars and five named strings |
| RedactionContent.DroppedWholeExactly | packages/policy/src/copilot-result-redaction.ts:165-205 | a result is dropped whole exactly for an unadmitted tool, or one without a payload of the shape its op answers in |
| RedactionContent.FirstTextItem | packages/policy/src/copilot-result-redaction.ts:87-95 | the payload is the text of the first text item of the content |
| RedactionIdempotence.EdgeTwice | packages/policy/src/copilot-result-redaction.ts:260-270 | forwarding a forwarded edge returns the same edge exactly when no scalar follows a scalar `to` |
| RedactionIdempotence.CollectTwice | packages/policy/src/copilot-result-redaction.ts:212-335 | for every registry: the second pass adds nothing, keeps every item exactly when all were kept on their slug, and changes none exactly when all are settled too |
| RedactionIdempotence.RedactTextTwice | packages/policy/src/copilot-result-redaction.ts:182-335 | for every registry and each kind of redaction, redacting a redacted envelope returns it exactly when every kept item was kept on its slug and is settled |
| RedactionIdempotence.RedactTextTwiceSameValues | packages/policy/src/copilot-result-redaction.ts:182-335 | for every registry and each kind of redaction, the second envelope carries the same values and drops nothing exactly when every kept item was kept on its slug |
| RedactionIdempotence.RedactingTwice | packages/policy/src/copilot-result-redaction.ts:165-335 | for every registry and every tool the redactor admits, redacting a redacted envelope returns it exactly when every kept item was kept on its slug and is settled |
| RedactionIdempotence.RedactingTwiceSameValues | packages/policy/src/copilot-result-redaction.ts:165-335 | for every registry and every tool the redactor admits, the second envelope carries the same values and drops nothing exactly when every kept item was kept on its slug |
| RedactionIdempotence.FailClosedTwice | packages/policy/src/copilot-result-redaction.ts:77-79 | a result dropped as a whole stays dropped |
| RedactionIdempotence.ScalarLinksMove | packages/policy/src/copilot-result-redaction.ts:255-259 | a kept node with a numeric `links` before its title is not returned unchanged |
| RedactionIdempotence.SourceIdsAreNeeded | packages/policy/src/copilot-result-redaction.ts:98-102 | the input: a hit kept by its source id is lost by the second pass, which no longer sees the id |
| RedactionIdempotence.SlugRegistriesKeepBySlug | packages/policy/src/copilot-result-redaction.ts:98-107 | in a registry without source ids whatever is kept is kept on its slug |
| WorkerSupervisor.BackoffShape | apps/desktop/main/worker-supervisor.ts:115-119 | the backoff is monotone, lies in 500 to 10000, and is 10000 exactly from attempt six on |
| WorkerSupervisor.BackoffDoubles | apps/desktop/main/worker-supervisor.ts:115-119 | the first backoff is 500 and each later one twice the last, up to 10000 |
| WorkerSupervisor.PushThenShift | apps/desktop/main/worker-supervisor.ts:164-167 | pushing an exit and shifting the deque yields the window of the longer exit history |
| WorkerSupervisor.WindowFull | apps/desktop/main/worker-supervisor.ts:169-169 | the window holds five exits exactly when the last five span less than 60000 ms |
| WorkerSupervisor.StepKeepsInv | apps/desktop/main/worker-supervisor.ts:141-211 | every start, stop, message, exit and timer keeps the whole invariant |
| WorkerSupervisor.RunKeepsInv | apps/desktop/main/worker-supervisor.ts:141-211 | every run keeps the invariant |
| WorkerSupervisor.OneLifeline | apps/desktop/main/worker-supervisor.ts:141-211 | while running exactly one of a live un-killed current child and one pending timer; otherwise neither, and no other child lives |
| WorkerSupervisor.OnlyStartForks | apps/desktop/main/worker-supervisor.ts:141-145 | while stopped or down no run without `start()` forks |
| WorkerSupervisor.StaleExitIsIgnored | apps/desktop/main/worker-supervisor.ts:157-159 | the exit of a replaced or killed child changes no window, attempt, status or timer |
| WorkerSupervisor.DequeRefinesHistory | apps/desktop/main/worker-supervisor.ts:157-188 | after every run the deque is the window of the exit history, with at most four entries while running and five when down |
| WorkerSupervisor.DownExactlyWhenLooping | apps/desktop/main/worker-supervisor.ts:169-187 | a counted exit is terminal exactly when the last five since `start()` span under 60000 ms, else one restart is scheduled after the backoff |
| WorkerSupervisor.EventsDecide | apps/desktop/main/worker-supervisor.ts:132-212 | after every run the events alone decide the state: the status (ready exactly when the last event with a say was a ready message), the attempt as the crashes since the last start or ready message, the respawn waited for with its backoff, the crash history, the current child and the killed ones |
| WorkerSupervisor.FifthExitIsTerminal | apps/desktop/main/worker-supervisor.ts:157-188 | with timers on schedule and runs two to five each under 13125 ms, ready or not, the fifth exit is terminal |
| WorkerSupervisor.FiveExitsSurvived | apps/desktop/main/worker-supervisor.ts:157-188 | the bound is tight: with runs of 13125 ms some run survives five exits |
| WorkerSupervisor.Supervisor.Start | apps/desktop/main/worker-supervisor.ts:194-199 | called at any time `start()` takes exactly the start step of the machine, and keeps the invariant when called as it may be |
| WorkerSupervisor.Supervisor.Stop | apps/desktop/main/worker-supervisor.ts:200-210 | `stop()` takes exactly the stop step |
| WorkerSupervisor.Supervisor.OnMessage | apps/desktop/main/worker-supervisor.ts:147-155 | the message handler takes exactly the message step whatever child speaks, a ready one making the status ready and the attempt zero, and keeps the invariant when a live one speaks |
| WorkerSupervisor.Supervisor.OnExit | apps/desktop/main/worker-supervisor.ts:157-188 | the exit handler takes exactly the exit step |
| WorkerSupervisor.Supervisor.ShiftCrashes | apps/desktop/main/worker-supervisor.ts:166-167 | the shift loop removes exactly the leading exits outside the window |
| WorkerSupervisor.Supervisor.OnTimer | apps/desktop/main/worker-supervisor.ts:141-145 | the scheduled respawn takes exactly the timer step |
| ServeSupervisor.StepKeepsInv | apps/worker/src/gbrainServeSupervisor.ts:101-171 | every start, probe answer, end of sleep, exit and dispose keeps the invariant |
| ServeSupervisor.OneProcess | apps/desktop/worker-host/temporal-supervisor.ts:167-229 | at every point of every interleaving at most one process lives un-killed, and it is `handle` |
| ServeSupervisor.SpawnBudget | apps/worker/src/gbrainServeSupervisor.ts:101-121 | lifetime spawn attempts are one plus the restarts, at most one plus the maximum (none at all off loopback) |
| ServeSupervisor.EveryCrashRestarts | apps/worker/src/gbrainServeSupervisor.ts:109-119 | over every run the restarts are exactly the smaller of the maximum and the exits before any dispose or failed poll |
| ServeSupervisor.CrashRespawns | apps/worker/src/gbrainServeSupervisor.ts:109-119 | such an exit within the budget makes one spawn attempt, after which with a working spawner a fresh process lives and is `handle`; every other exit attempts nothing |
| ServeSupervisor.StartSpawns | apps/worker/src/gbrainServeSupervisor.ts:137-150 | the first `start()` on a loopback address makes one spawn attempt and begins polling, fails with the spawner, and every other start changes nothing |
| ServeSupervisor.AnswersDecide | apps/worker/src/gbrainServeSupervisor.ts:152-170 | while nobody disposes the answers alone say where `start()` stands: ok from a true one on, failed after the maximum of false ones, and before that probes and sleeps alternate |
| ServeSupervisor.AwaitEnds | apps/worker/src/gbrainServeSupervisor.ts:156-170 | a true answer makes `start()` return ok unless all is over, and an await that ends after a dispose makes it fail |
| ServeSupervisor.PollsCoverTimeout | apps/worker/src/gbrainServeSupervisor.ts:152-153 | the number of polls is the least, from one on, whose intervals cover the timeout |
| ServeSupervisor.NoOrphan | apps/worker/src/gbrainServeSupervisor.ts:101-171 | once start and dispose have run, or the poll loop failed, no process lives un-killed and none is spawned later |
| ServeSupervisor.OkIsSound | apps/worker/src/gbrainServeSupervisor.ts:154-166 | `start` returns ok only on a probe that answered true, with no dispose before it |
| ServeSupervisor.PollBound | apps/desktop/worker-host/temporal-supervisor.ts:213-226 | at most max(1, ceil(timeout / max(1, interval))) probes, and for a positive timeout and interval of at least one the requested sleep is below the timeout |
| ServeSupervisor.Supervisor.Start | apps/worker/src/gbrainServeSupervisor.ts:137-158 | `start()` up to its first await takes exactly the start step |
| ServeSupervisor.Supervisor.OnProbeAnswer | apps/worker/src/gbrainServeSupervisor.ts:156-170 | resuming after a probe takes exactly the probe-answer step |
| ServeSupervisor.Supervisor.OnSleepEnd | apps/worker/src/gbrainServeSupervisor.ts:154-166 | resuming after a sleep takes exactly the sleep-end step |
| ServeSupervisor.Supervisor.OnExit | apps/worker/src/gbrainServeSupervisor.ts:109-119 | the exit handler takes exactly the exit step |
| ServeSupervisor.Supervisor.Dispose | apps/worker/src/gbrainServeSupervisor.ts:123-135 | `dispose()` takes exactly the dispose step |
| TemporalAddress.ParsesExactlyTheWritten | apps/desktop/worker-host/temporal-supervisor.ts:28-57 | the parser accepts exactly `host:port` and `[host]:port` with a port from 1 to 65535, and reads back both parts |
| TemporalAddress.GateOpensExactly | apps/desktop/worker-host/temporal-supervisor.ts:198-205 | the gate before any spawn opens exactly for a written address whose host is loopback |
| UrlAuthority.FirstSegment | packages/policy/src/processors.ts:290-297 | the loop over delimiters cuts at the earliest of them |
| UrlAuthority.ExtractAuthorityOf | packages/policy/src/processors.ts:320-348 | the reassigned local computes trim, scheme, path, userinfo and case stripping in that order |
| UrlAuthority.AuthorityRoundTrip | packages/policy/src/processors.ts:320-348 | for any scheme, userinfo, host, port and tail but the one ambiguous text, the authority of the spelled endpoint is its lowered host and port |
| UrlAuthority.HostRoundTrip | packages/policy/src/processors.ts:357-375 | for all spellings but the one ambiguous text, the bare host is read back, bracketed and bare IPv6 included |
| UrlAuthority.SameHostSameAnswer | packages/policy/src/processors.ts:320-375 | scheme, userinfo, port and tail never influence the host, nor scheme, userinfo and tail the authority |
| UrlAuthority.AmbiguousIsSchemed | packages/policy/src/processors.ts:325-331 | the one spelling not read back, a bare `name:` with an empty port before `//`, is a schemed endpoint |
| UrlAuthority.FindAllowed | packages/policy/src/processors.ts:638-642 | the allowlist loop finds an entry exactly when one reads as the host |
| Loopback.LoopbackExactly | packages/policy/src/processors.ts:539-568 | a spelled endpoint is loopback exactly when it names this machine (`localhost`, two IPv6 spellings, a dotted quad beginning 127) or is a bare path form |
| Loopback.SameScheme | packages/policy/src/processors.ts:549-549 | a spelled endpoint begins `word://` in any case exactly when that is its scheme |
| Ipv6.ParseGroups | packages/policy/src/processors.ts:425-433 | the group loop returns the hextets of a part, or nothing when any group is malformed |
| Ipv6.CutQuad | packages/policy/src/processors.ts:407-421 | the trailing quad and its joining colon are cut and its two hextets returned |
| Ipv6.ParseIpv6Hextets | packages/policy/src/processors.ts:403-446 | the parser's steps compute the declared hextets |
| Ipv6.HextetsAreHextets | packages/policy/src/processors.ts:403-446 | whatever is accepted is eight numbers of sixteen bits |
| Ipv6Spellings.ParsesEverySpelling | packages/policy/src/processors.ts:403-446 | every spelling of section 2.2 of RFC 4291, in any letter case, parses back to the eight hextets it denotes |
| Ipv6Spellings.ZoneIsIgnored | packages/policy/src/processors.ts:404-404 | a zone identifier does not change the hextets |
| Ipv6Exact.AcceptsExactlyAddresses | packages/policy/src/processors.ts:403-446 | for every text: it is accepted, with any trailing quad after a colon and any `::` leaving room for a group, exactly when it is a lower-case address |
| Ipv6Exact.GluedQuadIsAccepted | packages/policy/src/processors.ts:410-421 | six groups that run into a dotted quad are accepted, and are no address |
| Ipv6Exact.EmptyRunIsAccepted | packages/policy/src/processors.ts:437-441 | eight groups with a `::` between them are accepted, and are no address |
| HostRanges.PrefixIsBlock | packages/policy/src/processors.ts:492-500 | the octet comparisons hold exactly on the seven CIDR blocks of thirty-two-bit addresses |
| HostRanges.QuadIsPrivateExactly | packages/policy/src/processors.ts:487-503 | a dotted quad is denied exactly when its address lies in one of the seven blocks |
| HostRanges.NumericIsPrivateExactly | packages/policy/src/processors.ts:455-503 | every numeric host but a dotted quad is denied, octal, hexadecimal, short, integer and oversized forms included, and a dotted quad exactly when its decimal address lies in one of the seven blocks |
| HostRanges.LeadingZerosAreDecimal | packages/policy/src/processors.ts:489-493 | the input: `012.0.0.1` is not private though `10.0.0.1`, its octal reading, is |
| HostRanges.EmbeddedQuadValue | packages/policy/src/processors.ts:514-518 | reducing two hextets to a dotted quad keeps their thirty-two bits |
| HostRanges.AddressIsPrivateExactly | packages/policy/src/processors.ts:506-520 | every spelling of an IPv6 address is denied exactly when it is in fe80::/10 or fc00::/7 or embeds an IPv4 address of the seven blocks |
| HostRanges.MappedAsItsQuad | packages/policy/src/processors.ts:514-518 | every spelling of a mapped address is denied exactly when its dotted quad is |
| HostRanges.LoopbackIsPrivate | packages/policy/src/processors.ts:385-397 | the denylist contains everything the loopback predicate accepts |
| HostRanges.IsAllowedRemoteEndpoint | packages/policy/src/processors.ts:612-643 | the gate's early returns and loop compute the declared admission, which `HostNames.AdmitsExactly` pins |
| HostNames.PublicExactly | packages/policy/src/processors.ts:471-525 | every host text is private or public, by its labels: the inside endings, the numeric forms in any base and arity, IPv6 literals and plain names are told apart and judged |
| HostNames.NameIsPrivateExactly | packages/policy/src/processors.ts:471-525 | on labels as written, in any case and with any dots behind: private exactly for an inside ending, a single label, or a numeric form that is no dotted quad outside the private blocks |
| HostNames.AdmitsExactly | packages/policy/src/processors.ts:612-643 | a spelled endpoint is admitted exactly when it is HTTPS, its host text is public in that sense, and an allowlist entry names that host |
| Processors.EveryProviderIsLocal | packages/policy/src/processors.ts:64-79 | the loop accepts exactly a list of local provider ids |
| Processors.EveryRouteIsLoopbackLocal | packages/policy/src/processors.ts:91-117 | the loop accepts exactly an object all of whose routes stay |
| Processors.IsLocalOnlyProviderMatrix | packages/policy/src/processors.ts:201-209 | the early returns compute axis 1 of the claim |
| Processors.StaysExactly | packages/policy/src/processors.ts:674-743 | on a spelled endpoint a route is non-egress exactly when it claims local, a local engine serves it and the endpoint names this machine |
| Processors.ProcessorIsTheNamed | packages/policy/src/processors.ts:674-743 | a route that does not stay reaches the one processor it names, and one that names none or two is unclassifiable |
| Egress.BuildProviderMatrix | packages/policy/src/provider-matrix-producer.ts:124-161 | the loop builds the declared allowlist and table from the candidates and verdicts |
| EgressTheorems.ProvidersAreTheAdmitted | packages/policy/src/provider-matrix-producer.ts:144-146 | the allowlist is exactly the providers of admitted candidates |
| EgressTheorems.ProvidersAreDistinct | packages/policy/src/provider-matrix-producer.ts:130-154 | the allowlist names no provider twice |
| EgressTheorems.DefaultIsFirst | packages/policy/src/provider-matrix-producer.ts:147-149 | a capability's entry is its first admitted candidate's route |
| EgressTheorems.BuildThenResolve | packages/policy/src/provider-matrix.ts:74-186 | resolving on a built matrix allows the first admitted candidate's route, denies for want of a route exactly when there is none or the name is `__proto__`, and has no third outcome |
| EgressTheorems.ResolvesToFirst | packages/policy/src/provider-matrix.ts:148-174 | with local configuration the only other outcome is a local endpoint it does not list |
| EgressTheorems.ResolvesExactly | packages/policy/src/provider-matrix.ts:120-186 | on any matrix, a route that is found is allowed exactly when its provider is listed and its local endpoint configured, and each miss has its one reason |
| EgressTheorems.NothingElseResolves | packages/policy/src/provider-matrix.ts:104-149 | with no route found: malformed input, a throw exactly on a stored null, or no route |
| EgressTheorems.CertifiesOneSubject | packages/policy/src/provider-matrix-producer.ts:75-88 | a verdict that certifies a candidate certifies exactly those of the same capability, model, egress class and subject |
| EgressTheorems.SomeVerdictCertifies | packages/policy/src/provider-matrix-producer.ts:75-142 | every candidate with texts for these can be certified, and is admitted exactly by a passing verdict |
| EgressTheorems.ThrowsExactlyOnNull | packages/policy/src/provider-matrix.ts:129-149 | resolution throws exactly when the table holds null for the capability |
| EgressTheorems.UnacknowledgedRawStays | packages/policy/src/egress.ts:121-137 | unacknowledged raw employer content is allowed only on routes that stay, whatever the allowlists |
| EgressTheorems.VetoOnlyNarrows | packages/policy/src/egress.ts:139-175 | the veto returns the route it was given, only when it stays or the policy names its processor, never an unclassifiable one |
| EgressTheorems.VetoAllowsExactly | packages/policy/src/egress.ts:76-175 | a request goes out exactly when it is well-formed and its route stays, or is classifiable, permitted by the policy and no unacknowledged raw employer content |
| EgressTheorems.VetoRefusesExactly | packages/policy/src/egress.ts:121-171 | each refusal of a well-formed request has exactly one reason |
| EgressTheorems.ListedProcessorIsReached | packages/policy/src/egress.ts:155-171 | every usable name in the processor list lets some job out to that processor |
| EgressTheorems.NoDestinationMeansStaying | packages/policy/src/processors.ts:221-227 | with both allowlists empty the veto allows exactly the routes proved to stay |
| EgressTheorems.LocalOnlyMatrixResolvesToStaying | packages/policy/src/processors.ts:201-209 | every route a local-only matrix resolves to stays, and resolution does not throw |
| EgressTheorems.ZeroEgressIsSoundAndUsable | packages/policy/src/processors.ts:281-287 | under the claim the veto allows no route that leaves, and allows every route of the workspace's matrix for every typed job |
| EgressTheorems.BuiltIsLocalOnlyExactly | packages/policy/src/provider-matrix-producer.ts:124-161 | which candidates and verdicts make a built matrix local-only, in both directions |
| EgressTheorems.ZeroEgressPipeline | packages/policy/src/egress.ts:76-175 | build, resolve and veto together run a capability's first admitted candidate, on this machine |
| ScheduleSpecs.ResolveScheduleScopes | apps/worker/src/boot.ts:2909-2935 | the push loop reads every scope, or rejects the whole override for one bad entry |
| ScheduleSpecs.ResolveScheduleSources | apps/worker/src/boot.ts:2943-2966 | the push loop reads every source, or rejects the whole override for one bad entry |
| ScheduleSpecs.BuildDailyBrief | apps/worker/src/boot.ts:3083-3135 | the daily-brief block comes to the outcome its table of judged fields gives |
| ScheduleSpecs.BuildPeriodReviews | apps/worker/src/boot.ts:3150-3231 | the shared block comes to the outcomes of both cadences |
| ScheduleSpecs.BuildCrossCalendar | apps/worker/src/boot.ts:3238-3276 | the cross-calendar block comes to its outcome |
| ScheduleSpecs.BuildOutputWorkflowScheduleSpecs | apps/worker/src/boot.ts:3009-3279 | the builder returns the six slots' specs and skips in block order |
| ScheduleTheorems.Accounting | apps/worker/src/boot.ts:3009-3279 | each armed slot yields exactly one spec or one skip, each disarmed slot neither |
| ScheduleTheorems.Isolation | apps/worker/src/boot.ts:3009-3279 | a slot's specs and skips depend on its own family's block only |
| ScheduleTheorems.SkipNamesTheFirstFault | apps/worker/src/boot.ts:3114-3122 | a skip code is reported exactly when the slot is armed and that field is the first at fault |
| ScheduleTheorems.SpecsAreBounded | apps/worker/src/boot.ts:2878-2896 | every interval and catch-up window registered lies in 1 to 9007199254, so its nanoseconds are exact |
| ScheduleTheorems.RegistersExactly | apps/worker/src/boot.ts:3009-3279 | a spec is registered exactly when the block of its family is armed and configures it field by field, under the names and with the defaults of the family |
| ScheduleTheorems.DoubledFallback | apps/worker/src/boot.ts:3097-3106 | with no window configured the doubled one is rejected exactly above an interval of 4503599627 |
| AuditField.IsRedactionSafe | packages/policy/src/audit-signal.ts:286-299 | the scan is true exactly when no scanned field is unsafe |
| AuditField.ProbeIsolates | packages/policy/src/audit-signal-field.ts:62-71 | a probe is refused exactly when the one value it carries is unsafe |
| AuditField.FirstUnsafeAuditField | packages/policy/src/audit-signal-field.ts:98-115 | using the oracle only, the loops return the first field in scan order that is unreadable or unsafe, or none |
| AuditField.NullExactlyWhenSafe | packages/policy/src/audit-signal-field.ts:98-115 | on a well-typed signal the diagnosis is null exactly when the scan calls it safe |
| AuditField.MalformedIsNamed | packages/policy/src/audit-signal-field.ts:98-113 | a signal with a field of the wrong type, or a ref that is no text, is never diagnosed as safe |

## Left out

- Strings are sequences of characters: UTF-16 surrogates and Unicode case folding are not modelled, lower-casing is ASCII.
- JSON numbers are reals: negative zero, NaN and infinities are not modelled. Integer-like keys keep insertion order.
- Accessors, proxies, prototypes, symbol keys and sparse arrays: values are plain data, so the `config_access_threw` skips and the index-key counts have nothing to do.
- Audit signals, refs, log lines and error messages of policy decisions: a decision is its outcome and reason code.
- RedactionTheorems.OnlyOwnedIsForwarded: says nothing of the values under `severity`, `axis` and `confidence`, because the code forwards them as they are; nor of free text a workspace wrote itself.
- WorkerSupervisor: the run theorems take it that an exit fires once per child, the clock never goes back, `start()` is called only while not running, and an exited or killed child sends no message; the handlers are proved to take their step without any of it.
- ServeSupervisor.SpawnBudget: a negative maximum counts as zero restarts, and whether the base URL is loopback is a parameter of the machine.
- EgressTheorems.BuildThenResolve: the certifier is the list of its answers, one per candidate, and candidates carry a route that is an object; `localProviderPreference` is not part of the matrix here.
- Egress.ResolveRoute: an array where the capability table belongs holds no entries.
- The embedding-backend veto, endpoint references and the tool policies built from the catalog: single branches.
- ScheduleSpecs: the registrar and its client; a gate is "the spec exactly when armed", and schedule ids, workflow types and periods are fixed by the family.
- AuditField: the concrete credential patterns; unsafety is any predicate that accepts the probe constant.
- The rest of the worker's boot, Electron main, spawners, probes, sockets, timers, sessions, approvals and visibility: wiring, foreign calls or single-branch checks.
