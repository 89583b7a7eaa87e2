/** Resolving a route, building the matrix it is resolved from, and the egress veto applied to the result. */
module Egress {
  import opened Wrappers
  import opened Json
  import opened Processors

  datatype Reason =
    | MalformedPolicyInput
    | EmployerRawEgressUnacknowledged
    | ProcessorNotAllowed
    | NoRouteForCapability
    | ProviderNotAllowed
    | LocalEndpointNotConfigured

  /** A decision without its audit signal; `Throws` is a TypeError that escapes. */
  datatype Verdict = Allow(route: Json) | Deny(reason: Reason) | Throws

  // ---- the veto -------------------------------------------------------------------------------

  predicate IsWellFormedRequest(job: Json, route: Json, policy: Json, workspace: Json) {
    && StringField(route, "endpoint").Some? && StringField(route, "egressClass").Some?
    && IsList(policy, "allowedProcessors") && IsList(policy, "rawContentAllowedProcessors")
    && IsFlag(policy, "employerRawEgressAcknowledged")
    && StringField(workspace, "type").Some?
    && IsFlag(job, "carriesRawContent")
  }

  predicate Lists(policy: Json, k: string, proc: string) {
    IsList(policy, k) && Str(proc) in Field(policy, k).value.items
  }

  predicate CarriesRaw(job: Json) { Field(job, "carriesRawContent") == Some(Bool(true)) }

  predicate IsUnacknowledgedEmployerRaw(job: Json, policy: Json, workspace: Json) {
    && StringField(workspace, "type") == Some("employer_work")
    && CarriesRaw(job)
    && Field(policy, "employerRawEgressAcknowledged") == Some(Bool(false))
  }

  function EgressVeto(job: Json, route: Json, policy: Json, workspace: Json): Verdict {
    if !IsWellFormedRequest(job, route, policy, workspace) then Deny(MalformedPolicyInput)
    else
      var proc := ProcessorOfRoute(route);
      if IsUnacknowledgedEmployerRaw(job, policy, workspace) && proc.Some? then Deny(EmployerRawEgressUnacknowledged)
      else if proc == Some(MALFORMED_ROUTE) then Deny(MalformedPolicyInput)
      else if proc.Some? then
        if !Lists(policy, "allowedProcessors", proc.value) then Deny(ProcessorNotAllowed)
        else if CarriesRaw(job) && !Lists(policy, "rawContentAllowedProcessors", proc.value)
        then Deny(ProcessorNotAllowed)
        else Allow(route)
      else Allow(route)
  }

  // ---- resolution -----------------------------------------------------------------------------

  /** `new Set(list).has(v)` for a value read from JSON: objects are never members. */
  predicate Has(list: Option<Json>, v: Json) {
    list.Some? && list.value.Arr? && !IsObject(v) && v in list.value.items
  }

  function ResolveRoute(matrix: Json, capability: string, localEndpoints: Option<seq<string>>): Verdict {
    var defaults := Field(matrix, "capabilityDefaults");
    if defaults.None? || !IsObject(defaults.value) then Deny(MalformedPolicyInput)
    else
      var own := Field(defaults.value, capability);
      if own.None? || !(IsObject(own.value) || own.value.Null?) then Deny(NoRouteForCapability)
      else if own.value.Null? then Throws
      else Checked(own.value, Field(matrix, "allowedProviders"), localEndpoints)
  }

  /** The two checks a route found in the table still has to pass. */
  function Checked(route: Json, allowedProviders: Option<Json>, localEndpoints: Option<seq<string>>): Verdict {
    var provider, endpoint := Field(route, "provider"), StringField(route, "endpoint");
    if provider.Some? && !provider.value.Null? && !Has(allowedProviders, provider.value) then Deny(ProviderNotAllowed)
    else if StringField(route, "egressClass") == Some("local") && localEndpoints.Some?
            && (endpoint.None? || endpoint.value !in localEndpoints.value) then Deny(LocalEndpointNotConfigured)
    else Allow(route)
  }

  // ---- building the matrix --------------------------------------------------------------------

  datatype Candidate = Candidate(capability: string, route: Fields)

  datatype SubjectKind = Provider | Runtime

  datatype ConformanceResult = ConformanceResult(
    subjectKind: SubjectKind, subjectId: string, capability: string, model: string, egressClass: string, status: string)

  predicate HasProvider(c: Candidate) { Get(c.route, "provider").Some? }

  /** The verdict is about this very candidate: same subject, capability, model and egress class. */
  predicate CertifiesCandidate(result: ConformanceResult, c: Candidate) {
    && result.capability == c.capability
    && Get(c.route, "model") == Some(Str(result.model))
    && Get(c.route, "egressClass") == Some(Str(result.egressClass))
    && if HasProvider(c) then result.subjectKind == Provider && Get(c.route, "provider") == Some(Str(result.subjectId))
       else result.subjectKind == Runtime && Get(c.route, "runtime") == Some(Str(result.subjectId))
  }

  /** What the certifier answered for a candidate (None when it threw) admits it. */
  predicate Admits(verdict: Option<ConformanceResult>, c: Candidate) {
    verdict.Some? && CertifiesCandidate(verdict.value, c) && verdict.value.status == "passing"
  }

  function AddProvider(providers: seq<Json>, c: Candidate): seq<Json> {
    if HasProvider(c) && Get(c.route, "provider").value !in providers then providers + [Get(c.route, "provider").value]
    else providers
  }

  /** The first route for a capability stays; assigning under `__proto__` makes no own key. */
  function AddDefault(defaults: Fields, c: Candidate): Fields {
    if Get(defaults, c.capability).Some? || c.capability == "__proto__" then defaults
    else Put(defaults, c.capability, Obj(c.route))
  }

  function BuiltProviders(cs: seq<Candidate>, vs: seq<Option<ConformanceResult>>): seq<Json>
    requires |cs| == |vs|
  {
    if cs == [] then []
    else
      var n := |cs| - 1;
      var before := BuiltProviders(cs[..n], vs[..n]);
      if Admits(vs[n], cs[n]) then AddProvider(before, cs[n]) else before
  }

  function BuiltDefaults(cs: seq<Candidate>, vs: seq<Option<ConformanceResult>>): Fields
    requires |cs| == |vs|
  {
    if cs == [] then []
    else
      var n := |cs| - 1;
      var before := BuiltDefaults(cs[..n], vs[..n]);
      if Admits(vs[n], cs[n]) then AddDefault(before, cs[n]) else before
  }

  function MatrixOf(workspaceId: string, providers: seq<Json>, defaults: Fields, rawCloudEgress: Option<bool>): Json {
    Obj([
      Entry("workspaceId", Str(workspaceId)),
      Entry("allowedProviders", Arr(providers)),
      Entry("capabilityDefaults", Obj(defaults)),
      Entry("rawCloudEgressEnabled", Bool(rawCloudEgress == Some(true)))])
  }

  function BuiltMatrix(workspaceId: string, cs: seq<Candidate>, vs: seq<Option<ConformanceResult>>,
      rawCloudEgress: Option<bool>): Json
    requires |cs| == |vs|
  {
    MatrixOf(workspaceId, BuiltProviders(cs, vs), BuiltDefaults(cs, vs), rawCloudEgress)
  }

  method BuildProviderMatrix(workspaceId: string, cs: seq<Candidate>, vs: seq<Option<ConformanceResult>>,
      rawCloudEgress: Option<bool>)
    returns (matrix: Json)
    requires |cs| == |vs|
    ensures matrix == BuiltMatrix(workspaceId, cs, vs, rawCloudEgress)
  {
    var allowedProviders: seq<Json> := [];
    var capabilityDefaults: Fields := [];
    for i := 0 to |cs|
      invariant allowedProviders == BuiltProviders(cs[..i], vs[..i])
      invariant capabilityDefaults == BuiltDefaults(cs[..i], vs[..i])
    {
      assert cs[..i + 1][..i] == cs[..i] && vs[..i + 1][..i] == vs[..i];
      var result, candidate := vs[i], cs[i];
      if result.None? || !CertifiesCandidate(result.value, candidate) || result.value.status != "passing" { continue; }
      var provider := Get(candidate.route, "provider");
      if provider.Some? && provider.value !in allowedProviders {
        allowedProviders := allowedProviders + [provider.value];
      }
      if Get(capabilityDefaults, candidate.capability).None? && candidate.capability != "__proto__" {
        capabilityDefaults := Put(capabilityDefaults, candidate.capability, Obj(candidate.route));
      }
    }
    assert cs[..|cs|] == cs && vs[..|vs|] == vs;
    return MatrixOf(workspaceId, allowedProviders, capabilityDefaults, rawCloudEgress);
  }
}
