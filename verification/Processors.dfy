/**
 * Which processor a route egresses to, and the two-axis zero-egress claim. Routes, matrices and policies are
 * JSON values, so that malformed rows take the branches they take in the source.
 */
module Processors {
  import opened Wrappers
  import opened Strings
  import opened Json
  import opened UrlAuthority
  import opened Loopback

  const LOCAL_PROVIDERS := {"ollama", "lm_studio"}

  const MALFORMED_ROUTE := "MALFORMED_ROUTE"

  predicate IsFlag(j: Json, k: string) { Field(j, k).Some? && Field(j, k).value.Bool? }

  predicate IsList(j: Json, k: string) { Field(j, k).Some? && Field(j, k).value.Arr? }

  predicate IsObject(j: Json) { j.Obj? || j.Arr? }

  // ---- the routing proof ----------------------------------------------------------------------

  /** The `local` claim together with a loopback endpoint. */
  predicate IsLoopbackLocal(route: Json) {
    StringField(route, "egressClass") == Some("local") && StringField(route, "endpoint").Some? &&
    IsLoopbackEndpoint(StringField(route, "endpoint").value)
  }

  /** The processor content sent along `route` reaches; None is a proof that it stays on this machine. */
  function ProcessorOfRoute(route: Json): Option<string> {
    var provider, runtime := StringField(route, "provider"), StringField(route, "runtime");
    if provider.Some? == runtime.Some? then Some(MALFORMED_ROUTE)
    else
      var identity := if provider.Some? then provider.value else runtime.value;
      if Trim(identity) == "" then Some(MALFORMED_ROUTE)
      else if IsLoopbackLocal(route) && (runtime.Some? || identity in LOCAL_PROVIDERS) then None
      else Some(identity)
  }

  // ---- the zero-egress claim ------------------------------------------------------------------

  predicate IsLocalProvider(p: Json) { p.Str? && p.s in LOCAL_PROVIDERS }

  predicate AllLocal(providers: seq<Json>) { forall i :: 0 <= i < |providers| ==> IsLocalProvider(providers[i]) }

  method EveryProviderIsLocal(providers: Json) returns (r: bool)
    ensures r <==> providers.Arr? && AllLocal(providers.items)
  {
    if !providers.Arr? { return false; }
    for i := 0 to |providers.items|
      invariant AllLocal(providers.items[..i])
    {
      var p := providers.items[i];
      if !p.Str? || |p.s| == 0 || p.s !in LOCAL_PROVIDERS { return false; }
      assert providers.items[..i + 1] == providers.items[..i] + [p];
    }
    assert providers.items[..|providers.items|] == providers.items;
    return true;
  }

  predicate AllStay(routes: seq<Entry<Json>>) {
    forall i :: 0 <= i < |routes| ==> ProcessorOfRoute(routes[i].value).None?
  }

  method EveryRouteIsLoopbackLocal(capabilityDefaults: Json) returns (r: bool)
    ensures r <==> capabilityDefaults.Obj? && AllStay(capabilityDefaults.fields)
  {
    if !capabilityDefaults.Obj? { return false; }
    var routes: seq<Entry<Json>> := capabilityDefaults.fields;
    for i := 0 to |routes|
      invariant AllStay(routes[..i])
    {
      var proc := ProcessorOfRoute(routes[i].value);
      if proc.Some? { return false; }
      assert routes[..i + 1] == routes[..i] + [routes[i]];
    }
    assert routes[..|routes|] == routes;
    return true;
  }

  /** Axis 1: cloud egress is off, and a non-empty matrix names local providers and loopback routes only. */
  predicate IsLocalOnlyMatrix(matrix: Json) {
    var providers, routes := Field(matrix, "allowedProviders"), Field(matrix, "capabilityDefaults");
    && Field(matrix, "rawCloudEgressEnabled") == Some(Bool(false))
    && providers.Some? && providers.value.Arr? && |providers.value.items| > 0 && AllLocal(providers.value.items)
    && routes.Some? && routes.value.Obj? && |routes.value.fields| > 0 && AllStay(routes.value.fields)
  }

  method IsLocalOnlyProviderMatrix(matrix: Json) returns (r: bool)
    ensures r == IsLocalOnlyMatrix(matrix)
  {
    if !IsObject(matrix) || Field(matrix, "rawCloudEgressEnabled") != Some(Bool(false)) { return false; }
    var providers, routes := Field(matrix, "allowedProviders"), Field(matrix, "capabilityDefaults");
    if providers.None? || !providers.value.Arr? || |providers.value.items| == 0 { return false; }
    if routes.None? || (routes.value.Obj? && |routes.value.fields| == 0) { return false; }
    var local := EveryProviderIsLocal(providers.value);
    if !local { return false; }
    r := EveryRouteIsLoopbackLocal(routes.value);
  }

  /** Axis 2: both allowlists are empty lists. */
  predicate HasNoApprovedDestination(policy: Json) {
    Field(policy, "allowedProcessors") == Some(Arr([])) && Field(policy, "rawContentAllowedProcessors") == Some(Arr([]))
  }

  predicate IsZeroEgressOnly(policy: Json, matrix: Json) {
    IsLocalOnlyMatrix(matrix) && HasNoApprovedDestination(policy)
  }

  // ---- what the proof rests on ----------------------------------------------------------------

  /** Named by exactly one non-blank identity, which is a runtime or a local provider. */
  predicate IsLocalEngine(route: Json) {
    var provider, runtime := StringField(route, "provider"), StringField(route, "runtime");
    || (provider.Some? && runtime.None? && provider.value in LOCAL_PROVIDERS)
    || (runtime.Some? && provider.None? && Trim(runtime.value) != "")
  }

  /**
   * On a spelled endpoint a route is proved to stay exactly when it claims `local`, a local engine serves it
   * and the endpoint names this machine: no label, cloud identity or tunnelled endpoint can replace one of these.
   */
  lemma StaysExactly(route: Json, e: Endpoint)
    requires WellSpelled(e) && StringField(route, "endpoint") == Some(Spell(e))
    ensures ProcessorOfRoute(route).None? <==>
      StringField(route, "egressClass") == Some("local") && IsLocalEngine(route) && NamesThisMachine(e)
  {
    LoopbackExactly(e);
    LocalIdsAreNotBlank();
  }

  /** The one identity a route names, when it names exactly one and that is not blank. */
  ghost predicate Names(route: Json, identity: string) {
    && Trim(identity) != ""
    && ((StringField(route, "provider") == Some(identity) && StringField(route, "runtime").None?)
      || (StringField(route, "runtime") == Some(identity) && StringField(route, "provider").None?))
  }

  /** A route that does not stay reaches the one processor it names, and without such a name is unclassifiable. */
  lemma ProcessorIsTheNamed(route: Json, identity: string)
    ensures Names(route, identity) ==> ProcessorOfRoute(route) in {None, Some(identity)}
    ensures (forall id :: !Names(route, id)) ==> ProcessorOfRoute(route) == Some(MALFORMED_ROUTE)
  {
    var provider, runtime := StringField(route, "provider"), StringField(route, "runtime");
    if provider.Some? && runtime.None? && Trim(provider.value) != "" { assert Names(route, provider.value); }
    if runtime.Some? && provider.None? && Trim(runtime.value) != "" { assert Names(route, runtime.value); }
  }

  lemma LocalIdsAreNotBlank()
    ensures forall id :: id in LOCAL_PROVIDERS ==> Trim(id) != ""
  {
    TrimNoop("ollama");
    TrimNoop("lm_studio");
  }
}
