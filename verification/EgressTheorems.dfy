/** What holds across building, resolving and vetoing, and what the zero-egress claim really promises. */
module EgressTheorems {
  import opened Wrappers
  import opened Strings
  import opened Json
  import opened Processors
  import opened Egress

  // ---- build, then resolve --------------------------------------------------------------------

  predicate AdmittedFor(capability: string, cs: seq<Candidate>, vs: seq<Option<ConformanceResult>>, i: nat)
    requires |cs| == |vs|
  {
    i < |cs| && Admits(vs[i], cs[i]) && cs[i].capability == capability
  }

  ghost predicate IsFirstAdmitted(capability: string, cs: seq<Candidate>, vs: seq<Option<ConformanceResult>>, i: nat)
    requires |cs| == |vs|
  {
    AdmittedFor(capability, cs, vs, i) && forall j: nat :: j < i ==> !AdmittedFor(capability, cs, vs, j)
  }

  ghost predicate NoneAdmitted(capability: string, cs: seq<Candidate>, vs: seq<Option<ConformanceResult>>)
    requires |cs| == |vs|
  {
    forall i: nat :: i < |cs| ==> !AdmittedFor(capability, cs, vs, i)
  }

  lemma {:induction false} SomeFirst(capability: string, cs: seq<Candidate>, vs: seq<Option<ConformanceResult>>, i: nat)
    returns (k: nat)
    requires |cs| == |vs| && AdmittedFor(capability, cs, vs, i)
    ensures IsFirstAdmitted(capability, cs, vs, k)
    decreases i
  {
    if j: nat :| j < i && AdmittedFor(capability, cs, vs, j) { k := SomeFirst(capability, cs, vs, j); }
    else { k := i; }
  }

  /** The candidates in front are admitted for what they were. */
  lemma FrontAdmits(capability: string, cs: seq<Candidate>, vs: seq<Option<ConformanceResult>>, n: nat)
    requires |cs| == |vs| && n <= |cs|
    ensures forall j: nat :: j < n ==>
      (AdmittedFor(capability, cs[..n], vs[..n], j) <==> AdmittedFor(capability, cs, vs, j))
  {}

  lemma {:induction false} DefaultIsFirst(capability: string, cs: seq<Candidate>, vs: seq<Option<ConformanceResult>>,
      i: nat)
    requires |cs| == |vs| && capability != "__proto__"
    requires IsFirstAdmitted(capability, cs, vs, i)
    ensures Get(BuiltDefaults(cs, vs), capability) == Some(Obj(cs[i].route))
    decreases |cs|
  {
    var n := |cs| - 1;
    var before := BuiltDefaults(cs[..n], vs[..n]);
    if i < n {
      FrontAdmits(capability, cs, vs, n);
      DefaultIsFirst(capability, cs[..n], vs[..n], i);
      AddKeeps(before, cs[n], capability);
    } else {
      FrontAdmits(capability, cs, vs, n);
      NoDefault(capability, cs[..n], vs[..n]);
    }
  }

  /** Adding a default never changes one already there, nor a capability it is not for. */
  lemma AddKeeps(defaults: Fields, c: Candidate, capability: string)
    ensures Get(defaults, capability).Some? || c.capability != capability
      ==> Get(AddDefault(defaults, c), capability) == Get(defaults, capability)
  {
    if c.capability != capability { GetOther(defaults, c.capability, Obj(c.route), capability); }
  }

  lemma {:induction false} NoDefault(capability: string, cs: seq<Candidate>, vs: seq<Option<ConformanceResult>>)
    requires |cs| == |vs|
    requires capability == "__proto__" || NoneAdmitted(capability, cs, vs)
    ensures Get(BuiltDefaults(cs, vs), capability).None?
    decreases |cs|
  {
    if cs != [] {
      var n := |cs| - 1;
      FrontAdmits(capability, cs, vs, n);
      NoDefault(capability, cs[..n], vs[..n]);
      if capability != "__proto__" {
        assert !AdmittedFor(capability, cs, vs, n);
        AddKeeps(BuiltDefaults(cs[..n], vs[..n]), cs[n], capability);
      } else if cs[n].capability != capability {
        AddKeeps(BuiltDefaults(cs[..n], vs[..n]), cs[n], capability);
      }
    }
  }

  /** The allowlist is exactly the providers of admitted candidates, each of them once. */
  ghost predicate IsAdmittedProvider(p: Json, cs: seq<Candidate>, vs: seq<Option<ConformanceResult>>)
    requires |cs| == |vs|
  {
    exists i :: 0 <= i < |cs| && Admits(vs[i], cs[i]) && Get(cs[i].route, "provider") == Some(p)
  }

  lemma {:induction false} ProvidersAreTheAdmitted(p: Json, cs: seq<Candidate>, vs: seq<Option<ConformanceResult>>)
    requires |cs| == |vs|
    ensures p in BuiltProviders(cs, vs) <==> IsAdmittedProvider(p, cs, vs)
    decreases |cs|
  {
    if cs != [] {
      var n := |cs| - 1;
      ProvidersAreTheAdmitted(p, cs[..n], vs[..n]);
      if IsAdmittedProvider(p, cs[..n], vs[..n]) {
        var i :| 0 <= i < n && Admits(vs[..n][i], cs[..n][i]) && Get(cs[..n][i].route, "provider") == Some(p);
        assert Admits(vs[i], cs[i]) && Get(cs[i].route, "provider") == Some(p);
      }
      if IsAdmittedProvider(p, cs, vs) {
        var i :| 0 <= i < |cs| && Admits(vs[i], cs[i]) && Get(cs[i].route, "provider") == Some(p);
        if i < n { assert Admits(vs[..n][i], cs[..n][i]) && Get(cs[..n][i].route, "provider") == Some(p); }
      }
    }
  }

  predicate Distinct(ps: seq<Json>) { forall i, j :: 0 <= i < j < |ps| ==> ps[i] != ps[j] }

  lemma AddDistinct(ps: seq<Json>, p: Json)
    requires Distinct(ps) && p !in ps
    ensures Distinct(ps + [p])
  {
    var qs := ps + [p];
    forall i, j | 0 <= i < j < |qs| ensures qs[i] != qs[j] {
      assert qs[i] == ps[i] && ps[i] in ps;
    }
  }

  lemma {:induction false} ProvidersAreDistinct(cs: seq<Candidate>, vs: seq<Option<ConformanceResult>>)
    requires |cs| == |vs|
    ensures Distinct(BuiltProviders(cs, vs))
    decreases |cs|
  {
    if cs != [] {
      var n := |cs| - 1;
      ProvidersAreDistinct(cs[..n], vs[..n]);
      var before := BuiltProviders(cs[..n], vs[..n]);
      if BuiltProviders(cs, vs) != before { AddDistinct(before, Get(cs[n].route, "provider").value); }
    }
  }

  lemma MatrixMembers(workspaceId: string, providers: seq<Json>, defaults: Fields, raw: Option<bool>)
    ensures (var m := MatrixOf(workspaceId, providers, defaults, raw);
      && Field(m, "allowedProviders") == Some(Arr(providers))
      && Field(m, "capabilityDefaults") == Some(Obj(defaults))
      && Field(m, "rawCloudEgressEnabled") == Some(Bool(raw == Some(true))))
  {
    var fs := MatrixOf(workspaceId, providers, defaults, raw).fields;
    GetAt(fs, 1);
    GetAt(fs, 2);
    GetAt(fs, 3);
  }

  /** A route whose endpoint a supplied local configuration does not list. */
  predicate IsUnlistedLocal(route: Fields, localEndpoints: Option<seq<string>>) {
    StringField(Obj(route), "egressClass") == Some("local") && localEndpoints.Some? &&
    (StringField(Obj(route), "endpoint").None? || StringField(Obj(route), "endpoint").value !in localEndpoints.value)
  }

  lemma ResolvesToFirst(
    workspaceId: string, cs: seq<Candidate>, vs: seq<Option<ConformanceResult>>, raw: Option<bool>,
    capability: string, local: Option<seq<string>>, i: nat)
    requires |cs| == |vs| && capability != "__proto__" && IsFirstAdmitted(capability, cs, vs, i)
    ensures ResolveRoute(BuiltMatrix(workspaceId, cs, vs, raw), capability, local) ==
      if IsUnlistedLocal(cs[i].route, local) then Deny(LocalEndpointNotConfigured) else Allow(Obj(cs[i].route))
  {
    var route := cs[i].route;
    MatrixMembers(workspaceId, BuiltProviders(cs, vs), BuiltDefaults(cs, vs), raw);
    DefaultIsFirst(capability, cs, vs, i);
    if HasProvider(cs[i]) {
      ProvidersAreTheAdmitted(Get(route, "provider").value, cs, vs);
    }
  }

  lemma ResolvesToNothing(
    workspaceId: string, cs: seq<Candidate>, vs: seq<Option<ConformanceResult>>, raw: Option<bool>,
    capability: string, local: Option<seq<string>>)
    requires |cs| == |vs| && (capability == "__proto__" || NoneAdmitted(capability, cs, vs))
    ensures ResolveRoute(BuiltMatrix(workspaceId, cs, vs, raw), capability, local) == Deny(NoRouteForCapability)
  {
    MatrixMembers(workspaceId, BuiltProviders(cs, vs), BuiltDefaults(cs, vs), raw);
    NoDefault(capability, cs, vs);
  }

  /**
   * For every candidate list and every verdict: resolution without local configuration allows exactly the first
   * admitted candidate's route, denies for want of a route when there is none, and has no third outcome.
   */
  lemma BuildThenResolve(workspaceId: string, cs: seq<Candidate>, vs: seq<Option<ConformanceResult>>,
      raw: Option<bool>, capability: string)
    requires |cs| == |vs|
    ensures (var verdict := ResolveRoute(BuiltMatrix(workspaceId, cs, vs, raw), capability, None);
      && (verdict == Deny(NoRouteForCapability) <==> (capability == "__proto__" || NoneAdmitted(capability, cs, vs)))
      && (verdict != Deny(NoRouteForCapability)
          ==> exists i: nat :: IsFirstAdmitted(capability, cs, vs, i) && verdict == Allow(Obj(cs[i].route))))
  {
    if capability == "__proto__" || NoneAdmitted(capability, cs, vs) {
      ResolvesToNothing(workspaceId, cs, vs, raw, capability, None);
    } else {
      var i: nat :| i < |cs| && AdmittedFor(capability, cs, vs, i);
      var k := SomeFirst(capability, cs, vs, i);
      ResolvesToFirst(workspaceId, cs, vs, raw, capability, None, k);
    }
  }

  /** Resolution lets an exception out exactly when the table holds a null for the capability. */
  lemma ThrowsExactlyOnNull(matrix: Json, capability: string, local: Option<seq<string>>)
    ensures ResolveRoute(matrix, capability, local).Throws? <==>
      (var defaults := Field(matrix, "capabilityDefaults");
        defaults.Some? && Field(defaults.value, capability) == Some(Null))
  {}

  /** The route the table holds for a capability, when it is a record or a list. */
  ghost predicate IsFound(matrix: Json, capability: string, route: Json) {
    var defaults := Field(matrix, "capabilityDefaults");
    defaults.Some? && Field(defaults.value, capability) == Some(route) && (route.Obj? || route.Arr?)
  }

  /** The route names no provider, or one that is in the matrix's list and no record or list itself. */
  ghost predicate IsListed(matrix: Json, route: Json) {
    var provider, list := Field(route, "provider"), Field(matrix, "allowedProviders");
    || provider.None? || provider == Some(Null)
    || (list.Some? && list.value.Arr? && provider.value in list.value.items
      && !provider.value.Obj? && !provider.value.Arr?)
  }

  /** On any matrix: what is allowed is the found, listed and locally configured route; each miss has its reason. */
  lemma ResolvesExactly(matrix: Json, capability: string, local: Option<seq<string>>, route: Json)
    requires IsFound(matrix, capability, route)
    ensures (var verdict := ResolveRoute(matrix, capability, local);
      var unlisted := StringField(route, "egressClass") == Some("local") && local.Some? &&
        forall endpoint :: StringField(route, "endpoint") == Some(endpoint) ==> endpoint !in local.value;
      && (verdict == Allow(route) <==> IsListed(matrix, route) && !unlisted)
      && (verdict == Deny(ProviderNotAllowed) <==> !IsListed(matrix, route))
      && (verdict == Deny(LocalEndpointNotConfigured) <==> IsListed(matrix, route) && unlisted))
  {}

  lemma NothingElseResolves(matrix: Json, capability: string, local: Option<seq<string>>)
    requires forall route :: !IsFound(matrix, capability, route)
    ensures (var verdict, defaults := ResolveRoute(matrix, capability, local), Field(matrix, "capabilityDefaults");
      verdict ==
        if defaults.None? || !(defaults.value.Obj? || defaults.value.Arr?) then Deny(MalformedPolicyInput)
        else if Field(defaults.value, capability) == Some(Null) then Throws
        else Deny(NoRouteForCapability))
  {
    var defaults := Field(matrix, "capabilityDefaults");
    if defaults.Some? {
      var own := Field(defaults.value, capability);
      if own.Some? { assert !IsFound(matrix, capability, own.value); }
    }
  }

  // ---- the certificate ------------------------------------------------------------------------

  /** Two candidates a certifier cannot tell apart: same capability, model, egress class and subject. */
  predicate SameSubject(c: Candidate, d: Candidate) {
    && c.capability == d.capability
    && Get(c.route, "model") == Get(d.route, "model")
    && Get(c.route, "egressClass") == Get(d.route, "egressClass")
    && Get(c.route, "provider") == Get(d.route, "provider")
    && (HasProvider(c) || Get(c.route, "runtime") == Get(d.route, "runtime"))
  }

  /** A verdict certifies one subject and nothing else. */
  lemma CertifiesOneSubject(result: ConformanceResult, c: Candidate, d: Candidate)
    requires CertifiesCandidate(result, c)
    ensures CertifiesCandidate(result, d) <==> SameSubject(c, d)
  {}

  /** A candidate whose model, egress class and subject are texts can be certified; a passing verdict admits it. */
  lemma SomeVerdictCertifies(c: Candidate, status: string) returns (result: ConformanceResult)
    requires StringField(Obj(c.route), "model").Some? && StringField(Obj(c.route), "egressClass").Some?
    requires StringField(Obj(c.route), if HasProvider(c) then "provider" else "runtime").Some?
    ensures CertifiesCandidate(result, c) && (Admits(Some(result), c) <==> status == "passing")
  {
    var subject := StringField(Obj(c.route), if HasProvider(c) then "provider" else "runtime").value;
    result := ConformanceResult(if HasProvider(c) then Provider else Runtime, subject, c.capability,
      StringField(Obj(c.route), "model").value, StringField(Obj(c.route), "egressClass").value, status);
  }

  // ---- the veto -------------------------------------------------------------------------------

  /** Raw employer content that is not acknowledged reaches nobody, whatever the allowlists say. */
  lemma UnacknowledgedRawStays(job: Json, route: Json, policy: Json, workspace: Json)
    requires IsUnacknowledgedEmployerRaw(job, policy, workspace)
    ensures EgressVeto(job, route, policy, workspace).Allow? ==> ProcessorOfRoute(route).None?
    ensures IsWellFormedRequest(job, route, policy, workspace) && ProcessorOfRoute(route).Some?
      ==> EgressVeto(job, route, policy, workspace) == Deny(EmployerRawEgressUnacknowledged)
  {}

  /** The policy names the processor for this kind of content. */
  predicate Permits(policy: Json, job: Json, proc: string) {
    && Lists(policy, "allowedProcessors", proc)
    && (CarriesRaw(job) ==> Lists(policy, "rawContentAllowedProcessors", proc))
  }

  /**
   * The veto only narrows: it hands back the route it was given, and only when the route stays or the policy
   * names its processor; no policy can name an unclassifiable route.
   */
  lemma VetoOnlyNarrows(job: Json, route: Json, policy: Json, workspace: Json)
    requires EgressVeto(job, route, policy, workspace).Allow?
    ensures EgressVeto(job, route, policy, workspace).route == route
    ensures ProcessorOfRoute(route) != Some(MALFORMED_ROUTE)
    ensures ProcessorOfRoute(route).Some? ==> Permits(policy, job, ProcessorOfRoute(route).value)
  {}

  /**
   * A well-formed request goes out exactly on a route that stays, or to a classifiable processor the policy permits
   * unless it is unacknowledged raw employer content.
   */
  lemma VetoAllowsExactly(job: Json, route: Json, policy: Json, workspace: Json)
    ensures (var proc, raw := ProcessorOfRoute(route), IsUnacknowledgedEmployerRaw(job, policy, workspace);
      EgressVeto(job, route, policy, workspace) == Allow(route) <==> (
        && IsWellFormedRequest(job, route, policy, workspace)
        && (proc.None? || (!raw && proc.value != MALFORMED_ROUTE && Permits(policy, job, proc.value)))))
  {}

  /** Each refusal of a well-formed request has its one reason, and the veto never throws. */
  lemma VetoRefusesExactly(job: Json, route: Json, policy: Json, workspace: Json)
    requires IsWellFormedRequest(job, route, policy, workspace)
    ensures (var proc, raw := ProcessorOfRoute(route), IsUnacknowledgedEmployerRaw(job, policy, workspace);
      var verdict := EgressVeto(job, route, policy, workspace);
      && (verdict == Deny(EmployerRawEgressUnacknowledged) <==> raw && proc.Some?)
      && (verdict == Deny(MalformedPolicyInput) <==> !raw && proc == Some(MALFORMED_ROUTE))
      && (verdict == Deny(ProcessorNotAllowed) <==>
        !raw && proc.Some? && proc.value != MALFORMED_ROUTE && !Permits(policy, job, proc.value))
      && !verdict.Throws?)
  {}

  /** One usable name in the processor list, and content that is not raw can leave: only the empty lists keep it in. */
  lemma ListedProcessorIsReached(policy: Json, workspace: Json, proc: string) returns (job: Json, route: Json)
    requires Lists(policy, "allowedProcessors", proc) && IsList(policy, "rawContentAllowedProcessors")
    requires IsFlag(policy, "employerRawEgressAcknowledged") && StringField(workspace, "type").Some?
    requires Trim(proc) != "" && proc != MALFORMED_ROUTE
    ensures ProcessorOfRoute(route) == Some(proc) && EgressVeto(job, route, policy, workspace) == Allow(route)
  {
    job := OrdinaryJob();
    route := CloudRoute(proc);
    VetoAllowsExactly(job, route, policy, workspace);
  }

  lemma OrdinaryJob() returns (job: Json)
    ensures Field(job, "carriesRawContent") == Some(Bool(false))
  {
    var flags: Fields := [Entry("carriesRawContent", Bool(false))];
    GetAt(flags, 0);
    job := Obj(flags);
  }

  lemma CloudRoute(proc: string) returns (route: Json)
    requires Trim(proc) != ""
    ensures ProcessorOfRoute(route) == Some(proc)
    ensures StringField(route, "endpoint").Some? && StringField(route, "egressClass").Some?
  {
    var fs: Fields := [
      Entry("provider", Str(proc)), Entry("endpoint", Str("https://api")), Entry("egressClass", Str("cloud"))];
    GetAt(fs, 0);
    GetAt(fs, 1);
    GetAt(fs, 2);
    GetAbsent(fs, "runtime");
    route := Obj(fs);
  }

  // ---- the zero-egress claim ------------------------------------------------------------------

  /** A job, a workspace and an acknowledgement flag of the declared types. */
  predicate IsTypedRequest(job: Json, policy: Json, workspace: Json) {
    && IsFlag(job, "carriesRawContent")
    && StringField(workspace, "type").Some?
    && IsFlag(policy, "employerRawEgressAcknowledged")
  }

  lemma StayingRoutesAreWellFormed(route: Json)
    requires ProcessorOfRoute(route).None?
    ensures StringField(route, "endpoint").Some? && StringField(route, "egressClass") == Some("local")
  {}

  /** Under axis 2 alone the veto lets through exactly the routes that are proved to stay. */
  lemma NoDestinationMeansStaying(job: Json, route: Json, policy: Json, workspace: Json)
    requires HasNoApprovedDestination(policy)
    ensures EgressVeto(job, route, policy, workspace).Allow? <==>
      IsTypedRequest(job, policy, workspace) && ProcessorOfRoute(route).None?
  {
    if ProcessorOfRoute(route).None? { StayingRoutesAreWellFormed(route); }
  }

  /** Under axis 1 alone every route the matrix resolves to, with or without local configuration, stays. */
  lemma LocalOnlyMatrixResolvesToStaying(matrix: Json, capability: string, local: Option<seq<string>>)
    requires IsLocalOnlyMatrix(matrix)
    ensures (var verdict := ResolveRoute(matrix, capability, local);
      !verdict.Throws? && (verdict.Allow? ==> ProcessorOfRoute(verdict.route).None?))
  {
    var defaults := Field(matrix, "capabilityDefaults").value;
    var own := Get(defaults.fields, capability);
    if own.Some? {
      FoundStays(defaults.fields, capability);
      StayingRoutesAreObjects(own.value);
      assert ResolveRoute(matrix, capability, local) == Checked(own.value, Field(matrix, "allowedProviders"), local);
    }
  }

  lemma FoundStays(routes: Fields, capability: string)
    requires AllStay(routes) && Get(routes, capability).Some?
    ensures ProcessorOfRoute(Get(routes, capability).value).None?
  {
    GetFound(routes, capability);
    var i :| 0 <= i < |routes| && routes[i] == Entry(capability, Get(routes, capability).value);
    assert ProcessorOfRoute(routes[i].value).None?;
  }

  lemma StayingRoutesAreObjects(route: Json)
    requires ProcessorOfRoute(route).None?
    ensures route.Obj?
  {}

  /**
   * The claim is sound: no job is allowed out on any route. It is usable: a route the workspace's own matrix
   * resolves to is allowed for every job and workspace of the declared types.
   */
  lemma ZeroEgressIsSoundAndUsable(
    policy: Json, matrix: Json, job: Json, workspace: Json, route: Json, capability: string, local: Option<seq<string>>)
    requires IsZeroEgressOnly(policy, matrix)
    ensures EgressVeto(job, route, policy, workspace).Allow? ==> ProcessorOfRoute(route).None?
    ensures ResolveRoute(matrix, capability, local) == Allow(route)
      ==> (EgressVeto(job, route, policy, workspace) == Allow(route) <==> IsTypedRequest(job, policy, workspace))
  {
    NoDestinationMeansStaying(job, route, policy, workspace);
    LocalOnlyMatrixResolvesToStaying(matrix, capability, local);
    if EgressVeto(job, route, policy, workspace).Allow? { VetoOnlyNarrows(job, route, policy, workspace); }
  }

  // ---- the whole pipeline ---------------------------------------------------------------------

  /** Every capability's first admitted candidate stays on this machine. */
  ghost predicate DefaultsStay(cs: seq<Candidate>, vs: seq<Option<ConformanceResult>>)
    requires |cs| == |vs|
  {
    forall i: nat :: i < |cs| && cs[i].capability != "__proto__" && IsFirstAdmitted(cs[i].capability, cs, vs, i)
      ==> ProcessorOfRoute(Obj(cs[i].route)).None?
  }

  ghost predicate SomeDefault(cs: seq<Candidate>, vs: seq<Option<ConformanceResult>>)
    requires |cs| == |vs|
  {
    exists i: nat :: i < |cs| && Admits(vs[i], cs[i]) && cs[i].capability != "__proto__"
  }

  ghost predicate ProvidersLocal(cs: seq<Candidate>, vs: seq<Option<ConformanceResult>>)
    requires |cs| == |vs|
  {
    && (exists p :: IsAdmittedProvider(p, cs, vs))
    && (forall p :: IsAdmittedProvider(p, cs, vs) ==> IsLocalProvider(p))
  }

  lemma BuiltProvidersLocal(cs: seq<Candidate>, vs: seq<Option<ConformanceResult>>)
    requires |cs| == |vs|
    ensures BuiltProviders(cs, vs) != [] && AllLocal(BuiltProviders(cs, vs)) <==> ProvidersLocal(cs, vs)
  {
    var ps := BuiltProviders(cs, vs);
    forall p ensures p in ps <==> IsAdmittedProvider(p, cs, vs) { ProvidersAreTheAdmitted(p, cs, vs); }
    if ps != [] { assert ps[0] in ps; }
    forall i | 0 <= i < |ps| ensures IsAdmittedProvider(ps[i], cs, vs) { assert ps[i] in ps; }
  }

  /** Every default is some capability's first admitted candidate. */
  lemma DefaultComesFrom(cs: seq<Candidate>, vs: seq<Option<ConformanceResult>>, e: Entry<Json>) returns (i: nat)
    requires |cs| == |vs| && e in BuiltDefaults(cs, vs)
    ensures e.key != "__proto__" && IsFirstAdmitted(e.key, cs, vs, i) && e.value == Obj(cs[i].route)
  {
    var ds := BuiltDefaults(cs, vs);
    GetIn(ds, e);
    if e.key == "__proto__" || NoneAdmitted(e.key, cs, vs) { NoDefault(e.key, cs, vs); }
    var j: nat :| j < |cs| && AdmittedFor(e.key, cs, vs, j);
    i := SomeFirst(e.key, cs, vs, j);
    DefaultIsFirst(e.key, cs, vs, i);
  }

  lemma BuiltDefaultsStay(cs: seq<Candidate>, vs: seq<Option<ConformanceResult>>)
    requires |cs| == |vs|
    ensures AllStay(BuiltDefaults(cs, vs)) <==> DefaultsStay(cs, vs)
  {
    var ds: seq<Entry<Json>> := BuiltDefaults(cs, vs);
    if DefaultsStay(cs, vs) {
      forall k | 0 <= k < |ds| ensures ProcessorOfRoute(ds[k].value).None? {
        var i := DefaultComesFrom(cs, vs, ds[k]);
      }
    }
    if AllStay(ds) {
      forall i: nat | i < |cs| && cs[i].capability != "__proto__" && IsFirstAdmitted(cs[i].capability, cs, vs, i)
        ensures ProcessorOfRoute(Obj(cs[i].route)).None?
      {
        DefaultIsFirst(cs[i].capability, cs, vs, i);
        GetFound(ds, cs[i].capability);
      }
    }
  }

  lemma BuiltDefaultsExist(cs: seq<Candidate>, vs: seq<Option<ConformanceResult>>)
    requires |cs| == |vs|
    ensures BuiltDefaults(cs, vs) != [] <==> SomeDefault(cs, vs)
  {
    var ds: seq<Entry<Json>> := BuiltDefaults(cs, vs);
    if ds != [] {
      var i := DefaultComesFrom(cs, vs, ds[0]);
    }
    if SomeDefault(cs, vs) {
      var j: nat :| j < |cs| && Admits(vs[j], cs[j]) && cs[j].capability != "__proto__";
      var i := SomeFirst(cs[j].capability, cs, vs, j);
      DefaultIsFirst(cs[j].capability, cs, vs, i);
    }
  }

  /** What a set of candidates must look like for the matrix built from it to make the axis-1 claim. */
  lemma BuiltIsLocalOnlyExactly(workspaceId: string, cs: seq<Candidate>, vs: seq<Option<ConformanceResult>>,
      raw: Option<bool>)
    requires |cs| == |vs|
    ensures IsLocalOnlyMatrix(BuiltMatrix(workspaceId, cs, vs, raw)) <==>
      raw != Some(true) && ProvidersLocal(cs, vs) && SomeDefault(cs, vs) && DefaultsStay(cs, vs)
  {
    MatrixMembers(workspaceId, BuiltProviders(cs, vs), BuiltDefaults(cs, vs), raw);
    BuiltProvidersLocal(cs, vs);
    BuiltDefaultsStay(cs, vs);
    BuiltDefaultsExist(cs, vs);
  }

  /** Build, resolve, veto: under the zero-egress claim a capability's first admitted candidate is what runs. */
  lemma ZeroEgressPipeline(
    workspaceId: string, cs: seq<Candidate>, vs: seq<Option<ConformanceResult>>, raw: Option<bool>,
    policy: Json, job: Json, workspace: Json, capability: string, i: nat)
    requires |cs| == |vs| && capability != "__proto__" && IsFirstAdmitted(capability, cs, vs, i)
    requires IsZeroEgressOnly(policy, BuiltMatrix(workspaceId, cs, vs, raw)) && IsTypedRequest(job, policy, workspace)
    ensures (var route := Obj(cs[i].route);
      && ResolveRoute(BuiltMatrix(workspaceId, cs, vs, raw), capability, None) == Allow(route)
      && EgressVeto(job, route, policy, workspace) == Allow(route)
      && ProcessorOfRoute(route).None?)
  {
    ResolvesToFirst(workspaceId, cs, vs, raw, capability, None, i);
    ZeroEgressIsSoundAndUsable(policy, BuiltMatrix(workspaceId, cs, vs, raw), job, workspace, Obj(cs[i].route),
      capability, None);
  }
}
