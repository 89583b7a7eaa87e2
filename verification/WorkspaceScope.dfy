/**
 * Attribution of a hit from the combined store to a workspace, and the keep/drop decision.
 *
 * `SlugAttribution` and `HitAttribution` say what the answer is in terms of the set of claims a
 * registry makes; the methods `AttributeSlug` and `AttributeHit` are the source's loops, proved
 * to compute exactly that answer.
 */
module WorkspaceScope {
  import opened Wrappers
  import opened Strings

  type WorkspaceId = string

  datatype Descriptor = Descriptor(workspaceId: WorkspaceId, slugPrefixes: seq<string>, sourceId: Option<string>)

  datatype Registry = Registry(descriptors: seq<Descriptor>)

  datatype Cause = SlugEmpty | SlugMalformed | SlugAmbiguous | SourceAmbiguous

  datatype Via = BySourceId | BySlugPrefix

  datatype Attribution =
    | Workspace(workspaceId: WorkspaceId, via: Via)
    | Legacy
    | Indeterminate(cause: Cause)

  datatype Hit = Hit(slug: string, sourceId: Option<string>)

  datatype LegacyPolicy = Deny | Assign(toWorkspaceId: WorkspaceId)

  datatype DropReason = ForeignWorkspace | LegacyDenied | LegacyNotServed | SlugIndeterminate

  datatype Decision = Keep | Drop(reason: DropReason)

  datatype Scope = Scope(
    servedWorkspaceId: WorkspaceId, registry: Registry, policy: LegacyPolicy, brainPartitioned: bool)

  // ---- slug hygiene -------------------------------------------------------------------------

  predicate IsControl(c: char) { c <= '\U{001F}' || c == '\U{007F}' }

  function SlugFault(slug: string): Option<Cause> {
    if Trim(slug) == "" then Some(SlugEmpty)
    else if slug != Trim(slug) then Some(SlugMalformed)
    else if "/" <= slug then Some(SlugMalformed)
    else if HasPair(slug, '/', '/') then Some(SlugMalformed)
    else if '\\' in slug then Some(SlugMalformed)
    else if exists c :: c in slug && IsControl(c) then Some(SlugMalformed)
    else if exists seg :: seg in Split(slug, '/') && (seg == "." || seg == ".." || seg != Trim(seg))
    then Some(SlugMalformed)
    else None
  }

  function NonEmpty(parts: seq<string>): seq<string> {
    if parts == [] then []
    else (if parts[0] != "" then [parts[0]] else []) + NonEmpty(parts[1..])
  }

  /** The non-empty path segments of a slug or prefix. */
  function SegmentsOf(s: string): seq<string> { NonEmpty(Split(s, '/')) }

  /** How many segments of `slugSegs` the prefix covers; 0 is "no match". */
  function MatchLen(slugSegs: seq<string>, prefixSegs: seq<string>): nat {
    if prefixSegs <= slugSegs then |prefixSegs| else 0
  }

  method PrefixMatchLen(slugSegs: seq<string>, prefixSegs: seq<string>) returns (n: nat)
    ensures n == MatchLen(slugSegs, prefixSegs)
  {
    if |prefixSegs| == 0 || |prefixSegs| > |slugSegs| { return 0; }
    for i := 0 to |prefixSegs|
      invariant prefixSegs[..i] == slugSegs[..i]
    {
      if slugSegs[i] != prefixSegs[i] { return 0; }
    }
    return |prefixSegs|;
  }

  // ---- slug attribution ---------------------------------------------------------------------

  /** Every workspace with a matching prefix, paired with the length of that match. */
  function Reach(segs: seq<string>, ds: seq<Descriptor>): set<(WorkspaceId, nat)> {
    set d, p | d in ds && p in d.slugPrefixes && MatchLen(segs, SegmentsOf(p)) > 0
      :: (d.workspaceId, MatchLen(segs, SegmentsOf(p)))
  }

  /** The workspaces whose match no other match exceeds. */
  function Longest(reach: set<(WorkspaceId, nat)>): set<WorkspaceId> {
    set c | c in reach && (forall o :: o in reach ==> o.1 <= c.1) :: c.0
  }

  lemma {:induction false} SomeoneIsLongest(reach: set<(WorkspaceId, nat)>)
    requires reach != {}
    ensures exists top :: top in reach && forall o :: o in reach ==> o.1 <= top.1
    ensures Longest(reach) != {}
    decreases |reach|
  {
    var c :| c in reach;
    var rest := reach - {c};
    var top := c;
    if rest != {} {
      SomeoneIsLongest(rest);
      var t :| t in rest && forall o :: o in rest ==> o.1 <= t.1;
      if c.1 < t.1 { top := t; }
    }
    assert forall o :: o in reach ==> o in rest || o == c;
    assert top.0 in Longest(reach);
  }

  function SlugAttribution(slug: string, registry: Registry): Attribution {
    if SlugFault(slug).Some? then Indeterminate(SlugFault(slug).value)
    else
      var reach := Reach(SegmentsOf(slug), registry.descriptors);
      var winners := Longest(reach);
      if reach == {} then Legacy
      else if exists v, w :: v in winners && w in winners && v != w then Indeterminate(SlugAmbiguous)
      else
        SomeoneIsLongest(reach);
        var w :| w in winners;
        Workspace(w, BySlugPrefix)
  }

  /** What the outer loop knows after the descriptors whose claims are `reach`. */
  ghost predicate Tracks(reach: set<(WorkspaceId, nat)>, bestLen: nat, best: Option<WorkspaceId>, tied: bool) {
    && (best.None? <==> bestLen == 0)
    && (best.None? ==> reach == {} && !tied)
    && (best.Some? ==> (best.value, bestLen) in reach)
    && (forall c :: c in reach ==> c.1 <= bestLen)
    && (tied <==> exists c :: c in reach && c.1 == bestLen && Some(c.0) != best)
  }

  /** The inner loop: the longest match any one of a descriptor's prefixes makes. */
  method LongestPrefixOf(segs: seq<string>, prefixes: seq<string>) returns (dLen: nat)
    ensures forall p :: p in prefixes ==> MatchLen(segs, SegmentsOf(p)) <= dLen
    ensures dLen > 0 ==> exists p :: p in prefixes && MatchLen(segs, SegmentsOf(p)) == dLen
  {
    dLen := 0;
    for j := 0 to |prefixes|
      invariant forall k :: 0 <= k < j ==> MatchLen(segs, SegmentsOf(prefixes[k])) <= dLen
      invariant dLen > 0 ==> exists k :: 0 <= k < j && MatchLen(segs, SegmentsOf(prefixes[k])) == dLen
    {
      var len := PrefixMatchLen(segs, SegmentsOf(prefixes[j]));
      if len > dLen { dLen := len; }
    }
  }

  /** One turn of the outer loop: a descriptor whose longest match is `dLen` joins the claims. */
  lemma TracksStep(
    before: set<(WorkspaceId, nat)>, after: set<(WorkspaceId, nat)>, w: WorkspaceId, dLen: nat,
    bestLen: nat, best: Option<WorkspaceId>, tied: bool)
    requires Tracks(before, bestLen, best, tied)
    requires before <= after && (dLen > 0 ==> (w, dLen) in after)
    requires forall c :: c in after - before ==> c.0 == w && 0 < c.1 <= dLen
    ensures dLen > bestLen ==> Tracks(after, dLen, Some(w), false)
    ensures dLen <= bestLen ==> Tracks(after, bestLen, best, tied || (0 < dLen == bestLen && Some(w) != best))
  {
    assert forall c :: c in after ==> c in before || c in after - before;
    if dLen <= bestLen {
      if c :| c in before && c.1 == bestLen && Some(c.0) != best { assert c in after; }
      if 0 < dLen == bestLen && Some(w) != best { assert (w, dLen) in after && (w, dLen).1 == bestLen; }
      if c :| c in after && c.1 == bestLen && Some(c.0) != best {
        if c !in before { assert c in after - before; }
      }
      if best.None? { assert after == {}; }
    }
  }

  /** The outer loop: the longest match over all descriptors, one workspace that holds it, and whether another does. */
  method LongestClaim(segs: seq<string>, ds: seq<Descriptor>)
    returns (bestLen: nat, best: Option<WorkspaceId>, tied: bool)
    ensures Tracks(Reach(segs, ds), bestLen, best, tied)
  {
    bestLen, best, tied := 0, None, false;
    for i := 0 to |ds|
      invariant Tracks(Reach(segs, ds[..i]), bestLen, best, tied)
    {
      var d := ds[i];
      var dLen := LongestPrefixOf(segs, d.slugPrefixes);
      ReachStep(segs, ds, i, dLen);
      TracksStep(Reach(segs, ds[..i]), Reach(segs, ds[..i + 1]), d.workspaceId, dLen, bestLen, best, tied);
      if dLen == 0 { continue; }
      if dLen > bestLen {
        bestLen, best, tied := dLen, Some(d.workspaceId), false;
      } else if dLen == bestLen && Some(d.workspaceId) != best {
        tied := true;
      }
    }
    assert ds[..|ds|] == ds;
  }

  method AttributeSlug(slug: string, registry: Registry) returns (r: Attribution)
    ensures r == SlugAttribution(slug, registry)
  {
    var fault := SlugFault(slug);
    if fault.Some? { return Indeterminate(fault.value); }
    var segs, ds := SegmentsOf(slug), registry.descriptors;
    var bestLen, best, tied := LongestClaim(segs, ds);
    if best.None? { return Legacy; }
    WinnersOf(Reach(segs, ds), best.value, bestLen);
    if tied { return Indeterminate(SlugAmbiguous); }
    return Workspace(best.value, BySlugPrefix);
  }

  lemma ReachStep(segs: seq<string>, ds: seq<Descriptor>, i: nat, dLen: nat)
    requires i < |ds|
    requires forall p :: p in ds[i].slugPrefixes ==> MatchLen(segs, SegmentsOf(p)) <= dLen
    requires dLen > 0 ==> exists p :: p in ds[i].slugPrefixes && MatchLen(segs, SegmentsOf(p)) == dLen
    ensures Reach(segs, ds[..i]) <= Reach(segs, ds[..i + 1])
    ensures dLen > 0 ==> (ds[i].workspaceId, dLen) in Reach(segs, ds[..i + 1])
    ensures forall c :: c in Reach(segs, ds[..i + 1]) - Reach(segs, ds[..i]) ==>
      c.0 == ds[i].workspaceId && 0 < c.1 <= dLen
  {
    assert ds[..i + 1] == ds[..i] + [ds[i]];
  }

  lemma WinnersOf(reach: set<(WorkspaceId, nat)>, w: WorkspaceId, n: nat)
    requires (w, n) in reach && forall c :: c in reach ==> c.1 <= n
    ensures w in Longest(reach)
    ensures forall v :: v in Longest(reach) <==> (v, n) in reach
  {
    assert (w, n).0 in Longest(reach);
    forall v | (v, n) in reach ensures v in Longest(reach) { assert (v, n).0 == v; }
  }

  // ---- hit attribution ----------------------------------------------------------------------

  /** The workspaces whose descriptor carries this source id. */
  function SourceOwners(src: string, ds: seq<Descriptor>): set<WorkspaceId> {
    set d | d in ds && d.sourceId == Some(src) :: d.workspaceId
  }

  function HitAttribution(hit: Hit, registry: Registry): Attribution {
    if hit.sourceId.None? || hit.sourceId.value == "" then SlugAttribution(hit.slug, registry)
    else
      var owners := SourceOwners(hit.sourceId.value, registry.descriptors);
      if exists v, w :: v in owners && w in owners && v != w then Indeterminate(SourceAmbiguous)
      else if owners != {} then var w :| w in owners; Workspace(w, BySourceId)
      else SlugAttribution(hit.slug, registry)
  }

  method AttributeHit(hit: Hit, registry: Registry) returns (r: Attribution)
    ensures r == HitAttribution(hit, registry)
  {
    if hit.sourceId.Some? && hit.sourceId.value != "" {
      var src, ds := hit.sourceId.value, registry.descriptors;
      var matched, ambiguous := None, false;
      for i := 0 to |ds|
        invariant matched.None? <==> SourceOwners(src, ds[..i]) == {}
        invariant matched.Some? ==> matched.value in SourceOwners(src, ds[..i])
        invariant ambiguous <==>
          exists v, w :: v in SourceOwners(src, ds[..i]) && w in SourceOwners(src, ds[..i]) && v != w
      {
        var d := ds[i];
        OwnersStep(src, ds, i);
        if d.sourceId == Some(src) {
          if matched.Some? && d.workspaceId != matched.value { ambiguous := true; }
          matched := Some(d.workspaceId);
        }
      }
      assert ds[..|ds|] == ds;
      if ambiguous { return Indeterminate(SourceAmbiguous); }
      if matched.Some? { return Workspace(matched.value, BySourceId); }
    }
    r := AttributeSlug(hit.slug, registry);
  }

  lemma OwnersStep(src: string, ds: seq<Descriptor>, i: nat)
    requires i < |ds|
    ensures SourceOwners(src, ds[..i + 1]) ==
            SourceOwners(src, ds[..i]) + (if ds[i].sourceId == Some(src) then {ds[i].workspaceId} else {})
  {
    assert ds[..i + 1] == ds[..i] + [ds[i]];
  }

  // ---- the keep/drop decision ---------------------------------------------------------------

  function DecideHitScope(hit: Hit, served: WorkspaceId, registry: Registry, policy: LegacyPolicy): Decision {
    match HitAttribution(hit, registry)
    case Indeterminate(_) => Drop(SlugIndeterminate)
    case Workspace(w, _) => if w == served then Keep else Drop(ForeignWorkspace)
    case Legacy =>
      if policy.Deny? then Drop(LegacyDenied)
      else if policy.toWorkspaceId == served then Keep
      else Drop(LegacyNotServed)
  }

  predicate Keeps(hit: Hit, scope: Scope) {
    DecideHitScope(hit, scope.servedWorkspaceId, scope.registry, scope.policy) == Keep
  }

  function DescriptorFor(registry: Registry, ws: WorkspaceId): Option<Descriptor> {
    FirstFor(registry.descriptors, ws)
  }

  function FirstFor(ds: seq<Descriptor>, ws: WorkspaceId): Option<Descriptor> {
    if ds == [] then None
    else if ds[0].workspaceId == ws then Some(ds[0])
    else FirstFor(ds[1..], ws)
  }

  function SingleSlugPrefixOf(scope: Scope): Option<string> {
    var d := DescriptorFor(scope.registry, scope.servedWorkspaceId);
    if d.Some? && |d.value.slugPrefixes| == 1 then Some(d.value.slugPrefixes[0]) else None
  }

  // ---- theorems -----------------------------------------------------------------------------

  /** `n` is the length of the longest match any workspace has. */
  ghost predicate IsLongest(reach: set<(WorkspaceId, nat)>, n: nat) {
    (exists w :: (w, n) in reach) && forall c :: c in reach ==> c.1 <= n
  }

  /**
   * The answer for a sound slug. It is legacy exactly when no prefix matches; otherwise it goes to the
   * one workspace holding the longest match, and is ambiguous exactly when two workspaces hold it.
   */
  lemma LongestPrefixWins(slug: string, registry: Registry)
    requires SlugFault(slug).None?
    ensures var reach := Reach(SegmentsOf(slug), registry.descriptors);
      && (SlugAttribution(slug, registry) == Legacy <==> reach == {})
      && (reach != {} ==> exists n: nat :: IsLongest(reach, n))
      && (forall n: nat :: IsLongest(reach, n) ==> Decides(slug, registry, n))
  {
    var reach := Reach(SegmentsOf(slug), registry.descriptors);
    if reach != {} {
      SomeoneIsLongest(reach);
      var top :| top in reach && forall o :: o in reach ==> o.1 <= top.1;
      assert (top.0, top.1) in reach && IsLongest(reach, top.1);
      LongestDecides(slug, registry, top.1);
    }
    forall n: nat | IsLongest(reach, n) ensures Decides(slug, registry, n) { LongestDecides(slug, registry, n); }
  }

  /** Among the holders of the longest match, a single one wins and two are a tie. */
  ghost predicate Decides(slug: string, registry: Registry, n: nat) {
    var reach := Reach(SegmentsOf(slug), registry.descriptors);
    && (forall w :: SlugAttribution(slug, registry) == Workspace(w, BySlugPrefix) <==> HeldOnlyBy(reach, n, w))
    && (SlugAttribution(slug, registry) == Indeterminate(SlugAmbiguous) <==>
      exists v, w :: v != w && (v, n) in reach && (w, n) in reach)
    && SlugAttribution(slug, registry) != Legacy
  }

  lemma LongestDecides(slug: string, registry: Registry, n: nat)
    requires SlugFault(slug).None? && IsLongest(Reach(SegmentsOf(slug), registry.descriptors), n)
    ensures Decides(slug, registry, n)
  {
    var reach := Reach(SegmentsOf(slug), registry.descriptors);
    var w :| (w, n) in reach;
    DecidedAtTop(slug, registry, w, n);
  }

  ghost predicate HeldOnlyBy(reach: set<(WorkspaceId, nat)>, n: nat, w: WorkspaceId) {
    (w, n) in reach && forall v :: (v, n) in reach ==> v == w
  }

  /** The answer, given any holder `w` of the longest match. */
  lemma DecidedAtTop(slug: string, registry: Registry, w: WorkspaceId, n: nat)
    requires SlugFault(slug).None?
    requires var reach := Reach(SegmentsOf(slug), registry.descriptors);
      (w, n) in reach && forall o :: o in reach ==> o.1 <= n
    ensures var reach := Reach(SegmentsOf(slug), registry.descriptors);
      if exists v :: v != w && (v, n) in reach
      then SlugAttribution(slug, registry) == Indeterminate(SlugAmbiguous)
      else SlugAttribution(slug, registry) == Workspace(w, BySlugPrefix)
  {
    WinnersOf(Reach(SegmentsOf(slug), registry.descriptors), w, n);
  }

  /** A workspace's descriptor is the first registered for it, and there is none exactly when nobody registered one. */
  lemma DescriptorIsFirst(registry: Registry, ws: WorkspaceId, i: nat)
    ensures DescriptorFor(registry, ws).None? <==> forall d :: d in registry.descriptors ==> d.workspaceId != ws
    ensures i < |registry.descriptors| && registry.descriptors[i].workspaceId == ws
      && (forall j :: 0 <= j < i ==> registry.descriptors[j].workspaceId != ws)
      ==> DescriptorFor(registry, ws) == Some(registry.descriptors[i])
  {
    FirstIsFirst(registry.descriptors, ws, i);
  }

  lemma {:induction false} FirstIsFirst(ds: seq<Descriptor>, ws: WorkspaceId, i: nat)
    ensures FirstFor(ds, ws).None? <==> forall d :: d in ds ==> d.workspaceId != ws
    ensures i < |ds| && ds[i].workspaceId == ws && (forall j :: 0 <= j < i ==> ds[j].workspaceId != ws)
      ==> FirstFor(ds, ws) == Some(ds[i])
  {
    if ds != [] {
      assert ds == [ds[0]] + ds[1..];
      if i > 0 {
        FirstIsFirst(ds[1..], ws, i - 1);
        assert forall j :: 0 <= j < |ds| - 1 ==> ds[1..][j] == ds[j + 1];
      } else {
        FirstIsFirst(ds[1..], ws, 0);
      }
    }
  }

  /** Everything attribution may consult: which workspace claims which prefix and which source. */
  ghost predicate SameClaims(r: Registry, s: Registry) {
    && (forall w, p :: ClaimsPrefix(r, w, p) <==> ClaimsPrefix(s, w, p))
    && (forall w, i :: ClaimsSource(r, w, i) <==> ClaimsSource(s, w, i))
  }

  ghost predicate ClaimsPrefix(r: Registry, w: WorkspaceId, p: string) {
    exists d :: d in r.descriptors && d.workspaceId == w && p in d.slugPrefixes
  }

  ghost predicate ClaimsSource(r: Registry, w: WorkspaceId, i: string) {
    exists d :: d in r.descriptors && d.workspaceId == w && d.sourceId == Some(i)
  }

  lemma OnlyClaimsMatter(hit: Hit, r: Registry, s: Registry)
    requires SameClaims(r, s)
    ensures HitAttribution(hit, r) == HitAttribution(hit, s)
  {
    var segs := SegmentsOf(hit.slug);
    ReachFromClaims(segs, r, s);
    ReachFromClaims(segs, s, r);
    assert Reach(segs, r.descriptors) == Reach(segs, s.descriptors);
    if hit.sourceId.Some? {
      OwnersFromClaims(hit.sourceId.value, r, s);
      OwnersFromClaims(hit.sourceId.value, s, r);
    }
  }

  lemma ReachFromClaims(segs: seq<string>, r: Registry, s: Registry)
    requires SameClaims(r, s)
    ensures Reach(segs, r.descriptors) <= Reach(segs, s.descriptors)
  {
    forall c | c in Reach(segs, r.descriptors) ensures c in Reach(segs, s.descriptors) {
      var d, p :| d in r.descriptors && p in d.slugPrefixes && MatchLen(segs, SegmentsOf(p)) > 0
               && c == (d.workspaceId, MatchLen(segs, SegmentsOf(p)));
      assert ClaimsPrefix(r, d.workspaceId, p);
      assert ClaimsPrefix(s, d.workspaceId, p);
    }
  }

  lemma OwnersFromClaims(src: string, r: Registry, s: Registry)
    requires SameClaims(r, s)
    ensures SourceOwners(src, r.descriptors) <= SourceOwners(src, s.descriptors)
  {
    forall w | w in SourceOwners(src, r.descriptors) ensures w in SourceOwners(src, s.descriptors) {
      assert ClaimsSource(r, w, src);
      assert ClaimsSource(s, w, src);
    }
  }

  /** `s` lists the descriptors of `r` in some other order, each with its prefixes in some other order. */
  ghost predicate Reordering(r: Registry, s: Registry, between: seq<Descriptor>) {
    && multiset(r.descriptors) == multiset(between)
    && |between| == |s.descriptors|
    && forall i :: 0 <= i < |between| ==>
      && between[i].workspaceId == s.descriptors[i].workspaceId
      && between[i].sourceId == s.descriptors[i].sourceId
      && multiset(between[i].slugPrefixes) == multiset(s.descriptors[i].slugPrefixes)
  }

  /** Permuting the descriptors, or any descriptor's prefixes, never changes an answer. */
  lemma OrderIsInvisible(hit: Hit, r: Registry, s: Registry, between: seq<Descriptor>)
    requires Reordering(r, s, between)
    ensures HitAttribution(hit, r) == HitAttribution(hit, s)
  {
    var mid := Registry(between);
    forall d ensures d in r.descriptors <==> d in between {
      assert d in multiset(r.descriptors) <==> d in multiset(between);
    }
    assert SameClaims(r, mid);
    OnlyClaimsMatter(hit, r, mid);
    forall i, p | 0 <= i < |between| ensures p in between[i].slugPrefixes <==> p in s.descriptors[i].slugPrefixes {
      assert p in multiset(between[i].slugPrefixes) <==> p in multiset(s.descriptors[i].slugPrefixes);
    }
    forall w, p ensures ClaimsPrefix(mid, w, p) <==> ClaimsPrefix(s, w, p) {
      if ClaimsPrefix(mid, w, p) {
        var i :| 0 <= i < |between| && between[i].workspaceId == w && p in between[i].slugPrefixes;
        assert s.descriptors[i] in s.descriptors;
      }
      if ClaimsPrefix(s, w, p) {
        var i :| 0 <= i < |between| && s.descriptors[i].workspaceId == w && p in s.descriptors[i].slugPrefixes;
        assert between[i] in mid.descriptors;
      }
    }
    forall w, src ensures ClaimsSource(mid, w, src) <==> ClaimsSource(s, w, src) {
      if ClaimsSource(mid, w, src) {
        var i :| 0 <= i < |between| && between[i].workspaceId == w && between[i].sourceId == Some(src);
        assert s.descriptors[i] in s.descriptors;
      }
      if ClaimsSource(s, w, src) {
        var i :| 0 <= i < |between| && s.descriptors[i].workspaceId == w && s.descriptors[i].sourceId == Some(src);
        assert between[i] in mid.descriptors;
      }
    }
    OnlyClaimsMatter(hit, mid, s);
  }

  /**
   * A hit is kept for the served workspace exactly when it is attributed to it, or is legacy content
   * assigned to it; in particular an indeterminate hit is always dropped.
   */
  lemma KeptExactlyWhenOwned(hit: Hit, scope: Scope)
    ensures Keeps(hit, scope) <==>
      match HitAttribution(hit, scope.registry)
      case Workspace(w, _) => w == scope.servedWorkspaceId
      case Legacy => scope.policy == Assign(scope.servedWorkspaceId)
      case Indeterminate(_) => false
  {
    match scope.policy
    case Deny =>
    case Assign(w) =>
  }

  /** Under one registry and policy, no hit is kept for two served workspaces. */
  lemma ExclusiveOwnership(hit: Hit, s: Scope, t: Scope)
    requires s.registry == t.registry && s.policy == t.policy
    requires Keeps(hit, s) && Keeps(hit, t)
    ensures s.servedWorkspaceId == t.servedWorkspaceId
  {
    KeptExactlyWhenOwned(hit, s);
    KeptExactlyWhenOwned(hit, t);
  }

  // ---- segment boundaries -------------------------------------------------------------------

  predicate CleanPath(s: string) {
    s != "" && s[0] != '/' && !HasPair(s, '/', '/')
  }

  lemma {:induction false} NonEmptyConcat(a: seq<string>, b: seq<string>)
    ensures NonEmpty(a + b) == NonEmpty(a) + NonEmpty(b)
  {
    if a == [] { assert a + b == b; }
    else {
      NonEmptyConcat(a[1..], b);
      assert (a + b)[0] == a[0] && (a + b)[1..] == a[1..] + b;
      var first := if a[0] != "" then [a[0]] else [];
      assert first + (NonEmpty(a[1..]) + NonEmpty(b)) == (first + NonEmpty(a[1..])) + NonEmpty(b);
    }
  }

  lemma PairInTail(s: string, i: nat)
    requires i <= |s|
    ensures HasPair(s[i..], '/', '/') ==> HasPair(s, '/', '/')
  {
    var t := s[i..];
    if k :| 0 <= k < |t| - 1 && t[k] == '/' && t[k + 1] == '/' {
      assert s[i + k] == '/' && s[i + k + 1] == '/';
    }
  }

  /** What a trailing slash adds to the split of a path. */
  function Trailing(s: string): seq<string> {
    if s == "" || s[|s| - 1] == '/' then [""] else []
  }

  lemma SegmentsStep(a: string, rest: string)
    requires a != "" && '/' !in a
    requires Split(rest, '/') == SegmentsOf(rest) + Trailing(rest)
    ensures Split(a + ['/'] + rest, '/') == SegmentsOf(a + ['/'] + rest) + Trailing(a + ['/'] + rest)
    ensures SegmentsOf(a + ['/'] + rest) != []
  {
    SplitFirst(a, rest, '/');
    FirstSegment(a, Split(rest, '/'));
    assert [a] + (SegmentsOf(rest) + Trailing(rest)) == ([a] + SegmentsOf(rest)) + Trailing(rest);
  }

  /** A path with neither a leading nor a doubled slash has no empty segment, up to a trailing slash. */
  lemma {:induction false} CleanSegments(s: string)
    requires CleanPath(s)
    ensures Split(s, '/') == SegmentsOf(s) + Trailing(s)
    ensures SegmentsOf(s) != []
    decreases |s|
  {
    var i := IndexOfAny(s, ['/']);
    if i == |s| {
      SplitWhole(s, '/');
      assert NonEmpty([s]) == [s] + NonEmpty([]);
    } else {
      var a, rest := s[..i], s[i + 1..];
      assert s == a + ['/'] + rest;
      if rest == "" {
        SplitWhole("", '/');
      } else {
        assert s[i] == '/' && s[i + 1] == rest[0];
        PairInTail(s, i + 1);
        CleanSegments(rest);
      }
      SegmentsStep(a, rest);
    }
  }

  lemma FirstSegment(a: string, parts: seq<string>)
    requires a != ""
    ensures NonEmpty([a] + parts) == [a] + NonEmpty(parts)
  {
    assert ([a] + parts)[1..] == parts;
  }

  lemma ContinuationMatches(slug: string, prefix: string)
    requires SlugFault(slug).None? && CleanPath(prefix) && prefix[|prefix| - 1] != '/'
    requires prefix + "/" <= slug
    ensures SegmentsOf(prefix) <= SegmentsOf(slug)
  {
    var t := slug[|prefix| + 1..];
    assert slug == prefix + ['/'] + t;
    SplitAt(prefix, t, '/');
    NonEmptyConcat(Split(prefix, '/'), Split(t, '/'));
  }

  lemma SegmentsContinue(slug: string, prefix: string)
    requires Split(prefix, '/') <= Split(slug, '/')
    ensures slug == prefix || prefix + "/" <= slug
  {
    var whole, head := Split(slug, '/'), Split(prefix, '/');
    SplitThenJoin(slug, '/');
    SplitThenJoin(prefix, '/');
    if |head| < |whole| {
      assert whole == head + whole[|head|..];
      JoinConcat(head, whole[|head|..], '/');
    } else {
      assert whole == head;
    }
  }

  /**
   * Segment-wise matching is boundary-correct: a clean prefix matches a fault-free slug exactly when
   * the slug is the prefix or continues it with a slash, so `a-b` never captures `a-bc`.
   */
  lemma MatchesAtBoundary(slug: string, prefix: string)
    requires SlugFault(slug).None?
    requires CleanPath(prefix) && prefix[|prefix| - 1] != '/'
    ensures MatchLen(SegmentsOf(slug), SegmentsOf(prefix)) > 0 <==> slug == prefix || prefix + "/" <= slug
  {
    assert slug != "" && slug[0] != '/' by { assert slug[0] == '/' ==> "/" <= slug; }
    CleanSegments(slug);
    CleanSegments(prefix);
    if prefix + "/" <= slug { ContinuationMatches(slug, prefix); }
    if Split(prefix, '/') <= Split(slug, '/') { SegmentsContinue(slug, prefix); }
  }
}
