/** Which texts are slugs at all, and what attribution answers on every text, in terms of path segments. */
module SlugTexts {
  import opened Wrappers
  import opened Strings
  import opened WorkspaceScope

  // ---- sound slugs ----------------------------------------------------------------------------

  predicate IsSegment(seg: string) {
    && seg != "" && seg != "." && seg != ".."
    && '/' !in seg && '\\' !in seg && (forall c :: c in seg ==> !IsControl(c))
    && !IsSpace(seg[0]) && !IsSpace(seg[|seg| - 1])
  }

  predicate ArePath(segs: seq<string>) { segs != [] && forall k :: 0 <= k < |segs| ==> IsSegment(segs[k]) }

  /** The segments joined with slashes, with or without one slash behind them. */
  function PathText(segs: seq<string>, slash: bool): string { Join(segs, '/') + (if slash then "/" else "") }

  ghost predicate IsSound(slug: string) { exists segs, slash :: ArePath(segs) && slug == PathText(segs, slash) }

  lemma {:induction false} JoinMembers(segs: seq<string>)
    requires ArePath(segs)
    ensures var j := Join(segs, '/');
      && j != "" && j[0] == segs[0][0] && j[|j| - 1] == segs[|segs| - 1][|segs[|segs| - 1]| - 1]
      && '\\' !in j && (forall c :: c in j ==> !IsControl(c))
      && !HasPair(j, '/', '/')
  {
    if |segs| > 1 {
      JoinMembers(segs[1..]);
      assert segs[1..][|segs| - 2] == segs[|segs| - 1];
      var a, rest := segs[0], Join(segs[1..], '/');
      var j := Join(segs, '/');
      assert j == a + ['/'] + rest;
      forall i | 0 <= i < |j| - 1 ensures !(j[i] == '/' && j[i + 1] == '/') {
        if i < |a| { assert j[i] == a[i]; }
        else if i == |a| { assert j[i + 1] == rest[0] == segs[1][0]; }
        else { assert j[i] == rest[i - |a| - 1] && j[i + 1] == rest[i - |a|]; }
      }
    }
  }

  lemma PathParts(segs: seq<string>, slash: bool)
    requires ArePath(segs)
    ensures Split(PathText(segs, slash), '/') == segs + (if slash then [""] else [])
    ensures SegmentsOf(PathText(segs, slash)) == segs
  {
    var parts := segs + (if slash then [""] else []);
    if slash {
      JoinConcat(segs, [""], '/');
      assert PathText(segs, true) == Join(parts, '/');
    } else {
      assert parts == segs && PathText(segs, false) == Join(segs, '/');
    }
    JoinThenSplit(parts, '/');
    NonEmptyAll(segs);
    NonEmptyConcat(segs, if slash then [""] else []);
  }

  lemma {:induction false} NonEmptyAll(segs: seq<string>)
    requires forall k :: 0 <= k < |segs| ==> segs[k] != ""
    ensures NonEmpty(segs) == segs
  {
    if segs != [] { NonEmptyAll(segs[1..]); }
  }

  lemma {:induction false} TrimStartShrinks(s: string)
    ensures |TrimStart(s)| <= |s|
  {
    if s != "" && IsSpace(s[0]) { TrimStartShrinks(s[1..]); }
  }

  lemma TrimmedEnds(s: string)
    requires s != "" && Trim(s) == s
    ensures !IsSpace(s[0]) && !IsSpace(s[|s| - 1])
  {
    TrimEndEnds(TrimStart(s));
    if IsSpace(s[0]) { TrimStartShrinks(s[1..]); }
  }

  lemma PathIsFaultless(segs: seq<string>, slash: bool)
    requires ArePath(segs)
    ensures SlugFault(PathText(segs, slash)).None?
  {
    var s := PathText(segs, slash);
    PathParts(segs, slash);
    PathChars(segs, slash);
    TrimNoop(s);
    forall seg | seg in Split(s, '/') ensures seg != "." && seg != ".." && seg == Trim(seg) {
      if seg in segs { TrimNoop(seg); }
    }
  }

  lemma PathChars(segs: seq<string>, slash: bool)
    requires ArePath(segs)
    ensures var s := PathText(segs, slash);
      && s != "" && s[0] != '/' && !IsSpace(s[0]) && !IsSpace(s[|s| - 1])
      && '\\' !in s && (forall c :: c in s ==> !IsControl(c))
      && !HasPair(s, '/', '/')
  {
    JoinMembers(segs);
    var j, s := Join(segs, '/'), PathText(segs, slash);
    var last := segs[|segs| - 1];
    assert j[|j| - 1] == last[|last| - 1] && last[|last| - 1] in last;
    assert s[0] == j[0] && segs[0][0] in segs[0];
    if slash {
      assert s == j + ['/'] && forall c :: c in s ==> c in j || c == '/';
      forall i | 0 <= i < |s| - 1 ensures !(s[i] == '/' && s[i + 1] == '/') {
        if i < |j| - 1 { assert s[i] == j[i] && s[i + 1] == j[i + 1]; } else { assert s[i] == j[|j| - 1]; }
      }
    } else {
      assert s == j;
    }
  }

  lemma FaultlessIsPath(slug: string) returns (segs: seq<string>, slash: bool)
    requires SlugFault(slug).None?
    ensures ArePath(segs) && slug == PathText(segs, slash)
  {
    assert slug != "" && slug[0] != '/' by { assert slug[0] == '/' ==> "/" <= slug; }
    CleanSegments(slug);
    segs, slash := SegmentsOf(slug), slug[|slug| - 1] == '/';
    Rejoined(slug);
    forall k | 0 <= k < |segs| ensures IsSegment(segs[k]) { FaultlessSegment(slug, segs, k); }
  }

  lemma Rejoined(slug: string)
    requires slug != "" && Split(slug, '/') == SegmentsOf(slug) + Trailing(slug) && SegmentsOf(slug) != []
    ensures slug == PathText(SegmentsOf(slug), slug[|slug| - 1] == '/')
  {
    var segs := SegmentsOf(slug);
    SplitThenJoin(slug, '/');
    if slug[|slug| - 1] == '/' {
      JoinConcat(segs, [""], '/');
      assert Join([""], '/') == "";
    } else {
      assert segs + [] == segs;
    }
  }

  lemma FaultlessSegment(slug: string, segs: seq<string>, k: nat)
    requires SlugFault(slug).None? && segs == SegmentsOf(slug) && k < |segs|
    requires Split(slug, '/') == segs + Trailing(slug)
    ensures IsSegment(segs[k])
  {
    var seg := segs[k];
    assert seg in segs && seg == Split(slug, '/')[k] && seg in Split(slug, '/');
    SegmentChars(slug, k);
    NonEmptyMember(Split(slug, '/'), seg);
    TrimmedEnds(seg);
  }

  lemma {:induction false} NonEmptyMember(parts: seq<string>, seg: string)
    ensures seg in NonEmpty(parts) <==> seg in parts && seg != ""
  {
    if parts != [] {
      assert parts == [parts[0]] + parts[1..];
      NonEmptyMember(parts[1..], seg);
    }
  }

  lemma {:induction false} SegmentChars(s: string, k: nat)
    requires k < |Split(s, '/')|
    ensures forall c :: c in Split(s, '/')[k] ==> c in s
    decreases |s|
  {
    var i := IndexOfAny(s, ['/']);
    if i < |s| && k > 0 { SegmentChars(s[i + 1..], k - 1); }
  }

  /** A text is a sound slug exactly when it is a path of segments, with or without a slash behind it. */
  lemma SoundExactly(slug: string)
    ensures SlugFault(slug).None? <==> IsSound(slug)
    ensures SlugFault(slug) == Some(SlugEmpty) <==> forall c :: c in slug ==> IsSpace(c)
    ensures SlugFault(slug) in {None, Some(SlugEmpty), Some(SlugMalformed)}
  {
    if SlugFault(slug).None? { var segs, slash := FaultlessIsPath(slug); }
    if IsSound(slug) {
      var segs, slash :| ArePath(segs) && slug == PathText(segs, slash);
      PathIsFaultless(segs, slash);
    }
    BlankExactly(slug);
  }

  lemma {:induction false} BlankExactly(s: string)
    ensures Trim(s) == "" <==> forall c :: c in s ==> IsSpace(c)
  {
    if s != "" {
      if IsSpace(s[0]) {
        BlankExactly(s[1..]);
        assert s == [s[0]] + s[1..];
      } else {
        TrimKeepsFirst(s);
      }
    }
  }

  lemma TrimKeepsFirst(s: string)
    requires s != "" && !IsSpace(s[0])
    ensures Trim(s) != ""
  {
    KeepsFirst(s);
  }

  lemma {:induction false} KeepsFirst(s: string)
    requires s != "" && !IsSpace(s[0])
    ensures TrimEnd(s) != ""
  {
    if |s| > 1 { KeepsFirst(s[..|s| - 1]); }
  }

  // ---- attribution ----------------------------------------------------------------------------

  /** A workspace claims `n` leading segments of a path: one of its prefixes is made of exactly those. */
  ghost predicate Claims(registry: Registry, w: WorkspaceId, segs: seq<string>, n: nat) {
    0 < n <= |segs| &&
    exists d, p :: d in registry.descriptors && d.workspaceId == w && p in d.slugPrefixes && SegmentsOf(p) == segs[..n]
  }

  ghost predicate ClaimsLongest(registry: Registry, w: WorkspaceId, segs: seq<string>, n: nat) {
    Claims(registry, w, segs, n) && forall v, m: nat :: Claims(registry, v, segs, m) ==> m <= n
  }

  lemma ReachIsClaims(registry: Registry, segs: seq<string>, w: WorkspaceId, n: nat)
    ensures (w, n) in Reach(segs, registry.descriptors) <==> Claims(registry, w, segs, n)
  {
    if Claims(registry, w, segs, n) {
      var d, p :| d in registry.descriptors && d.workspaceId == w && p in d.slugPrefixes && SegmentsOf(p) == segs[..n];
      assert MatchLen(segs, SegmentsOf(p)) == n;
    }
    if (w, n) in Reach(segs, registry.descriptors) {
      var d, p :| d in registry.descriptors && p in d.slugPrefixes && MatchLen(segs, SegmentsOf(p)) > 0
               && (w, n) == (d.workspaceId, MatchLen(segs, SegmentsOf(p)));
      assert SegmentsOf(p) == segs[..n];
    }
  }

  /** One workspace alone claims the most. */
  ghost predicate IsOwner(registry: Registry, segs: seq<string>, w: WorkspaceId) {
    exists n: nat :: ClaimsLongest(registry, w, segs, n) && forall v :: Claims(registry, v, segs, n) ==> v == w
  }

  ghost predicate AreTied(registry: Registry, segs: seq<string>) {
    exists v, w, n: nat :: v != w && ClaimsLongest(registry, v, segs, n) && ClaimsLongest(registry, w, segs, n)
  }

  ghost predicate IsUnclaimed(registry: Registry, segs: seq<string>) {
    forall w, n: nat :: !Claims(registry, w, segs, n)
  }

  lemma LongestClaimDecides(segs: seq<string>, slash: bool, registry: Registry, w: WorkspaceId, n: nat)
    requires ArePath(segs) && ClaimsLongest(registry, w, segs, n)
    ensures var answer := SlugAttribution(PathText(segs, slash), registry);
      if AreTied(registry, segs) then answer == Indeterminate(SlugAmbiguous)
      else answer == Workspace(w, BySlugPrefix)
  {
    var reach := Reach(segs, registry.descriptors);
    PathIsFaultless(segs, slash);
    PathParts(segs, slash);
    forall v, m: nat ensures (v, m) in reach <==> Claims(registry, v, segs, m) { ReachIsClaims(registry, segs, v, m); }
    forall o | o in reach ensures o.1 <= n { assert (o.0, o.1) in reach; }
    DecidedAtTop(PathText(segs, slash), registry, w, n);
    if v :| v != w && (v, n) in reach {
      assert ClaimsLongest(registry, v, segs, n);
    }
    if AreTied(registry, segs) {
      var u, v, m: nat :| u != v && ClaimsLongest(registry, u, segs, m) && ClaimsLongest(registry, v, segs, m);
      assert m == n && (u, n) in reach && (v, n) in reach;
    }
  }

  /** Every path is unclaimed, owned by one workspace or tied, and no two of these. */
  lemma ClaimCases(registry: Registry, segs: seq<string>) returns (w: WorkspaceId, n: nat)
    ensures !IsUnclaimed(registry, segs) ==> ClaimsLongest(registry, w, segs, n)
    ensures !IsUnclaimed(registry, segs) && !AreTied(registry, segs) ==> IsOwner(registry, segs, w)
    ensures IsUnclaimed(registry, segs) ==> !AreTied(registry, segs)
    ensures forall v :: IsOwner(registry, segs, v) ==>
      !AreTied(registry, segs) && !IsUnclaimed(registry, segs) && v == w
  {
    w, n := "", 0;
    if !IsUnclaimed(registry, segs) {
      var u, m: nat :| Claims(registry, u, segs, m);
      w, n := SomeLongest(registry, segs, u, m);
      forall v | Claims(registry, v, segs, n) ensures ClaimsLongest(registry, v, segs, n) {}
    }
  }

  /** Climbing from one claim to a longer one ends, since none is longer than the path. */
  lemma {:induction false} SomeLongest(registry: Registry, segs: seq<string>, u: WorkspaceId, m: nat)
    returns (w: WorkspaceId, n: nat)
    requires Claims(registry, u, segs, m)
    ensures ClaimsLongest(registry, w, segs, n)
    decreases |segs| - m
  {
    if v, k: nat :| Claims(registry, v, segs, k) && k > m { w, n := SomeLongest(registry, segs, v, k); }
    else { w, n := u, m; }
  }

  /**
   * What attribution answers on a path: the workspace that alone claims the most leading segments, legacy when nobody
   * claims any, and a tie when two claim the most.
   */
  lemma PathAttribution(segs: seq<string>, slash: bool, registry: Registry)
    requires ArePath(segs)
    ensures var answer := SlugAttribution(PathText(segs, slash), registry);
      && (forall w :: answer == Workspace(w, BySlugPrefix) <==> IsOwner(registry, segs, w))
      && (answer == Legacy <==> IsUnclaimed(registry, segs))
      && (answer == Indeterminate(SlugAmbiguous) <==> AreTied(registry, segs))
      && (answer.Legacy? || answer == Indeterminate(SlugAmbiguous) || exists w :: answer == Workspace(w, BySlugPrefix))
  {
    var w, n := ClaimCases(registry, segs);
    if IsUnclaimed(registry, segs) { UnclaimedIsLegacy(segs, slash, registry); }
    else { LongestClaimDecides(segs, slash, registry, w, n); }
  }

  lemma UnclaimedIsLegacy(segs: seq<string>, slash: bool, registry: Registry)
    requires ArePath(segs) && IsUnclaimed(registry, segs)
    ensures SlugAttribution(PathText(segs, slash), registry) == Legacy
  {
    var reach := Reach(segs, registry.descriptors);
    PathIsFaultless(segs, slash);
    PathParts(segs, slash);
    if c :| c in reach { ReachIsClaims(registry, segs, c.0, c.1); }
  }

  /** Every other text is dropped as empty, when it is blank, or else as malformed. */
  lemma OtherTextsAreIndeterminate(slug: string, registry: Registry)
    requires !IsSound(slug)
    ensures SlugAttribution(slug, registry) ==
      Indeterminate(if forall c :: c in slug ==> IsSpace(c) then SlugEmpty else SlugMalformed)
  {
    SoundExactly(slug);
  }

  /** A source id decides over any slug: one workspace registered for it owns the hit, two are a tie, none defers. */
  lemma SourceAttribution(slug: string, src: string, registry: Registry)
    requires src != ""
    ensures var answer := HitAttribution(Hit(slug, Some(src)), registry);
      && (forall w :: answer == Workspace(w, BySourceId) <==>
        ClaimsSource(registry, w, src) && forall v :: ClaimsSource(registry, v, src) ==> v == w)
      && (answer == Indeterminate(SourceAmbiguous) <==>
        exists v, w :: v != w && ClaimsSource(registry, v, src) && ClaimsSource(registry, w, src))
      && ((forall w :: !ClaimsSource(registry, w, src)) ==> answer == SlugAttribution(slug, registry))
  {
    var owners := SourceOwners(src, registry.descriptors);
    forall w ensures w in owners <==> ClaimsSource(registry, w, src) {}
    SlugNeverBySource(slug, registry);
  }

  lemma SlugNeverBySource(slug: string, registry: Registry)
    ensures forall w :: SlugAttribution(slug, registry) != Workspace(w, BySourceId)
    ensures SlugAttribution(slug, registry) != Indeterminate(SourceAmbiguous)
  {
    SoundExactly(slug);
  }

  /** A hit without a source id is kept, or dropped for its reason, by who claims the path its slug spells. */
  lemma PathDecision(segs: seq<string>, slash: bool, scope: Scope)
    requires ArePath(segs)
    ensures var decision := DecideHitScope(
              Hit(PathText(segs, slash), None), scope.servedWorkspaceId, scope.registry, scope.policy);
      && (decision == Keep <==> (
        || IsOwner(scope.registry, segs, scope.servedWorkspaceId)
        || (IsUnclaimed(scope.registry, segs) && scope.policy == Assign(scope.servedWorkspaceId))))
      && (decision == Drop(ForeignWorkspace) <==>
        exists w :: w != scope.servedWorkspaceId && IsOwner(scope.registry, segs, w))
      && (decision == Drop(LegacyDenied) <==> IsUnclaimed(scope.registry, segs) && scope.policy.Deny?)
      && (decision == Drop(LegacyNotServed) <==> (
        && IsUnclaimed(scope.registry, segs)
        && scope.policy.Assign? && scope.policy.toWorkspaceId != scope.servedWorkspaceId))
      && (decision == Drop(SlugIndeterminate) <==> AreTied(scope.registry, segs))
  {
    PathAttribution(segs, slash, scope.registry);
    var w, n := ClaimCases(scope.registry, segs);
  }
}
