/**
 * Redacting what was already redacted. The second pass no longer sees source ids, so it keeps exactly the items
 * that were kept on their slugs. Of those it forwards the same values; it forwards the same text except where an
 * edge list or an edge target had been written over a scalar in place, because the second pass moves that entry
 * to the end.
 */
module RedactionIdempotence {
  import opened Wrappers
  import opened Json
  import opened ToolCatalog
  import opened WorkspaceScope
  import opened ResultRedaction
  import opened RedactionTheorems

  /** No surviving entry follows a surviving entry under `k`. */
  ghost predicate LastSurvivor(fs: seq<Entry<Json>>, k: string, keep: set<string>) {
    forall i, j :: 0 <= i < j < |fs| && fs[i].key == k && Survives(fs[i], keep) ==> !Survives(fs[j], keep)
  }

  /** An edge whose `to` is a scalar has no scalar entry after it. */
  ghost predicate SettledEdge(link: Json) {
    link.Obj? ==> LastSurvivor(link.fields, "to", EDGE_KEEP_STRINGS)
  }

  /** A node whose `links` is a scalar has nothing to forward after it, and its kept edges are settled. */
  ghost predicate SettledNode(node: Json, scope: Scope) {
    node.Obj? ==>
      && LastSurvivor(node.fields, "links", HIT_KEEP_STRINGS)
      && match Get(node.fields, "links")
         case Some(Arr(links)) => SettledEdges(links, scope)
         case _ => true
  }

  ghost predicate Settled(kind: Kind, item: Json, scope: Scope) {
    kind.Nodes? ==> SettledNode(item, scope)
  }

  /** A hit or node is kept on its slug alone; pairs and timeline entries carry no source id. */
  predicate KeptBySlug(kind: Kind, item: Json, scope: Scope) {
    kind.Hits? || kind.Nodes? ==> KeepSlug(HitOf(item).slug, scope)
  }

  // ---- one record ---------------------------------------------------------------------------

  lemma {:induction false} LastInAllowed(fs: Fields, k: string, keep: set<string>)
    ensures KeyIndex(AllowFields(fs, keep), k) >= |AllowFields(fs, keep)| - 1 <==> LastSurvivor(fs, k, keep)
    decreases |fs|
  {
    if fs != [] {
      var n := |fs| - 1;
      var front: Fields, last := fs[..n], fs[n];
      var kept := AllowFields(front, keep);
      assert fs == front + [last];
      if Survives(last, keep) {
        KeyInAllowed(front, k, keep);
        assert AllowFields(fs, keep) == kept + [last];
        KeyIndexFront(kept, last, k);
        SurvivorAfter(front, last, k, keep);
      } else {
        LastInAllowed(front, k, keep);
        assert AllowFields(fs, keep) == kept;
        DroppedAfter(front, last, k, keep);
      }
    }
  }

  ghost predicate HasSurvivor(fs: seq<Entry<Json>>, k: string, keep: set<string>) {
    exists i :: 0 <= i < |fs| && fs[i].key == k && Survives(fs[i], keep)
  }

  lemma SurvivorAfter(front: seq<Entry<Json>>, last: Entry<Json>, k: string, keep: set<string>)
    requires Survives(last, keep)
    ensures LastSurvivor(front + [last], k, keep) <==> !HasSurvivor(front, k, keep)
  {
    var fs := front + [last];
    assert forall i :: 0 <= i < |front| ==> fs[i] == front[i];
    assert fs[|front|] == last;
    if i :| 0 <= i < |front| && front[i].key == k && Survives(front[i], keep) {
      assert fs[i].key == k && Survives(fs[i], keep) && Survives(fs[|front|], keep);
    }
  }

  lemma DroppedAfter(front: seq<Entry<Json>>, last: Entry<Json>, k: string, keep: set<string>)
    requires !Survives(last, keep)
    ensures LastSurvivor(front + [last], k, keep) <==> LastSurvivor(front, k, keep)
  {
    var fs := front + [last];
    assert forall i :: 0 <= i < |front| ==> fs[i] == front[i];
    assert fs[|front|] == last;
    if LastSurvivor(fs, k, keep) {
      forall i, j | 0 <= i < j < |front| && front[i].key == k && Survives(front[i], keep)
        ensures !Survives(front[j], keep)
      {
        assert fs[i].key == k && Survives(fs[i], keep) && !Survives(fs[j], keep);
      }
    }
  }

  lemma KeyIndexFront(a: seq<Entry<Json>>, e: Entry<Json>, k: string)
    ensures KeyIndex(a + [e], k) >= |a| <==> forall i :: 0 <= i < |a| ==> a[i].key != k
  {
    assert forall i :: 0 <= i < |a| ==> (a + [e])[i] == a[i];
  }

  lemma {:induction false} KeyInAllowed(fs: seq<Entry<Json>>, k: string, keep: set<string>)
    ensures (exists e :: e in AllowFields(fs, keep) && e.key == k) <==> HasSurvivor(fs, k, keep)
  {
    if fs != [] {
      var n := |fs| - 1;
      KeyInAllowed(fs[..n], k, keep);
      var kept := AllowFields(fs[..n], keep);
      assert forall i :: 0 <= i < n ==> fs[..n][i] == fs[i];
      if Survives(fs[n], keep) {
        assert AllowFields(fs, keep) == kept + [fs[n]];
      }
    }
  }

  lemma AllowDropsOne(pre: seq<Entry<Json>>, e: Entry<Json>, post: seq<Entry<Json>>, keep: set<string>)
    requires !Survives(e, keep)
    requires forall i :: 0 <= i < |pre| ==> Survives(pre[i], keep)
    requires forall i :: 0 <= i < |post| ==> Survives(post[i], keep)
    ensures AllowFields(pre + [e] + post, keep) == pre + post
  {
    AllowSkips(pre, [e], post, keep);
    AllowConcat(pre, post, keep);
    AllowAll(pre, keep);
    AllowAll(post, keep);
  }

  /** A record of survivors with one entry overwritten by a value that does not survive. */
  lemma AllowDropsPut(fs: Fields, k: string, v: Json, keep: set<string>)
    requires forall i :: 0 <= i < |fs| ==> Survives(fs[i], keep)
    requires !Survives(Entry(k, v), keep)
    ensures AllowFields(Put(fs, k, v), keep) == Delete(fs, k)
  {
    PutAround(fs, k, v);
    DeleteAround(fs, k);
    var (pre, post) := Around(fs, k);
    AllowDropsOne(pre, Entry(k, v), post, keep);
  }

  // ---- one edge, one node -------------------------------------------------------------------

  lemma EdgeTwice(link: Json, scope: Scope)
    requires KeepSlug(EdgeTarget(link), scope)
    ensures ForwardEdge(link, scope).Some?
    ensures ForwardEdge(ForwardEdge(link, scope).value, scope).Some?
    ensures ForwardEdge(ForwardEdge(link, scope).value, scope) == ForwardEdge(link, scope) <==> SettledEdge(link)
  {
    EmptySlugIsDropped(scope);
    assert link.Obj?;
    var target := Str(EdgeTarget(link));
    var kept := AllowItem(link.fields, EDGE_KEEP_STRINGS);
    AllowedAreSurvivors(link.fields, EDGE_KEEP_STRINGS);
    assert forall i :: 0 <= i < |kept| ==> kept[i] in kept;
    AllowDropsPut(kept, "to", target, EDGE_KEEP_STRINGS);
    PutAfterDelete(kept, "to", target, target);
    LastInAllowed(link.fields, "to", EDGE_KEEP_STRINGS);
    var once := Put(kept, "to", target);
    assert ForwardEdge(link, scope) == Some(Obj(once));
    assert EdgeTarget(Obj(once)) == target.s;
    assert ForwardEdge(Obj(once), scope) == Some(Obj(Put(Delete(kept, "to"), "to", target)));
  }

  function Listed(o: Option<Json>): seq<Json> { if o.Some? then [o.value] else [] }

  lemma PresentOne(o: Option<Json>)
    ensures Present([o]) == Listed(o)
  {
    assert [o][..0] == [];
    assert Present([]) == [];
  }

  lemma EdgesSnoc(front: seq<Json>, last: Json, scope: Scope)
    ensures ForwardEdges(front + [last], scope) == ForwardEdges(front, scope) + Listed(ForwardEdge(last, scope))
  {
    EdgesConcat(front, [last], scope);
    assert seq(1, i requires 0 <= i < 1 => ForwardEdge([last][i], scope)) == [ForwardEdge(last, scope)];
    PresentOne(ForwardEdge(last, scope));
  }

  ghost predicate SettledEdges(links: seq<Json>, scope: Scope) {
    forall l :: l in links && KeepSlug(EdgeTarget(l), scope) ==> SettledEdge(l)
  }

  lemma {:induction false} EdgesTwice(links: seq<Json>, scope: Scope)
    ensures |ForwardEdges(ForwardEdges(links, scope), scope)| == |ForwardEdges(links, scope)|
    ensures ForwardEdges(ForwardEdges(links, scope), scope) == ForwardEdges(links, scope) <==>
      SettledEdges(links, scope)
    decreases |links|
  {
    if links == [] {
      assert ForwardEdges([], scope) == [];
    } else {
      var n := |links| - 1;
      var front, last := links[..n], links[n];
      assert links == front + [last];
      EdgesTwice(front, scope);
      EdgesSnoc(front, last, scope);
      var once := ForwardEdges(front, scope);
      assert SettledEdges(links, scope) <==>
        SettledEdges(front, scope) && (KeepSlug(EdgeTarget(last), scope) ==> SettledEdge(last));
      if KeepSlug(EdgeTarget(last), scope) {
        EdgeTwice(last, scope);
        var e := ForwardEdge(last, scope).value;
        EdgesSnoc(once, e, scope);
        Snoc(ForwardEdges(once, scope), ForwardEdge(e, scope).value, once, e);
      } else {
        assert once + [] == once;
      }
    }
  }

  lemma Snoc<T>(a: seq<T>, x: T, b: seq<T>, y: T)
    ensures a + [x] == b + [y] <==> a == b && x == y
  {
    if a + [x] == b + [y] {
      assert |a| + 1 == |a + [x]| == |b + [y]|;
      assert a == (a + [x])[..|a|] == (b + [y])[..|b|] == b;
      assert x == (a + [x])[|a|];
    }
  }

  /** When no descriptor carries a source id, whatever is kept is kept on its slug. */
  lemma SlugRegistriesKeepBySlug(kind: Kind, item: Json, scope: Scope)
    requires forall d :: d in scope.registry.descriptors ==> d.sourceId.None?
    requires InScope(kind, item, scope)
    ensures KeptBySlug(kind, item, scope)
  {
    if HitOf(item).sourceId.Some? {
      assert SourceOwners(HitOf(item).sourceId.value, scope.registry.descriptors) == {};
    }
  }

  /** A reduced hit or node shows its slug and no source id. */
  lemma SourceIsDropped(fs: Fields)
    ensures StringField(Obj(AllowItem(fs, HIT_KEEP_STRINGS)), "source_id").None?
  {
    var kept := AllowItem(fs, HIT_KEEP_STRINGS);
    AllowedAreSurvivors(fs, HIT_KEEP_STRINGS);
    if Get(kept, "source_id").Some? {
      GetFound(kept, "source_id");
      assert Survives(Entry("source_id", Get(kept, "source_id").value), HIT_KEEP_STRINGS);
    }
  }

  lemma {:induction false} StringSurvives(fs: Fields, k: string, keep: set<string>)
    requires k in keep && k != "__proto__"
    ensures StringField(Obj(AllowItem(fs, keep)), k) == StringField(Obj(fs), k)
  {
    var kept := AllowItem(fs, keep);
    AllowedAreSurvivors(fs, keep);
    if Get(kept, k).Some? {
      GetFound(kept, k);
      GetIn(fs, Entry(k, Get(kept, k).value));
    } else if StringField(Obj(fs), k).Some? {
      GetFound(fs, k);
      GetAbsent(fs, k);
      var i :| 0 <= i < |fs| && fs[i] == Entry(k, Get(fs, k).value);
      KeyInAllowed(fs, k, keep);
      var e :| e in kept && e.key == k;
      GetAbsent(kept, k);
    }
  }

  lemma FlatTwice(fs: Fields, keep: set<string>)
    ensures AllowItem(AllowItem(fs, keep), keep) == AllowItem(fs, keep)
  {
    var kept := AllowItem(fs, keep);
    AllowedAreSurvivors(fs, keep);
    assert forall i :: 0 <= i < |kept| ==> kept[i] in kept;
    AllowAll(kept, keep);
  }

  lemma HitTwice(item: Json, scope: Scope)
    requires InScope(Hits, item, scope)
    ensures Forward(Hits, Reduced(Hits, item, scope), scope) ==
      if KeptBySlug(Hits, item, scope) then Some(Reduced(Hits, item, scope)) else None
  {
    KeptHitIsRecord(item, scope);
    StringSurvives(item.fields, "slug", HIT_KEEP_STRINGS);
    SourceIsDropped(item.fields);
    assert HitOf(Reduced(Hits, item, scope)) == Hit(HitOf(item).slug, None);
    FlatTwice(item.fields, HIT_KEEP_STRINGS);
  }

  /** A node with an edge list, or with `links` in some other shape, forwards as its survivors plus a list. */
  lemma NodeForm(fs: Fields, links: seq<Json>, scope: Scope)
    requires Get(fs, "links").Some?
    requires links == if Get(fs, "links").value.Arr? then ForwardEdges(Get(fs, "links").value.items, scope) else []
    ensures RedactNodeLinks(Obj(fs), scope) == Obj(Put(AllowItem(fs, HIT_KEEP_STRINGS), "links", Arr(links)))
  {
    match Get(fs, "links").value
    case Arr(_) =>
    case _ =>
  }

  lemma LinksTwice(fs: Fields, scope: Scope) returns (once: seq<Json>, twice: seq<Json>)
    requires Get(fs, "links").Some?
    ensures once == if Get(fs, "links").value.Arr? then ForwardEdges(Get(fs, "links").value.items, scope) else []
    ensures twice == ForwardEdges(once, scope)
    ensures SettledNode(Obj(fs), scope) <==> LastSurvivor(fs, "links", HIT_KEEP_STRINGS) && twice == once
  {
    if Get(fs, "links").value.Arr? {
      once := ForwardEdges(Get(fs, "links").value.items, scope);
      EdgesTwice(Get(fs, "links").value.items, scope);
    } else {
      once := [];
      assert ForwardEdges([], scope) == [];
    }
    twice := ForwardEdges(once, scope);
  }

  lemma NodeLinksTwice(fs: Fields, scope: Scope)
    ensures RedactNodeLinks(RedactNodeLinks(Obj(fs), scope), scope) == RedactNodeLinks(Obj(fs), scope)
            <==> SettledNode(Obj(fs), scope)
  {
    var kept := AllowItem(fs, HIT_KEEP_STRINGS);
    AllowedAreSurvivors(fs, HIT_KEEP_STRINGS);
    LastInAllowed(fs, "links", HIT_KEEP_STRINGS);
    FlatTwice(fs, HIT_KEEP_STRINGS);
    if Get(fs, "links").None? {
      NoLinksStay(fs);
    } else {
      var once, twice := LinksTwice(fs, scope);
      NodeForm(fs, once, scope);
      var fs1 := Put(kept, "links", Arr(once));
      NodeForm(fs1, twice, scope);
      assert forall i :: 0 <= i < |kept| ==> kept[i] in kept;
      AllowDropsPut(kept, "links", Arr(once), HIT_KEEP_STRINGS);
      PutAfterDelete(kept, "links", Arr(once), Arr(twice));
    }
  }

  lemma NoLinksStay(fs: Fields)
    requires Get(fs, "links").None?
    ensures Get(AllowItem(fs, HIT_KEEP_STRINGS), "links").None?
    ensures LastSurvivor(fs, "links", HIT_KEEP_STRINGS)
  {
    var kept := AllowItem(fs, HIT_KEEP_STRINGS);
    GetAbsent(fs, "links");
    AllowedAreSurvivors(fs, HIT_KEEP_STRINGS);
    GetAbsent(kept, "links");
    assert forall i :: 0 <= i < |kept| ==> kept[i] in fs;
  }

  lemma NodeShowsSlugOnly(fs: Fields, scope: Scope)
    ensures HitOf(RedactNodeLinks(Obj(fs), scope)) == Hit(HitOf(Obj(fs)).slug, None)
  {
    StringSurvives(fs, "slug", HIT_KEEP_STRINGS);
    SourceIsDropped(fs);
    var kept := AllowItem(fs, HIT_KEEP_STRINGS);
    match Get(fs, "links")
    case None =>
    case Some(Arr(links)) => LinksAreNotJudged(kept, Arr(ForwardEdges(links, scope)));
    case Some(_) => LinksAreNotJudged(kept, Arr([]));
  }

  lemma NodeTwice(item: Json, scope: Scope)
    requires InScope(Nodes, item, scope)
    ensures Forward(Nodes, Reduced(Nodes, item, scope), scope).Some? <==> KeptBySlug(Nodes, item, scope)
    ensures Forward(Nodes, Reduced(Nodes, item, scope), scope) == Some(Reduced(Nodes, item, scope)) <==>
      KeptBySlug(Nodes, item, scope) && SettledNode(item, scope)
  {
    KeptHitIsRecord(item, scope);
    NodeShowsSlugOnly(item.fields, scope);
    NodeLinksTwice(item.fields, scope);
  }

  lemma CopyTwice(pair: Fields, aSlug: string, bSlug: string)
    ensures A4Strip(A4Strip(pair, aSlug, bSlug), aSlug, bSlug) == A4Strip(pair, aSlug, bSlug)
  {
    var sides: Fields := [Entry("a", Str(aSlug)), Entry("b", Str(bSlug))];
    var one := CopyIfPresent(sides, pair, "severity");
    var two := CopyIfPresent(one, pair, "axis");
    var out := CopyIfPresent(two, pair, "confidence");
    GetAbsent(sides, "severity");
    GetAbsent(sides, "axis");
    GetAbsent(sides, "confidence");
    assert Get(sides, "severity").None? && Get(sides, "axis").None? && Get(sides, "confidence").None?;
    CopyReads(sides, pair, "severity", "axis");
    CopyReads(sides, pair, "severity", "confidence");
    CopyReads(one, pair, "axis", "severity");
    CopyReads(one, pair, "axis", "confidence");
    CopyReads(two, pair, "confidence", "severity");
    CopyReads(two, pair, "confidence", "axis");
    assert Get(out, "severity") == Get(pair, "severity");
    assert Get(out, "axis") == Get(pair, "axis");
    assert Get(out, "confidence") == Get(pair, "confidence");
  }

  lemma PairTwice(item: Json, scope: Scope)
    requires InScope(Pairs, item, scope)
    ensures Forward(Pairs, Reduced(Pairs, item, scope), scope) == Some(Reduced(Pairs, item, scope))
  {
    var a, b := SideOf(item, "a"), SideOf(item, "b");
    A4Reads(item.fields, a, b);
    CopyTwice(item.fields, a, b);
  }

  lemma ItemTwice(kind: Kind, item: Json, scope: Scope)
    requires InScope(kind, item, scope)
    ensures Forward(kind, Reduced(kind, item, scope), scope).Some? <==> KeptBySlug(kind, item, scope)
    ensures Forward(kind, Reduced(kind, item, scope), scope) == Some(Reduced(kind, item, scope)) <==>
      KeptBySlug(kind, item, scope) && Settled(kind, item, scope)
  {
    match kind
    case Hits => HitTwice(item, scope);
    case Nodes => NodeTwice(item, scope);
    case Pairs => PairTwice(item, scope);
    case Entries => FlatTwice(item.fields, TIMELINE_KEEP_STRINGS);
  }

  // ---- a list, a result ---------------------------------------------------------------------

  lemma OneItem(kind: Kind, item: Json, scope: Scope)
    ensures Collect(kind, [item], scope) == Listed(Forward(kind, item, scope))
  {
    assert seq(1, i requires 0 <= i < 1 => Forward(kind, [item][i], scope)) == [Forward(kind, item, scope)];
    PresentOne(Forward(kind, item, scope));
  }

  lemma CollectSnoc(kind: Kind, front: seq<Json>, last: Json, scope: Scope)
    ensures Collect(kind, front + [last], scope) == Collect(kind, front, scope) + Listed(Forward(kind, last, scope))
  {
    CollectConcat(kind, front, [last], scope);
    OneItem(kind, last, scope);
  }

  /** Every item the scope keeps is kept on its slug. */
  ghost predicate AllKeptBySlug(kind: Kind, items: seq<Json>, scope: Scope) {
    forall item :: item in items && InScope(kind, item, scope) ==> KeptBySlug(kind, item, scope)
  }

  /** And settled besides. */
  ghost predicate AllStable(kind: Kind, items: seq<Json>, scope: Scope) {
    forall item :: item in items && InScope(kind, item, scope) ==>
      KeptBySlug(kind, item, scope) && Settled(kind, item, scope)
  }

  lemma StableSnoc(kind: Kind, front: seq<Json>, last: Json, scope: Scope)
    ensures AllKeptBySlug(kind, front + [last], scope) <==>
      AllKeptBySlug(kind, front, scope) && (InScope(kind, last, scope) ==> KeptBySlug(kind, last, scope))
    ensures AllStable(kind, front + [last], scope) <==>
      AllStable(kind, front, scope) && (InScope(kind, last, scope) ==>
        KeptBySlug(kind, last, scope) && Settled(kind, last, scope))
  {
    assert forall item :: item in front + [last] <==> item in front || item == last;
  }

  /** A second pass keeps every item exactly when all are kept by slug, and changes none exactly when all are stable. */
  lemma {:induction false} CollectTwice(kind: Kind, items: seq<Json>, scope: Scope)
    ensures |Collect(kind, Collect(kind, items, scope), scope)| <= |Collect(kind, items, scope)|
    ensures |Collect(kind, Collect(kind, items, scope), scope)| == |Collect(kind, items, scope)| <==>
      AllKeptBySlug(kind, items, scope)
    ensures Collect(kind, Collect(kind, items, scope), scope) == Collect(kind, items, scope) <==>
      AllStable(kind, items, scope)
    decreases |items|
  {
    if items == [] {
      assert Collect(kind, [], scope) == [];
    } else {
      var n := |items| - 1;
      var front, last := items[..n], items[n];
      assert items == front + [last];
      CollectTwice(kind, front, scope);
      CollectSnoc(kind, front, last, scope);
      StableSnoc(kind, front, last, scope);
      if InScope(kind, last, scope) { CollectTwiceStep(kind, Collect(kind, front, scope), last, scope); }
      else { assert Collect(kind, front, scope) + [] == Collect(kind, front, scope); }
    }
  }

  lemma CollectTwiceStep(kind: Kind, once: seq<Json>, last: Json, scope: Scope)
    requires InScope(kind, last, scope) && |Collect(kind, once, scope)| <= |once|
    ensures var e := Reduced(kind, last, scope);
      var twice := Collect(kind, once + [e], scope);
      && |twice| <= |once + [e]|
      && (|twice| == |once + [e]| <==> |Collect(kind, once, scope)| == |once| && KeptBySlug(kind, last, scope))
      && (twice == once + [e] <==>
           Collect(kind, once, scope) == once && KeptBySlug(kind, last, scope) && Settled(kind, last, scope))
  {
    var e := Reduced(kind, last, scope);
    ItemTwice(kind, last, scope);
    CollectSnoc(kind, once, e, scope);
    if Forward(kind, e, scope).Some? { Snoc(Collect(kind, once, scope), Forward(kind, e, scope).value, once, e); }
  }

  lemma StringifyInjective(x: Json, y: Json, codec: Codec)
    requires ReadsBack(codec, x) && ReadsBack(codec, y)
    ensures EnvelopeOf(x, codec) == EnvelopeOf(y, codec) <==> x == y
  {
    EnvelopeReadsBack(x, codec);
    EnvelopeReadsBack(y, codec);
  }

  lemma WrappedReadsBack(kind: Kind, kept: seq<Json>)
    ensures ItemsOf(kind, Wrapped(kind, kept)) == Some(kept)
  {
    if kind.Pairs? {
      var fs: Fields := [Entry("contradictions", Arr(kept))];
      GetAt(fs, 0);
    }
  }

  /** The codec reads back both what the first pass forwards and what the second does. */
  ghost predicate BothReadBack(kind: Kind, items: seq<Json>, scope: Scope, codec: Codec) {
    var kept := Collect(kind, items, scope);
    ReadsBack(codec, Wrapped(kind, kept)) && ReadsBack(codec, Wrapped(kind, Collect(kind, kept, scope)))
  }

  /** Such a codec exists for every payload, and so does a result that carries the payload. */
  lemma BothCanReadBack(kind: Kind, payload: Json, items: seq<Json>, scope: Scope) returns (codec: Codec, result: Json)
    ensures BothReadBack(kind, items, scope, codec) && PayloadOf(result, codec) == Some(payload)
  {
    var kept := Collect(kind, items, scope);
    codec := SomeCodecReadsBack(payload, Wrapped(kind, kept), Wrapped(kind, Collect(kind, kept, scope)));
    result := EnvelopeOf(payload, codec);
    EnvelopeReadsBack(payload, codec);
  }

  /**
   * Redacting a redacted envelope returns the same envelope, exactly when every kept item of the accepted
   * payload was kept on its slug and is settled. Contradiction pairs and timeline entries always are.
   */
  lemma RedactTextTwice(kind: Kind, result: Json, scope: Scope, codec: Codec, payload: Json)
    requires PayloadOf(result, codec) == Some(payload) && ItemsOf(kind, payload).Some?
    requires BothReadBack(kind, ItemsOf(kind, payload).value, scope, codec)
    ensures var once := RedactText(kind, result, scope, codec).output;
      RedactText(kind, once, scope, codec).output == once <==> AllStable(kind, ItemsOf(kind, payload).value, scope)
  {
    var items := ItemsOf(kind, payload).value;
    var kept := Collect(kind, items, scope);
    EnvelopeReadsBack(Wrapped(kind, kept), codec);
    WrappedReadsBack(kind, kept);
    CollectTwice(kind, items, scope);
    var again := Collect(kind, kept, scope);
    StringifyInjective(Wrapped(kind, again), Wrapped(kind, kept), codec);
    WrappedReadsBack(kind, again);
  }

  /** The same, for every tool the redactor admits. */
  lemma RedactingTwice(name: Json, result: Json, scope: Scope, codec: Codec, kind: Kind, payload: Json)
    requires ToolFault(name, scope).None? && IsRedactedAs(GbrainReadToolOf(name.s).value.op, kind)
    requires PayloadOf(result, codec) == Some(payload) && ItemsOf(kind, payload).Some?
    requires BothReadBack(kind, ItemsOf(kind, payload).value, scope, codec)
    ensures var once := RedactedResult(name, result, scope, codec).output;
      RedactedResult(name, once, scope, codec).output == once <==> AllStable(kind, ItemsOf(kind, payload).value, scope)
  {
    RedactTextTwice(kind, result, scope, codec, payload);
  }

  lemma FailClosedIsEmpty(name: Json, result: Json, scope: Scope, codec: Codec)
    requires RedactedResult(name, result, scope, codec).failClosed
    ensures RedactedResult(name, result, scope, codec).output == EMPTY_ENVELOPE
  {}

  lemma EmptyStaysEmpty(name: Json, scope: Scope, codec: Codec)
    ensures RedactedResult(name, EMPTY_ENVELOPE, scope, codec).output == EMPTY_ENVELOPE
  {
    EmptyEnvelopeCarriesNothing();
  }

  /** A result dropped as a whole stays dropped. */
  lemma FailClosedTwice(name: Json, result: Json, scope: Scope, codec: Codec)
    requires RedactedResult(name, result, scope, codec).failClosed
    ensures RedactedResult(name, RedactedResult(name, result, scope, codec).output, scope, codec).output ==
      EMPTY_ENVELOPE
  {
    FailClosedIsEmpty(name, result, scope, codec);
    EmptyStaysEmpty(name, scope, codec);
  }

  // ---- the same values ----------------------------------------------------------------------

  /** Equality of JSON values, which does not look at the order of an object's entries. */
  ghost predicate Same(x: Json, y: Json) {
    match (x, y)
    case (Arr(xs), Arr(ys)) => |xs| == |ys| && forall i :: 0 <= i < |xs| ==> Same(xs[i], ys[i])
    case (Obj(f), Obj(g)) =>
      && |f| == |g|
      && forall i :: 0 <= i < |f| ==> Get(g, f[i].key).Some? && Same(f[i].value, Get(g, f[i].key).value)
    case _ => x == y
  }

  lemma {:induction false} SameReflexive(x: Json)
    ensures Same(x, x)
  {
    match x
    case Arr(xs) =>
      forall i | 0 <= i < |xs| ensures Same(xs[i], xs[i]) { SameReflexive(xs[i]); }
    case Obj(f) =>
      forall i | 0 <= i < |f| ensures Get(f, f[i].key) == Some(f[i].value) && Same(f[i].value, f[i].value) {
        GetAt(f, i);
        SameReflexive(f[i].value);
      }
    case _ =>
  }

  /** Moving an entry to the end, with an equal value, gives an equal object. */
  lemma MovedEntry(fs: Fields, k: string, v: Json, w: Json)
    requires Same(v, w)
    ensures Same(Obj(Put(fs, k, v)), Obj(Put(Delete(fs, k), k, w)))
  {
    var f, g := Put(fs, k, v), Put(Delete(fs, k), k, w);
    PutAfterDelete(fs, k, v, w);
    PutAround(fs, k, v);
    DeleteAround(fs, k);
    forall i | 0 <= i < |f| ensures Get(g, f[i].key).Some? && Same(f[i].value, Get(g, f[i].key).value) {
      GetAt(f, i);
      if f[i].key != k {
        GetOther(fs, k, v, f[i].key);
        GetOther(Delete(fs, k), k, w, f[i].key);
        SameReflexive(f[i].value);
      }
    }
  }

  lemma EdgeSame(link: Json, scope: Scope)
    requires KeepSlug(EdgeTarget(link), scope)
    ensures ForwardEdge(link, scope).Some? && ForwardEdge(ForwardEdge(link, scope).value, scope).Some?
    ensures Same(ForwardEdge(link, scope).value, ForwardEdge(ForwardEdge(link, scope).value, scope).value)
  {
    EmptySlugIsDropped(scope);
    var target := Str(EdgeTarget(link));
    var kept := AllowItem(link.fields, EDGE_KEEP_STRINGS);
    AllowedAreSurvivors(link.fields, EDGE_KEEP_STRINGS);
    assert forall i :: 0 <= i < |kept| ==> kept[i] in kept;
    AllowDropsPut(kept, "to", target, EDGE_KEEP_STRINGS);
    MovedEntry(kept, "to", target, target);
    assert EdgeTarget(Obj(Put(kept, "to", target))) == target.s;
  }

  lemma {:induction false} EdgesSame(links: seq<Json>, scope: Scope)
    ensures Same(Arr(ForwardEdges(links, scope)), Arr(ForwardEdges(ForwardEdges(links, scope), scope)))
    decreases |links|
  {
    if links == [] {
      assert ForwardEdges([], scope) == [];
    } else {
      var n := |links| - 1;
      var front, last := links[..n], links[n];
      assert links == front + [last];
      EdgesSame(front, scope);
      EdgesSnoc(front, last, scope);
      var once := ForwardEdges(front, scope);
      if KeepSlug(EdgeTarget(last), scope) {
        EdgeSame(last, scope);
        var e := ForwardEdge(last, scope).value;
        EdgesSnoc(once, e, scope);
        SameSnoc(once, e, ForwardEdges(once, scope), ForwardEdge(e, scope).value);
      } else {
        assert once + [] == once;
      }
    }
  }

  lemma NodeLinksSame(fs: Fields, scope: Scope)
    ensures Same(RedactNodeLinks(Obj(fs), scope), RedactNodeLinks(RedactNodeLinks(Obj(fs), scope), scope))
  {
    var kept := AllowItem(fs, HIT_KEEP_STRINGS);
    AllowedAreSurvivors(fs, HIT_KEEP_STRINGS);
    if Get(fs, "links").None? {
      NoLinksStay(fs);
      FlatTwice(fs, HIT_KEEP_STRINGS);
      SameReflexive(Obj(kept));
    } else {
      var once, twice := LinksTwice(fs, scope);
      NodeForm(fs, once, scope);
      NodeForm(Put(kept, "links", Arr(once)), twice, scope);
      assert forall i :: 0 <= i < |kept| ==> kept[i] in kept;
      AllowDropsPut(kept, "links", Arr(once), HIT_KEEP_STRINGS);
      if Get(fs, "links").value.Arr? { EdgesSame(Get(fs, "links").value.items, scope); }
      MovedEntry(kept, "links", Arr(once), Arr(twice));
    }
  }

  lemma ItemSame(kind: Kind, item: Json, scope: Scope)
    requires InScope(kind, item, scope) && KeptBySlug(kind, item, scope)
    ensures Forward(kind, Reduced(kind, item, scope), scope).Some?
    ensures Same(Reduced(kind, item, scope), Forward(kind, Reduced(kind, item, scope), scope).value)
  {
    ItemTwice(kind, item, scope);
    if kind.Nodes? {
      KeptHitIsRecord(item, scope);
      NodeLinksSame(item.fields, scope);
      ForwardedNodeIsOwned(item, scope);
    } else {
      SameReflexive(Reduced(kind, item, scope));
    }
  }

  lemma {:induction false} CollectSame(kind: Kind, items: seq<Json>, scope: Scope)
    requires AllKeptBySlug(kind, items, scope)
    ensures Same(Arr(Collect(kind, items, scope)), Arr(Collect(kind, Collect(kind, items, scope), scope)))
    decreases |items|
  {
    if items == [] {
      assert Collect(kind, [], scope) == [];
    } else {
      var n := |items| - 1;
      var front, last := items[..n], items[n];
      assert items == front + [last];
      StableSnoc(kind, front, last, scope);
      CollectSame(kind, front, scope);
      CollectSnoc(kind, front, last, scope);
      var once := Collect(kind, front, scope);
      if InScope(kind, last, scope) {
        ItemSame(kind, last, scope);
        var e := Reduced(kind, last, scope);
        CollectSnoc(kind, once, e, scope);
        SameSnoc(once, e, Collect(kind, once, scope), Forward(kind, e, scope).value);
      } else {
        assert once + [] == once;
      }
    }
  }

  lemma SameSnoc(a: seq<Json>, x: Json, b: seq<Json>, y: Json)
    requires Same(Arr(a), Arr(b)) && Same(x, y)
    ensures Same(Arr(a + [x]), Arr(b + [y]))
  {}

  /** The second envelope drops nothing and carries the same values as the first. */
  ghost predicate SameAnswer(once: Redacted, twice: Redacted, kind: Kind, codec: Codec) {
    && !twice.failClosed && twice.dropped == 0
    && ForwardedItems(once, kind, codec).Some? && ForwardedItems(twice, kind, codec).Some?
    && Same(Arr(ForwardedItems(once, kind, codec).value), Arr(ForwardedItems(twice, kind, codec).value))
  }

  /** Redacting an accepted result again forwards the same values exactly when every kept item was kept on its slug. */
  lemma RedactTextTwiceSameValues(kind: Kind, result: Json, scope: Scope, codec: Codec, payload: Json)
    requires PayloadOf(result, codec) == Some(payload) && ItemsOf(kind, payload).Some?
    requires BothReadBack(kind, ItemsOf(kind, payload).value, scope, codec)
    ensures var once := RedactText(kind, result, scope, codec);
      SameAnswer(once, RedactText(kind, once.output, scope, codec), kind, codec) <==>
      AllKeptBySlug(kind, ItemsOf(kind, payload).value, scope)
  {
    var items := ItemsOf(kind, payload).value;
    var kept := Collect(kind, items, scope);
    AcceptedPayload(kind, payload, scope, codec);
    EnvelopeReadsBack(Wrapped(kind, kept), codec);
    WrappedReadsBack(kind, kept);
    AcceptedPayload(kind, Wrapped(kind, kept), scope, codec);
    CollectTwice(kind, items, scope);
    if AllKeptBySlug(kind, items, scope) { CollectSame(kind, items, scope); }
  }

  /** The same, for every tool the redactor admits. */
  lemma RedactingTwiceSameValues(name: Json, result: Json, scope: Scope, codec: Codec, kind: Kind, payload: Json)
    requires ToolFault(name, scope).None? && IsRedactedAs(GbrainReadToolOf(name.s).value.op, kind)
    requires PayloadOf(result, codec) == Some(payload) && ItemsOf(kind, payload).Some?
    requires BothReadBack(kind, ItemsOf(kind, payload).value, scope, codec)
    ensures var once := RedactedResult(name, result, scope, codec);
      SameAnswer(once, RedactedResult(name, once.output, scope, codec), kind, codec) <==>
      AllKeptBySlug(kind, ItemsOf(kind, payload).value, scope)
  {
    RedactTextTwiceSameValues(kind, result, scope, codec, payload);
  }

  // ---- why the conditions are there ---------------------------------------------------------

  /** A kept node with a scalar `links` before its title comes back with the list last: not settled. */
  lemma ScalarLinksMove(slug: string, scope: Scope)
    requires KeepSlug(slug, scope)
    ensures var node := Obj([Entry("slug", Str(slug)), Entry("links", Num(5.0)), Entry("title", Str("t"))]);
      Collect(Nodes, Collect(Nodes, [node], scope), scope) != Collect(Nodes, [node], scope)
  {
    var fs: Fields := [Entry("slug", Str(slug)), Entry("links", Num(5.0)), Entry("title", Str("t"))];
    GetAt(fs, 0);
    GetAbsent(fs, "source_id");
    assert HitOf(Obj(fs)) == Hit(slug, None);
    CollectTwice(Nodes, [Obj(fs)], scope);
    assert Survives(fs[1], HIT_KEEP_STRINGS) && Survives(fs[2], HIT_KEEP_STRINGS);
    assert Obj(fs) in [Obj(fs)] && InScope(Nodes, Obj(fs), scope) && !Settled(Nodes, Obj(fs), scope);
  }

  lemma KeptBySource(scope: Scope)
    requires scope.registry == Registry([Descriptor("w", [], Some("src"))]) && scope.servedWorkspaceId == "w"
    ensures Keeps(Hit("a", Some("src")), scope)
  {
    var ds := scope.registry.descriptors;
    assert ds[0] in ds && ds[0].workspaceId in SourceOwners("src", ds);
  }

  lemma DroppedBySlug(scope: Scope)
    requires scope.registry == Registry([Descriptor("w", [], Some("src"))]) && scope.policy == Deny
    ensures !Keeps(Hit("a", None), scope)
  {
    assert Reach(SegmentsOf("a"), scope.registry.descriptors) == {};
  }

  lemma SlugSurvivesSourceDoesNot(slug: string, src: string)
    ensures Survives(Entry("slug", Str(slug)), HIT_KEEP_STRINGS) &&
      !Survives(Entry("source_id", Str(src)), HIT_KEEP_STRINGS)
  {}

  lemma AllowFirstOfTwo(e: Entry<Json>, f: Entry<Json>, keep: set<string>)
    requires Survives(e, keep) && !Survives(f, keep)
    ensures AllowFields([e, f], keep) == [e]
  {
    assert [e, f] == [e] + [f];
    AllowConcat([e], [f], keep);
    AllowAll([e], keep);
    AllowNone([f], keep);
  }

  lemma SourceIsStripped(slug: string, src: string)
    ensures AllowFields([Entry("slug", Str(slug)), Entry("source_id", Str(src))], HIT_KEEP_STRINGS) ==
      [Entry("slug", Str(slug))]
  {
    SlugSurvivesSourceDoesNot(slug, src);
    AllowFirstOfTwo(Entry("slug", Str(slug)), Entry("source_id", Str(src)), HIT_KEEP_STRINGS);
  }

  /** With a source id in the registry a hit can be kept by its source and lost on the second pass. */
  lemma SourceIdsAreNeeded(scope: Scope)
    requires scope.registry == Registry([Descriptor("w", [], Some("src"))])
    requires scope.servedWorkspaceId == "w" && scope.policy == Deny
    ensures var hit := Obj([Entry("slug", Str("a")), Entry("source_id", Str("src"))]);
      |Collect(Hits, [hit], scope)| == 1 && Collect(Hits, Collect(Hits, [hit], scope), scope) == []
  {
    var fs: Fields := [Entry("slug", Str("a")), Entry("source_id", Str("src"))];
    GetAt(fs, 0);
    GetAt(fs, 1);
    assert HitOf(Obj(fs)) == Hit("a", Some("src"));
    KeptBySource(scope);
    SourceIsStripped("a", "src");
    OneItem(Hits, Obj(fs), scope);
    var once: Fields := [Entry("slug", Str("a"))];
    GetAt(once, 0);
    GetAbsent(once, "source_id");
    assert HitOf(Obj(once)) == Hit("a", None);
    DroppedBySlug(scope);
    OneItem(Hits, Obj(once), scope);
  }
}
