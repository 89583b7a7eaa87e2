/**
 * What is in the answer, tool by tool: which raw items are forwarded, in which order and in what form. The statements
 * are about tool names and literal field names; nothing of how the redactor is organised appears in them.
 */
module RedactionContent {
  import opened Wrappers
  import opened Json
  import opened ToolCatalog
  import opened WorkspaceScope
  import opened ResultRedaction
  import opened RedactionTheorems

  // ---- selections -----------------------------------------------------------------------------

  /** `at` lists the positions of `xs` that `wanted` accepts: all of them, in order. */
  ghost predicate Selects<T(!new)>(xs: seq<T>, at: seq<nat>, wanted: T -> bool) {
    && (forall i, j :: 0 <= i < j < |at| ==> at[i] < at[j])
    && (forall i :: i in at ==> i < |xs| && wanted(xs[i]))
    && (forall k :: 0 <= k < |xs| && wanted(xs[k]) ==> k in at)
  }

  lemma SelectsMore<T(!new)>(xs: seq<T>, x: T, at: seq<nat>, wanted: T -> bool)
    requires Selects(xs, at, wanted)
    ensures Selects(xs + [x], if wanted(x) then at + [|xs|] else at, wanted)
  {
    var all, more := xs + [x], if wanted(x) then at + [|xs|] else at;
    forall i, j | 0 <= i < j < |more| ensures more[i] < more[j] {
      if j < |at| { assert more[i] == at[i] && more[j] == at[j]; } else { assert at[i] in at; }
    }
    forall i | i in more ensures i < |all| && wanted(all[i]) { if i in at { assert all[i] == xs[i]; } }
    forall k | 0 <= k < |all| && wanted(all[k]) ensures k in more {
      if k < |xs| { assert all[k] == xs[k] && k in at; assert k in more; } else { assert more[|at|] == k; }
    }
  }

  /** `ys` answers `xs` item by item: one for each that is wanted, in order, in the form it is due. */
  ghost predicate Answers<T(!new), U(!new)>(xs: seq<T>, ys: seq<U>, wanted: T -> bool, form: (T, U) -> bool) {
    exists at: seq<nat> :: Selects(xs, at, wanted) && Formed(xs, ys, at, form)
  }

  ghost predicate Formed<T(!new), U(!new)>(xs: seq<T>, ys: seq<U>, at: seq<nat>, form: (T, U) -> bool) {
    |at| == |ys| && forall k :: 0 <= k < |ys| ==> at[k] < |xs| && form(xs[at[k]], ys[k])
  }

  /** One more item is answered by one more form when it is wanted, and by nothing when not. */
  lemma AnswersMore<T(!new), U(!new)>(xs: seq<T>, ys: seq<U>, x: T, y: U, wanted: T -> bool, form: (T, U) -> bool,
      allXs: seq<T>, allYs: seq<U>)
    requires Answers(xs, ys, wanted, form)
    requires wanted(x) ==> form(x, y)
    requires allXs == xs + [x] && allYs == if wanted(x) then ys + [y] else ys
    ensures Answers(allXs, allYs, wanted, form)
  {
    var at: seq<nat> :| Selects(xs, at, wanted) && Formed(xs, ys, at, form);
    SelectsMore(xs, x, at, wanted);
    FormedMore(xs, ys, x, y, at, form);
    assert Formed(allXs, allYs, if wanted(x) then at + [|xs|] else at, form);
  }

  lemma FormedMore<T(!new), U(!new)>(xs: seq<T>, ys: seq<U>, x: T, y: U, at: seq<nat>, form: (T, U) -> bool)
    requires Formed(xs, ys, at, form)
    ensures Formed(xs + [x], ys, at, form)
    ensures form(x, y) ==> Formed(xs + [x], ys + [y], at + [|xs|], form)
  {
    var all := xs + [x];
    assert forall k :: 0 <= k < |ys| ==> all[at[k]] == xs[at[k]];
  }

  lemma NothingAnswers<T(!new), U(!new)>(wanted: T -> bool, form: (T, U) -> bool)
    ensures Answers([], [], wanted, form)
  {
    var none: seq<nat> := [];
    assert Selects([], none, wanted) && Formed([], [], none, form);
  }

  lemma {:induction false} PresentAnswers(xs: seq<Json>, ys: seq<Option<Json>>, wanted: Json -> bool,
      form: (Json, Json) -> bool)
    requires |xs| == |ys|
    requires forall i :: 0 <= i < |xs| ==> (ys[i].Some? <==> wanted(xs[i]))
    requires forall i :: 0 <= i < |xs| && ys[i].Some? ==> form(xs[i], ys[i].value)
    ensures Answers(xs, Present(ys), wanted, form)
    decreases |xs|
  {
    if xs == [] {
      NothingAnswers(wanted, form);
    } else {
      var n := |xs| - 1;
      var front, x, last := xs[..n], xs[n], if ys[n].Some? then ys[n].value else Null;
      PresentAnswers(front, ys[..n], wanted, form);
      AnswersMore(front, Present(ys[..n]), x, last, wanted, form, xs, Present(ys));
    }
  }

  lemma CollectAnswers(kind: Kind, items: seq<Json>, scope: Scope, wanted: Json -> bool, form: (Json, Json) -> bool)
    requires forall item :: item in items ==> (InScope(kind, item, scope) <==> wanted(item))
    requires forall item :: item in items && wanted(item) ==> form(item, Reduced(kind, item, scope))
    ensures Answers(items, Collect(kind, items, scope), wanted, form)
  {
    var ys := seq(|items|, i requires 0 <= i < |items| => Forward(kind, items[i], scope));
    PresentAnswers(items, ys, wanted, form);
  }

  // ---- what belongs to the served workspace ---------------------------------------------------

  /** The slug and source id attribute to the served workspace, or are legacy content assigned to it. */
  ghost predicate Belongs(slug: string, sourceId: Option<string>, scope: Scope) {
    match HitAttribution(Hit(slug, sourceId), scope.registry)
    case Workspace(w, _) => w == scope.servedWorkspaceId
    case Legacy => scope.policy == Assign(scope.servedWorkspaceId)
    case Indeterminate(_) => false
  }

  ghost predicate ItemBelongs(item: Json, scope: Scope) {
    && item.Obj?
    && Belongs(if StringField(item, "slug").Some? then StringField(item, "slug").value else "",
               StringField(item, "source_id"), scope)
  }

  ghost function Belonging(scope: Scope): Json -> bool { item => ItemBelongs(item, scope) }

  /** The text an edge leads to: the one under `to`, or under `target` when `to` holds none. */
  predicate LeadsTo(edge: Json, slug: string) {
    || StringField(edge, "to") == Some(slug)
    || (StringField(edge, "to").None? && StringField(edge, "target") == Some(slug))
  }

  ghost predicate EdgeBelongs(edge: Json, scope: Scope) {
    exists slug :: LeadsTo(edge, slug) && Belongs(slug, None, scope)
  }

  ghost function BelongingEdge(scope: Scope): Json -> bool { edge => EdgeBelongs(edge, scope) }

  /** A side of a contradiction is a slug, or a record with one. */
  predicate SideIs(pair: Json, side: string, slug: string) {
    || StringField(pair, side) == Some(slug)
    || (Field(pair, side).Some? && StringField(Field(pair, side).value, "slug") == Some(slug))
  }

  ghost predicate PairBelongs(pair: Json, scope: Scope) {
    exists a, b ::
      SideIs(pair, "a", a) && SideIs(pair, "b", b) && Belongs(a, None, scope) && Belongs(b, None, scope)
  }

  ghost function BelongingPair(scope: Scope): Json -> bool { pair => PairBelongs(pair, scope) }

  ghost function AnyRecord(): Json -> bool { (entry: Json) => entry.Obj? }

  // ---- the forms of a forwarded item ----------------------------------------------------------

  /** Numbers, booleans, and the strings under the given names. */
  predicate Carried(e: Entry<Json>, names: set<string>) {
    e.key != "__proto__" && (e.value.Num? || e.value.Bool? || (e.value.Str? && e.key in names))
  }

  ghost function Carries(names: set<string>): Entry<Json> -> bool { e => Carried(e, names) }

  ghost function AsItIs(): (Entry<Json>, Entry<Json>) -> bool { (e, f) => e == f }

  /** The carried entries of the raw record, all of them, in order and unchanged. */
  ghost predicate IsReduction(raw: Json, out: Json, names: set<string>) {
    raw.Obj? && out.Obj? && Answers<Entry<Json>, Entry<Json>>(raw.fields, out.fields, Carries(names), AsItIs())
  }

  ghost predicate IsHitForm(raw: Json, out: Json) {
    && IsReduction(raw, out, {"slug", "title", "chunk_text", "summary", "content", "text"})
    && StringField(out, "slug") == StringField(raw, "slug")
  }

  ghost function HitForm(): (Json, Json) -> bool { (raw, out) => IsHitForm(raw, out) }

  ghost function EntryForm(): (Json, Json) -> bool {
    (raw, out) => IsReduction(raw, out, {"date", "summary", "detail", "source", "title"})
  }

  /** An edge keeps its numbers and booleans, and under `to` the text it leads to. */
  ghost predicate IsEdgeForm(raw: Json, out: Json) {
    && raw.Obj? && out.Obj?
    && StringField(out, "to").Some? && LeadsTo(raw, StringField(out, "to").value)
    && forall e: Entry<Json> :: e.key != "to" ==> (e in out.fields <==> e in raw.fields && Carried(e, {}))
  }

  ghost function EdgeForm(): (Json, Json) -> bool { (raw, out) => IsEdgeForm(raw, out) }

  /** A node is reduced like a hit, and its `links` are the edges that belong; a malformed list has none. */
  ghost predicate IsNodeForm(raw: Json, out: Json, scope: Scope) {
    && raw.Obj? && out.Obj?
    && StringField(out, "slug") == StringField(raw, "slug")
    && (forall e: Entry<Json> :: e.key != "links" ==>
      (e in out.fields <==>
        e in raw.fields && Carried(e, {"slug", "title", "chunk_text", "summary", "content", "text"})))
    && match Field(raw, "links")
       case None => Field(out, "links").None?
       case Some(links) =>
         && Field(out, "links").Some? && Field(out, "links").value.Arr?
         && Answers(if links.Arr? then links.items else [], Field(out, "links").value.items,
                    BelongingEdge(scope), EdgeForm())
  }

  ghost function NodeForm(scope: Scope): (Json, Json) -> bool { (raw, out) => IsNodeForm(raw, out, scope) }

  /** A pair keeps the slugs of its sides, its severity, axis and confidence, and nothing else. */
  ghost predicate IsPairForm(raw: Json, out: Json) {
    && out.Obj?
    && StringField(out, "a").Some? && SideIs(raw, "a", StringField(out, "a").value)
    && StringField(out, "b").Some? && SideIs(raw, "b", StringField(out, "b").value)
    && forall k :: k !in {"a", "b"} ==>
      Field(out, k) == if k in {"severity", "axis", "confidence"} then Field(raw, k) else None
  }

  ghost function PairForm(): (Json, Json) -> bool { (raw, out) => IsPairForm(raw, out) }

  // ---- the forms are what the redactor makes --------------------------------------------------

  lemma {:induction false} AllowAnswers(fs: seq<Entry<Json>>, names: set<string>)
    ensures Answers<Entry<Json>, Entry<Json>>(fs, AllowFields(fs, names), Carries(names), AsItIs())
  {
    if fs == [] {
      NothingAnswers<Entry<Json>, Entry<Json>>(Carries(names), AsItIs());
    } else {
      var n := |fs| - 1;
      var front, last := fs[..n], fs[n];
      AllowAnswers(front, names);
      AnswersMore<Entry<Json>, Entry<Json>>(
        front, AllowFields(front, names), last, last, Carries(names), AsItIs(), fs, AllowFields(fs, names));
    }
  }

  lemma {:induction false} AllowMembers(fs: seq<Entry<Json>>, names: set<string>)
    ensures forall e :: e in AllowFields(fs, names) <==> e in fs && Carried(e, names)
  {
    if fs != [] {
      var n := |fs| - 1;
      assert fs == fs[..n] + [fs[n]];
      AllowMembers(fs[..n], names);
    }
  }

  /** Reduction keeps the string under an allow-listed name, and makes no other. */
  lemma ReducedString(fs: Fields, names: set<string>, k: string)
    requires k in names && k != "__proto__"
    ensures StringField(Obj(AllowItem(fs, names)), k) == StringField(Obj(fs), k)
  {
    var out := AllowItem(fs, names);
    AllowMembers(fs, names);
    if StringField(Obj(fs), k).Some? {
      GetFound(fs, k);
      GetIn(out, Entry(k, Get(fs, k).value));
    }
    if StringField(Obj(out), k).Some? {
      GetFound(out, k);
      GetIn(fs, Entry(k, Get(out, k).value));
    }
  }

  lemma HitIsReduced(item: Json, scope: Scope)
    requires item.Obj?
    ensures IsHitForm(item, Reduced(Hits, item, scope))
  {
    AllowAnswers(item.fields, HIT_KEEP_STRINGS);
    ReducedString(item.fields, HIT_KEEP_STRINGS, "slug");
  }

  lemma EntryIsReduced(item: Json, scope: Scope)
    requires item.Obj?
    ensures EntryForm()(item, Reduced(Entries, item, scope))
  {
    AllowAnswers(item.fields, TIMELINE_KEEP_STRINGS);
  }

  lemma KeepsIsBelongs(slug: string, sourceId: Option<string>, scope: Scope)
    ensures Keeps(Hit(slug, sourceId), scope) <==> Belongs(slug, sourceId, scope)
    ensures !Belongs("", None, scope)
  {
    KeptExactlyWhenOwned(Hit(slug, sourceId), scope);
    EmptySlugIsDropped(scope);
  }

  lemma ItemKept(item: Json, scope: Scope)
    ensures Keeps(HitOf(item), scope) <==> ItemBelongs(item, scope)
  {
    var hit := HitOf(item);
    KeepsIsBelongs(hit.slug, hit.sourceId, scope);
  }

  lemma EdgeKept(edge: Json, scope: Scope)
    ensures KeepSlug(EdgeTarget(edge), scope) <==> EdgeBelongs(edge, scope)
    ensures EdgeBelongs(edge, scope) ==> LeadsTo(edge, EdgeTarget(edge)) && edge.Obj?
  {
    KeepsIsBelongs(EdgeTarget(edge), None, scope);
    assert forall slug :: LeadsTo(edge, slug) ==> slug == EdgeTarget(edge);
  }

  /** Members of a record after one key was written: the written one, and all others as they were. */
  lemma PutExactly(fs: Fields, k: string, v: Json)
    ensures forall e: Entry<Json> :: e.key != k ==> (e in Put(fs, k, v) <==> e in fs)
  {
    forall e: Entry<Json> | e.key != k ensures e in Put(fs, k, v) <==> e in fs {
      GetOther(fs, k, v, e.key);
      if e in fs { GetIn(fs, e); GetFound(Put(fs, k, v), e.key); }
      if e in Put(fs, k, v) { GetIn(Put(fs, k, v), e); GetFound(fs, e.key); }
    }
  }

  lemma EdgeIsReduced(edge: Json, scope: Scope)
    requires EdgeBelongs(edge, scope)
    ensures ForwardEdge(edge, scope).Some? && IsEdgeForm(edge, ForwardEdge(edge, scope).value)
  {
    EdgeKept(edge, scope);
    AllowMembers(edge.fields, {});
    PutExactly(AllowItem(edge.fields, {}), "to", Str(EdgeTarget(edge)));
  }

  lemma EdgesAnswer(links: seq<Json>, scope: Scope)
    ensures Answers(links, ForwardEdges(links, scope), BelongingEdge(scope), EdgeForm())
  {
    var ys := seq(|links|, i requires 0 <= i < |links| => ForwardEdge(links[i], scope));
    forall i | 0 <= i < |links|
      ensures ys[i].Some? <==> BelongingEdge(scope)(links[i])
      ensures ys[i].Some? ==> EdgeForm()(links[i], ys[i].value)
    {
      EdgeKept(links[i], scope);
      if EdgeBelongs(links[i], scope) { EdgeIsReduced(links[i], scope); }
    }
    PresentAnswers(links, ys, BelongingEdge(scope), EdgeForm());
  }

  lemma NodeIsReduced(item: Json, scope: Scope)
    requires item.Obj?
    ensures IsNodeForm(item, Reduced(Nodes, item, scope), scope)
  {
    var scrubbed := AllowItem(item.fields, HIT_KEEP_STRINGS);
    AllowMembers(item.fields, HIT_KEEP_STRINGS);
    ReducedString(item.fields, HIT_KEEP_STRINGS, "slug");
    var links := Get(item.fields, "links");
    if links.Some? {
      var raw := if links.value.Arr? then links.value.items else [];
      EdgesAnswer(raw, scope);
      LinksWritten(scrubbed, ForwardEdges(raw, scope));
      assert Reduced(Nodes, item, scope) == Obj(Put(scrubbed, "links", Arr(ForwardEdges(raw, scope))));
    } else {
      NoneReduced(item.fields, HIT_KEEP_STRINGS, "links");
    }
  }

  lemma LinksWritten(fs: Fields, edges: seq<Json>)
    ensures var out := Put(fs, "links", Arr(edges));
      && Get(out, "links") == Some(Arr(edges)) && Get(out, "slug") == Get(fs, "slug")
      && forall e: Entry<Json> :: e.key != "links" ==> (e in out <==> e in fs)
  {
    PutExactly(fs, "links", Arr(edges));
    GetOther(fs, "links", Arr(edges), "slug");
  }

  lemma NoneReduced(fs: Fields, names: set<string>, k: string)
    requires Get(fs, k).None?
    ensures Get(AllowItem(fs, names), k).None?
  {
    var out := AllowItem(fs, names);
    AllowMembers(fs, names);
    if Get(out, k).Some? {
      GetFound(out, k);
      GetIn(fs, Entry(k, Get(out, k).value));
    }
  }

  lemma SideKept(pair: Json, side: string, scope: Scope)
    requires pair.Obj?
    ensures KeepSlug(SideOf(pair, side), scope) <==>
      exists slug :: SideIs(pair, side, slug) && Belongs(slug, None, scope)
    ensures KeepSlug(SideOf(pair, side), scope) ==> SideIs(pair, side, SideOf(pair, side))
  {
    var slug := SideOf(pair, side);
    KeepsIsBelongs(slug, None, scope);
    assert forall t :: SideIs(pair, side, t) ==> t == slug;
  }

  lemma PairKept(pair: Json, scope: Scope)
    ensures InScope(Pairs, pair, scope) <==> PairBelongs(pair, scope)
    ensures PairBelongs(pair, scope) ==>
      pair.Obj? && SideIs(pair, "a", SideOf(pair, "a")) && SideIs(pair, "b", SideOf(pair, "b"))
  {
    if pair.Obj? {
      SideKept(pair, "a", scope);
      SideKept(pair, "b", scope);
    }
  }

  lemma CopiedOrNot(out: Fields, from: Fields, k: string)
    ensures Get(CopyIfPresent(out, from, k), k) == if Get(from, k).Some? then Get(from, k) else Get(out, k)
  {}

  lemma StripReads(pair: Fields, aSlug: string, bSlug: string, k: string)
    requires k !in {"a", "b"}
    ensures Get(A4Strip(pair, aSlug, bSlug), k) ==
      if k in {"severity", "axis", "confidence"} then Get(pair, k) else None
  {
    var sides: Fields := [Entry("a", Str(aSlug)), Entry("b", Str(bSlug))];
    var one := CopyIfPresent(sides, pair, "severity");
    var two := CopyIfPresent(one, pair, "axis");
    GetAbsent(sides, k);
    CopiedOrNot(sides, pair, "severity");
    CopiedOrNot(one, pair, "axis");
    CopiedOrNot(two, pair, "confidence");
    if k != "severity" { CopyReads(sides, pair, "severity", k); }
    if k != "axis" { CopyReads(one, pair, "axis", k); }
    if k != "confidence" { CopyReads(two, pair, "confidence", k); }
  }

  lemma PairIsReduced(pair: Json, scope: Scope)
    requires PairBelongs(pair, scope)
    ensures IsPairForm(pair, Reduced(Pairs, pair, scope))
  {
    PairKept(pair, scope);
    var a, b := SideOf(pair, "a"), SideOf(pair, "b");
    A4Reads(pair.fields, a, b);
    forall k | k !in {"a", "b"}
      ensures Field(Reduced(Pairs, pair, scope), k) ==
        if k in {"severity", "axis", "confidence"} then Field(pair, k) else None
    {
      StripReads(pair.fields, a, b, k);
    }
  }

  // ---- the answer of each tool ----------------------------------------------------------------

  function ToolName(op: string): Json { Str("mcp__gbrain__" + op) }

  predicate IsAdmitted(op: string, scope: Scope) {
    AdmittedTool("mcp__gbrain__" + op, scope.brainPartitioned).Some?
  }

  function ContradictionList(pairs: seq<Json>): Json { Obj([Entry("contradictions", Arr(pairs))]) }

  /** The result is accepted and answered with this payload. */
  predicate IsAnsweredWith(r: Redacted, payload: Json, dropped: int, codec: Codec) {
    r.output == EnvelopeOf(payload, codec) && r.dropped == dropped && !r.failClosed && r.cause == None
  }

  lemma FaultlessWhenAdmitted(op: string, scope: Scope)
    ensures ToolFault(ToolName(op), scope).None? <==> IsAdmitted(op, scope)
    ensures IsAdmitted(op, scope) ==> GbrainReadToolOf("mcp__gbrain__" + op).value.op == op
  {
    var name := "mcp__gbrain__" + op;
    assert name[|GBRAIN_MCP_PREFIX|..] == op;
  }

  lemma ToolRedaction(op: string, result: Json, scope: Scope, codec: Codec)
    ensures !IsAdmitted(op, scope) ==> RedactedResult(ToolName(op), result, scope, codec).failClosed
    ensures IsAdmitted(op, scope) ==>
      RedactedResult(ToolName(op), result, scope, codec) == RedactText(KindOf(op), result, scope, codec)
  {
    FaultlessWhenAdmitted(op, scope);
  }

  /**
   * Every op but three answers with one item per raw record whose slug and source id belong to the served workspace,
   * in order, each in the form of a hit.
   */
  lemma SearchAnswer(op: string, raw: seq<Json>, result: Json, scope: Scope, codec: Codec) returns (out: seq<Json>)
    requires IsAdmitted(op, scope) && op !in {"traverse_graph", "find_contradictions", "get_timeline"}
    requires PayloadOf(result, codec) == Some(Arr(raw))
    ensures IsAnsweredWith(RedactedResult(ToolName(op), result, scope, codec), Arr(out), |raw| - |out|, codec)
    ensures Answers(raw, out, Belonging(scope), HitForm())
  {
    ToolRedaction(op, result, scope, codec);
    out := Collect(Hits, raw, scope);
    forall item | item in raw
      ensures InScope(Hits, item, scope) <==> Belonging(scope)(item)
      ensures Belonging(scope)(item) ==> HitForm()(item, Reduced(Hits, item, scope))
    {
      ItemKept(item, scope);
      if item.Obj? { HitIsReduced(item, scope); }
    }
    CollectAnswers(Hits, raw, scope, Belonging(scope), HitForm());
  }

  /** A graph walk answers with the raw nodes that belong, each with the edges that do. */
  lemma GraphAnswer(raw: seq<Json>, result: Json, scope: Scope, codec: Codec) returns (out: seq<Json>)
    requires IsAdmitted("traverse_graph", scope) && PayloadOf(result, codec) == Some(Arr(raw))
    ensures IsAnsweredWith(
      RedactedResult(ToolName("traverse_graph"), result, scope, codec), Arr(out), |raw| - |out|, codec)
    ensures Answers(raw, out, Belonging(scope), NodeForm(scope))
  {
    ToolRedaction("traverse_graph", result, scope, codec);
    out := Collect(Nodes, raw, scope);
    forall item | item in raw
      ensures InScope(Nodes, item, scope) <==> Belonging(scope)(item)
      ensures Belonging(scope)(item) ==> NodeForm(scope)(item, Reduced(Nodes, item, scope))
    {
      ItemKept(item, scope);
      if item.Obj? { NodeIsReduced(item, scope); }
    }
    CollectAnswers(Nodes, raw, scope, Belonging(scope), NodeForm(scope));
  }

  lemma PairsCollected(raw: seq<Json>, scope: Scope)
    ensures Answers(raw, Collect(Pairs, raw, scope), BelongingPair(scope), PairForm())
  {
    forall pair | pair in raw
      ensures InScope(Pairs, pair, scope) <==> BelongingPair(scope)(pair)
      ensures BelongingPair(scope)(pair) ==> PairForm()(pair, Reduced(Pairs, pair, scope))
    {
      PairKept(pair, scope);
      if PairBelongs(pair, scope) { PairIsReduced(pair, scope); }
    }
    CollectAnswers(Pairs, raw, scope, BelongingPair(scope), PairForm());
  }

  /** A search for contradictions answers with the pairs both of whose sides belong. */
  lemma ContradictionsAnswer(payload: Json, raw: seq<Json>, result: Json, scope: Scope, codec: Codec)
    returns (out: seq<Json>)
    requires IsAdmitted("find_contradictions", scope) && PayloadOf(result, codec) == Some(payload)
    requires Field(payload, "contradictions") == Some(Arr(raw))
    ensures IsAnsweredWith(RedactedResult(ToolName("find_contradictions"), result, scope, codec),
      ContradictionList(out), |raw| - |out|, codec)
    ensures Answers(raw, out, BelongingPair(scope), PairForm())
  {
    ToolRedaction("find_contradictions", result, scope, codec);
    out := Collect(Pairs, raw, scope);
    PairsCollected(raw, scope);
  }

  lemma EntriesCollected(raw: seq<Json>, scope: Scope)
    ensures Answers(raw, Collect(Entries, raw, scope), AnyRecord(), EntryForm())
  {
    forall item | item in raw
      ensures InScope(Entries, item, scope) <==> AnyRecord()(item)
      ensures AnyRecord()(item) ==> EntryForm()(item, Reduced(Entries, item, scope))
    {
      if item.Obj? { EntryIsReduced(item, scope); }
    }
    CollectAnswers(Entries, raw, scope, AnyRecord(), EntryForm());
  }

  /** A timeline answers with every raw record, reduced. */
  lemma TimelineAnswer(raw: seq<Json>, result: Json, scope: Scope, codec: Codec) returns (out: seq<Json>)
    requires IsAdmitted("get_timeline", scope) && PayloadOf(result, codec) == Some(Arr(raw))
    ensures IsAnsweredWith(
      RedactedResult(ToolName("get_timeline"), result, scope, codec), Arr(out), |raw| - |out|, codec)
    ensures Answers(raw, out, AnyRecord(), EntryForm())
  {
    ToolRedaction("get_timeline", result, scope, codec);
    out := Collect(Entries, raw, scope);
    EntriesCollected(raw, scope);
  }

  // ---- when nothing is answered ---------------------------------------------------------------

  /** The shape the op answers in: a record holding a list of contradictions, or else a list. */
  predicate IsAnswerable(op: string, payload: Json) {
    if op == "find_contradictions"
    then Field(payload, "contradictions").Some? && Field(payload, "contradictions").value.Arr?
    else payload.Arr?
  }

  lemma TextDroppedExactly(kind: Kind, result: Json, scope: Scope, codec: Codec)
    ensures var r, payload := RedactText(kind, result, scope, codec), PayloadOf(result, codec);
      && (!r.failClosed <==> payload.Some? && ItemsOf(kind, payload.value).Some?)
      && (r.failClosed ==> r.output == EMPTY_ENVELOPE && r.dropped == 0)
  {}

  lemma ShapeByOp(op: string, payload: Json)
    ensures ItemsOf(KindOf(op), payload).Some? <==> IsAnswerable(op, payload)
  {}

  /** A result is dropped whole exactly for an unadmitted tool, or a result without a payload of the op's shape. */
  lemma DroppedWholeExactly(op: string, result: Json, scope: Scope, codec: Codec)
    ensures var r, payload := RedactedResult(ToolName(op), result, scope, codec), PayloadOf(result, codec);
      && (!r.failClosed <==> IsAdmitted(op, scope) && payload.Some? && IsAnswerable(op, payload.value))
      && (r.failClosed ==> r.output == EMPTY_ENVELOPE && r.dropped == 0)
  {
    ToolRedaction(op, result, scope, codec);
    TextDroppedExactly(KindOf(op), result, scope, codec);
    if PayloadOf(result, codec).Some? { ShapeByOp(op, PayloadOf(result, codec).value); }
  }

  predicate IsTextItem(item: Json) {
    StringField(item, "type") == Some("text") && StringField(item, "text").Some?
  }

  /** The payload is the text of the first text item of the content. */
  lemma {:induction false} FirstTextItem(before: seq<Json>, item: Json, after: seq<Json>)
    requires (forall i :: 0 <= i < |before| ==> !IsTextItem(before[i])) && IsTextItem(item)
    ensures FirstText(before + [item] + after) == StringField(item, "text")
  {
    var content := before + [item] + after;
    if before != [] {
      assert content[1..] == before[1..] + [item] + after && content[0] == before[0];
      FirstTextItem(before[1..], item, after);
    }
  }
}
