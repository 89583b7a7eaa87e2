/** What the redactor promises, over every payload, scope and codec. */
module RedactionTheorems {
  import opened Wrappers
  import opened Strings
  import opened Json
  import opened ToolCatalog
  import opened WorkspaceScope
  import opened ResultRedaction
  import ArgPolicy

  // ---- lists of forwarded items -------------------------------------------------------------

  lemma {:induction false} PresentConcat(xs: seq<Option<Json>>, ys: seq<Option<Json>>)
    ensures Present(xs + ys) == Present(xs) + Present(ys)
  {
    if ys == [] {
      assert xs + ys == xs;
    } else {
      var front := ys[..|ys| - 1];
      assert (xs + ys)[..|xs + ys| - 1] == xs + front;
      PresentConcat(xs, front);
    }
  }

  lemma {:induction false} PresentNone(xs: seq<Option<Json>>)
    requires forall i :: 0 <= i < |xs| ==> xs[i].None?
    ensures Present(xs) == []
  {
    if xs != [] { PresentNone(xs[..|xs| - 1]); }
  }

  lemma {:induction false} PresentMember(xs: seq<Option<Json>>, j: Json)
    ensures j in Present(xs) <==> Some(j) in xs
  {
    if xs != [] {
      assert xs == xs[..|xs| - 1] + [xs[|xs| - 1]];
      PresentMember(xs[..|xs| - 1], j);
    }
  }

  lemma CollectConcat(kind: Kind, a: seq<Json>, b: seq<Json>, scope: Scope)
    ensures Collect(kind, a + b, scope) == Collect(kind, a, scope) + Collect(kind, b, scope)
  {
    var fa := seq(|a|, i requires 0 <= i < |a| => Forward(kind, a[i], scope));
    var fb := seq(|b|, i requires 0 <= i < |b| => Forward(kind, b[i], scope));
    var whole := seq(|a + b|, i requires 0 <= i < |a + b| => Forward(kind, (a + b)[i], scope));
    forall i | 0 <= i < |whole| ensures whole[i] == (fa + fb)[i] {
      if i < |a| { assert (a + b)[i] == a[i]; } else { assert (a + b)[i] == b[i - |a|]; }
    }
    assert whole == fa + fb;
    PresentConcat(fa, fb);
  }

  lemma EdgesConcat(a: seq<Json>, b: seq<Json>, scope: Scope)
    ensures ForwardEdges(a + b, scope) == ForwardEdges(a, scope) + ForwardEdges(b, scope)
  {
    var fa := seq(|a|, i requires 0 <= i < |a| => ForwardEdge(a[i], scope));
    var fb := seq(|b|, i requires 0 <= i < |b| => ForwardEdge(b[i], scope));
    var whole := seq(|a + b|, i requires 0 <= i < |a + b| => ForwardEdge((a + b)[i], scope));
    forall i | 0 <= i < |whole| ensures whole[i] == (fa + fb)[i] {
      if i < |a| { assert (a + b)[i] == a[i]; } else { assert (a + b)[i] == b[i - |a|]; }
    }
    assert whole == fa + fb;
    PresentConcat(fa, fb);
  }

  lemma CollectMember(kind: Kind, items: seq<Json>, scope: Scope, j: Json) returns (item: Json)
    requires j in Collect(kind, items, scope)
    ensures item in items && InScope(kind, item, scope) && j == Reduced(kind, item, scope)
  {
    var fs := seq(|items|, i requires 0 <= i < |items| => Forward(kind, items[i], scope));
    PresentMember(fs, j);
    var i :| 0 <= i < |fs| && fs[i] == Some(j);
    item := items[i];
  }

  lemma EdgeMember(links: seq<Json>, scope: Scope, j: Json) returns (link: Json)
    requires j in ForwardEdges(links, scope)
    ensures link in links && KeepSlug(EdgeTarget(link), scope) && ForwardEdge(link, scope) == Some(j)
  {
    var fs := seq(|links|, i requires 0 <= i < |links| => ForwardEdge(links[i], scope));
    PresentMember(fs, j);
    var i :| 0 <= i < |fs| && fs[i] == Some(j);
    link := links[i];
  }

  lemma {:induction false} AllowConcat(a: seq<Entry<Json>>, b: seq<Entry<Json>>, keep: set<string>)
    ensures AllowFields(a + b, keep) == AllowFields(a, keep) + AllowFields(b, keep)
  {
    if b == [] {
      assert a + b == a;
    } else {
      var front := b[..|b| - 1];
      assert (a + b)[..|a + b| - 1] == a + front;
      AllowConcat(a, front, keep);
    }
  }

  lemma {:induction false} AllowNone(fs: seq<Entry<Json>>, keep: set<string>)
    requires forall i :: 0 <= i < |fs| ==> !Survives(fs[i], keep)
    ensures AllowFields(fs, keep) == []
  {
    if fs != [] { AllowNone(fs[..|fs| - 1], keep); }
  }

  lemma {:induction false} AllowAll(fs: seq<Entry<Json>>, keep: set<string>)
    requires forall i :: 0 <= i < |fs| ==> Survives(fs[i], keep)
    ensures AllowFields(fs, keep) == fs
  {
    if fs != [] {
      var n := |fs| - 1;
      assert Survives(fs[n], keep);
      AllowAll(fs[..n], keep);
      assert AllowFields(fs, keep) == fs[..n] + [fs[n]];
    }
  }

  lemma {:induction false} GetConcat(a: seq<Entry<Json>>, b: seq<Entry<Json>>, k: string)
    ensures Get(a + b, k) == if Get(a, k).Some? then Get(a, k) else Get(b, k)
  {
    if a == [] { assert a + b == b; }
    else { GetConcat(a[1..], b, k); assert (a + b)[1..] == a[1..] + b; }
  }

  // ---- non-interference ---------------------------------------------------------------------

  /** An entry neither the keep decision nor the forwarded form of an item reads. */
  predicate Unread(kind: Kind, e: Entry<Json>) {
    match kind
    case Hits => !Survives(e, HIT_KEEP_STRINGS) && !IsText(e, {"slug", "source_id"})
    case Nodes => e.key != "links" && !Survives(e, HIT_KEEP_STRINGS) && !IsText(e, {"slug", "source_id"})
    case Pairs => e.key !in {"a", "b", "severity", "axis", "confidence"}
    case Entries => !Survives(e, TIMELINE_KEEP_STRINGS)
  }

  predicate IsText(e: Entry<Json>, keys: set<string>) { e.key in keys && e.value.Str? }

  /** The same for an edge; once `to` is a string, the alias `target` is not read whatever it holds. */
  predicate UnreadOnEdge(e: Entry<Json>, toIsText: bool) {
    !Survives(e, EDGE_KEEP_STRINGS) && !IsText(e, if toIsText then {"to"} else {"to", "target"})
  }

  /**
   * A change to the edges of a node: foreign edges come and go, an edge's unread entries change, or a scalar
   * under `to`, which the target overwrites, becomes another.
   */
  datatype EdgesEdit =
    | SwapEdges(pre: seq<Json>, gone: seq<Json>, come: seq<Json>, post: seq<Json>)
    | EditEdge(at: nat, before: seq<Entry<Json>>, removed: seq<Entry<Json>>, added: seq<Entry<Json>>,
               after: seq<Entry<Json>>)
    | EditTo(at: nat, newTo: Json)

  /**
   * A change to one item: its unread entries change, the rest of a contradiction side changes around the
   * side's slug, the edges of a node change, or a `links` that forwards no edge becomes another that forwards none.
   */
  datatype ItemEdit =
    | UnreadEntries(before: seq<Entry<Json>>, gone: seq<Entry<Json>>, come: seq<Entry<Json>>, after: seq<Entry<Json>>)
    | SideRest(side: string, newSide: Json)
    | NodeEdges(newLinks: seq<Json>, edges: EdgesEdit)
    | BarrenLinks(barren: Json)

  /** A change to a list: foreign items come, go or change while still foreign, or one item is edited. */
  datatype ListEdit =
    | SwapForeign(pre: seq<Json>, gone: seq<Json>, come: seq<Json>, post: seq<Json>)
    | EditItem(at: nat, itemEdit: ItemEdit)

  ghost predicate EdgesEdited(e: EdgesEdit, xs: seq<Json>, ys: seq<Json>, scope: Scope) {
    match e
    case SwapEdges(pre, gone, come, post) =>
      && xs == pre + gone + post && ys == pre + come + post
      && (forall l :: l in gone + come ==> !KeepSlug(EdgeTarget(l), scope))
    case EditEdge(at, before, gone, come, after) =>
      && |xs| == |ys| && at < |xs| && ys == xs[at := ys[at]]
      && xs[at].Obj? && ys[at].Obj?
      && xs[at].fields == before + gone + after && ys[at].fields == before + come + after
      && (forall f :: f in gone + come ==> UnreadOnEdge(f, StringField(xs[at], "to").Some?))
    case EditTo(at, newTo) =>
      && at < |xs| && xs[at].Obj?
      && Get(xs[at].fields, "to").Some? && IsScalar(Get(xs[at].fields, "to").value) && IsScalar(newTo)
      && ys == xs[at := Obj(Put(xs[at].fields, "to", newTo))]
  }

  /** No edge is forwarded out of this `links`: it is no list, or every edge in it is foreign. */
  ghost predicate ForwardsNoEdge(links: Json, scope: Scope) {
    links.Arr? ==> forall l :: l in links.items ==> !KeepSlug(EdgeTarget(l), scope)
  }

  ghost predicate ItemEdited(kind: Kind, e: ItemEdit, x: Json, y: Json, scope: Scope) {
    && x.Obj? && y.Obj?
    && match e
       case UnreadEntries(before, gone, come, after) =>
         && x.fields == before + gone + after && y.fields == before + come + after
         && (forall f :: f in gone + come ==> Unread(kind, f))
       case SideRest(side, newSide) =>
         && kind.Pairs? && side in {"a", "b"}
         && y.fields == Put(x.fields, side, newSide)
         && SideSlug(Some(newSide)) == SideOf(x, side)
       case NodeEdges(newLinks, edges) =>
         && kind.Nodes? && Get(x.fields, "links").Some? && Get(x.fields, "links").value.Arr?
         && y.fields == Put(x.fields, "links", Arr(newLinks))
         && EdgesEdited(edges, Get(x.fields, "links").value.items, newLinks, scope)
       case BarrenLinks(barren) =>
         && kind.Nodes? && Get(x.fields, "links").Some?
         && ForwardsNoEdge(Get(x.fields, "links").value, scope) && ForwardsNoEdge(barren, scope)
         && IsScalar(Get(x.fields, "links").value) == IsScalar(barren)
         && y.fields == Put(x.fields, "links", barren)
  }

  ghost predicate ListEdited(kind: Kind, e: ListEdit, xs: seq<Json>, ys: seq<Json>, scope: Scope) {
    match e
    case SwapForeign(pre, gone, come, post) =>
      && xs == pre + gone + post && ys == pre + come + post
      && (forall item :: item in gone + come ==> !InScope(kind, item, scope))
    case EditItem(at, itemEdit) =>
      && |xs| == |ys| && at < |xs| && ys == xs[at := ys[at]]
      && ItemEdited(kind, itemEdit, xs[at], ys[at], scope)
  }

  /** `versions` is a history of one list in which each version is an edit of the one before. */
  ghost predicate History(kind: Kind, versions: seq<seq<Json>>, edits: seq<ListEdit>, scope: Scope) {
    && |versions| == |edits| + 1
    && forall k :: 0 <= k < |edits| ==> ListEdited(kind, edits[k], versions[k], versions[k + 1], scope)
  }

  lemma GetSkips(before: seq<Entry<Json>>, mid: seq<Entry<Json>>, after: seq<Entry<Json>>, k: string)
    requires forall f :: f in mid ==> f.key != k
    ensures Get(before + mid + after, k) == Get(before + after, k)
  {
    GetAbsent(mid, k);
    GetConcat(before + mid, after, k);
    GetConcat(before, mid, k);
    GetConcat(before, after, k);
  }

  lemma AllowSkips(before: seq<Entry<Json>>, mid: seq<Entry<Json>>, after: seq<Entry<Json>>, keep: set<string>)
    requires forall f :: f in mid ==> !Survives(f, keep)
    ensures AllowFields(before + mid + after, keep) == AllowFields(before + after, keep)
  {
    AllowNone(mid, keep);
    AllowConcat(before + mid, after, keep);
    AllowConcat(before, mid, keep);
    AllowConcat(before, after, keep);
  }

  /** Changing a value that does not survive to another that does not leaves the survivors alone. */
  lemma AllowIgnoresPut(fs: Fields, k: string, v: Json, keep: set<string>)
    requires Get(fs, k).Some?
    requires !Survives(Entry(k, Get(fs, k).value), keep) && !Survives(Entry(k, v), keep)
    ensures AllowFields(Put(fs, k, v), keep) == AllowFields(fs, keep)
  {
    var was := Get(fs, k).value;
    var (pre, post) := Around(fs, k);
    PutSame(fs, k, was);
    PutAround(fs, k, was);
    PutAround(fs, k, v);
    AllowSkips(pre, [Entry(k, was)], post, keep);
    AllowSkips(pre, [Entry(k, v)], post, keep);
  }

  lemma StringFieldIn(fs: Fields, k: string, text: string)
    ensures StringField(Obj(fs), k) == Some(text) <==> Entry(k, Str(text)) in fs
  {
    if Get(fs, k).Some? { GetFound(fs, k); }
    if Entry(k, Str(text)) in fs { GetIn(fs, Entry(k, Str(text))); }
  }

  /** Entries that hold no string under `k` may come and go without changing the string read there. */
  lemma StringsAgree(before: seq<Entry<Json>>, gone: seq<Entry<Json>>, come: seq<Entry<Json>>,
      after: seq<Entry<Json>>, k: string)
    requires DistinctKeys(before + gone + after) && DistinctKeys(before + come + after)
    requires forall f :: f in gone + come ==> !IsText(f, {k})
    ensures StringField(Obj(before + gone + after), k) == StringField(Obj(before + come + after), k)
  {
    var fs: Fields, gs: Fields := before + gone + after, before + come + after;
    assert forall f :: f in gone || f in come ==> f in gone + come;
    forall text ensures StringField(Obj(fs), k) == Some(text) <==> StringField(Obj(gs), k) == Some(text) {
      StringFieldIn(fs, k, text);
      StringFieldIn(gs, k, text);
    }
    if StringField(Obj(fs), k).Some? { assert StringField(Obj(gs), k) == Some(StringField(Obj(fs), k).value); }
    if StringField(Obj(gs), k).Some? { assert StringField(Obj(fs), k) == Some(StringField(Obj(gs), k).value); }
  }

  /** Overwriting a scalar that an earlier scalar stood for leaves no trace of either. */
  lemma OverwrittenScalar(fs: Fields, k: string, v: Json, keep: set<string>, w: Json)
    requires k != "__proto__" && Get(fs, k).Some? && IsScalar(Get(fs, k).value) && IsScalar(v)
    ensures Put(AllowItem(Put(fs, k, v), keep), k, w) == Put(AllowItem(fs, keep), k, w)
  {
    var was := Get(fs, k).value;
    var (pre, post) := Around(fs, k);
    PutSame(fs, k, was);
    PutAround(fs, k, was);
    PutAround(fs, k, v);
    AllowAround(pre, Entry(k, was), post, keep);
    AllowAround(pre, Entry(k, v), post, keep);
    KeptBefore(pre, k, keep);
    var front, rest := AllowFields(pre, keep), AllowFields(post, keep);
    PutInMiddle(front, Entry(k, was), rest, AllowItem(fs, keep), w);
    PutInMiddle(front, Entry(k, v), rest, AllowItem(Put(fs, k, v), keep), w);
  }

  lemma AllowAround(pre: seq<Entry<Json>>, e: Entry<Json>, post: seq<Entry<Json>>, keep: set<string>)
    requires Survives(e, keep)
    ensures AllowFields(pre + [e] + post, keep) == AllowFields(pre, keep) + [e] + AllowFields(post, keep)
  {
    AllowConcat(pre + [e], post, keep);
    AllowConcat(pre, [e], keep);
    AllowAll([e], keep);
  }

  lemma {:induction false} KeptBefore(pre: seq<Entry<Json>>, k: string, keep: set<string>)
    requires forall i :: 0 <= i < |pre| ==> pre[i].key != k
    ensures forall i :: 0 <= i < |AllowFields(pre, keep)| ==> AllowFields(pre, keep)[i].key != k
  {
    if pre != [] { KeptBefore(pre[..|pre| - 1], k, keep); }
  }

  lemma PutInMiddle(front: seq<Entry<Json>>, e: Entry<Json>, rest: seq<Entry<Json>>, fs: Fields, w: Json)
    requires fs == front + [e] + rest && forall i :: 0 <= i < |front| ==> front[i].key != e.key
    ensures Put(fs, e.key, w) == front + [Entry(e.key, w)] + rest
  {
    assert fs[|front|] == e;
    assert forall i :: 0 <= i < |front| ==> fs[i] == front[i];
    assert KeyIndex(fs, e.key) == |front|;
  }

  lemma SkipsAgree(before: seq<Entry<Json>>, gone: seq<Entry<Json>>, come: seq<Entry<Json>>, after: seq<Entry<Json>>,
      k: string)
    requires forall f :: f in gone + come ==> f.key != k
    ensures Get(before + gone + after, k) == Get(before + come + after, k)
  {
    GetSkips(before, gone, after, k);
    GetSkips(before, come, after, k);
  }

  lemma AllowsAgree(before: seq<Entry<Json>>, gone: seq<Entry<Json>>, come: seq<Entry<Json>>, after: seq<Entry<Json>>,
      keep: set<string>)
    requires forall f :: f in gone + come ==> !Survives(f, keep)
    ensures AllowFields(before + gone + after, keep) == AllowFields(before + come + after, keep)
  {
    AllowSkips(before, gone, after, keep);
    AllowSkips(before, come, after, keep);
  }

  lemma EdgesEditIsInvisible(e: EdgesEdit, xs: seq<Json>, ys: seq<Json>, scope: Scope)
    requires EdgesEdited(e, xs, ys, scope)
    ensures ForwardEdges(xs, scope) == ForwardEdges(ys, scope)
  {
    match e
    case SwapEdges(pre, gone, come, post) =>
      EdgesAround(pre, gone, post, scope);
      EdgesAround(pre, come, post, scope);
    case EditEdge(at, before, gone, come, after) =>
      EdgeEntriesAreInvisible(before, gone, come, after, xs[at], ys[at], scope);
      OneEdgeChanged(xs, ys, at, scope);
    case EditTo(at, newTo) =>
      ScalarToIsInvisible(xs[at].fields, newTo, scope);
      OneEdgeChanged(xs, ys, at, scope);
  }

  lemma OneEdgeChanged(xs: seq<Json>, ys: seq<Json>, at: nat, scope: Scope)
    requires at < |xs| && |xs| == |ys| && ys == xs[at := ys[at]]
    requires ForwardEdge(xs[at], scope) == ForwardEdge(ys[at], scope)
    ensures ForwardEdges(xs, scope) == ForwardEdges(ys, scope)
  {
    assert seq(|xs|, i requires 0 <= i < |xs| => ForwardEdge(xs[i], scope))
        == seq(|ys|, i requires 0 <= i < |ys| => ForwardEdge(ys[i], scope));
  }

  lemma EdgeEntriesAreInvisible(before: seq<Entry<Json>>, gone: seq<Entry<Json>>, come: seq<Entry<Json>>,
                                after: seq<Entry<Json>>,
                                x: Json, y: Json, scope: Scope)
    requires x.Obj? && y.Obj? && x.fields == before + gone + after && y.fields == before + come + after
    requires forall f :: f in gone + come ==> UnreadOnEdge(f, StringField(x, "to").Some?)
    ensures ForwardEdge(x, scope) == ForwardEdge(y, scope)
  {
    StringsAgree(before, gone, come, after, "to");
    if StringField(x, "to").None? { StringsAgree(before, gone, come, after, "target"); }
    assert EdgeTarget(x) == EdgeTarget(y);
    AllowsAgree(before, gone, come, after, EDGE_KEEP_STRINGS);
  }

  lemma ScalarToIsInvisible(fs: Fields, newTo: Json, scope: Scope)
    requires Get(fs, "to").Some? && IsScalar(Get(fs, "to").value) && IsScalar(newTo)
    ensures ForwardEdge(Obj(Put(fs, "to", newTo)), scope) == ForwardEdge(Obj(fs), scope)
  {
    GetOther(fs, "to", newTo, "target");
    assert EdgeTarget(Obj(Put(fs, "to", newTo))) == EdgeTarget(Obj(fs));
    OverwrittenScalar(fs, "to", newTo, EDGE_KEEP_STRINGS, Str(EdgeTarget(Obj(fs))));
  }

  lemma EdgesAround(pre: seq<Json>, mid: seq<Json>, post: seq<Json>, scope: Scope)
    requires forall l :: l in mid ==> !KeepSlug(EdgeTarget(l), scope)
    ensures ForwardEdges(pre + mid + post, scope) == ForwardEdges(pre, scope) + ForwardEdges(post, scope)
  {
    assert ForwardEdges(mid, scope) == [] by { ForeignEdgesVanish(mid, scope); }
    EdgesConcat(pre + mid, post, scope);
    EdgesConcat(pre, mid, scope);
    assert ForwardEdges(pre, scope) + [] == ForwardEdges(pre, scope);
  }

  lemma ForeignEdgesVanish(links: seq<Json>, scope: Scope)
    requires forall l :: l in links ==> !KeepSlug(EdgeTarget(l), scope)
    ensures ForwardEdges(links, scope) == []
  {
    var fs := seq(|links|, i requires 0 <= i < |links| => ForwardEdge(links[i], scope));
    forall i | 0 <= i < |fs| ensures fs[i].None? { assert links[i] in links; }
    PresentNone(fs);
  }

  lemma CollectAround(kind: Kind, pre: seq<Json>, mid: seq<Json>, post: seq<Json>, scope: Scope)
    requires forall item :: item in mid ==> !InScope(kind, item, scope)
    ensures Collect(kind, pre + mid + post, scope) == Collect(kind, pre, scope) + Collect(kind, post, scope)
  {
    CollectConcat(kind, pre + mid, post, scope);
    CollectConcat(kind, pre, mid, scope);
    PresentNone(seq(|mid|, i requires 0 <= i < |mid| => Forward(kind, mid[i], scope)));
  }

  lemma UnreadIsInvisible(kind: Kind, e: ItemEdit, x: Json, y: Json, scope: Scope)
    requires e.UnreadEntries? && ItemEdited(kind, e, x, y, scope)
    ensures Forward(kind, x, scope) == Forward(kind, y, scope)
  {
    var UnreadEntries(before, gone, come, after) := e;
    match kind
    case Hits =>
      StringsAgree(before, gone, come, after, "slug");
      StringsAgree(before, gone, come, after, "source_id");
      AllowsAgree(before, gone, come, after, HIT_KEEP_STRINGS);
    case Nodes =>
      StringsAgree(before, gone, come, after, "slug");
      StringsAgree(before, gone, come, after, "source_id");
      SkipsAgree(before, gone, come, after, "links");
      AllowsAgree(before, gone, come, after, HIT_KEEP_STRINGS);
    case Pairs =>
      SkipsAgree(before, gone, come, after, "a");
      SkipsAgree(before, gone, come, after, "b");
      SkipsAgree(before, gone, come, after, "severity");
      SkipsAgree(before, gone, come, after, "axis");
      SkipsAgree(before, gone, come, after, "confidence");
    case Entries =>
      AllowsAgree(before, gone, come, after, TIMELINE_KEEP_STRINGS);
  }

  lemma SideRestIsInvisible(side: string, newSide: Json, x: Json, y: Json, scope: Scope)
    requires ItemEdited(Pairs, SideRest(side, newSide), x, y, scope)
    ensures Forward(Pairs, x, scope) == Forward(Pairs, y, scope)
  {
    GetOther(x.fields, side, newSide, "severity");
    GetOther(x.fields, side, newSide, "axis");
    GetOther(x.fields, side, newSide, "confidence");
    GetOther(x.fields, side, newSide, if side == "a" then "b" else "a");
  }

  lemma NodeEdgesAreInvisible(e: ItemEdit, x: Json, y: Json, scope: Scope)
    requires e.NodeEdges? && ItemEdited(Nodes, e, x, y, scope)
    ensures Forward(Nodes, x, scope) == Forward(Nodes, y, scope)
  {
    LinksAreNotJudged(x.fields, Arr(e.newLinks));
    AllowIgnoresPut(x.fields, "links", Arr(e.newLinks), HIT_KEEP_STRINGS);
    EdgesEditIsInvisible(e.edges, Get(x.fields, "links").value.items, e.newLinks, scope);
  }

  /** What a node with a barren `links` forwards in its place. */
  lemma BarrenForm(fs: Fields, scope: Scope)
    requires Get(fs, "links").Some? && ForwardsNoEdge(Get(fs, "links").value, scope)
    ensures RedactNodeLinks(Obj(fs), scope) == Obj(Put(AllowItem(fs, HIT_KEEP_STRINGS), "links", Arr([])))
  {
    if Get(fs, "links").value.Arr? { ForeignEdgesVanish(Get(fs, "links").value.items, scope); }
  }

  lemma BarrenLinksAreInvisible(barren: Json, x: Json, y: Json, scope: Scope)
    requires ItemEdited(Nodes, BarrenLinks(barren), x, y, scope)
    ensures Forward(Nodes, x, scope) == Forward(Nodes, y, scope)
  {
    LinksAreNotJudged(x.fields, barren);
    BarrenForm(x.fields, scope);
    BarrenForm(y.fields, scope);
    if IsScalar(barren) { OverwrittenScalar(x.fields, "links", barren, HIT_KEEP_STRINGS, Arr([])); }
    else { AllowIgnoresPut(x.fields, "links", barren, HIT_KEEP_STRINGS); }
  }

  lemma LinksAreNotJudged(fs: Fields, links: Json)
    ensures HitOf(Obj(Put(fs, "links", links))) == HitOf(Obj(fs))
  {
    GetOther(fs, "links", links, "slug");
    GetOther(fs, "links", links, "source_id");
  }

  lemma ListEditIsInvisible(kind: Kind, e: ListEdit, xs: seq<Json>, ys: seq<Json>, scope: Scope)
    requires ListEdited(kind, e, xs, ys, scope)
    ensures Collect(kind, xs, scope) == Collect(kind, ys, scope)
  {
    match e
    case SwapForeign(pre, gone, come, post) =>
      CollectAround(kind, pre, gone, post, scope);
      CollectAround(kind, pre, come, post, scope);
    case EditItem(at, itemEdit) =>
      match itemEdit {
        case UnreadEntries(_, _, _, _) => UnreadIsInvisible(kind, itemEdit, xs[at], ys[at], scope);
        case SideRest(side, newSide) => SideRestIsInvisible(side, newSide, xs[at], ys[at], scope);
        case NodeEdges(_, _) => NodeEdgesAreInvisible(itemEdit, xs[at], ys[at], scope);
        case BarrenLinks(barren) => BarrenLinksAreInvisible(barren, xs[at], ys[at], scope);
      }
      assert seq(|xs|, i requires 0 <= i < |xs| => Forward(kind, xs[i], scope))
          == seq(|ys|, i requires 0 <= i < |ys| => Forward(kind, ys[i], scope));
  }

  lemma {:induction false} HistoryIsInvisible(kind: Kind, versions: seq<seq<Json>>, edits: seq<ListEdit>, scope: Scope)
    requires History(kind, versions, edits, scope)
    ensures Collect(kind, versions[0], scope) == Collect(kind, versions[|edits|], scope)
    decreases |edits|
  {
    if edits != [] {
      var n := |edits| - 1;
      assert History(kind, versions[..n + 1], edits[..n], scope);
      HistoryIsInvisible(kind, versions[..n + 1], edits[..n], scope);
      ListEditIsInvisible(kind, edits[n], versions[n], versions[n + 1], scope);
    }
  }

  /** The payload a raw result carries, when it carries one. */
  function PayloadOf(result: Json, codec: Codec): Option<Json> {
    match ExtractPayloadText(result)
    case None => None
    case Some(text) => codec.parse(text)
  }

  /**
   * Non-interference of one kind of redaction. However a raw result was edited in its foreign items, or in the
   * parts of its kept items nobody reads, the same envelope is forwarded.
   */
  lemma EditsAreInvisible(kind: Kind, r: Json, s: Json, scope: Scope, codec: Codec, versions: seq<seq<Json>>,
      edits: seq<ListEdit>)
    requires PayloadOf(r, codec).Some? && PayloadOf(s, codec).Some?
    requires History(kind, versions, edits, scope)
    requires ItemsOf(kind, PayloadOf(r, codec).value) == Some(versions[0])
    requires ItemsOf(kind, PayloadOf(s, codec).value) == Some(versions[|edits|])
    ensures RedactText(kind, r, scope, codec).output == RedactText(kind, s, scope, codec).output
    ensures !RedactText(kind, r, scope, codec).failClosed && !RedactText(kind, s, scope, codec).failClosed
  {
    HistoryIsInvisible(kind, versions, edits, scope);
  }

  /** The redaction each op gets: its own for three of them, the filter of hits for every other. */
  predicate IsRedactedAs(op: string, kind: Kind) {
    && (kind.Nodes? <==> op == "traverse_graph")
    && (kind.Pairs? <==> op == "find_contradictions")
    && (kind.Entries? <==> op == "get_timeline")
  }

  /** Non-interference of the redactor, for every tool it admits. */
  lemma NonInterference(name: Json, r: Json, s: Json, scope: Scope, codec: Codec,
                        kind: Kind, versions: seq<seq<Json>>, edits: seq<ListEdit>)
    requires ToolFault(name, scope).None? && IsRedactedAs(GbrainReadToolOf(name.s).value.op, kind)
    requires PayloadOf(r, codec).Some? && PayloadOf(s, codec).Some?
    requires History(kind, versions, edits, scope)
    requires ItemsOf(kind, PayloadOf(r, codec).value) == Some(versions[0])
    requires ItemsOf(kind, PayloadOf(s, codec).value) == Some(versions[|edits|])
    ensures RedactedResult(name, r, scope, codec).output == RedactedResult(name, s, scope, codec).output
    ensures !RedactedResult(name, r, scope, codec).failClosed && !RedactedResult(name, s, scope, codec).failClosed
  {
    EditsAreInvisible(kind, r, s, scope, codec, versions, edits);
  }

  // ---- reading the answer back --------------------------------------------------------------

  /** The items a forwarded envelope carries, as its reader sees them. */
  function ForwardedItems(r: Redacted, kind: Kind, codec: Codec): Option<seq<Json>> {
    var payload := PayloadOf(r.output, codec);
    if payload.None? then None else ItemsOf(kind, payload.value)
  }

  lemma EnvelopeReadsBack(payload: Json, codec: Codec)
    requires ReadsBack(codec, payload)
    ensures PayloadOf(EnvelopeOf(payload, codec), codec) == Some(payload)
  {
    var text := codec.stringify(payload);
    var item: Fields := [Entry("type", Str("text")), Entry("text", Str(text))];
    GetAt(item, 0);
    GetAt(item, 1);
    assert FirstText([TextItem(text)]) == Some(text);
    assert codec.parse(text) == Some(payload);
  }

  /** The codec reads back what is forwarded for this result, when anything is. */
  ghost predicate ForwardReadsBack(kind: Kind, result: Json, scope: Scope, codec: Codec) {
    match PayloadOf(result, codec)
    case None => true
    case Some(payload) =>
      match ItemsOf(kind, payload)
      case None => true
      case Some(items) => ReadsBack(codec, Wrapped(kind, Collect(kind, items, scope)))
  }

  /** What is forwarded for an accepted payload, with the count of what was dropped. */
  lemma AcceptedPayload(kind: Kind, payload: Json, scope: Scope, codec: Codec)
    requires ItemsOf(kind, payload).Some?
    requires ReadsBack(codec, Wrapped(kind, Collect(kind, ItemsOf(kind, payload).value, scope)))
    ensures var items, r := ItemsOf(kind, payload).value, RedactPayload(kind, payload, scope, codec);
      && !r.failClosed
      && ForwardedItems(r, kind, codec) == Some(Collect(kind, items, scope))
      && |Collect(kind, items, scope)| + r.dropped == |items|
  {
    var kept := Collect(kind, ItemsOf(kind, payload).value, scope);
    CollectShrinks(kind, ItemsOf(kind, payload).value, scope);
    EnvelopeReadsBack(Wrapped(kind, kept), codec);
  }

  // ---- only owned references are forwarded --------------------------------------------------

  /** The slug itself attributes to the served workspace, or is legacy content assigned to it. */
  ghost predicate OwnedSlug(slug: string, scope: Scope) {
    match SlugAttribution(slug, scope.registry)
    case Workspace(w, _) => w == scope.servedWorkspaceId
    case Legacy => scope.policy == Assign(scope.servedWorkspaceId)
    case Indeterminate(_) => false
  }

  lemma KeptSlugIsOwned(slug: string, scope: Scope)
    ensures KeepSlug(slug, scope) <==> OwnedSlug(slug, scope)
  {
    KeptExactlyWhenOwned(Hit(slug, None), scope);
  }

  /** A forwarded edge is one owned reference under `to`, and otherwise only scalars. */
  ghost predicate OwnedEdge(edge: Json, scope: Scope) {
    && edge.Obj?
    && StringField(edge, "to").Some? && OwnedSlug(StringField(edge, "to").value, scope)
    && forall e :: e in edge.fields ==> e.key == "to" || IsScalar(e.value)
  }

  /** A forwarded node is scalars and its own strings, plus a list of owned edges. */
  ghost predicate OwnedNode(node: Json, scope: Scope) {
    && node.Obj?
    && forall e :: e in node.fields ==>
      if e.value.Arr? then e.key == "links" && forall l :: l in e.value.items ==> OwnedEdge(l, scope)
      else Survives(e, HIT_KEEP_STRINGS)
  }

  ghost predicate OwnedPair(pair: Json, scope: Scope) {
    && pair.Obj?
    && StringField(pair, "a").Some? && OwnedSlug(StringField(pair, "a").value, scope)
    && StringField(pair, "b").Some? && OwnedSlug(StringField(pair, "b").value, scope)
    && forall e :: e in pair.fields ==> e.key in {"a", "b", "severity", "axis", "confidence"}
  }

  /** Every entry of a flat item is a scalar or one of the item's own allow-listed strings. */
  ghost predicate FlatItem(item: Json, keep: set<string>) {
    item.Obj? && forall e :: e in item.fields ==> Survives(e, keep)
  }

  ghost predicate Owned(kind: Kind, item: Json, scope: Scope) {
    match kind
    case Hits => FlatItem(item, HIT_KEEP_STRINGS)
    case Nodes => OwnedNode(item, scope)
    case Pairs => OwnedPair(item, scope)
    case Entries => FlatItem(item, TIMELINE_KEEP_STRINGS)
  }

  lemma PutMembers(fs: Fields, k: string, v: Json)
    ensures forall e :: e in Put(fs, k, v) ==> e in fs || e == Entry(k, v)
  {}

  lemma EmptySlugIsDropped(scope: Scope)
    ensures SlugFault("") == Some(SlugEmpty)
    ensures !KeepSlug("", scope)
  {
    assert Trim("") == "";
  }

  lemma ForwardedEdgeIsOwned(link: Json, scope: Scope)
    requires ForwardEdge(link, scope).Some?
    ensures OwnedEdge(ForwardEdge(link, scope).value, scope)
  {
    var target := EdgeTarget(link);
    KeptSlugIsOwned(target, scope);
    EmptySlugIsDropped(scope);
    var scrubbed := AllowItem(link.fields, EDGE_KEEP_STRINGS);
    AllowedAreSurvivors(link.fields, EDGE_KEEP_STRINGS);
    PutMembers(scrubbed, "to", Str(target));
  }

  lemma ForwardedNodeIsOwned(node: Json, scope: Scope)
    requires node.Obj?
    ensures OwnedNode(RedactNodeLinks(node, scope), scope)
  {
    var scrubbed := AllowItem(node.fields, HIT_KEEP_STRINGS);
    AllowedAreSurvivors(node.fields, HIT_KEEP_STRINGS);
    match Get(node.fields, "links")
    case None =>
    case Some(Arr(links)) =>
      PutMembers(scrubbed, "links", Arr(ForwardEdges(links, scope)));
      forall l | l in ForwardEdges(links, scope) ensures OwnedEdge(l, scope) {
        var link := EdgeMember(links, scope, l);
        ForwardedEdgeIsOwned(link, scope);
      }
    case Some(_) =>
      PutMembers(scrubbed, "links", Arr([]));
  }

  lemma CopyReads(out: Fields, from: Fields, k: string, other: string)
    requires other != k
    ensures Get(CopyIfPresent(out, from, k), other) == Get(out, other)
    ensures forall e :: e in CopyIfPresent(out, from, k) ==> e in out || e.key == k
  {
    if Get(from, k).Some? {
      GetOther(out, k, Get(from, k).value, other);
      PutMembers(out, k, Get(from, k).value);
    }
  }

  lemma A4Reads(pair: Fields, aSlug: string, bSlug: string)
    ensures var out := A4Strip(pair, aSlug, bSlug);
      && Get(out, "a") == Some(Str(aSlug)) && Get(out, "b") == Some(Str(bSlug))
      && forall e :: e in out ==> e.key in {"a", "b", "severity", "axis", "confidence"}
  {
    var sides: Fields := [Entry("a", Str(aSlug)), Entry("b", Str(bSlug))];
    GetAt(sides, 0);
    GetAt(sides, 1);
    var one := CopyIfPresent(sides, pair, "severity");
    var two := CopyIfPresent(one, pair, "axis");
    CopyReads(sides, pair, "severity", "a");
    CopyReads(sides, pair, "severity", "b");
    CopyReads(one, pair, "axis", "a");
    CopyReads(one, pair, "axis", "b");
    CopyReads(two, pair, "confidence", "a");
    CopyReads(two, pair, "confidence", "b");
  }

  lemma KeptHitIsRecord(item: Json, scope: Scope)
    requires Keeps(HitOf(item), scope)
    ensures item.Obj?
  {
    EmptySlugIsDropped(scope);
  }

  lemma ForwardedIsOwned(kind: Kind, items: seq<Json>, scope: Scope, j: Json)
    requires j in Collect(kind, items, scope)
    ensures Owned(kind, j, scope)
  {
    var item := CollectMember(kind, items, scope, j);
    if kind.Hits? || kind.Nodes? { KeptHitIsRecord(item, scope); }
    match kind
    case Hits => AllowedAreSurvivors(item.fields, HIT_KEEP_STRINGS);
    case Nodes => ForwardedNodeIsOwned(item, scope);
    case Pairs =>
      A4Reads(item.fields, SideOf(item, "a"), SideOf(item, "b"));
      KeptSlugIsOwned(SideOf(item, "a"), scope);
      KeptSlugIsOwned(SideOf(item, "b"), scope);
    case Entries => AllowedAreSurvivors(item.fields, TIMELINE_KEEP_STRINGS);
  }

  /**
   * Whatever the raw result held, every item in the forwarded envelope is owned: hits and timeline
   * entries are flat, every edge target and every contradiction side attributes by slug to the served
   * workspace or is legacy assigned to it, and no other edge or node entry can carry a reference.
   */
  lemma OwnedItemsOnly(kind: Kind, result: Json, scope: Scope, codec: Codec, j: Json)
    requires ForwardReadsBack(kind, result, scope, codec)
    requires ForwardedItems(RedactText(kind, result, scope, codec), kind, codec).Some?
    requires j in ForwardedItems(RedactText(kind, result, scope, codec), kind, codec).value
    ensures Owned(kind, j, scope)
  {
    if RedactText(kind, result, scope, codec).failClosed {
      EmptyEnvelopeCarriesNothing();
    } else {
      var payload := PayloadOf(result, codec).value;
      AcceptedPayload(kind, payload, scope, codec);
      ForwardedIsOwned(kind, ItemsOf(kind, payload).value, scope, j);
    }
  }

  /** The same, for every tool the redactor admits. */
  lemma OnlyOwnedIsForwarded(name: Json, result: Json, scope: Scope, codec: Codec, kind: Kind, j: Json)
    requires ForwardReadsBack(kind, result, scope, codec)
    requires ToolFault(name, scope).None? && IsRedactedAs(GbrainReadToolOf(name.s).value.op, kind)
    requires ForwardedItems(RedactedResult(name, result, scope, codec), kind, codec).Some?
    requires j in ForwardedItems(RedactedResult(name, result, scope, codec), kind, codec).value
    ensures Owned(kind, j, scope)
  {
    OwnedItemsOnly(kind, result, scope, codec, j);
  }

  lemma EmptyEnvelopeCarriesNothing()
    ensures ExtractPayloadText(EMPTY_ENVELOPE) == None
  {
    var fs: Fields := [Entry("content", Arr([]))];
    GetAt(fs, 0);
    assert FirstText([]) == None;
  }

  // ---- exclusivity --------------------------------------------------------------------------

  /** No hit, node or contradiction pair is forwarded to two different served workspaces. */
  lemma NoSharedItem(kind: Kind, item: Json, s: Scope, t: Scope)
    requires !kind.Entries?
    requires s.registry == t.registry && s.policy == t.policy
    requires InScope(kind, item, s) && InScope(kind, item, t)
    ensures s.servedWorkspaceId == t.servedWorkspaceId
  {
    if kind.Pairs? {
      ExclusiveOwnership(Hit(SideOf(item, "a"), None), s, t);
    } else {
      ExclusiveOwnership(HitOf(item), s, t);
    }
  }

  // ---- the three guards ---------------------------------------------------------------------

  /**
   * The argument policer, the result redactor and the read-tool allow-list admit the same tools on the
   * same brains.
   */
  lemma ThreeGuardsAgree(name: string, args: Fields, result: Json, scope: Scope, codec: Codec)
    ensures ArgPolicy.Policed(Str(name), Obj(args), scope)
              !in {ArgPolicy.DenyArgs(ArgPolicy.UnknownTool), ArgPolicy.DenyArgs(ArgPolicy.UnscopableTool)} <==>
            MappedId(name).Some? && MappedId(name).value.id in ScopedReadToolIds(scope.brainPartitioned)
    ensures RedactedResult(Str(name), result, scope, codec).cause !in {Some(UnknownTool), Some(UnscopableTool)} <==>
            MappedId(name).Some? && MappedId(name).value.id in ScopedReadToolIds(scope.brainPartitioned)
  {
    AdmittedIffAllowListed(name, scope.brainPartitioned);
    ArgPolicy.PolicerAdmits(Str(name), args, scope);
    RedactorAdmits(Str(name), result, scope, codec);
  }

  lemma RedactorAdmits(name: Json, result: Json, scope: Scope, codec: Codec)
    ensures RedactedResult(name, result, scope, codec).cause !in {Some(UnknownTool), Some(UnscopableTool)} <==>
            name.Str? && AdmittedTool(name.s, scope.brainPartitioned).Some?
  {
    if ToolFault(name, scope).None? {
      TextCauses(KindOf(GbrainReadToolOf(name.s).value.op), result, scope, codec);
    }
  }

  lemma TextCauses(kind: Kind, result: Json, scope: Scope, codec: Codec)
    ensures RedactText(kind, result, scope, codec).cause !in {Some(UnknownTool), Some(UnscopableTool)}
  {}
}
