/**
 * The redactor of gbrain tool results: only what belongs to the served workspace is forwarded.
 *
 * Every op filters one list of items. `InScope` is the keep decision for an item of a given kind,
 * `Reduced` the form in which a kept item is forwarded, and `Collect` the forwarded list. The methods
 * at the end are the source's loops, proved to compute these.
 */
module ResultRedaction {
  import opened Wrappers
  import opened Json
  import opened ToolCatalog
  import opened WorkspaceScope

  datatype RedactionCause = UnknownTool | UnscopableTool | MalformedEnvelope | UnparseableJson | MalformedPayload

  datatype Redacted = Redacted(output: Json, dropped: nat, failClosed: bool, cause: Option<RedactionCause>)

  // ---- field reduction ----------------------------------------------------------------------

  const HIT_KEEP_STRINGS: set<string> := {"slug", "title", "chunk_text", "summary", "content", "text"}
  const EDGE_KEEP_STRINGS: set<string> := {}
  const TIMELINE_KEEP_STRINGS: set<string> := {"date", "summary", "detail", "source", "title"}

  predicate IsScalar(v: Json) { v.Num? || v.Bool? }

  /**
   * Whether an entry survives `allowItemFields`. An own `__proto__` entry never does: assigning a
   * primitive to `out.__proto__` creates no property.
   */
  predicate Survives(e: Entry<Json>, keep: set<string>) {
    e.key != "__proto__" && (IsScalar(e.value) || (e.value.Str? && e.key in keep))
  }

  function AllowFields(fs: seq<Entry<Json>>, keep: set<string>): seq<Entry<Json>> {
    if fs == [] then []
    else
      var last := fs[|fs| - 1];
      AllowFields(fs[..|fs| - 1], keep) + (if Survives(last, keep) then [last] else [])
  }

  lemma {:induction false} AllowedAreSurvivors(fs: seq<Entry<Json>>, keep: set<string>)
    ensures forall e :: e in AllowFields(fs, keep) ==> e in fs && Survives(e, keep)
    ensures DistinctKeys(fs) ==> DistinctKeys(AllowFields(fs, keep))
  {
    if fs != [] {
      var front, last := fs[..|fs| - 1], fs[|fs| - 1];
      AllowedAreSurvivors(front, keep);
      assert fs == front + [last];
      var kept := AllowFields(front, keep);
      assert DistinctKeys(fs) ==> forall i :: 0 <= i < |kept| ==> kept[i].key != last.key by {
        assert forall i :: 0 <= i < |kept| ==> kept[i] in front;
      }
    }
  }

  function AllowItem(fs: Fields, keep: set<string>): Fields {
    AllowedAreSurvivors(fs, keep);
    AllowFields(fs, keep)
  }

  // ---- reading an item ----------------------------------------------------------------------

  function OrEmpty(s: Option<string>): string { if s.Some? then s.value else "" }

  function HitOf(item: Json): Hit {
    Hit(OrEmpty(StringField(item, "slug")), StringField(item, "source_id"))
  }

  predicate KeepSlug(slug: string, scope: Scope) { Keeps(Hit(slug, None), scope) }

  function EdgeTarget(link: Json): string {
    if StringField(link, "to").Some? then StringField(link, "to").value
    else OrEmpty(StringField(link, "target"))
  }

  function SideSlug(side: Option<Json>): string {
    if side.None? then ""
    else if side.value.Str? then side.value.s
    else OrEmpty(StringField(side.value, "slug"))
  }

  // ---- the forwarded form of an item --------------------------------------------------------

  /** Hits of search and the generic ops, nodes of a graph walk, contradiction pairs, timeline entries. */
  datatype Kind = Hits | Nodes | Pairs | Entries

  function Present(xs: seq<Option<Json>>): seq<Json> {
    if xs == [] then []
    else
      var last := xs[|xs| - 1];
      Present(xs[..|xs| - 1]) + (if last.Some? then [last.value] else [])
  }

  function ForwardEdge(link: Json, scope: Scope): Option<Json> {
    if !KeepSlug(EdgeTarget(link), scope) then None
    else if link.Obj? then Some(Obj(Put(AllowItem(link.fields, EDGE_KEEP_STRINGS), "to", Str(EdgeTarget(link)))))
    else Some(link)
  }

  function ForwardEdges(links: seq<Json>, scope: Scope): seq<Json> {
    Present(seq(|links|, i requires 0 <= i < |links| => ForwardEdge(links[i], scope)))
  }

  function RedactNodeLinks(node: Json, scope: Scope): Json {
    if !node.Obj? then node
    else
      var scrubbed := AllowItem(node.fields, HIT_KEEP_STRINGS);
      match Get(node.fields, "links")
      case None => Obj(scrubbed)
      case Some(Arr(links)) => Obj(Put(scrubbed, "links", Arr(ForwardEdges(links, scope))))
      case Some(_) => Obj(Put(scrubbed, "links", Arr([])))
  }

  function CopyIfPresent(out: Fields, from: Fields, k: string): Fields {
    if Get(from, k).Some? then Put(out, k, Get(from, k).value) else out
  }

  function A4Strip(pair: Fields, aSlug: string, bSlug: string): Fields {
    var sides: Fields := [Entry("a", Str(aSlug)), Entry("b", Str(bSlug))];
    CopyIfPresent(CopyIfPresent(CopyIfPresent(sides, pair, "severity"), pair, "axis"), pair, "confidence")
  }

  function SideOf(item: Json, k: string): string {
    if item.Obj? then SideSlug(Get(item.fields, k)) else ""
  }

  predicate InScope(kind: Kind, item: Json, scope: Scope) {
    match kind
    case Hits => Keeps(HitOf(item), scope)
    case Nodes => Keeps(HitOf(item), scope)
    case Pairs => item.Obj? && KeepSlug(SideOf(item, "a"), scope) && KeepSlug(SideOf(item, "b"), scope)
    case Entries => item.Obj?
  }

  function Reduced(kind: Kind, item: Json, scope: Scope): Json {
    if !item.Obj? then item
    else
      match kind
      case Hits => Obj(AllowItem(item.fields, HIT_KEEP_STRINGS))
      case Nodes => RedactNodeLinks(item, scope)
      case Pairs => Obj(A4Strip(item.fields, SideOf(item, "a"), SideOf(item, "b")))
      case Entries => Obj(AllowItem(item.fields, TIMELINE_KEEP_STRINGS))
  }

  function Forward(kind: Kind, item: Json, scope: Scope): Option<Json> {
    if InScope(kind, item, scope) then Some(Reduced(kind, item, scope)) else None
  }

  function Collect(kind: Kind, items: seq<Json>, scope: Scope): seq<Json> {
    Present(seq(|items|, i requires 0 <= i < |items| => Forward(kind, items[i], scope)))
  }

  // ---- envelopes ----------------------------------------------------------------------------

  const EMPTY_ENVELOPE := Obj([Entry("content", Arr([]))])

  function TextItem(text: string): Json { Obj([Entry("type", Str("text")), Entry("text", Str(text))]) }

  function EnvelopeOf(payload: Json, codec: Codec): Json {
    Obj([Entry("content", Arr([TextItem(codec.stringify(payload))]))])
  }

  function FirstText(content: seq<Json>): Option<string> {
    if content == [] then None
    else if StringField(content[0], "type") == Some("text") && StringField(content[0], "text").Some?
    then StringField(content[0], "text")
    else FirstText(content[1..])
  }

  function ExtractPayloadText(result: Json): Option<string> {
    if !result.Obj? then None
    else
      match Get(result.fields, "content")
      case Some(Arr(content)) => FirstText(content)
      case _ => None
  }

  function FailClosed(cause: RedactionCause): Redacted { Redacted(EMPTY_ENVELOPE, 0, true, Some(cause)) }

  // ---- the redactor -------------------------------------------------------------------------

  function KindOf(op: string): Kind {
    if op == "traverse_graph" then Nodes
    else if op == "find_contradictions" then Pairs
    else if op == "get_timeline" then Entries
    else Hits
  }

  /** The list of items a payload of this kind carries; None when it has the wrong shape. */
  function ItemsOf(kind: Kind, payload: Json): Option<seq<Json>> {
    if kind.Pairs? then
      if !payload.Obj? then None
      else match Get(payload.fields, "contradictions")
           case Some(Arr(pairs)) => Some(pairs)
           case _ => None
    else if payload.Arr? then Some(payload.items) else None
  }

  /** The payload carrying a forwarded list. */
  function Wrapped(kind: Kind, kept: seq<Json>): Json {
    if kind.Pairs? then Obj([Entry("contradictions", Arr(kept))]) else Arr(kept)
  }

  function RedactPayload(kind: Kind, payload: Json, scope: Scope, codec: Codec): Redacted {
    match ItemsOf(kind, payload)
    case None => FailClosed(MalformedPayload)
    case Some(items) =>
      var kept := Collect(kind, items, scope);
      CollectShrinks(kind, items, scope);
      Redacted(EnvelopeOf(Wrapped(kind, kept), codec), |items| - |kept|, false, None)
  }

  function ToolFault(name: Json, scope: Scope): Option<RedactionCause> {
    if !name.Str? || GbrainReadToolOf(name.s).None? then Some(UnknownTool)
    else if AdmittedTool(name.s, scope.brainPartitioned).None? then Some(UnscopableTool)
    else None
  }

  function RedactText(kind: Kind, result: Json, scope: Scope, codec: Codec): Redacted {
    match ExtractPayloadText(result)
    case None => FailClosed(MalformedEnvelope)
    case Some(text) =>
      match codec.parse(text)
      case None => FailClosed(UnparseableJson)
      case Some(payload) => RedactPayload(kind, payload, scope, codec)
  }

  function RedactedResult(name: Json, result: Json, scope: Scope, codec: Codec): Redacted {
    match ToolFault(name, scope)
    case Some(cause) => FailClosed(cause)
    case None => RedactText(KindOf(GbrainReadToolOf(name.s).value.op), result, scope, codec)
  }

  // ---- the loops ----------------------------------------------------------------------------

  lemma {:induction false} PresentShrinks(xs: seq<Option<Json>>)
    ensures |Present(xs)| <= |xs|
  {
    if xs != [] { PresentShrinks(xs[..|xs| - 1]); }
  }

  lemma CollectShrinks(kind: Kind, items: seq<Json>, scope: Scope)
    ensures |Collect(kind, items, scope)| <= |items|
  {
    PresentShrinks(seq(|items|, i requires 0 <= i < |items| => Forward(kind, items[i], scope)));
  }

  lemma CollectStep(kind: Kind, items: seq<Json>, i: nat, scope: Scope)
    requires i < |items|
    ensures Collect(kind, items[..i + 1], scope) ==
            Collect(kind, items[..i], scope) +
              (if InScope(kind, items[i], scope) then [Reduced(kind, items[i], scope)] else [])
  {
    var before := seq(i, k requires 0 <= k < i => Forward(kind, items[..i][k], scope));
    var after := seq(i + 1, k requires 0 <= k < i + 1 => Forward(kind, items[..i + 1][k], scope));
    assert after[..i] == before && after[i] == Forward(kind, items[i], scope);
  }

  method AllowItemFields(item: Fields, keep: set<string>) returns (out: Fields)
    ensures out == AllowItem(item, keep)
  {
    out := [];
    for i := 0 to |item|
      invariant out == AllowFields(item[..i], keep)
    {
      var k, v := item[i].key, item[i].value;
      assert item[..i + 1][..i] == item[..i];
      AllowedAreSurvivors(item[..i], keep);
      assert forall j :: 0 <= j < |out| ==> out[j] in item[..i];
      assert KeyIndex(out, k) == |out|;
      if (v.Num? || v.Bool?) && k != "__proto__" {
        out := Put(out, k, v);
      } else if v.Str? && k in keep && k != "__proto__" {
        out := Put(out, k, v);
      }
    }
    assert item[..|item|] == item;
  }

  method RedactHitCollection(parsed: Json, scope: Scope, codec: Codec) returns (r: Redacted)
    ensures r == RedactPayload(Hits, parsed, scope, codec)
  {
    if !parsed.Arr? { return FailClosed(MalformedPayload); }
    var items := parsed.items;
    var kept: seq<Json>, dropped := [], 0;
    for i := 0 to |items|
      invariant kept == Collect(Hits, items[..i], scope)
      invariant dropped + |kept| == i
    {
      CollectStep(Hits, items, i, scope);
      if !Keeps(HitOf(items[i]), scope) {
        dropped := dropped + 1;
        continue;
      }
      if items[i].Obj? {
        var fields := AllowItemFields(items[i].fields, HIT_KEEP_STRINGS);
        kept := kept + [Obj(fields)];
      } else {
        kept := kept + [items[i]];
      }
    }
    assert items[..|items|] == items;
    return Redacted(EnvelopeOf(Arr(kept), codec), dropped, false, None);
  }

  method RedactTraverseGraph(parsed: Json, scope: Scope, codec: Codec) returns (r: Redacted)
    ensures r == RedactPayload(Nodes, parsed, scope, codec)
  {
    if !parsed.Arr? { return FailClosed(MalformedPayload); }
    var items := parsed.items;
    var kept: seq<Json>, dropped := [], 0;
    for i := 0 to |items|
      invariant kept == Collect(Nodes, items[..i], scope)
      invariant dropped + |kept| == i
    {
      CollectStep(Nodes, items, i, scope);
      if !Keeps(HitOf(items[i]), scope) {
        dropped := dropped + 1;
        continue;
      }
      kept := kept + [RedactNodeLinks(items[i], scope)];
    }
    assert items[..|items|] == items;
    return Redacted(EnvelopeOf(Arr(kept), codec), dropped, false, None);
  }

  method RedactContradictions(parsed: Json, scope: Scope, codec: Codec) returns (r: Redacted)
    ensures r == RedactPayload(Pairs, parsed, scope, codec)
  {
    if !parsed.Obj? || Get(parsed.fields, "contradictions").None? || !Get(parsed.fields, "contradictions").value.Arr? {
      return FailClosed(MalformedPayload);
    }
    var pairs := Get(parsed.fields, "contradictions").value.items;
    var kept: seq<Json>, dropped := [], 0;
    for i := 0 to |pairs|
      invariant kept == Collect(Pairs, pairs[..i], scope)
      invariant dropped + |kept| == i
    {
      CollectStep(Pairs, pairs, i, scope);
      var pair := pairs[i];
      if !pair.Obj? {
        dropped := dropped + 1;
        continue;
      }
      var aSlug, bSlug := SideSlug(Get(pair.fields, "a")), SideSlug(Get(pair.fields, "b"));
      if !KeepSlug(aSlug, scope) || !KeepSlug(bSlug, scope) {
        dropped := dropped + 1;
        continue;
      }
      kept := kept + [Obj(A4Strip(pair.fields, aSlug, bSlug))];
    }
    assert pairs[..|pairs|] == pairs;
    return Redacted(EnvelopeOf(Obj([Entry("contradictions", Arr(kept))]), codec), dropped, false, None);
  }

  method RedactGbrainToolResult(name: Json, result: Json, scope: Scope, codec: Codec) returns (r: Redacted)
    ensures r == RedactedResult(name, result, scope, codec)
  {
    var fault := ToolFault(name, scope);
    if fault.Some? { return FailClosed(fault.value); }
    r := RedactByOp(GbrainReadToolOf(name.s).value.op, result, scope, codec);
  }

  method RedactByOp(op: string, result: Json, scope: Scope, codec: Codec) returns (r: Redacted)
    ensures r == RedactText(KindOf(op), result, scope, codec)
  {
    var text := ExtractPayloadText(result);
    if text.None? { return FailClosed(MalformedEnvelope); }
    var parsed := codec.parse(text.value);
    if parsed.None? { return FailClosed(UnparseableJson); }
    if op == "traverse_graph" {
      r := RedactTraverseGraph(parsed.value, scope, codec);
    } else if op == "find_contradictions" {
      r := RedactContradictions(parsed.value, scope, codec);
    } else if op == "get_timeline" {
      r := RedactPayload(Entries, parsed.value, scope, codec);
    } else {
      r := RedactHitCollection(parsed.value, scope, codec);
    }
  }
}
