/**
 * The argument policer for gbrain tool calls: a call is refused, or its arguments are rewritten to the
 * served workspace. `Refusal` says when it is refused and `Corrected` what it is rewritten to; the
 * method `PoliceGbrainToolArgs` is the source's step-by-step edit of a copy.
 */
module ArgPolicy {
  import opened Wrappers
  import opened Strings
  import opened Json
  import opened ToolCatalog
  import opened WorkspaceScope

  datatype ArgCause = ScopeWidening | ForeignSeed | UnscopableTool | UnknownTool | MalformedArgs

  datatype ArgResult = AllowArgs(updatedInput: Fields) | DenyArgs(argCause: ArgCause)

  predicate IsTruthy(v: Option<Json>) {
    || v == Some(Bool(true))
    || v == Some(Num(1.0))
    || (v.Some? && v.value.Str? && ToLower(Trim(v.value.s)) in ["true", "1", "yes", "on"])
  }

  predicate IsAllSources(src: string) { ToLower(Trim(src)) == "__all__" }

  /** The model asked for more than one workspace, or picked a source in a way that cannot be checked. */
  predicate Widens(args: Fields) {
    || IsTruthy(Get(args, "all_sources"))
    || match Get(args, "source_id") {
         case None => false
         case Some(Str(src)) => IsAllSources(src)
         case Some(_) => true
       }
  }

  predicate SeedOp(op: string) { op == "traverse_graph" || op == "get_timeline" }

  /** `args[k]` when it is a string, else "". */
  function StringAt(args: Fields, k: string): string {
    match Get(args, k)
    case Some(Str(s)) => s
    case _ => ""
  }

  /** Refusals that depend on the tool and on the shape of the arguments only. */
  function ToolRefusal(name: Json, input: Json, scope: Scope): Option<ArgCause> {
    if !name.Str? || GbrainReadToolOf(name.s).None? then Some(UnknownTool)
    else if !input.Obj? then Some(MalformedArgs)
    else if AdmittedTool(name.s, scope.brainPartitioned).None? then Some(UnscopableTool)
    else None
  }

  function ServedSource(scope: Scope): Option<string> {
    var d := DescriptorFor(scope.registry, scope.servedWorkspaceId);
    if d.Some? then d.value.sourceId else None
  }

  /** Pin `k` to a string, or drop it when there is nothing to pin it to. */
  function Pin(args: Fields, k: string, v: Option<string>): Fields {
    if v.Some? then Put(args, k, Str(v.value)) else Delete(args, k)
  }

  /** Set `k` to a string when there is one. */
  function Suggest(args: Fields, k: string, v: Option<string>): Fields {
    if v.Some? then Put(args, k, Str(v.value)) else args
  }

  function Corrected(op: string, args: Fields, scope: Scope): Fields {
    var base := Delete(args, "all_sources");
    if SeedOp(op) then base
    else if op == "get_recent_salience" then Suggest(base, "slugPrefix", SingleSlugPrefixOf(scope))
    else
      var sourced := Pin(base, "source_id", ServedSource(scope));
      if op == "find_contradictions" && Get(sourced, "slug").None?
      then Suggest(sourced, "slug", SingleSlugPrefixOf(scope))
      else sourced
  }

  /** What becomes of a record of arguments for an admitted op. */
  function Judged(op: string, args: Fields, scope: Scope): ArgResult {
    if Widens(args) then DenyArgs(ScopeWidening)
    else if SeedOp(op) && !Keeps(Hit(StringAt(args, "slug"), None), scope) then DenyArgs(ForeignSeed)
    else AllowArgs(Corrected(op, args, scope))
  }

  function Policed(name: Json, input: Json, scope: Scope): ArgResult {
    match ToolRefusal(name, input, scope)
    case Some(cause) => DenyArgs(cause)
    case None => Judged(GbrainReadToolOf(name.s).value.op, input.fields, scope)
  }

  method PoliceGbrainToolArgs(name: Json, input: Json, scope: Scope) returns (r: ArgResult)
    ensures r == Policed(name, input, scope)
  {
    if !name.Str? { return DenyArgs(UnknownTool); }
    var tool := GbrainReadToolOf(name.s);
    if tool.None? { return DenyArgs(UnknownTool); }
    if !input.Obj? { return DenyArgs(MalformedArgs); }
    if ScopingClassOf(tool.value.id).Unscopable? && !scope.brainPartitioned { return DenyArgs(UnscopableTool); }
    r := RewriteArgs(tool.value.op, input.fields, scope);
  }

  method RewriteArgs(op: string, input: Fields, scope: Scope) returns (r: ArgResult)
    ensures r == Judged(op, input, scope)
  {
    var args := input;
    if IsTruthy(Get(args, "all_sources")) { return DenyArgs(ScopeWidening); }
    DeleteReads(args, "all_sources", "source_id");
    DeleteReads(args, "all_sources", "slug");
    args := Delete(args, "all_sources");
    var rawSource := Get(args, "source_id");
    if rawSource.Some? {
      if !rawSource.value.Str? || IsAllSources(rawSource.value.s) { return DenyArgs(ScopeWidening); }
    }
    if op == "traverse_graph" || op == "get_timeline" {
      var slug := StringAt(args, "slug");
      if !Keeps(Hit(slug, None), scope) { return DenyArgs(ForeignSeed); }
      return AllowArgs(args);
    }
    if op == "get_recent_salience" {
      var prefix := SingleSlugPrefixOf(scope);
      if prefix.Some? { args := Put(args, "slugPrefix", Str(prefix.value)); }
      return AllowArgs(args);
    }
    var d := DescriptorFor(scope.registry, scope.servedWorkspaceId);
    if d.Some? && d.value.sourceId.Some? {
      args := Put(args, "source_id", Str(d.value.sourceId.value));
    } else {
      args := Delete(args, "source_id");
    }
    assert args == Pin(Delete(input, "all_sources"), "source_id", ServedSource(scope));
    if op == "find_contradictions" && Get(args, "slug").None? {
      var prefix := SingleSlugPrefixOf(scope);
      if prefix.Some? { args := Put(args, "slug", Str(prefix.value)); }
    }
    return AllowArgs(args);
  }

  // ---- theorems -----------------------------------------------------------------------------

  /** Every op but the two seeded walks and the salience list. */
  predicate DefaultOp(op: string) { op !in ["traverse_graph", "get_timeline", "get_recent_salience"] }

  lemma CorrectedReads(op: string, args: Fields, scope: Scope)
    ensures Get(Corrected(op, args, scope), "all_sources").None?
    ensures var out := Corrected(op, args, scope);
      && (DefaultOp(op) && ServedSource(scope).Some? ==> Get(out, "source_id") == Some(Str(ServedSource(scope).value)))
      && (DefaultOp(op) && ServedSource(scope).None? ==> Get(out, "source_id").None?)
      && (!DefaultOp(op) ==> Get(out, "source_id") == Get(args, "source_id"))
      && (SeedOp(op) ==> Get(out, "slug") == Get(args, "slug"))
      && (op == "get_recent_salience" && SingleSlugPrefixOf(scope).Some? ==>
           Get(out, "slugPrefix") == Some(Str(SingleSlugPrefixOf(scope).value)))
  {
    CorrectedByOp(op, args, scope, "all_sources");
    CorrectedByOp(op, args, scope, "source_id");
    CorrectedByOp(op, args, scope, "slug");
    CorrectedByOp(op, args, scope, "slugPrefix");
  }

  /** No key other than the four the policer governs is touched. */
  lemma OtherArgsUntouched(op: string, args: Fields, scope: Scope, k: string)
    requires k !in ["all_sources", "source_id", "slugPrefix", "slug"]
    ensures Get(Corrected(op, args, scope), k) == Get(args, k)
  {
    CorrectedByOp(op, args, scope, k);
  }

  /**
   * What an allowed call of `op` carries: never `all_sources`; on every op in the default branch the served
   * workspace's own `source_id` or none, and on the others never the `__all__` wildcard; and a seeded walk
   * starts from a slug the served workspace keeps.
   */
  ghost predicate IsScoped(op: string, out: Fields, scope: Scope) {
    && Get(out, "all_sources").None?
    && (DefaultOp(op) && ServedSource(scope).Some? ==> Get(out, "source_id") == Some(Str(ServedSource(scope).value)))
    && (DefaultOp(op) && ServedSource(scope).None? ==> Get(out, "source_id").None?)
    && (!DefaultOp(op) && Get(out, "source_id").Some? ==>
          Get(out, "source_id").value.Str? && !IsAllSources(Get(out, "source_id").value.s))
    && (op in ["traverse_graph", "get_timeline"] ==> Keeps(Hit(StringAt(out, "slug"), None), scope))
  }

  lemma JudgedIsScoped(op: string, args: Fields, scope: Scope)
    ensures Judged(op, args, scope).AllowArgs? ==> IsScoped(op, Judged(op, args, scope).updatedInput, scope)
  {
    CorrectedReads(op, args, scope);
  }

  lemma AllowedArgsAreScoped(name: Json, input: Json, scope: Scope)
    requires Policed(name, input, scope).AllowArgs?
    ensures IsScoped(GbrainReadToolOf(name.s).value.op, Policed(name, input, scope).updatedInput, scope)
  {
    JudgedIsScoped(GbrainReadToolOf(name.s).value.op, input.fields, scope);
  }

  lemma CorrectedTwice(op: string, args: Fields, scope: Scope)
    ensures Corrected(op, Corrected(op, args, scope), scope) == Corrected(op, args, scope)
  {
    var out := Corrected(op, args, scope);
    CorrectedReads(op, args, scope);
    assert Delete(out, "all_sources") == out;
    if op == "get_recent_salience" {
      if SingleSlugPrefixOf(scope).Some? { PutSame(out, "slugPrefix", Str(SingleSlugPrefixOf(scope).value)); }
    } else if !SeedOp(op) {
      if ServedSource(scope).Some? { PutSame(out, "source_id", Str(ServedSource(scope).value)); }
      assert Pin(out, "source_id", ServedSource(scope)) == out;
    }
  }

  lemma JudgedTwice(op: string, args: Fields, scope: Scope)
    requires Judged(op, args, scope).AllowArgs?
    ensures var out := Corrected(op, args, scope);
      Judged(op, out, scope) == AllowArgs(out) <==>
      !(DefaultOp(op) && ServedSource(scope).Some? && IsAllSources(ServedSource(scope).value))
  {
    CorrectedReads(op, args, scope);
    CorrectedTwice(op, args, scope);
  }

  /**
   * Policing an allowed output again returns it unchanged, with one exception that the output itself
   * shows: a default-branch call pinned to a registered source id that reads as `__all__`.
   */
  lemma PolicingIsStable(name: Json, input: Json, scope: Scope)
    requires Policed(name, input, scope).AllowArgs?
    ensures var op, out := GbrainReadToolOf(name.s).value.op, Policed(name, input, scope).updatedInput;
      Policed(name, Obj(out), scope) == AllowArgs(out) <==>
      !(DefaultOp(op) && ServedSource(scope).Some? && IsAllSources(ServedSource(scope).value))
  {
    JudgedTwice(GbrainReadToolOf(name.s).value.op, input.fields, scope);
  }

  /**
   * For a record of arguments the tool checks pass exactly when the name is admitted on this brain,
   * which by `AdmittedIffAllowListed` means its mapped id is in the read-tool allow-list.
   */
  lemma PolicerAdmits(name: Json, args: Fields, scope: Scope)
    ensures Policed(name, Obj(args), scope) !in {DenyArgs(UnknownTool), DenyArgs(UnscopableTool)} <==>
      name.Str? && AdmittedTool(name.s, scope.brainPartitioned).Some?
  {}

  // ---- op by op -------------------------------------------------------------------------------

  /** What an allowed call carries under each key: the call's own value, but for four keys and as the op demands. */
  function ArgByOp(op: string, args: Fields, scope: Scope, k: string): Option<Json> {
    var prefix := SingleSlugPrefixOf(scope);
    if k == "all_sources" then None
    else if k == "source_id" && DefaultOp(op) then
      if ServedSource(scope).Some? then Some(Str(ServedSource(scope).value)) else None
    else if k == "slugPrefix" && op == "get_recent_salience" && prefix.Some? then Some(Str(prefix.value))
    else if k == "slug" && op == "find_contradictions" && Get(args, "slug").None? && prefix.Some?
    then Some(Str(prefix.value))
    else Get(args, k)
  }

  lemma DeleteReads(args: Fields, k: string, x: string)
    ensures Get(Delete(args, k), x) == if x == k then None else Get(args, x)
  {
    if x != k { GetOther(args, k, Null, x); }
  }

  lemma SuggestReads(args: Fields, k: string, v: Option<string>, x: string)
    ensures Get(Suggest(args, k, v), x) == if x == k && v.Some? then Some(Str(v.value)) else Get(args, x)
  {
    if x != k && v.Some? { GetOther(args, k, Str(v.value), x); }
  }

  lemma PinReads(args: Fields, k: string, v: Option<string>, x: string)
    ensures Get(Pin(args, k, v), x) ==
      if x != k then Get(args, x) else if v.Some? then Some(Str(v.value)) else None
  {
    if v.Some? { SuggestReads(args, k, v, x); } else { DeleteReads(args, k, x); }
  }

  lemma CorrectedByOp(op: string, args: Fields, scope: Scope, k: string)
    ensures Get(Corrected(op, args, scope), k) == ArgByOp(op, args, scope, k)
  {
    var base, prefix := Delete(args, "all_sources"), SingleSlugPrefixOf(scope);
    DeleteReads(args, "all_sources", k);
    if op == "get_recent_salience" {
      SuggestReads(base, "slugPrefix", prefix, k);
    } else if DefaultOp(op) {
      var sourced := Pin(base, "source_id", ServedSource(scope));
      PinReads(base, "source_id", ServedSource(scope), k);
      if op == "find_contradictions" {
        DeleteReads(args, "all_sources", "slug");
        PinReads(base, "source_id", ServedSource(scope), "slug");
        SuggestReads(sourced, "slug", prefix, k);
      }
    }
  }

  /**
   * The verdict on every call of an admitted tool: refused for widening, or for a seed the served workspace does not
   * keep on the two ops that have one; otherwise allowed, with each argument as the op demands it.
   */
  lemma VerdictByOp(op: string, args: Fields, scope: Scope, k: string)
    requires AdmittedTool("mcp__gbrain__" + op, scope.brainPartitioned).Some?
    ensures (var verdict := Policed(Str("mcp__gbrain__" + op), Obj(args), scope);
      var foreign := op in ["traverse_graph", "get_timeline"] && !Keeps(Hit(StringAt(args, "slug"), None), scope);
      && (verdict.AllowArgs? <==> !Widens(args) && !foreign)
      && (verdict.DenyArgs? ==> verdict.argCause == if Widens(args) then ScopeWidening else ForeignSeed)
      && (verdict.AllowArgs? ==> Get(verdict.updatedInput, k) == ArgByOp(op, args, scope, k)))
  {
    var name := "mcp__gbrain__" + op;
    assert name[|GBRAIN_MCP_PREFIX|..] == op;
    PolicedAsOp(op, args, scope);
    CorrectedByOp(op, args, scope, k);
  }

  lemma PolicedAsOp(op: string, args: Fields, scope: Scope)
    requires AdmittedTool("mcp__gbrain__" + op, scope.brainPartitioned).Some?
    ensures Policed(Str("mcp__gbrain__" + op), Obj(args), scope) == Judged(op, args, scope)
  {
    var name := "mcp__gbrain__" + op;
    assert name[|GBRAIN_MCP_PREFIX|..] == op;
  }

  // ---- what widens ----------------------------------------------------------------------------

  /** The text is the word in some letter case, with white space around it. */
  ghost predicate Reads(text: string, word: string) {
    exists lead, spelled, trail ::
      IsBlank(lead) && IsBlank(trail) && text == lead + spelled + trail && ToLower(spelled) == word
  }

  predicate IsBlank(s: string) { forall i :: 0 <= i < |s| ==> IsSpace(s[i]) }

  lemma ReadsExactly(text: string, word: string)
    requires word != "" && forall i :: 0 <= i < |word| ==> !IsSpace(word[i])
    ensures ToLower(Trim(text)) == word <==> Reads(text, word)
  {
    if ToLower(Trim(text)) == word {
      var lead, trail := TrimCuts(text);
      assert Reads(text, word);
    }
    if Reads(text, word) {
      var lead, spelled, trail :|
        IsBlank(lead) && IsBlank(trail) && text == lead + spelled + trail && ToLower(spelled) == word;
      assert !IsSpace(ToLower(spelled)[0]) && !IsSpace(ToLower(spelled)[|word| - 1]);
      TrimPadded(lead, spelled, trail);
    }
  }

  /** Trimming cuts white space at both ends and nothing else. */
  lemma TrimCuts(s: string) returns (lead: string, trail: string)
    ensures IsBlank(lead) && IsBlank(trail) && s == lead + Trim(s) + trail
  {
    lead := StartCut(s);
    trail := EndCut(TrimStart(s));
  }

  lemma {:induction false} StartCut(s: string) returns (lead: string)
    ensures IsBlank(lead) && s == lead + TrimStart(s)
  {
    lead := "";
    if s != "" && IsSpace(s[0]) {
      var rest := StartCut(s[1..]);
      lead := [s[0]] + rest;
      assert s == [s[0]] + s[1..];
    }
  }

  lemma {:induction false} EndCut(s: string) returns (trail: string)
    ensures IsBlank(trail) && s == TrimEnd(s) + trail
  {
    trail := "";
    if s != "" && IsSpace(s[|s| - 1]) {
      var rest := EndCut(s[..|s| - 1]);
      trail := rest + [s[|s| - 1]];
      assert s == s[..|s| - 1] + [s[|s| - 1]];
    }
  }

  lemma TrimPadded(lead: string, s: string, trail: string)
    requires IsBlank(lead) && IsBlank(trail) && s != "" && !IsSpace(s[0]) && !IsSpace(s[|s| - 1])
    ensures Trim(lead + s + trail) == s
  {
    assert lead + s + trail == lead + (s + trail);
    assert (s + trail)[0] == s[0];
    TrimStartBefore(lead, s + trail);
    BlankTrims(lead, trail);
    TrimEndAfter(s, trail);
    assert "" + (s + trail) == s + trail && s + "" == s;
  }

  lemma {:induction false} BlankTrims(lead: string, trail: string)
    requires IsBlank(lead) && IsBlank(trail)
    ensures TrimStart(lead) == "" && TrimEnd(trail) == ""
  {
    if lead != "" { BlankTrims(lead[1..], trail); }
    else if trail != "" { BlankTrims(lead, trail[..|trail| - 1]); }
  }

  /** Exactly what counts as asking for more than one workspace, in whatever case and padding it is written. */
  lemma WidensExactly(args: Fields)
    ensures Widens(args) <==> (
      var all, source := Get(args, "all_sources"), Get(args, "source_id");
      || all == Some(Bool(true)) || all == Some(Num(1.0))
      || (all.Some? && all.value.Str? && (Reads(all.value.s, "true") || Reads(all.value.s, "1")
           || Reads(all.value.s, "yes") || Reads(all.value.s, "on")))
      || (source.Some? && !source.value.Str?)
      || (source.Some? && source.value.Str? && Reads(source.value.s, "__all__")))
  {
    var all, source := Get(args, "all_sources"), Get(args, "source_id");
    if all.Some? && all.value.Str? {
      ReadsExactly(all.value.s, "true");
      ReadsExactly(all.value.s, "1");
      ReadsExactly(all.value.s, "yes");
      ReadsExactly(all.value.s, "on");
    }
    if source.Some? && source.value.Str? { ReadsExactly(source.value.s, "__all__"); }
  }
}
