/** The Copilot tool catalog: which tools read, which mutate, and how each read tool can be scoped. */
module ToolCatalog {
  import opened Wrappers

  type ToolId = string

  datatype ScopingClass = ArgScopable | ResultFilterable | Unscopable | WorkspaceAgnostic

  const READ_TOOLS: seq<ToolId> := [
    "gbrain.search", "gbrain.traverse_graph", "gbrain.get_timeline", "gbrain.find_contradictions",
    "gbrain.find_anomalies", "gbrain.find_orphans", "gbrain.find_experts", "gbrain.takes_list",
    "gbrain.takes_search", "gbrain.takes_scorecard", "gbrain.takes_calibration", "gbrain.code_def",
    "gbrain.code_refs", "gbrain.code_callers", "gbrain.code_callees", "gbrain.code_flow",
    "gbrain.code_blast", "gbrain.get_recent_salience", "vault.read", "skills.list", "skills.get"
  ]

  const PROPOSE_TOOLS: seq<ToolId> := [
    "copilot.propose_action", "copilot.propose_knowledge", "copilot.propose_linear_issue"
  ]

  /** Tool id to "is it mutating", built from the two lists in order, a later entry winning. */
  const CATALOG: map<ToolId, bool> :=
    (map id | id in READ_TOOLS :: false) + (map id | id in PROPOSE_TOOLS :: true)

  const TOOL_SCOPING: map<ToolId, ScopingClass> := map[
    "gbrain.search" := ResultFilterable,
    "gbrain.traverse_graph" := ResultFilterable,
    "gbrain.find_contradictions" := ResultFilterable,
    "gbrain.get_timeline" := ArgScopable,
    "gbrain.get_recent_salience" := ArgScopable,
    "vault.read" := ArgScopable,
    "gbrain.find_experts" := Unscopable,
    "gbrain.find_anomalies" := Unscopable,
    "gbrain.find_orphans" := Unscopable,
    "gbrain.takes_list" := Unscopable,
    "gbrain.takes_search" := Unscopable,
    "gbrain.takes_scorecard" := Unscopable,
    "gbrain.takes_calibration" := Unscopable,
    "gbrain.code_def" := Unscopable,
    "gbrain.code_refs" := Unscopable,
    "gbrain.code_callers" := Unscopable,
    "gbrain.code_callees" := Unscopable,
    "gbrain.code_flow" := Unscopable,
    "gbrain.code_blast" := Unscopable,
    "skills.list" := WorkspaceAgnostic,
    "skills.get" := WorkspaceAgnostic
  ]

  predicate IsMutating(id: ToolId) {
    if id in CATALOG then CATALOG[id] else true
  }

  function ScopingClassOf(id: ToolId): ScopingClass {
    if id in TOOL_SCOPING then TOOL_SCOPING[id] else Unscopable
  }

  function ScopedIds(ids: seq<ToolId>, brainPartitioned: bool): seq<ToolId> {
    if ids == [] then []
    else
      (if ScopingClassOf(ids[0]).Unscopable? && !brainPartitioned then [] else [ids[0]])
      + ScopedIds(ids[1..], brainPartitioned)
  }

  function ScopedReadToolIds(brainPartitioned: bool): seq<ToolId> { ScopedIds(READ_TOOLS, brainPartitioned) }

  // ---- gbrain MCP names ---------------------------------------------------------------------

  const GBRAIN_MCP_PREFIX := "mcp__gbrain__"

  datatype Tool = Tool(op: string, id: ToolId)

  /** The catalog id an MCP tool name maps to, whether or not that id is catalogued. */
  function MappedId(mcpToolName: string): Option<Tool> {
    if !(GBRAIN_MCP_PREFIX <= mcpToolName) then None
    else
      var op := mcpToolName[|GBRAIN_MCP_PREFIX|..];
      if op == "" then None
      else Some(Tool(op, if op == "query" then "gbrain.search" else "gbrain." + op))
  }

  function GbrainReadToolOf(mcpToolName: string): Option<Tool> {
    var tool := MappedId(mcpToolName);
    if tool.Some? && !IsMutating(tool.value.id) then tool else None
  }

  // ---- theorems -----------------------------------------------------------------------------

  lemma {:induction false} ScopedIdsAre(ids: seq<ToolId>, brainPartitioned: bool, id: ToolId)
    ensures id in ScopedIds(ids, brainPartitioned) <==>
      id in ids && (ScopingClassOf(id).Unscopable? ==> brainPartitioned)
  {
    if ids != [] {
      assert ids == [ids[0]] + ids[1..];
      ScopedIdsAre(ids[1..], brainPartitioned, id);
    }
  }

  lemma NoReadToolProposes(k: nat)
    requires k < |READ_TOOLS|
    ensures READ_TOOLS[k] != "" && READ_TOOLS[k][0] != 'c'
  {}

  lemma ProposeToolsBeginWithC(k: nat)
    requires k < |PROPOSE_TOOLS|
    ensures PROPOSE_TOOLS[k] != "" && PROPOSE_TOOLS[k][0] == 'c'
  {}

  /** A tool classifies as non-mutating exactly when it is one of the read tools. */
  lemma ReadToolsAreTheNonMutating(id: ToolId)
    ensures !IsMutating(id) <==> id in READ_TOOLS
  {
    var readOnly: map<ToolId, bool> := map t | t in READ_TOOLS :: false;
    var proposes: map<ToolId, bool> := map t | t in PROPOSE_TOOLS :: true;
    assert CATALOG == readOnly + proposes;
    if id in READ_TOOLS {
      var k :| 0 <= k < |READ_TOOLS| && READ_TOOLS[k] == id;
      NoReadToolProposes(k);
      forall j | 0 <= j < |PROPOSE_TOOLS| ensures PROPOSE_TOOLS[j] != id { ProposeToolsBeginWithC(j); }
      assert id !in proposes;
    }
  }

  /** Every read tool carries an explicit scoping class, and nothing else does. */
  lemma ScopingCoversReadTools(id: ToolId)
    ensures id in TOOL_SCOPING <==> id in READ_TOOLS
  {
    assert TOOL_SCOPING.Keys == set t | t in READ_TOOLS;
  }

  /** The tool an MCP name may use on this brain: catalogued as reading and scopable here. */
  function AdmittedTool(mcpToolName: string, brainPartitioned: bool): Option<Tool> {
    var tool := GbrainReadToolOf(mcpToolName);
    if tool.Some? && (ScopingClassOf(tool.value.id).Unscopable? ==> brainPartitioned) then tool else None
  }

  /** A name is admitted exactly when its mapped id is in the brain's read-tool allow-list. */
  lemma AdmittedIffAllowListed(mcpToolName: string, brainPartitioned: bool)
    ensures AdmittedTool(mcpToolName, brainPartitioned).Some? <==>
      MappedId(mcpToolName).Some? && MappedId(mcpToolName).value.id in ScopedReadToolIds(brainPartitioned)
  {
    if MappedId(mcpToolName).Some? {
      var id := MappedId(mcpToolName).value.id;
      ReadToolsAreTheNonMutating(id);
      ScopedIdsAre(READ_TOOLS, brainPartitioned, id);
    }
  }

  // ---- the admitted names, written out --------------------------------------------------------

  /** The read tools over the store whose answers or arguments can be scoped to a workspace. */
  predicate IsScopableId(id: ToolId) {
    id in [
      "gbrain.search", "gbrain.traverse_graph", "gbrain.find_contradictions", "gbrain.get_timeline",
      "gbrain.get_recent_salience"]
  }

  /** The read tools that compute over the whole store. */
  predicate IsWholeBrainId(id: ToolId) {
    id in [
      "gbrain.find_anomalies", "gbrain.find_orphans", "gbrain.find_experts", "gbrain.takes_list",
      "gbrain.takes_search", "gbrain.takes_scorecard", "gbrain.takes_calibration", "gbrain.code_def",
      "gbrain.code_refs", "gbrain.code_callers", "gbrain.code_callees", "gbrain.code_flow", "gbrain.code_blast"]
  }

  lemma WholeBrainIds(id: ToolId)
    ensures id in TOOL_SCOPING && TOOL_SCOPING[id].Unscopable? <==> IsWholeBrainId(id)
  {}

  lemma ReadIds(id: ToolId)
    ensures id in TOOL_SCOPING <==>
      IsScopableId(id) || IsWholeBrainId(id) || id in ["vault.read", "skills.list", "skills.get"]
  {}

  /** What admits a mapped id. */
  lemma AdmittedById(name: string, brainPartitioned: bool)
    requires MappedId(name).Some?
    ensures var id := MappedId(name).value.id;
      AdmittedTool(name, brainPartitioned).Some? <==>
      id in TOOL_SCOPING && (IsWholeBrainId(id) ==> brainPartitioned)
  {
    var id := MappedId(name).value.id;
    AdmittedIffAllowListed(name, brainPartitioned);
    ScopedIdsAre(READ_TOOLS, brainPartitioned, id);
    ScopingCoversReadTools(id);
    WholeBrainIds(id);
  }

  lemma MappedOp(op: string)
    ensures MappedId("mcp__gbrain__" + op) ==
      if op == "" then None else Some(Tool(op, if op == "query" then "gbrain.search" else "gbrain." + op))
  {
    var name := "mcp__gbrain__" + op;
    assert name[|GBRAIN_MCP_PREFIX|..] == op;
  }

  lemma IdAdmits(id: ToolId, brainPartitioned: bool)
    ensures id !in ["vault.read", "skills.list", "skills.get"] ==>
      (id in TOOL_SCOPING && (IsWholeBrainId(id) ==> brainPartitioned) <==>
        IsScopableId(id) || (brainPartitioned && IsWholeBrainId(id)))
  {
    ReadIds(id);
  }

  lemma StoreId(op: string)
    ensures "gbrain." + op !in ["vault.read", "skills.list", "skills.get"]
    ensures op == "" ==> !IsScopableId("gbrain." + op) && !IsWholeBrainId("gbrain." + op)
  {
    assert ("gbrain." + op)[0] == 'g' && |"gbrain." + op| == 7 + |op|;
  }

  /**
   * Which tools of the store are admitted: `query` and five more, and on a partitioned brain thirteen others; nothing
   * without the prefix.
   */
  lemma AdmittedNamesAre(op: string, brainPartitioned: bool)
    ensures AdmittedTool("mcp__gbrain__" + op, brainPartitioned).Some? <==>
      op == "query" || IsScopableId("gbrain." + op) || (brainPartitioned && IsWholeBrainId("gbrain." + op))
  {
    var id := if op == "query" then "gbrain.search" else "gbrain." + op;
    MappedOp(op);
    StoreId(op);
    IdAdmits(id, brainPartitioned);
    if op != "" { AdmittedById("mcp__gbrain__" + op, brainPartitioned); }
  }

  lemma OnlyStoreNames(name: string, brainPartitioned: bool)
    ensures AdmittedTool(name, brainPartitioned).Some? ==> "mcp__gbrain__" <= name
  {}
}
