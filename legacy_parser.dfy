/** The earlier declaration format at the repository root: every tool is a
    map with a string `version` and an optional `resolution_strategy`
    name. The `meta.experimental.tools` lookup is the same as in the
    current parser. */
module LegacyParser {
  import opened Wrappers
  import opened GoStrings
  import opened Provider
  import opened ConfigParser
  import Cli

  /** The strategy a `resolution_strategy` name selects: `""` and
      `strict` select strict, the two `closest_*` names the other two, and
      any other name falls through the switch and keeps the zero value,
      strict. */
  function StrategyFromName(name: string): Strategy {
    if name == "closest_installed" then LatestInstalled
    else if name == "closest_released" then LatestReleased
    else Strict
  }

  /** Reading a strategy's display name gives the strategy back, and every
      other name reads as strict. */
  lemma StrategyNamesRoundTrip(s: Strategy, name: string)
    requires s in {Strict, LatestInstalled, LatestReleased}
    ensures StrategyFromName(Cli.StrategyDisplayName(s)) == s
    ensures name !in {"closest_installed", "closest_released"} ==> StrategyFromName(name) == Strict
  {
    assert "strict" != "closest_installed" by { assert "strict"[1] != "closest_installed"[1]; }
    assert "strict" != "closest_released" by { assert "strict"[1] != "closest_released"[1]; }
  }

  /** The request one entry declares: `toolData.(map[string]any)` with
      the comma-ok form (a typed nil map passes and reads as empty), a
      `version` that must be a string, kept as written, and a
      `resolution_strategy` that must be a string unless it is nil. */
  function LegacyDeclaration(toolName: string, node: Node): Result<ToolRequest, ConfigError> {
    var fields := match node
      case Dict(entries) => Some(entries)
      case NilDict => Some(map[])
      case _ => None;
    if fields.None? then Failure(ParseError(ToolPath(toolName) + " block is not a map"))
    else
      var m := fields.value;
      if !("version" in m && m["version"].Str?) then Failure(ParseError(ToolPath(toolName) + ".version is not a string"))
      else
        var rs := if "resolution_strategy" in m then m["resolution_strategy"] else Null;
        match rs
        case Null => Success(ToolRequest(toolName, m["version"].text, Strict, None))
        case Str(name) => Success(ToolRequest(toolName, m["version"].text, StrategyFromName(name), None))
        case _ => Failure(ParseError(ToolPath(toolName) + ".resolution_strategy is not a string"))
  }

  /** A declaration fails exactly when it is not a map, when its version is
      missing or not a string (so a nil map always fails), or when its
      strategy is present, not nil and not a string. A successful one names
      its key, keeps the version text untrimmed, has no plugin, and takes
      its strategy from the name, strict when there is none. */
  lemma LegacyDeclarationCases(toolName: string, node: Node)
    ensures LegacyDeclaration(toolName, node).Failure? <==>
      || !node.Dict?
      || !("version" in node.entries && node.entries["version"].Str?)
      || ("resolution_strategy" in node.entries
          && !(node.entries["resolution_strategy"].Null? || node.entries["resolution_strategy"].Str?))
    ensures LegacyDeclaration(toolName, node).Success? ==>
      var t := LegacyDeclaration(toolName, node).value;
      && t.toolName == toolName
      && t.unparsedVersion == node.entries["version"].text
      && t.pluginIdentifier.None?
      && t.resolutionStrategy == (
           if "resolution_strategy" in node.entries && node.entries["resolution_strategy"].Str?
           then StrategyFromName(node.entries["resolution_strategy"].text)
           else Strict)
  {
  }

  /** The same declaration in the legacy format and, with the strategy as
      a `:latest` / `:installed` suffix, in the current short form gives
      the same request, for a single-line version that the current parser
      does not trim and that, when strict, carries no suffix of its own. */
  lemma MigratedDeclaration(toolName: string, strategy: Strategy, version: string)
    requires strategy in {Strict, LatestInstalled, LatestReleased}
    requires '\n' !in version
    requires strategy == Strict ==> !HasSuffix(version, ":latest") && !HasSuffix(version, ":installed")
    requires TrimSpace(Suffixed(strategy, version)) == Suffixed(strategy, version)
    ensures LegacyDeclaration(toolName, Dict(map["version" := Str(version),
                                                  "resolution_strategy" := Str(Cli.StrategyDisplayName(strategy))]))
            == Declaration(toolName, Str(Suffixed(strategy, version)))
  {
    StrategyNamesRoundTrip(strategy, "");
    LegacyWithStrategy(toolName, version, Cli.StrategyDisplayName(strategy));
    CurrentShortForm(toolName, strategy, version);
  }

  /** The current short form with a suffix declares the version under the
      suffix's strategy. */
  lemma CurrentShortForm(toolName: string, strategy: Strategy, version: string)
    requires strategy in {Strict, LatestInstalled, LatestReleased}
    requires '\n' !in version
    requires strategy == Strict ==> !HasSuffix(version, ":latest") && !HasSuffix(version, ":installed")
    requires TrimSpace(Suffixed(strategy, version)) == Suffixed(strategy, version)
    ensures Declaration(toolName, Str(Suffixed(strategy, version))) == Success(ToolRequest(toolName, version, strategy, None))
  {
    var text := Suffixed(strategy, version);
    assert DeclaredOf(toolName, Str(text)) == Success(Declared(text, None));
    DeclarationOfDeclared(toolName, Str(text), Declared(text, None));
    ClassifySuffixed(strategy, version);
  }

  /** A map with a string version and a strategy name declares that
      version, verbatim, under the named strategy. */
  lemma LegacyWithStrategy(toolName: string, version: string, name: string)
    ensures LegacyDeclaration(toolName, Dict(map["version" := Str(version), "resolution_strategy" := Str(name)]))
            == Success(ToolRequest(toolName, version, StrategyFromName(name), None))
  {
    var m := map["version" := Str(version), "resolution_strategy" := Str(name)];
    assert "version" != "resolution_strategy" by { assert "version"[0] != "resolution_strategy"[0]; }
    assert m["version"] == Str(version) && m["resolution_strategy"] == Str(name);
  }

  predicate AllLegacyDeclared(toolBlock: map<string, Node>) {
    forall k | k in toolBlock :: LegacyDeclaration(k, toolBlock[k]).Success?
  }

  function LegacyDeclarations(toolBlock: map<string, Node>): map<string, ToolRequest>
    requires AllLegacyDeclared(toolBlock)
  {
    map k | k in toolBlock :: LegacyDeclaration(k, toolBlock[k]).value
  }

  /** The legacy `ParseToolDeclarations`. The tools are visited in Go's
      unspecified map order, so when several declarations are wrong, which
      error is reported is not determined. */
  method ParseToolDeclarations(meta: Option<map<string, Node>>) returns (r: Result<map<string, ToolRequest>, ConfigError>)
    ensures ToolBlock(meta).Failure? ==> r == Failure(ToolBlock(meta).error)
    ensures ToolBlock(meta).Success? ==> (r.Success? <==> AllLegacyDeclared(ToolBlock(meta).value))
    ensures r.Success? ==> ToolBlock(meta).Success? && AllLegacyDeclared(ToolBlock(meta).value)
                           && r.value == LegacyDeclarations(ToolBlock(meta).value)
    ensures r.Failure? && ToolBlock(meta).Success? ==>
      exists k | k in ToolBlock(meta).value :: LegacyDeclaration(k, ToolBlock(meta).value[k]) == Failure(r.error)
  {
    var block := ToolBlock(meta);
    if block.Failure? {
      return Failure(block.error);
    }
    var toolBlock := block.value;
    var toolDeclarations: map<string, ToolRequest> := map[];
    var remaining := toolBlock.Keys;
    while remaining != {}
      invariant remaining <= toolBlock.Keys
      invariant toolDeclarations.Keys == toolBlock.Keys - remaining
      invariant forall k | k in toolDeclarations :: LegacyDeclaration(k, toolBlock[k]) == Success(toolDeclarations[k])
      decreases remaining
    {
      var toolName :| toolName in remaining;
      var d := LegacyDeclaration(toolName, toolBlock[toolName]);
      if d.Failure? {
        return Failure(d.error);
      }
      toolDeclarations := toolDeclarations[toolName := d.value];
      remaining := remaining - {toolName};
    }
    return Success(toolDeclarations);
  }

  /** The declarations are keyed by tool name, one per entry, and none
      carries a plugin. */
  lemma LegacyDeclarationsKeyedByName(toolBlock: map<string, Node>)
    requires AllLegacyDeclared(toolBlock)
    ensures LegacyDeclarations(toolBlock).Keys == toolBlock.Keys
    ensures forall k | k in LegacyDeclarations(toolBlock) ::
      LegacyDeclarations(toolBlock)[k].toolName == k && LegacyDeclarations(toolBlock)[k].pluginIdentifier.None?
  {
    forall k | k in LegacyDeclarations(toolBlock)
      ensures LegacyDeclarations(toolBlock)[k].toolName == k && LegacyDeclarations(toolBlock)[k].pluginIdentifier.None?
    {
      LegacyDeclarationCases(k, toolBlock[k]);
    }
  }
}
