/** Canonical tool names: a fixed alias table with the name itself as the
    default. */
module ToolAlias {
  /** The alias table: alias to canonical name. */
  const AliasMap: map<string, string> := map["go" := "golang", "node" := "nodejs"]

  /** `GetCanonicalToolName`: the table entry when the name is an alias,
      otherwise the name unchanged. The result is always canonical, and
      only an alias is changed. */
  function CanonicalToolName(toolName: string): (r: string)
    ensures r !in AliasMap
    ensures r != toolName ==> toolName in AliasMap
  {
    assert AliasMap.Keys == {"go", "node"};
    if toolName in AliasMap then AliasMap[toolName] else toolName
  }

  /** No alias target is itself an alias. */
  lemma TargetsAreNotAliases()
    ensures forall k | k in AliasMap :: AliasMap[k] !in AliasMap
  {
    assert AliasMap.Keys == {"go", "node"};
  }

  /** Canonicalisation is idempotent. */
  lemma CanonicalIdempotent(toolName: string)
    ensures CanonicalToolName(CanonicalToolName(toolName)) == CanonicalToolName(toolName)
  {
    TargetsAreNotAliases();
  }

  lemma KnownAliases()
    ensures CanonicalToolName("go") == "golang"
    ensures CanonicalToolName("node") == "nodejs"
  {
  }

  /** Every name other than the two aliases is kept as it is. */
  lemma OtherNamesUnchanged(toolName: string)
    requires toolName != "go" && toolName != "node"
    ensures CanonicalToolName(toolName) == toolName
  {
  }
}
