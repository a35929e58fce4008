/** The built-in table of asdf plugin sources, looked up by canonical name. */
module ToolPlugins {
  import opened Wrappers
  import ToolAlias

  datatype ToolPlugin = ToolPlugin(pluginName: string, pluginURL: string)

  /** The read-only plugin table, keyed by canonical tool name. */
  const PluginMap: map<string, ToolPlugin> := map[
    "flutter" := ToolPlugin("flutter", "https://github.com/asdf-community/asdf-flutter.git"),
    "tuist" := ToolPlugin("tuist", "https://github.com/tuist/asdf-tuist.git"),
    "kotlin" := ToolPlugin("kotlin", "https://github.com/asdf-community/asdf-kotlin.git"),
    "java" := ToolPlugin("java", "https://github.com/halcyon/asdf-java.git"),
    "ruby" := ToolPlugin("ruby", "https://github.com/asdf-vm/asdf-ruby.git"),
    "nodejs" := ToolPlugin("nodejs", "https://github.com/asdf-vm/asdf-nodejs.git")]

  /** Every table entry is named after its key and has a source URL. */
  lemma TableWellFormed()
    ensures forall k | k in PluginMap :: PluginMap[k].pluginName == k && PluginMap[k].pluginURL != ""
  {
    assert PluginMap.Keys == {"flutter", "tuist", "kotlin", "java", "ruby", "nodejs"};
  }

  /** `GetToolPlugin`: the entry of the canonical name, None (nil) when the
      table has none. The table itself is a constant, so it is never changed. */
  function GetToolPlugin(toolName: string): (r: Option<ToolPlugin>)
    ensures r.Some? <==> ToolAlias.CanonicalToolName(toolName) in PluginMap
    ensures r.Some? ==> r.value.pluginName == ToolAlias.CanonicalToolName(toolName) && r.value.pluginURL != ""
  {
    TableWellFormed();
    var canonicalName := ToolAlias.CanonicalToolName(toolName);
    if canonicalName in PluginMap then Some(PluginMap[canonicalName]) else None
  }

  /** Lookup goes through the alias table: `node` finds the nodejs plugin,
      while `go` becomes `golang`, which has no entry. */
  lemma LookupThroughAlias()
    ensures GetToolPlugin("node") == Some(PluginMap["nodejs"])
    ensures GetToolPlugin("go") == None
  {
    assert "golang" !in PluginMap;
  }
}
