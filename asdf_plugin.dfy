/** Recognising an installed asdf plugin in `asdf plugin list --urls`
    output, and the arguments of `asdf plugin add`. */
module AsdfPlugin {
  import opened GoStrings
  import opened ToolPlugins

  /** A trimmed, non-blank line names the plugin: it starts with the plugin
      name (if one is given) and contains the URL (if one is given). */
  predicate LineMatches(line: string, plugin: ToolPlugin) {
    line != ""
    && (plugin.pluginName == "" || HasPrefix(line, plugin.pluginName))
    && (plugin.pluginURL == "" || Contains(line, plugin.pluginURL))
  }

  /** Some line of the listing, once trimmed, names the plugin. */
  function AnyLineMatches(lines: seq<string>, plugin: ToolPlugin): bool {
    lines != [] && (LineMatches(TrimSpace(lines[0]), plugin) || AnyLineMatches(lines[1..], plugin))
  }

  /** The plugin appears in the (untrimmed) `plugin list --urls` output. */
  function Listed(output: string, plugin: ToolPlugin): bool {
    AnyLineMatches(Split(output, '\n'), plugin)
  }

  /** The scan finds a match exactly when some line matches. */
  lemma {:induction false} AnyLineMatchesExists(lines: seq<string>, plugin: ToolPlugin)
    ensures AnyLineMatches(lines, plugin) <==> exists i :: 0 <= i < |lines| && LineMatches(TrimSpace(lines[i]), plugin)
  {
    if lines != [] {
      AnyLineMatchesExists(lines[1..], plugin);
      if AnyLineMatches(lines[1..], plugin) && !LineMatches(TrimSpace(lines[0]), plugin) {
        var i :| 0 <= i < |lines[1..]| && LineMatches(TrimSpace(lines[1..][i]), plugin);
        assert LineMatches(TrimSpace(lines[i + 1]), plugin);
      }
      if exists i :: 0 <= i < |lines| && LineMatches(TrimSpace(lines[i]), plugin) {
        var i :| 0 <= i < |lines| && LineMatches(TrimSpace(lines[i]), plugin);
        if i > 0 {
          assert LineMatches(TrimSpace(lines[1..][i - 1]), plugin);
        }
      }
    }
  }

  /** One step of the scan: the lines from `i` on hold a match exactly when
      line `i` matches or the lines after it hold one. */
  lemma AnyLineMatchesStep(lines: seq<string>, i: nat, plugin: ToolPlugin)
    requires i < |lines|
    ensures AnyLineMatches(lines[i..], plugin)
      == (LineMatches(TrimSpace(lines[i]), plugin) || AnyLineMatches(lines[i + 1..], plugin))
  {
    assert lines[i..][1..] == lines[i + 1..];
  }

  /** The line scan of `pluginAlreadyInstalled` over the lines of the
      listing: trims each line, skips the blank ones and stops at the first
      that names the plugin. */
  method ScanPluginLines(lines: seq<string>, plugin: ToolPlugin) returns (installed: bool)
    ensures installed == AnyLineMatches(lines, plugin)
    ensures installed <==> exists i :: 0 <= i < |lines| && LineMatches(TrimSpace(lines[i]), plugin)
  {
    AnyLineMatchesExists(lines, plugin);
    for i := 0 to |lines|
      invariant AnyLineMatches(lines, plugin) == AnyLineMatches(lines[i..], plugin)
    {
      AnyLineMatchesStep(lines, i, plugin);
      var line := TrimSpace(lines[i]);
      if line == "" {
        continue;
      }
      if (plugin.pluginName == "" || HasPrefix(line, plugin.pluginName))
        && (plugin.pluginURL == "" || Contains(line, plugin.pluginURL))
      {
        return true;
      }
    }
    return false;
  }

  /** The arguments of `asdf plugin add`: `add`, then the name if there is
      one, then the URL if there is one. */
  function AddArgs(plugin: ToolPlugin): (args: seq<string>)
    ensures |args| == 1 + (if plugin.pluginName == "" then 0 else 1) + (if plugin.pluginURL == "" then 0 else 1)
    ensures args[0] == "add"
    ensures plugin.pluginName != "" ==> args[1] == plugin.pluginName
    ensures plugin.pluginURL == "" || args[|args| - 1] == plugin.pluginURL
  {
    ["add"]
    + (if plugin.pluginName != "" then [plugin.pluginName] else [])
    + (if plugin.pluginURL != "" then [plugin.pluginURL] else [])
  }
}
