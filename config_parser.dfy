/** Reading tool declarations and the tool configuration out of the `meta`
    block of an already-loaded `bitrise.yml`. */
module ConfigParser {
  import opened Wrappers
  import opened GoStrings
  import opened Provider

  /** A value of the loaded YAML tree as the code sees it through `any`:
      a nil interface, a string, a map, a typed nil map (which a type switch
      still takes for a map) or anything else. */
  datatype Node = Null | Str(text: string) | Dict(entries: map<string, Node>) | NilDict | Other

  /** An error return, or a run-time panic of a failed single-value type
      assertion. */
  datatype ConfigError = Panic | ParseError(message: string)

  const Prefix := "parse bitrise.yml: "

  /** `m[key].(map[string]any)`: a map gives its entries, a typed nil map
      gives nil (`None`), and anything else, a missing key included,
      panics. */
  function AssertMap(m: map<string, Node>, key: string): Result<Option<map<string, Node>>, ConfigError> {
    if key !in m then Failure(Panic)
    else match m[key]
      case Dict(entries) => Success(Some(entries))
      case NilDict => Success(None)
      case _ => Failure(Panic)
  }

  /** `meta.experimental`; `meta` is `None` when the map is nil. */
  function ExperimentalBlock(meta: Option<map<string, Node>>): Result<map<string, Node>, ConfigError> {
    if meta.None? then Failure(ParseError(Prefix + "meta block is not defined"))
    else match AssertMap(meta.value, "experimental")
      case Failure(e) => Failure(e)
      case Success(None) => Failure(ParseError(Prefix + "meta.experimental block is not defined"))
      case Success(Some(b)) => Success(b)
  }

  /** `meta.experimental.tools`. */
  function ToolBlock(meta: Option<map<string, Node>>): Result<map<string, Node>, ConfigError> {
    match ExperimentalBlock(meta)
    case Failure(e) => Failure(e)
    case Success(experimental) =>
      match AssertMap(experimental, "tools")
      case Failure(e) => Failure(e)
      case Success(None) => Failure(ParseError(Prefix + "meta.experimental.tools block is not defined"))
      case Success(Some(b)) => Success(b)
  }

  // ---- The `:latest` / `:installed` suffixes ----

  predicate HasSuffix(s: string, suffix: string) {
    |suffix| <= |s| && s[|s| - |suffix|..] == suffix
  }

  /** The part of `s` after its last newline. */
  function AfterLastNewline(s: string): string
    decreases |s|
  {
    if s == [] || s[|s| - 1] == '\n' then []
    else AfterLastNewline(s[..|s| - 1]) + [s[|s| - 1]]
  }

  /** The capture group of `(.*)<suffix>$` on a string ending in the
      suffix: `.` does not match a newline, so the leftmost match starts
      after the last newline before the suffix. */
  function Captured(s: string, suffix: string): string
    requires HasSuffix(s, suffix)
  {
    AfterLastNewline(s[..|s| - |suffix|])
  }

  /** The strategy a declared version selects, and the version without its
      suffix. `:latest` is tried first. */
  function Classify(v: string): (Strategy, string) {
    if HasSuffix(v, ":latest") then (LatestReleased, Captured(v, ":latest"))
    else if HasSuffix(v, ":installed") then (LatestInstalled, Captured(v, ":installed"))
    else (Strict, v)
  }

  /** The suffix that requests a strategy in a declaration. */
  function Suffixed(strategy: Strategy, version: string): string {
    if strategy == LatestReleased then version + ":latest"
    else if strategy == LatestInstalled then version + ":installed"
    else version
  }

  /** The capture is the newline-free tail of the text before the suffix,
      and all of that text when it has no newline. */
  lemma {:induction false} AfterLastNewlineIsTail(s: string)
    ensures '\n' !in AfterLastNewline(s)
    ensures HasSuffix(s, AfterLastNewline(s))
    ensures '\n' !in s ==> AfterLastNewline(s) == s
    decreases |s|
  {
    if s != [] && s[|s| - 1] != '\n' {
      var init := s[..|s| - 1];
      AfterLastNewlineIsTail(init);
      var t := AfterLastNewline(init);
      assert s == init + [s[|s| - 1]];
      assert s[|s| - |t| - 1..] == init[|init| - |t|..] + [s[|s| - 1]];
      if '\n' !in s {
        assert '\n' !in init by {
          forall i | 0 <= i < |init| ensures init[i] != '\n' {
            assert init[i] == s[i];
          }
        }
      }
    }
  }

  lemma ClassifyLatest(version: string)
    ensures Classify(version + ":latest") == (LatestReleased, AfterLastNewline(version))
  {
    var s := version + ":latest";
    assert s[..|s| - 7] == version;
  }

  lemma ClassifyInstalled(version: string)
    ensures Classify(version + ":installed") == (LatestInstalled, AfterLastNewline(version))
  {
    var s := version + ":installed";
    assert s[|s| - 1] == 'd';
    assert !HasSuffix(s, ":latest");
    assert s[..|s| - 10] == version;
  }

  /** Classification undoes the suffix for every strategy and every
      single-line version, provided a strict version does not itself end
      in one of the suffixes. */
  lemma ClassifySuffixed(strategy: Strategy, version: string)
    requires strategy in {Strict, LatestInstalled, LatestReleased}
    requires '\n' !in version
    requires strategy == Strict ==> !HasSuffix(version, ":latest") && !HasSuffix(version, ":installed")
    ensures Classify(Suffixed(strategy, version)) == (strategy, version)
  {
    AfterLastNewlineIsTail(version);
    if strategy == LatestReleased {
      ClassifyLatest(version);
    } else if strategy == LatestInstalled {
      ClassifyInstalled(version);
    }
  }

  /** Every classified version is either the declared text unchanged
      (strict) or a newline-free tail of the text before a stripped
      suffix. */
  lemma ClassifyShape(v: string)
    ensures var (strategy, plain) := Classify(v);
      || (strategy == Strict && plain == v && !HasSuffix(v, ":latest") && !HasSuffix(v, ":installed"))
      || (strategy == LatestReleased && HasSuffix(v, ":latest")
          && '\n' !in plain && HasSuffix(v[..|v| - 7], plain))
      || (strategy == LatestInstalled && !HasSuffix(v, ":latest") && HasSuffix(v, ":installed")
          && '\n' !in plain && HasSuffix(v[..|v| - 10], plain))
  {
    if HasSuffix(v, ":latest") {
      AfterLastNewlineIsTail(v[..|v| - 7]);
    } else if HasSuffix(v, ":installed") {
      AfterLastNewlineIsTail(v[..|v| - 10]);
    }
  }

  // ---- One declaration ----

  /** The version text and plugin a declaration gives, before
      classification. */
  datatype Declared = Declared(version: string, plugin: Option<string>)

  function ToolPath(toolName: string): string {
    Prefix + "meta.experimental.tools." + toolName
  }

  /** The map form: `version` (missing or nil means "") and an optional
      string `plugin`. */
  function DictDeclared(toolName: string, m: map<string, Node>): Result<Declared, ConfigError> {
    var ver := if "version" in m then m["version"] else Null;
    if !(ver.Str? || ver.Null?) then Failure(ParseError(ToolPath(toolName) + ".version is not a string"))
    else
      var version := TrimSpace(if ver.Str? then ver.text else "");
      if "plugin" in m && !m["plugin"].Null? then
        if m["plugin"].Str? then Success(Declared(version, Some(m["plugin"].text)))
        else Failure(ParseError(ToolPath(toolName) + ".plugin is not a string"))
      else Success(Declared(version, None))
  }

  function DeclaredOf(toolName: string, node: Node): Result<Declared, ConfigError> {
    match node
    case Str(text) => Success(Declared(TrimSpace(text), None))
    case Dict(entries) => DictDeclared(toolName, entries)
    case NilDict => DictDeclared(toolName, map[])
    case _ => Failure(ParseError(ToolPath(toolName) + " is not a string or map"))
  }

  /** The request one entry of `meta.experimental.tools` declares. */
  function Declaration(toolName: string, node: Node): Result<ToolRequest, ConfigError> {
    match DeclaredOf(toolName, node)
    case Failure(e) => Failure(e)
    case Success(d) =>
      var (strategy, plain) := Classify(d.version);
      Success(ToolRequest(toolName, plain, strategy, d.plugin))
  }

  /** A declaration is determined by its version text and plugin. */
  lemma SameDeclared(toolName: string, n1: Node, n2: Node)
    requires DeclaredOf(toolName, n1) == DeclaredOf(toolName, n2)
    ensures Declaration(toolName, n1) == Declaration(toolName, n2)
  {
  }

  lemma DeclarationOfDeclared(toolName: string, node: Node, d: Declared)
    requires DeclaredOf(toolName, node) == Success(d)
    ensures Declaration(toolName, node) == Success(ToolRequest(toolName, Classify(d.version).1, Classify(d.version).0, d.plugin))
  {
  }

  /** The short form `tool: "v"` and the long form `tool: {version: "v"}`
      declare the same request, and surrounding whitespace is ignored. */
  lemma ShortAndLongFormsAgree(toolName: string, v: string)
    ensures Declaration(toolName, Str(v)) == Declaration(toolName, Dict(map["version" := Str(v)]))
    ensures Declaration(toolName, Str(v)) == Declaration(toolName, Str(TrimSpace(v)))
  {
    assert DeclaredOf(toolName, Str(v)) == DeclaredOf(toolName, Dict(map["version" := Str(v)]));
    SameDeclared(toolName, Str(v), Dict(map["version" := Str(v)]));
    TrimSpaceIdempotent(v);
    assert DeclaredOf(toolName, Str(v)) == DeclaredOf(toolName, Str(TrimSpace(v)));
    SameDeclared(toolName, Str(v), Str(TrimSpace(v)));
  }

  /** A map without a usable version (no key, a nil value, or a nil map)
      declares the empty version, strictly. */
  lemma MissingVersionIsEmpty(toolName: string, m: map<string, Node>)
    requires "version" !in m || m["version"] == Null
    requires "plugin" !in m || m["plugin"] == Null
    ensures Declaration(toolName, Dict(m)) == Success(ToolRequest(toolName, "", Strict, None))
    ensures Declaration(toolName, NilDict) == Success(ToolRequest(toolName, "", Strict, None))
  {
    var d := Declared("", None);
    assert DeclaredOf(toolName, Dict(m)) == Success(d) by {
      assert TrimSpace("") == "";
    }
    assert DeclaredOf(toolName, NilDict) == Success(d) by {
      assert TrimSpace("") == "";
    }
    DeclarationOfDeclared(toolName, Dict(m), d);
    DeclarationOfDeclared(toolName, NilDict, d);
    assert Classify("") == (Strict, "");
  }

  /** A declaration fails exactly when it is neither a string nor a map,
      or its map holds a version that is neither a string nor nil, or a
      plugin that is neither a string nor nil. A successful one names its
      key, and carries the plugin exactly when the map holds a string
      plugin. */
  lemma DeclarationCases(toolName: string, node: Node)
    ensures Declaration(toolName, node).Failure? <==>
      || !(node.Str? || node.Dict? || node.NilDict?)
      || (node.Dict? && "version" in node.entries && !(node.entries["version"].Str? || node.entries["version"].Null?))
      || (node.Dict? && "plugin" in node.entries && !(node.entries["plugin"].Str? || node.entries["plugin"].Null?))
    ensures Declaration(toolName, node).Success? ==>
      && Declaration(toolName, node).value.toolName == toolName
      && (Declaration(toolName, node).value.pluginIdentifier.Some? <==>
            node.Dict? && "plugin" in node.entries && node.entries["plugin"].Str?)
  {
  }

  // ---- All declarations ----

  predicate AllDeclared(toolBlock: map<string, Node>) {
    forall k | k in toolBlock :: Declaration(k, toolBlock[k]).Success?
  }

  function Declarations(toolBlock: map<string, Node>): map<string, ToolRequest>
    requires AllDeclared(toolBlock)
  {
    map k | k in toolBlock :: Declaration(k, toolBlock[k]).value
  }

  /** `ParseToolDeclarations`. The tools are visited in Go's unspecified
      map order, so when several declarations are wrong, which error is
      reported is not determined. */
  method ParseToolDeclarations(meta: Option<map<string, Node>>) returns (r: Result<map<string, ToolRequest>, ConfigError>)
    ensures ToolBlock(meta).Failure? ==> r == Failure(ToolBlock(meta).error)
    ensures ToolBlock(meta).Success? ==> (r.Success? <==> AllDeclared(ToolBlock(meta).value))
    ensures r.Success? ==> ToolBlock(meta).Success? && AllDeclared(ToolBlock(meta).value)
                           && r.value == Declarations(ToolBlock(meta).value)
    ensures r.Failure? && ToolBlock(meta).Success? ==>
      exists k | k in ToolBlock(meta).value :: Declaration(k, ToolBlock(meta).value[k]) == Failure(r.error)
  {
    var block := ToolBlock(meta);
    if block.Failure? {
      return Failure(block.error);
    }
    var toolBlock := block.value;
    var toolDeclarations: map<string, ToolRequest> := map[];
    var remaining := toolBlock.Keys;
    while remaining != {}
      invariant remaining <= toolBlock.Keys
      invariant toolDeclarations.Keys == toolBlock.Keys - remaining
      invariant forall k | k in toolDeclarations :: Declaration(k, toolBlock[k]) == Success(toolDeclarations[k])
      decreases remaining
    {
      var toolName :| toolName in remaining;
      var d := Declaration(toolName, toolBlock[toolName]);
      if d.Failure? {
        return Failure(d.error);
      }
      toolDeclarations := toolDeclarations[toolName := d.value];
      remaining := remaining - {toolName};
    }
    return Success(toolDeclarations);
  }

  /** The declarations are keyed by tool name, one per entry. */
  lemma DeclarationsKeyedByName(toolBlock: map<string, Node>)
    requires AllDeclared(toolBlock)
    ensures Declarations(toolBlock).Keys == toolBlock.Keys
    ensures forall k | k in Declarations(toolBlock) :: Declarations(toolBlock)[k].toolName == k
  {
    forall k | k in Declarations(toolBlock)
      ensures Declarations(toolBlock)[k].toolName == k
    {
      DeclarationCases(k, toolBlock[k]);
    }
  }

  // ---- Tool configuration ----

  /** The tool configuration; only its provider is read here. */
  datatype ToolConfig = ToolConfig(provider: string)

  function DefaultToolConfig(): ToolConfig {
    ToolConfig("asdf")
  }

  /** The configuration `meta.experimental.tool_config` selects. */
  function ConfigOf(experimental: map<string, Node>): Result<ToolConfig, ConfigError> {
    if "tool_config" !in experimental then Success(DefaultToolConfig())
    else match experimental["tool_config"]
      case Dict(m) =>
        if "provider" !in m then Success(DefaultToolConfig())
        else if m["provider"].Str? then Success(ToolConfig(m["provider"].text))
        else Failure(Panic)
      case NilDict => Success(DefaultToolConfig())
      case _ => Failure(ParseError(Prefix + "meta.experimental.tool_config block is not a map"))
  }

  function ToolConfigOf(meta: Option<map<string, Node>>): Result<ToolConfig, ConfigError> {
    match ExperimentalBlock(meta)
    case Failure(e) => Failure(e)
    case Success(experimental) => ConfigOf(experimental)
  }

  /** `ParseToolConfig`: starts from the default and lets a `provider` key
      override it, visiting the keys in Go's unspecified map order. */
  method ParseToolConfig(meta: Option<map<string, Node>>) returns (r: Result<ToolConfig, ConfigError>)
    ensures r == ToolConfigOf(meta)
  {
    var experimental := ExperimentalBlock(meta);
    if experimental.Failure? {
      return Failure(experimental.error);
    }
    var toolConfig := DefaultToolConfig();
    if "tool_config" !in experimental.value {
      return Success(toolConfig);
    }
    var toolConfigBlock := experimental.value["tool_config"];
    if !(toolConfigBlock.Dict? || toolConfigBlock.NilDict?) {
      return Failure(ParseError(Prefix + "meta.experimental.tool_config block is not a map"));
    }
    if toolConfigBlock.NilDict? {
      return Success(toolConfig);
    }
    var toolConfigMap := toolConfigBlock.entries;
    var remaining := toolConfigMap.Keys;
    while remaining != {}
      invariant remaining <= toolConfigMap.Keys
      invariant "provider" in toolConfigMap && "provider" !in remaining
                ==> toolConfigMap["provider"].Str? && toolConfig == ToolConfig(toolConfigMap["provider"].text)
      invariant "provider" !in toolConfigMap || "provider" in remaining ==> toolConfig == DefaultToolConfig()
      decreases remaining
    {
      var key :| key in remaining;
      if key == "provider" {
        var value := toolConfigMap[key];
        if !value.Str? {
          return Failure(Panic);
        }
        toolConfig := toolConfig.(provider := value.text);
      }
      remaining := remaining - {key};
    }
    return Success(toolConfig);
  }

  /** The provider is "asdf" unless `tool_config` is a map with a string
      `provider`, which then wins; a present `tool_config` that is not a
      map (nil included) is an error, and a non-string provider panics. */
  lemma ToolConfigCases(experimental: map<string, Node>)
    ensures ConfigOf(experimental).Success? ==>
      (ConfigOf(experimental).value.provider == "asdf"
       || (experimental["tool_config"].Dict? && "provider" in experimental["tool_config"].entries
           && experimental["tool_config"].entries["provider"] == Str(ConfigOf(experimental).value.provider)))
    ensures ConfigOf(experimental).Failure? <==>
      "tool_config" in experimental &&
      var t := experimental["tool_config"];
      (!(t.Dict? || t.NilDict?) || (t.Dict? && "provider" in t.entries && !t.entries["provider"].Str?))
  {
  }

  /** Keys of `tool_config` other than `provider` have no effect. */
  lemma OnlyProviderKeyMatters(experimental: map<string, Node>, m1: map<string, Node>, m2: map<string, Node>)
    requires "provider" in m1 <==> "provider" in m2
    requires "provider" in m1 ==> m1["provider"] == m2["provider"]
    ensures ConfigOf(experimental["tool_config" := Dict(m1)]) == ConfigOf(experimental["tool_config" := Dict(m2)])
  {
  }
}
