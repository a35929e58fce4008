/** The environment an asdf-installed tool version needs: one variable that
    pins the version. */
module AsdfActivate {
  import opened Wrappers
  import opened GoStrings
  import opened Provider

  const KeyPrefix := "ASDF_"
  const KeySuffix := "_VERSION"

  /** The variable asdf reads the pinned version of a tool from. */
  function EnvKey(toolName: string): string {
    KeyPrefix + ToUpper(toolName) + KeySuffix
  }

  /** `ActivateEnv`: `ASDF_<TOOL>_VERSION` set to the concrete version, no
      path entries, never an error. */
  function ActivateEnv(result: ToolInstallResult): (r: Result<EnvironmentActivation, string>)
    ensures r.Success?
    ensures r.value.contributedEnvVars.Keys == {EnvKey(result.toolName)}
    ensures r.value.contributedEnvVars[EnvKey(result.toolName)] == result.concreteVersion
    ensures r.value.contributedPaths == []
  {
    Success(EnvironmentActivation(map[EnvKey(result.toolName) := result.concreteVersion], []))
  }

  /** Two tools share a variable exactly when their names agree up to the
      case of ASCII letters. */
  lemma EnvKeyInjective(a: string, b: string)
    ensures EnvKey(a) == EnvKey(b) <==> ToUpper(a) == ToUpper(b)
  {
    if EnvKey(a) == EnvKey(b) {
      var ka, kb := EnvKey(a), EnvKey(b);
      assert |ToUpper(a)| == |ToUpper(b)|;
      assert ToUpper(a) == ka[|KeyPrefix|..|ka| - |KeySuffix|];
      assert ToUpper(b) == kb[|KeyPrefix|..|kb| - |KeySuffix|];
    }
  }

  /** The variable of a tool is the one of its upper-case name. */
  lemma EnvKeyCaseInsensitive(toolName: string)
    ensures EnvKey(ToUpper(toolName)) == EnvKey(toolName)
  {
    ToUpperIdempotent(toolName);
  }
}
