/** The mise provider's install step: the version argument handed to
    `mise install`, the "already installed" check, and the error of a
    failing install. The latest-installed lookup (`mise latest --installed`)
    and the install command itself are inputs of the model. */
module MiseInstall {
  import opened Wrappers
  import opened GoStrings
  import opened Provider

  /** A failed latest-installed lookup: `errNoMatchingVersion` (mise
      printed nothing), or any other error, with its text. */
  datatype LookupError = NoMatchingVersion | LookupFailed(message: string)

  function LookupErrorText(e: LookupError): string {
    match e
    case NoMatchingVersion => "no matching version found"
    case LookupFailed(message) => message
  }

  /** `latestInstalledResolver`: from a tool name and a requested version to
      the latest installed version that matches it. */
  type LatestInstalledResolver = (string, string) -> Result<string, LookupError>

  /** The strategy mise acts on: the literal version `installed` asks for the
      latest installed version whatever the declared strategy. */
  function EffectiveStrategy(tool: ToolRequest): Strategy {
    if tool.unparsedVersion == "installed" then LatestInstalled else tool.resolutionStrategy
  }

  /** `tool@version`: exactly that version. */
  function Pinned(toolName: string, version: string): string {
    toolName + "@" + version
  }

  /** `tool@prefix:version`: the latest release starting with the version. */
  function Prefixed(toolName: string, version: string): string {
    toolName + "@prefix:" + version
  }

  /** `miseVersionString`: the argument of `mise install` for a request. */
  function MiseVersionString(tool: ToolRequest, resolver: LatestInstalledResolver): Result<string, string> {
    var strategy := EffectiveStrategy(tool);
    if strategy == Strict then Success(Pinned(tool.toolName, tool.unparsedVersion))
    else if strategy == LatestReleased then Success(Prefixed(tool.toolName, tool.unparsedVersion))
    else if strategy == LatestInstalled then
      match resolver(tool.toolName, tool.unparsedVersion)
      case Success(v) => Success(Pinned(tool.toolName, v))
      case Failure(NoMatchingVersion) => Success(Prefixed(tool.toolName, tool.unparsedVersion))
      case Failure(e) =>
        Failure("resolve " + tool.toolName + " " + tool.unparsedVersion + " to latest installed version: "
                + LookupErrorText(e))
    else Failure("unknown resolution strategy: " + IntToString(tool.resolutionStrategy))
  }

  /** `isAlreadyInstalled`: whether some installed version matches the
      request; a lookup error other than "no match" is passed on. */
  function IsAlreadyInstalled(tool: ToolRequest, resolver: LatestInstalledResolver): Result<bool, LookupError> {
    match resolver(tool.toolName, tool.unparsedVersion)
    case Success(_) => Success(true)
    case Failure(NoMatchingVersion) => Success(false)
    case Failure(e) => Failure(e)
  }

  // ---- Properties of the version string ----

  /** Every version string names the tool, and what follows the `@` is the
      request itself, the request as a prefix, or the version the lookup
      found. */
  lemma VersionStringShape(tool: ToolRequest, resolver: LatestInstalledResolver)
    requires MiseVersionString(tool, resolver).Success?
    ensures var s := MiseVersionString(tool, resolver).value;
      || s == Pinned(tool.toolName, tool.unparsedVersion)
      || s == Prefixed(tool.toolName, tool.unparsedVersion)
      || (resolver(tool.toolName, tool.unparsedVersion).Success?
          && s == Pinned(tool.toolName, resolver(tool.toolName, tool.unparsedVersion).value))
    ensures HasPrefix(MiseVersionString(tool, resolver).value, tool.toolName + "@")
  {
    var s := MiseVersionString(tool, resolver).value;
    assert s == tool.toolName + "@" + s[|tool.toolName| + 1..];
  }

  /** The version `installed` behaves as a latest-installed request for
      every declared strategy. */
  lemma InstalledKeywordForcesLatestInstalled(tool: ToolRequest, resolver: LatestInstalledResolver)
    requires tool.unparsedVersion == "installed"
    ensures MiseVersionString(tool, resolver)
            == MiseVersionString(tool.(resolutionStrategy := LatestInstalled), resolver)
  {
  }

  /** Only a latest-installed request consults the lookup. */
  lemma LookupOnlyForLatestInstalled(tool: ToolRequest, r1: LatestInstalledResolver, r2: LatestInstalledResolver)
    requires EffectiveStrategy(tool) != LatestInstalled
    ensures MiseVersionString(tool, r1) == MiseVersionString(tool, r2)
  {
  }

  /** The version string fails exactly for a lookup error other than "no
      match", or for a strategy outside the enumeration. */
  lemma VersionStringFailures(tool: ToolRequest, resolver: LatestInstalledResolver)
    ensures MiseVersionString(tool, resolver).Failure? <==>
      || EffectiveStrategy(tool) !in {Strict, LatestInstalled, LatestReleased}
      || (EffectiveStrategy(tool) == LatestInstalled
          && resolver(tool.toolName, tool.unparsedVersion).Failure?
          && resolver(tool.toolName, tool.unparsedVersion).error.LookupFailed?)
  {
  }

  /** For a latest-installed request the install argument agrees with the
      installed check: pinned to the found version when something is
      installed, the prefix form when nothing is, and an error when the
      check fails. */
  lemma VersionStringAgreesWithInstalledCheck(tool: ToolRequest, resolver: LatestInstalledResolver)
    requires EffectiveStrategy(tool) == LatestInstalled
    ensures IsAlreadyInstalled(tool, resolver) == Success(true) ==>
      MiseVersionString(tool, resolver)
        == Success(Pinned(tool.toolName, resolver(tool.toolName, tool.unparsedVersion).value))
    ensures IsAlreadyInstalled(tool, resolver) == Success(false) ==>
      MiseVersionString(tool, resolver) == Success(Prefixed(tool.toolName, tool.unparsedVersion))
    ensures IsAlreadyInstalled(tool, resolver).Failure? <==> MiseVersionString(tool, resolver).Failure?
  {
  }

  /** `isAlreadyInstalled` is true exactly when the lookup succeeds and
      false exactly when it finds no match. */
  lemma InstalledCheckCases(tool: ToolRequest, resolver: LatestInstalledResolver)
    ensures IsAlreadyInstalled(tool, resolver) == Success(true) <==> resolver(tool.toolName, tool.unparsedVersion).Success?
    ensures IsAlreadyInstalled(tool, resolver) == Success(false)
            <==> resolver(tool.toolName, tool.unparsedVersion) == Failure(NoMatchingVersion)
  {
  }

  // ---- The install command ----

  /** What running a command gives: its combined output and, when it
      failed, the error text. */
  datatype CommandResult = CommandResult(output: string, err: Option<string>)

  type Runner = seq<string> -> CommandResult

  function InstallArgs(versionString: string): seq<string> {
    ["mise", "install", "--yes", versionString]
  }

  /** The error cause the source builds: it writes the tool name and an `@`
      in front of the version string, which already starts with them. */
  function InstallCauseAsWritten(toolName: string, versionString: string, err: string): string {
    "mise install " + toolName + "@" + versionString + ": " + err
  }

  /** The cause naming the command as it was run. */
  function InstallCause(versionString: string, err: string): string {
    "mise install " + versionString + ": " + err
  }

  /** The cause as written never quotes the argument mise was given: for
      every request it repeats `tool@`. */
  lemma CauseAsWrittenRepeatsToolName(tool: ToolRequest, resolver: LatestInstalledResolver, err: string)
    requires MiseVersionString(tool, resolver).Success?
    ensures var vs := MiseVersionString(tool, resolver).value;
      && HasPrefix(InstallCauseAsWritten(tool.toolName, vs, err), "mise install " + tool.toolName + "@" + tool.toolName + "@")
      && InstallCauseAsWritten(tool.toolName, vs, err) != "mise install " + InstallArgs(vs)[3] + ": " + err
  {
    var vs := MiseVersionString(tool, resolver).value;
    VersionStringShape(tool, resolver);
    var c := InstallCauseAsWritten(tool.toolName, vs, err);
    var p := "mise install " + tool.toolName + "@";
    assert c == p + vs + ": " + err;
    assert vs == tool.toolName + "@" + vs[|tool.toolName| + 1..];
    assert c[..|p| + |tool.toolName| + 1] == p + tool.toolName + "@";
    assert |c| != |"mise install " + InstallArgs(vs)[3] + ": " + err|;
  }

  /** The corrected cause quotes the argument mise was given, which starts
      with the tool name once. */
  lemma CauseQuotesCommand(tool: ToolRequest, resolver: LatestInstalledResolver, err: string)
    requires MiseVersionString(tool, resolver).Success?
    ensures var vs := MiseVersionString(tool, resolver).value;
      && InstallCause(vs, err) == "mise install " + InstallArgs(vs)[3] + ": " + err
      && HasPrefix(InstallCause(vs, err), "mise install " + tool.toolName + "@")
  {
    var vs := MiseVersionString(tool, resolver).value;
    VersionStringShape(tool, resolver);
    assert vs == tool.toolName + "@" + vs[|tool.toolName| + 1..];
    assert InstallCause(vs, err) == "mise install " + tool.toolName + "@" + (vs[|tool.toolName| + 1..] + ": " + err);
  }

  /** Why an install failed: no version string could be built, or the
      install command failed. */
  datatype InstallError = VersionFailed(message: string) | InstallFailed(e: ToolInstallError)

  /** `installToolVersion`: the command it runs, if any, and its outcome. */
  datatype InstallRun = InstallRun(command: Option<seq<string>>, outcome: Outcome<InstallError>)

  /** The cause of a failed install is built as the source builds it, so
      it repeats `tool@`. */
  function InstallToolVersion(tool: ToolRequest, resolver: LatestInstalledResolver, run: Runner): (r: InstallRun)
    ensures r.command.Some? <==> MiseVersionString(tool, resolver).Success?
    ensures r.command.Some? ==>
      |r.command.value| == 4 && r.command.value[..3] == ["mise", "install", "--yes"]
      && HasPrefix(r.command.value[3], tool.toolName + "@")
    ensures r.outcome.Fail? && r.outcome.error.InstallFailed? ==>
      HasPrefix(r.outcome.error.e.cause, "mise install " + tool.toolName + "@" + tool.toolName + "@")
  {
    match MiseVersionString(tool, resolver)
    case Failure(e) => InstallRun(None, Fail(VersionFailed(e)))
    case Success(vs) =>
      VersionStringShape(tool, resolver);
      var args := InstallArgs(vs);
      var res := run(args);
      if res.err.Some? then
        CauseAsWrittenRepeatsToolName(tool, resolver, res.err.value);
        InstallRun(Some(args), Fail(InstallFailed(ToolInstallError(
          tool.toolName, vs, res.output, InstallCauseAsWritten(tool.toolName, vs, res.err.value), ""))))
      else InstallRun(Some(args), Pass)
  }

  /** Without a version string nothing runs and the error is passed on;
      otherwise `mise install --yes <version string>` runs once, and its
      failure becomes a `ToolInstallError` for the version string that
      carries the command's output and the cause as the source writes it. */
  lemma InstallOutcome(tool: ToolRequest, resolver: LatestInstalledResolver, run: Runner)
    ensures var r := InstallToolVersion(tool, resolver, run);
      && (MiseVersionString(tool, resolver).Failure? ==>
            r.command.None? && r.outcome == Fail(VersionFailed(MiseVersionString(tool, resolver).error)))
      && (MiseVersionString(tool, resolver).Success? ==>
            var vs := MiseVersionString(tool, resolver).value;
            && r.command == Some(["mise", "install", "--yes", vs])
            && (r.outcome.Fail? <==> run(r.command.value).err.Some?)
            && (r.outcome.Fail? ==>
                  && r.outcome.error.InstallFailed?
                  && r.outcome.error.e.toolName == tool.toolName
                  && r.outcome.error.e.requestedVersion == vs
                  && r.outcome.error.e.rawOutput == run(r.command.value).output
                  && r.outcome.error.e.cause
                     == InstallCauseAsWritten(tool.toolName, vs, run(r.command.value).err.value)
                  && r.outcome.error.e.recommendation == ""))
  {
  }
}
