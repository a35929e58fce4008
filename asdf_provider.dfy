/** The asdf tool provider: installing a tool version, and its plugin,
    through the asdf command line. What asdf answers is an input of the
    model; what the provider asks it is recorded, in order. */
module AsdfProvider {
  import opened Wrappers
  import opened GoStrings
  import SemVer
  import opened Provider
  import AsdfResolve
  import AsdfParse
  import AsdfPlugin
  import ToolPlugins

  /** One run of asdf: `runAsdf` or `RunAsdfPlugin`, with its arguments. */
  datatype Invocation = Asdf(args: seq<string>) | AsdfPlugin(args: seq<string>)

  /** What a run produces: its output, or the error (whose text `runAsdf`
      builds to include the output). */
  datatype Reply = Ran(output: string) | Failed(message: string)

  /** asdf's answer to each run, given the number of runs before it. */
  type Responder = (nat, Invocation) -> Reply

  /** `filterAliasVersions`: which installed versions are real installs
      rather than alias symlinks, or an error. */
  type AliasFilter = (string, seq<string>) -> Result<seq<string>, string>

  /** The environment asdf runs in: asdf's answer to each run. */
  datatype ExecEnv = ExecEnv(respond: Responder) {
    /** `RunAsdf`: run number `n`, of asdf with the arguments. */
    method RunAsdf(n: nat, args: seq<string>) returns (r: Reply, runs: seq<Invocation>)
      ensures runs == [Asdf(args)] && r == respond(n, Asdf(args))
    {
      r := respond(n, Asdf(args));
      runs := [Asdf(args)];
    }

    /** `RunAsdfPlugin`: run number `n`, of `asdf plugin` with the arguments. */
    method RunAsdfPlugin(n: nat, args: seq<string>) returns (r: Reply, runs: seq<Invocation>)
      ensures runs == [AsdfPlugin(args)] && r == respond(n, AsdfPlugin(args))
    {
      r := respond(n, AsdfPlugin(args));
      runs := [AsdfPlugin(args)];
    }
  }

  // ---- What each step asks and makes of the answers ----

  function ListCommand(toolName: string): Invocation {
    Asdf(["list", toolName])
  }

  const VersionCommand := Asdf(["--version"])

  function ListAllCommand(asdfVersion: SemVer.Version, toolName: string): Invocation {
    Asdf([AsdfParse.ReleasedSubcommand(asdfVersion), toolName])
  }

  function InstallCommand(toolName: string, versionString: string): Invocation {
    Asdf(["install", toolName, versionString])
  }

  const PluginListCommand := AsdfPlugin(["list", "--urls"])

  /** asdf 0.16.0 and later fail `list` with this when nothing is installed. */
  const NothingInstalled := "No compatible versions installed"

  /** `listInstalled`, from asdf's reply to `list <tool>`. */
  function InstalledListing(reply: Reply, toolName: string, aliasFilter: AliasFilter): (r: Result<seq<string>, string>)
    ensures reply.Failed? ==> (r.Success? <==> Contains(reply.message, NothingInstalled))
    ensures reply.Failed? && r.Success? ==> r.value == []
    ensures reply.Ran? ==> (r.Success? <==> aliasFilter(toolName, AsdfParse.Entries(AsdfParse.Lines(reply.output))).Success?)
  {
    match reply
    case Failed(message) =>
      if Contains(message, NothingInstalled) then Success([]) else Failure(message)
    case Ran(output) =>
      match aliasFilter(toolName, AsdfParse.Entries(AsdfParse.Lines(output)))
      case Success(versions) => Success(versions)
      case Failure(e) => Failure("filter alias versions: " + e)
  }

  /** `asdfVersion`, from asdf's reply to `--version`. The parse error is
      go-version's `Malformed version` message. */
  function ReportedVersion(reply: Reply): Result<SemVer.Version, string> {
    match reply
    case Failed(message) => Failure(message)
    case Ran(output) =>
      match SemVer.Parse(TrimSpace(output))
      case Some(v) => Success(v)
      case None => Failure("parse asdf version: Malformed version: " + TrimSpace(output))
  }

  /** `listReleased`, its first run being number `n`: the version query,
      then (unless that fails) the listing, and what it returns. */
  function Released(respond: Responder, n: nat, toolName: string): (seq<Invocation>, Result<seq<string>, string>) {
    match ReportedVersion(respond(n, VersionCommand))
    case Failure(e) => ([VersionCommand], Failure(e))
    case Success(v) =>
      var list := ListAllCommand(v, toolName);
      ([VersionCommand, list],
       match respond(n + 1, list)
       case Failed(message) => Failure(message)
       case Ran(output) => Success(AsdfParse.Entries(AsdfParse.Lines(output))))
  }

  /** A failing version query is all `listReleased` runs. */
  lemma ReleasedWithoutVersion(respond: Responder, n: nat, toolName: string)
    requires ReportedVersion(respond(n, VersionCommand)).Failure?
    ensures Released(respond, n, toolName) == ([VersionCommand], Failure(ReportedVersion(respond(n, VersionCommand)).error))
  {
  }

  /** Once the version query succeeds, `listReleased` lists with the
      subcommand that version calls for and returns what the listing gives. */
  lemma ReleasedWithVersion(respond: Responder, n: nat, toolName: string, v: SemVer.Version)
    requires ReportedVersion(respond(n, VersionCommand)) == Success(v)
    ensures Released(respond, n, toolName).0 == [VersionCommand, ListAllCommand(v, toolName)]
    ensures respond(n + 1, ListAllCommand(v, toolName)).Failed? ==>
      Released(respond, n, toolName).1 == Failure(respond(n + 1, ListAllCommand(v, toolName)).message)
    ensures respond(n + 1, ListAllCommand(v, toolName)).Ran? ==>
      Released(respond, n, toolName).1
        == Success(AsdfParse.Entries(AsdfParse.Lines(respond(n + 1, ListAllCommand(v, toolName)).output)))
  {
  }

  /** `installToolVersion`'s error. A failed run's `Reply` carries no
      output, so the text after `Output:` is empty; the root copy's runner
      (asdf/exec.go:43-46) also returns no output on failure, while the
      provider's own `runAsdf` is not part of this model. */
  function InstallFailure(toolName: string, versionString: string, message: string): string {
    "install " + toolName + " " + versionString + ": " + message + "\n\nOutput:\n"
  }

  /** The runs and the result after the resolution `res`, the next run
      being number `n`. */
  function AfterResolution(
    tool: ToolRequest, respond: Responder, n: nat,
    res: Result<AsdfResolve.VersionResolution, AsdfResolve.ResolveError>)
    : (seq<Invocation>, Result<ToolInstallResult, string>)
  {
    match res
    case Failure(e) => ([], Failure("resolve version: " + AsdfResolve.ErrorText(e)))
    case Success(resolution) =>
      if resolution.isInstalled then
        ([], Success(ToolInstallResult(tool.toolName, true, resolution.versionString)))
      else
        var install := InstallCommand(tool.toolName, resolution.versionString);
        ([install],
         match respond(n, install)
         case Failed(message) => Failure(InstallFailure(tool.toolName, resolution.versionString, message))
         case Ran(_) => Success(ToolInstallResult(tool.toolName, false, resolution.versionString)))
  }

  /** A strict request whose trimmed version is installed needs no released
      versions. */
  predicate StrictInstalled(tool: ToolRequest, installed: seq<string>) {
    tool.resolutionStrategy == Strict && TrimSpace(tool.unparsedVersion) in installed
  }

  /** `InstallTool` gets as far as resolving: both listings succeed and the
      strict short circuit does not apply. */
  predicate ReachesResolution(
    tool: ToolRequest, installed: Result<seq<string>, string>, released: Result<seq<string>, string>)
  {
    installed.Success? && !StrictInstalled(tool, installed.value) && released.Success?
  }

  /** `res` is a result `ResolveVersion` can give for the listed versions,
      whenever `InstallTool` resolves at all. */
  ghost predicate FitsListings(
    tool: ToolRequest, installed: Result<seq<string>, string>, released: Result<seq<string>, string>,
    res: Result<AsdfResolve.VersionResolution, AsdfResolve.ResolveError>)
  {
    ReachesResolution(tool, installed, released) ==>
      AsdfResolve.IsResolutionOf(res, tool, released.value, installed.value)
  }

  /** `InstallTool`, the first run being number `n`, given what
      `listInstalled` returns, the runs `listReleased` makes and what it
      returns, and the resolution `res`: the runs it makes and its result. */
  function InstallRun(
    tool: ToolRequest, respond: Responder, n: nat,
    installed: Result<seq<string>, string>, listing: seq<Invocation>, released: Result<seq<string>, string>,
    res: Result<AsdfResolve.VersionResolution, AsdfResolve.ResolveError>)
    : (seq<Invocation>, Result<ToolInstallResult, string>)
  {
    var name := tool.toolName;
    if installed.Failure? then
      ([ListCommand(name)], Failure("list installed versions: " + installed.error))
    else if StrictInstalled(tool, installed.value) then
      ([ListCommand(name)], Success(ToolInstallResult(name, true, TrimSpace(tool.unparsedVersion))))
    else
      var rest := ResolveRun(tool, respond, n + 1, listing, released, res);
      ([ListCommand(name)] + rest.0, rest.1)
  }

  /** The part of `InstallTool` from `listReleased` on, its first run being
      number `m`. */
  function ResolveRun(
    tool: ToolRequest, respond: Responder, m: nat,
    listing: seq<Invocation>, released: Result<seq<string>, string>,
    res: Result<AsdfResolve.VersionResolution, AsdfResolve.ResolveError>)
    : (seq<Invocation>, Result<ToolInstallResult, string>)
  {
    if released.Failure? then
      (listing, Failure("list released versions: " + released.error))
    else
      var rest := AfterResolution(tool, respond, m + |listing|, res);
      (listing + rest.0, rest.1)
  }

  /** Once `listReleased` succeeds, the rest of the runs follow its own. */
  lemma ResolveRunListed(
    tool: ToolRequest, respond: Responder, m: nat, listing: seq<Invocation>, versions: seq<string>,
    res: Result<AsdfResolve.VersionResolution, AsdfResolve.ResolveError>)
    ensures ResolveRun(tool, respond, m, listing, Success(versions), res)
      == (listing + AfterResolution(tool, respond, m + |listing|, res).0,
          AfterResolution(tool, respond, m + |listing|, res).1)
  {
  }

  /** An `asdf install` run. */
  predicate IsInstall(c: Invocation) {
    c.Asdf? && |c.args| == 3 && c.args[0] == "install"
  }

  predicate NoInstall(runs: seq<Invocation>) {
    forall c | c in runs :: !IsInstall(c)
  }

  /** The runs of `listReleased` are the version query and a listing. */
  lemma ReleasedInstallsNothing(respond: Responder, n: nat, toolName: string)
    ensures 1 <= |Released(respond, n, toolName).0| <= 2
    ensures Released(respond, n, toolName).0[0] == VersionCommand
    ensures NoInstall(Released(respond, n, toolName).0)
  {
  }

  /** When `listInstalled` fails, `InstallTool` fails after that one run. */
  lemma InstallListInstalledFails(
    tool: ToolRequest, respond: Responder, n: nat,
    installed: Result<seq<string>, string>, listing: seq<Invocation>, released: Result<seq<string>, string>,
    res: Result<AsdfResolve.VersionResolution, AsdfResolve.ResolveError>)
    requires installed.Failure?
    ensures InstallRun(tool, respond, n, installed, listing, released, res).0 == [ListCommand(tool.toolName)]
    ensures InstallRun(tool, respond, n, installed, listing, released, res).1.Failure?
  {
  }

  /** A strict request whose trimmed version is installed is reported as
      installed after the one `list` run: the released versions are never
      listed and nothing is installed. */
  lemma InstallStrictShortCircuit(
    tool: ToolRequest, respond: Responder, n: nat,
    installed: Result<seq<string>, string>, listing: seq<Invocation>, released: Result<seq<string>, string>,
    res: Result<AsdfResolve.VersionResolution, AsdfResolve.ResolveError>)
    requires installed.Success? && tool.resolutionStrategy == Strict
    requires TrimSpace(tool.unparsedVersion) in installed.value
    ensures InstallRun(tool, respond, n, installed, listing, released, res).0 == [ListCommand(tool.toolName)]
    ensures InstallRun(tool, respond, n, installed, listing, released, res).1
            == Success(ToolInstallResult(tool.toolName, true, TrimSpace(tool.unparsedVersion)))
  {
  }

  /** A failing `listReleased` is returned as an error before any
      resolution, and nothing is installed. */
  lemma InstallListReleasedFails(
    tool: ToolRequest, respond: Responder, n: nat,
    installed: Result<seq<string>, string>, listing: seq<Invocation>, released: Result<seq<string>, string>,
    res: Result<AsdfResolve.VersionResolution, AsdfResolve.ResolveError>)
    requires installed.Success? && !StrictInstalled(tool, installed.value) && released.Failure?
    requires NoInstall(listing)
    ensures InstallRun(tool, respond, n, installed, listing, released, res).1.Failure?
    ensures NoInstall(InstallRun(tool, respond, n, installed, listing, released, res).0)
  {
  }

  /** A resolution error always ends in an error, without installing. */
  lemma InstallResolveFails(
    tool: ToolRequest, respond: Responder, n: nat,
    installed: Result<seq<string>, string>, listing: seq<Invocation>, released: Result<seq<string>, string>,
    res: Result<AsdfResolve.VersionResolution, AsdfResolve.ResolveError>)
    requires ReachesResolution(tool, installed, released) && res.Failure?
    requires NoInstall(listing)
    ensures InstallRun(tool, respond, n, installed, listing, released, res).1.Failure?
    ensures NoInstall(InstallRun(tool, respond, n, installed, listing, released, res).0)
  {
    assert [ListCommand(tool.toolName)] + listing + [] == [ListCommand(tool.toolName)] + listing;
  }

  /** An installed resolution is reported as installed, without installing. */
  lemma InstallAlreadyInstalled(
    tool: ToolRequest, respond: Responder, n: nat,
    installed: Result<seq<string>, string>, listing: seq<Invocation>, released: Result<seq<string>, string>,
    res: Result<AsdfResolve.VersionResolution, AsdfResolve.ResolveError>)
    requires ReachesResolution(tool, installed, released) && res.Success? && res.value.isInstalled
    requires NoInstall(listing)
    ensures InstallRun(tool, respond, n, installed, listing, released, res).1
            == Success(ToolInstallResult(tool.toolName, true, res.value.versionString))
    ensures NoInstall(InstallRun(tool, respond, n, installed, listing, released, res).0)
  {
    assert [ListCommand(tool.toolName)] + listing + [] == [ListCommand(tool.toolName)] + listing;
  }

  /** A resolution that is not installed is installed with exactly one
      `install` run, the last one, for the resolved version; the result is
      a fresh install of that version unless that run fails. */
  lemma InstallNewVersion(
    tool: ToolRequest, respond: Responder, n: nat,
    installed: Result<seq<string>, string>, listing: seq<Invocation>, released: Result<seq<string>, string>,
    res: Result<AsdfResolve.VersionResolution, AsdfResolve.ResolveError>)
    requires ReachesResolution(tool, installed, released) && res.Success? && !res.value.isInstalled
    requires NoInstall(listing)
    ensures var (runs, r) := InstallRun(tool, respond, n, installed, listing, released, res);
      && |runs| >= 2 && runs[|runs| - 1] == InstallCommand(tool.toolName, res.value.versionString)
      && NoInstall(runs[..|runs| - 1])
      && (r.Success? <==> respond(n + |runs| - 1, runs[|runs| - 1]).Ran?)
      && (r.Success? ==> r.value == ToolInstallResult(tool.toolName, false, res.value.versionString))
  {
    var name := tool.toolName;
    var runs := InstallRun(tool, respond, n, installed, listing, released, res).0;
    assert runs == [ListCommand(name)] + listing + [InstallCommand(name, res.value.versionString)];
    assert runs[..|runs| - 1] == [ListCommand(name)] + listing;
  }

  /** Every successful install result names the requested tool and a version
      that is the trimmed request or the resolved version. */
  lemma InstallResultNamesTool(
    tool: ToolRequest, respond: Responder, n: nat,
    installed: Result<seq<string>, string>, listing: seq<Invocation>, released: Result<seq<string>, string>,
    res: Result<AsdfResolve.VersionResolution, AsdfResolve.ResolveError>)
    requires InstallRun(tool, respond, n, installed, listing, released, res).1.Success?
    ensures InstallRun(tool, respond, n, installed, listing, released, res).1.value.toolName == tool.toolName
    ensures var v := InstallRun(tool, respond, n, installed, listing, released, res).1.value.concreteVersion;
      v == TrimSpace(tool.unparsedVersion) || (res.Success? && v == res.value.versionString)
  {
    if ReachesResolution(tool, installed, released) {
      ResolveRunListed(tool, respond, n + 1, listing, released.value, res);
    }
  }

  /** `InstallToolPlugin` for the plugin the table gives, the first run being
      number `n`: the runs it makes and its result. */
  function PluginInstallation(plugin: Option<ToolPlugins.ToolPlugin>, toolName: string, respond: Responder, n: nat)
    : (seq<Invocation>, Outcome<string>)
  {
    if plugin.None? || (plugin.value.pluginName == "" && plugin.value.pluginURL == "") then ([], Pass)
    else
      var p := plugin.value;
      var first := respond(n, PluginListCommand);
      if first.Ran? && AsdfPlugin.Listed(first.output, p) then ([PluginListCommand], Pass)
      else
        var rest := PluginAddition(p, toolName, respond, n + 1);
        ([PluginListCommand] + rest.0, rest.1)
  }

  /** The `plugin add` run, the first run being number `m`, and the check
      after it. */
  function PluginAddition(p: ToolPlugins.ToolPlugin, toolName: string, respond: Responder, m: nat)
    : (seq<Invocation>, Outcome<string>)
  {
    var add := AsdfPlugin(AsdfPlugin.AddArgs(p));
    match respond(m, add)
    case Failed(message) => ([add], Fail(message))
    case Ran(_) =>
      ([add, PluginListCommand],
       match respond(m + 1, PluginListCommand)
       case Failed(message) => Fail("failed to check if plugin was installed successfully: " + message)
       case Ran(output) =>
         if AsdfPlugin.Listed(output, p) then Pass else Fail("failed to install tool plugin " + toolName))
  }

  /** A missing plugin, or one with neither name nor URL, needs no run. */
  lemma PluginMissingIsNoop(plugin: Option<ToolPlugins.ToolPlugin>, toolName: string, respond: Responder, n: nat)
    requires plugin.None? || (plugin.value.pluginName == "" && plugin.value.pluginURL == "")
    ensures PluginInstallation(plugin, toolName, respond, n) == ([], Pass)
  {
  }

  /** A plugin that the first listing shows is not added again. */
  lemma PluginListedIsNotAdded(p: ToolPlugins.ToolPlugin, toolName: string, respond: Responder, n: nat)
    requires p.pluginName != "" || p.pluginURL != ""
    requires respond(n, PluginListCommand).Ran? && AsdfPlugin.Listed(respond(n, PluginListCommand).output, p)
    ensures PluginInstallation(Some(p), toolName, respond, n) == ([PluginListCommand], Pass)
  {
  }

  /** A plugin that the first listing does not show, or a listing that
      fails, leads to `plugin add` with the plugin's arguments; the plugin
      counts as installed only when a second listing succeeds and shows it. */
  lemma PluginAddedAndRechecked(p: ToolPlugins.ToolPlugin, toolName: string, respond: Responder, n: nat)
    requires p.pluginName != "" || p.pluginURL != ""
    requires respond(n, PluginListCommand).Failed? || !AsdfPlugin.Listed(respond(n, PluginListCommand).output, p)
    ensures var (runs, err) := PluginInstallation(Some(p), toolName, respond, n);
      && |runs| >= 2 && runs[..2] == [PluginListCommand, AsdfPlugin(AsdfPlugin.AddArgs(p))]
      && (respond(n + 1, runs[1]).Failed? ==> |runs| == 2 && err.Fail?)
      && (respond(n + 1, runs[1]).Ran? ==>
            runs == [PluginListCommand, runs[1], PluginListCommand]
            && (err == Pass <==> respond(n + 2, PluginListCommand).Ran?
                                 && AsdfPlugin.Listed(respond(n + 2, PluginListCommand).output, p)))
  {
    var add := AsdfPlugin(AsdfPlugin.AddArgs(p));
    var runs := PluginInstallation(Some(p), toolName, respond, n).0;
    assert runs == [PluginListCommand] + PluginAddition(p, toolName, respond, n + 1).0;
    assert runs[1] == add;
  }

  /** The resolution error text, as `Error()` renders it. The two kinds of
      error read differently: only a no-match error starts with "no matching
      version found", and it names the available versions after its header
      when there are any. */
  method ResolveErrorText(e: AsdfResolve.ResolveError) returns (text: string)
    ensures text == AsdfResolve.ErrorText(e)
    ensures e.NoMatchingVersion? <==> HasPrefix(text, NoMatchStart)
    ensures e.NoMatchingVersion? && e.availableVersions != [] ==>
      HasPrefix(text, AsdfResolve.NoMatchHeader + "\n- " + e.availableVersions[0] + "\n")
    ensures e.UnknownStrategy? ==> HasPrefix(text, "unknown resolution strategy: ")
  {
    match e
    case NoMatchingVersion(vs) =>
      text := AsdfResolve.NoMatchingVersionMessage(vs);
      if vs == [] {
        assert text == NoMatchStart;
      } else {
        var rest := AsdfResolve.Bullets(vs[1..]);
        assert AsdfResolve.Bullets(vs) == "- " + vs[0] + "\n" + rest;
        PrefixOfConcat(AsdfResolve.NoMatchHeader + "\n- " + vs[0] + "\n", rest);
        assert text == AsdfResolve.NoMatchHeader + "\n- " + vs[0] + "\n" + rest;
        PrefixOfConcat(AsdfResolve.NoMatchHeader, "\n- " + vs[0] + "\n");
        StartPrefixesHeader();
      }
    case UnknownStrategy(strategy) =>
      var tail := IntToString(strategy);
      text := "unknown resolution strategy: " + tail;
      PrefixOfConcat("unknown resolution strategy: ", tail);
      assert text[0] == 'u';
  }

  /** The text a no-match error starts with, whether or not it lists
      versions. */
  const NoMatchStart := "no matching version found"

  lemma StartPrefixesHeader()
    ensures NoMatchStart <= AsdfResolve.NoMatchHeader
  {
    assert AsdfResolve.NoMatchHeader[..|NoMatchStart|] == NoMatchStart;
  }

  lemma PrefixOfConcat(a: string, b: string)
    ensures HasPrefix(a + b, a)
  {
    assert (a + b)[..|a|] == a;
  }

  /** The asdf provider: where asdf runs and how alias installs are told
      apart. Each operation is given the number `n` of runs made before it
      and returns, besides its result, the runs it makes, oldest first. */
  datatype AsdfToolProvider = AsdfToolProvider(execEnv: ExecEnv, aliasFilter: AliasFilter) {

    /** `listInstalled`: one `list <tool>` run. */
    method ListInstalled(n: nat, toolName: string) returns (r: Result<seq<string>, string>, runs: seq<Invocation>)
      ensures runs == [ListCommand(toolName)]
      ensures r == InstalledListing(execEnv.respond(n, ListCommand(toolName)), toolName, aliasFilter)
    {
      var reply;
      reply, runs := execEnv.RunAsdf(n, ["list", toolName]);
      if reply.Failed? {
        if Contains(reply.message, NothingInstalled) {
          return Success([]), runs;
        }
        return Failure(reply.message), runs;
      }
      var installedVersions := AsdfParse.ParseAsdfListOutput(reply.output);
      var filtered := aliasFilter(toolName, installedVersions);
      if filtered.Failure? {
        return Failure("filter alias versions: " + filtered.error), runs;
      }
      r := Success(filtered.value);
    }

    /** `asdfVersion`: one `--version` run. */
    method AsdfVersion(n: nat) returns (r: Result<SemVer.Version, string>, runs: seq<Invocation>)
      ensures runs == [VersionCommand]
      ensures r == ReportedVersion(execEnv.respond(n, VersionCommand))
    {
      var reply;
      reply, runs := execEnv.RunAsdf(n, ["--version"]);
      if reply.Failed? {
        return Failure(reply.message), runs;
      }
      var versionStr := TrimSpace(reply.output);
      var ver := SemVer.Parse(versionStr);
      if ver.None? {
        return Failure("parse asdf version: Malformed version: " + versionStr), runs;
      }
      r := Success(ver.value);
    }

    /** `listReleased`: the version query, then `list all` or `list-all`. */
    method ListReleased(n: nat, toolName: string) returns (r: Result<seq<string>, string>, runs: seq<Invocation>)
      ensures runs == Released(execEnv.respond, n, toolName).0
      ensures r == Released(execEnv.respond, n, toolName).1
    {
      var asdfVer;
      asdfVer, runs := AsdfVersion(n);
      if asdfVer.Failure? {
        ReleasedWithoutVersion(execEnv.respond, n, toolName);
        return Failure(asdfVer.error), runs;
      }
      var listAll := ListAllCommand(asdfVer.value, toolName);
      ReleasedWithVersion(execEnv.respond, n, toolName, asdfVer.value);
      var reply, more := execEnv.RunAsdf(n + 1, listAll.args);
      assert more == [listAll];
      runs := runs + more;
      assert reply == execEnv.respond(n + 1, listAll);
      if reply.Failed? {
        return Failure(reply.message), runs;
      }
      var releasedVersions := AsdfParse.ParseAsdfListOutput(reply.output);
      r := Success(releasedVersions);
    }

    /** `installToolVersion`: one `install <tool> <version>` run. */
    method InstallToolVersion(n: nat, toolName: string, versionString: string) returns (err: Outcome<string>, runs: seq<Invocation>)
      ensures runs == [InstallCommand(toolName, versionString)]
      ensures err.Fail? <==> execEnv.respond(n, InstallCommand(toolName, versionString)).Failed?
      ensures err.Fail? ==>
        err.error == InstallFailure(toolName, versionString, execEnv.respond(n, InstallCommand(toolName, versionString)).message)
    {
      var reply;
      reply, runs := execEnv.RunAsdf(n, ["install", toolName, versionString]);
      if reply.Failed? {
        return Fail(InstallFailure(toolName, versionString, reply.message)), runs;
      }
      err := Pass;
    }

    /** What follows a resolution: the install run for a version that is
        not installed yet. */
    method InstallResolved(n: nat, tool: ToolRequest, resolution: Result<AsdfResolve.VersionResolution, AsdfResolve.ResolveError>)
      returns (r: Result<ToolInstallResult, string>, runs: seq<Invocation>)
      ensures (runs, r) == AfterResolution(tool, execEnv.respond, n, resolution)
    {
      runs := [];
      if resolution.Failure? {
        var text := ResolveErrorText(resolution.error);
        r := Failure("resolve version: " + text);
      } else if resolution.value.isInstalled {
        r := Success(ToolInstallResult(tool.toolName, true, resolution.value.versionString));
      } else {
        var err;
        err, runs := InstallToolVersion(n, tool.toolName, resolution.value.versionString);
        if err.Fail? {
          r := Failure(err.error);
        } else {
          r := Success(ToolInstallResult(tool.toolName, false, resolution.value.versionString));
        }
      }
    }

    /** The part of `InstallTool` from `listReleased` on, its first run
        being number `m`. */
    method ListAndResolve(m: nat, tool: ToolRequest, installedVersions: seq<string>)
      returns (r: Result<ToolInstallResult, string>, runs: seq<Invocation>,
               ghost res: Result<AsdfResolve.VersionResolution, AsdfResolve.ResolveError>)
      ensures var listing := Released(execEnv.respond, m, tool.toolName).0;
        var released := Released(execEnv.respond, m, tool.toolName).1;
        && (released.Success? ==> AsdfResolve.IsResolutionOf(res, tool, released.value, installedVersions))
        && (runs, r) == ResolveRun(tool, execEnv.respond, m, listing, released, res)
    {
      res := Failure(AsdfResolve.NoMatchingVersion([]));
      var releasedVersions;
      releasedVersions, runs := ListReleased(m, tool.toolName);
      if releasedVersions.Failure? {
        return Failure("list released versions: " + releasedVersions.error), runs, res;
      }
      ghost var listing := runs;
      var resolution := AsdfResolve.ResolveVersion(tool, releasedVersions.value, installedVersions);
      res := resolution;
      var more;
      r, more := InstallResolved(m + |runs|, tool, resolution);
      runs := runs + more;
      ResolveRunListed(tool, execEnv.respond, m, listing, releasedVersions.value, res);
    }

    /** `InstallTool`, its first run being number `n`: lists the installed
        versions, short-circuits a strict request that is installed, lists
        the released versions, resolves, and installs a resolution that is
        not installed yet. `res` is the resolution it computed (when it got
        that far). */
    method InstallTool(n: nat, tool: ToolRequest)
      returns (r: Result<ToolInstallResult, string>, runs: seq<Invocation>,
               ghost res: Result<AsdfResolve.VersionResolution, AsdfResolve.ResolveError>)
      ensures var installed := InstalledListing(execEnv.respond(n, ListCommand(tool.toolName)), tool.toolName, aliasFilter);
        var listing := Released(execEnv.respond, n + 1, tool.toolName).0;
        var released := Released(execEnv.respond, n + 1, tool.toolName).1;
        && FitsListings(tool, installed, released, res)
        && (runs, r) == InstallRun(tool, execEnv.respond, n, installed, listing, released, res)
    {
      res := Failure(AsdfResolve.NoMatchingVersion([]));
      var installedVersions;
      installedVersions, runs := ListInstalled(n, tool.toolName);
      if installedVersions.Failure? {
        return Failure("list installed versions: " + installedVersions.error), runs, res;
      }
      var v := TrimSpace(tool.unparsedVersion);
      if tool.resolutionStrategy == Strict && v in installedVersions.value {
        return Success(ToolInstallResult(tool.toolName, true, v)), runs, res;
      }
      var more;
      r, more, res := ListAndResolve(n + 1, tool, installedVersions.value);
      runs := runs + more;
    }

    /** `pluginAlreadyInstalled`: one `plugin list --urls` run, then a scan
        of its lines that stops at the first match. */
    method PluginAlreadyInstalled(n: nat, plugin: ToolPlugins.ToolPlugin)
      returns (installed: bool, err: Option<string>, runs: seq<Invocation>)
      ensures runs == [PluginListCommand]
      ensures match execEnv.respond(n, PluginListCommand)
              case Failed(message) => !installed && err == Some(message)
              case Ran(output) => installed == AsdfPlugin.Listed(output, plugin) && err == None
    {
      var reply;
      reply, runs := execEnv.RunAsdfPlugin(n, ["list", "--urls"]);
      if reply.Failed? {
        return false, Some(reply.message), runs;
      }
      installed := AsdfPlugin.ScanPluginLines(Split(reply.output, '\n'), plugin);
      err := None;
    }

    /** `InstallToolPlugin`, its first run being number `n`: adds the
        table's plugin for the tool unless asdf already lists it, then
        checks that it does. A failing first check only counts as "not
        listed". */
    method InstallToolPlugin(n: nat, toolName: string) returns (err: Outcome<string>, runs: seq<Invocation>)
      ensures (runs, err) == PluginInstallation(ToolPlugins.GetToolPlugin(toolName), toolName, execEnv.respond, n)
    {
      var plugin := ToolPlugins.GetToolPlugin(toolName);
      if plugin.None? || (plugin.value.pluginName == "" && plugin.value.pluginURL == "") {
        return Pass, [];
      }
      var p := plugin.value;
      var installed, checkErr;
      installed, checkErr, runs := PluginAlreadyInstalled(n, p);
      if installed {
        return Pass, runs;
      }
      var more;
      err, more := AddPlugin(n + 1, p, toolName);
      runs := runs + more;
    }

    /** The rest of `InstallToolPlugin` once the plugin is not listed:
        `plugin add` with the plugin's arguments, then a second check. */
    method AddPlugin(m: nat, p: ToolPlugins.ToolPlugin, toolName: string) returns (err: Outcome<string>, runs: seq<Invocation>)
      ensures (runs, err) == PluginAddition(p, toolName, execEnv.respond, m)
    {
      var reply;
      reply, runs := execEnv.RunAsdfPlugin(m, AsdfPlugin.AddArgs(p));
      if reply.Failed? {
        return Fail(reply.message), runs;
      }
      var installed, checkErr, more := PluginAlreadyInstalled(m + 1, p);
      runs := runs + more;
      assert runs == [AsdfPlugin(AsdfPlugin.AddArgs(p)), PluginListCommand];
      if checkErr.Some? {
        return Fail("failed to check if plugin was installed successfully: " + checkErr.value), runs;
      }
      if !installed {
        return Fail("failed to install tool plugin " + toolName), runs;
      }
      err := Pass;
    }
  }
}
