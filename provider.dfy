/** The provider-independent data types: the resolution strategy, the tool
    request, the install result and error, and the environment activation. */
module Provider {
  import opened Wrappers
  import opened GoStrings

  /** `ResolutionStrategy` is a Go integer enumeration (`iota`), so values
      outside the three named ones can occur. */
  type Strategy = int

  const Strict: Strategy := 0
  const LatestInstalled: Strategy := 1
  const LatestReleased: Strategy := 2

  /** A request to install one tool. `pluginIdentifier` is a nullable pointer
      in the source. */
  datatype ToolRequest = ToolRequest(
    toolName: string,
    unparsedVersion: string,
    resolutionStrategy: Strategy,
    pluginIdentifier: Option<string>)

  datatype ToolInstallResult = ToolInstallResult(
    toolName: string,
    isAlreadyInstalled: bool,
    concreteVersion: string)

  /** An installation failure; the last three fields are optional ("" when
      absent). */
  datatype ToolInstallError = ToolInstallError(
    toolName: string,
    requestedVersion: string,
    rawOutput: string,
    cause: string,
    recommendation: string)

  datatype EnvironmentActivation = EnvironmentActivation(
    contributedEnvVars: map<string, string>,
    contributedPaths: seq<string>)

  function Header(e: ToolInstallError): string {
    "Error: failed to install " + e.toolName + " " + e.requestedVersion
  }

  /** A one-line section, present only when its value is non-empty. */
  function Section(title: string, value: string): seq<string> {
    if value == "" then [] else [title + value]
  }

  /** The lines of the rendered error: the header, then the cause, the
      recommendation and the raw output, each only when non-empty. */
  function MessageLines(e: ToolInstallError): (lines: seq<string>)
    ensures |lines| >= 1 && lines[0] == Header(e)
  {
    [Header(e)]
    + Section("Cause: ", e.cause)
    + Section("Recommendation: ", e.recommendation)
    + Section("Additional info: ", e.rawOutput)
  }

  /** `ToolInstallError.Error()`: grows the message section by section. */
  method ErrorMessage(e: ToolInstallError) returns (msg: string)
    ensures msg == Join(MessageLines(e), '\n')
  {
    ghost var lines := [Header(e)];
    msg := Header(e);
    assert "\nCause: " == ['\n'] + "Cause: ";
    assert "\nRecommendation: " == ['\n'] + "Recommendation: ";
    assert "\nAdditional info: " == ['\n'] + "Additional info: ";
    if e.cause != "" {
      msg, lines := msg + ("\nCause: " + e.cause), Appended(lines, msg, "Cause: ", e.cause);
    }
    assert lines == [Header(e)] + Section("Cause: ", e.cause) && msg == Join(lines, '\n');
    if e.recommendation != "" {
      msg, lines := msg + ("\nRecommendation: " + e.recommendation), Appended(lines, msg, "Recommendation: ", e.recommendation);
    }
    assert lines == [Header(e)] + Section("Cause: ", e.cause) + Section("Recommendation: ", e.recommendation);
    assert msg == Join(lines, '\n');
    if e.rawOutput != "" {
      msg, lines := msg + ("\nAdditional info: " + e.rawOutput), Appended(lines, msg, "Additional info: ", e.rawOutput);
    }
    assert lines == MessageLines(e) && msg == Join(lines, '\n');
  }

  /** The lines after appending one section to a message of `lines`. */
  ghost function Appended(lines: seq<string>, msg: string, title: string, value: string): (r: seq<string>)
    requires |lines| >= 1 && msg == Join(lines, '\n')
    ensures r == lines + [title + value]
    ensures msg + (['\n'] + title + value) == Join(r, '\n')
  {
    JoinAppend(lines, title + value, '\n');
    assert msg + (['\n'] + title + value) == msg + ['\n'] + (title + value);
    lines + [title + value]
  }

  /** The message always starts with the header. */
  lemma MessageStartsWithHeader(e: ToolInstallError)
    ensures HasPrefix(Join(MessageLines(e), '\n'), Header(e))
  {
    JoinStartsWithHead(MessageLines(e), '\n');
  }

  /** Without optional fields the message is the header alone. */
  lemma MessageWithoutOptionalFields(e: ToolInstallError)
    requires e.cause == "" && e.recommendation == "" && e.rawOutput == ""
    ensures Join(MessageLines(e), '\n') == Header(e)
  {
  }

  predicate SingleLine(s: string) {
    '\n' !in s
  }

  /** When no field spans several lines, the lines of the message are
      exactly the header and the present sections. */
  lemma MessageLinesRecovered(e: ToolInstallError)
    requires SingleLine(e.toolName) && SingleLine(e.requestedVersion)
    requires SingleLine(e.cause) && SingleLine(e.recommendation) && SingleLine(e.rawOutput)
    ensures Split(Join(MessageLines(e), '\n'), '\n') == MessageLines(e)
  {
    var lines := MessageLines(e);
    forall p | p in lines
      ensures '\n' !in p
    {
    }
    SplitJoin(lines, '\n');
  }

  /** A section line appears iff its field is non-empty, and the sections
      come in the fixed order cause, recommendation, additional info. */
  lemma SectionsInOrder(e: ToolInstallError)
    ensures (e.cause != "") <==> "Cause: " + e.cause in MessageLines(e)
    ensures (e.recommendation != "") <==> "Recommendation: " + e.recommendation in MessageLines(e)
    ensures (e.rawOutput != "") <==> "Additional info: " + e.rawOutput in MessageLines(e)
    ensures e.cause != "" && e.recommendation != "" ==> MessageLines(e)[1] == "Cause: " + e.cause && MessageLines(e)[2] == "Recommendation: " + e.recommendation
  {
    assert ("Cause: " + e.cause)[0] == 'C';
    assert ("Recommendation: " + e.recommendation)[0] == 'R';
    assert ("Additional info: " + e.rawOutput)[0] == 'A';
    assert Header(e)[0] == 'E';
  }
}
