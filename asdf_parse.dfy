/** The text that `asdf list` and `asdf list all` print: one version per
    line, indented, the current one marked with `*`. */
module AsdfParse {
  import opened GoStrings
  import SemVer
  import opened Collections

  /** A line lists a version unless it is blank. */
  predicate IsEntryLine(line: string) {
    TrimSpace(line) != ""
  }

  /** The version a line lists: the line without its first `*`, trimmed. */
  function Entry(line: string): string {
    TrimSpace(RemoveFirst(line, '*'))
  }

  /** The versions the lines list, in line order. */
  function Entries(lines: seq<string>): seq<string> {
    FilterMap(lines, IsEntryLine, Entry)
  }

  /** The lines of the trimmed output. */
  function Lines(output: string): seq<string> {
    Split(TrimSpace(output), '\n')
  }

  /** `parseAsdfListOutput`: the entry of every non-blank line, in order. */
  method ParseAsdfListOutput(output: string) returns (versions: seq<string>)
    ensures versions == Entries(Lines(output))
    ensures TrimSpace(output) == "" ==> versions == []
  {
    var lines := Split(TrimSpace(output), '\n');
    versions := [];
    for i := 0 to |lines|
      invariant versions == FilterMap(lines[..i], IsEntryLine, Entry)
    {
      var line := lines[i];
      FilterMapStep(lines, i, IsEntryLine, Entry);
      if TrimSpace(line) == "" {
        continue;
      }
      versions := versions + [TrimSpace(RemoveFirst(line, '*'))];
    }
    assert lines[..|lines|] == lines;
    if TrimSpace(output) == "" {
      BlankOutputListsNothing(output);
    }
  }

  /** Empty or white-space-only output lists no version. */
  lemma BlankOutputListsNothing(output: string)
    requires TrimSpace(output) == ""
    ensures Entries(Lines(output)) == []
  {
    assert Lines(output) == [""];
    assert TrimSpace("") == "";
  }

  /** Each version comes from a non-blank line, every non-blank line
      contributes its version, and the versions of consecutive blocks of
      lines follow each other. */
  lemma ParsedEntries(lines: seq<string>, more: seq<string>)
    ensures |Entries(lines)| <= |lines|
    ensures forall v | v in Entries(lines) :: exists l :: l in lines && IsEntryLine(l) && v == Entry(l)
    ensures forall l | l in lines && IsEntryLine(l) :: Entry(l) in Entries(lines)
    ensures Entries(lines + more) == Entries(lines) + Entries(more)
  {
    FilterMapMembers(lines, IsEntryLine, Entry);
    FilterMapAppend(lines, more, IsEntryLine, Entry);
  }

  /** An asdf version at or above 0.16.0 lists all versions with `list all`,
      an older one with `list-all`. */
  const ListAllSince := SemVer.Version([0, 16, 0], "", "", "0.16.0")

  /** The subcommand `listReleased` runs for the installed asdf version. */
  function ReleasedSubcommand(asdfVersion: SemVer.Version): (sub: string)
    ensures sub == "list all" || sub == "list-all"
  {
    if SemVer.Le(ListAllSince, asdfVersion) then "list all" else "list-all"
  }

  /** Upgrading asdf never brings back the old `list-all` subcommand. */
  lemma SubcommandMonotone(v: SemVer.Version, w: SemVer.Version)
    requires SemVer.Le(v, w) && ReleasedSubcommand(v) == "list all"
    ensures ReleasedSubcommand(w) == "list all"
  {
    SemVer.LeTrans(ListAllSince, v, w);
  }
}
