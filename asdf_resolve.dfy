/** The asdf version resolver: an exact-installed short circuit, then the
    strict, latest-installed or latest-released strategy over version lists
    put in logical order (semver-parseable versions by precedence, then the
    rest lexicographically, both descending). */
module AsdfResolve {
  import opened Wrappers
  import opened GoStrings
  import SemVer
  import Sorting
  import opened Provider
  import opened Collections

  /** The outcome of a successful resolution. `semVer` is None exactly when
      `versionString` does not parse. */
  datatype VersionResolution = VersionResolution(
    versionString: string,
    isSemVer: bool,
    semVer: Option<SemVer.Version>,
    isInstalled: bool)

  /** `ErrNoMatchingVersion` with the released list, or the error for a
      strategy value outside the enumeration. */
  datatype ResolveError =
    | NoMatchingVersion(availableVersions: seq<string>)
    | UnknownStrategy(strategy: Strategy)

  // ---- Logical order ----

  /** `x` ranks at or below `y`: semver versions by precedence above every
      non-semver string, non-semver strings lexicographically. */
  predicate LogicalLe(x: string, y: string) {
    match (SemVer.Parse(x), SemVer.Parse(y))
    case (Some(a), Some(b)) => SemVer.Le(a, b)
    case (None, Some(_)) => true
    case (Some(_), None) => false
    case (None, None) => LexLe(x, y)
  }

  lemma LogicalLeTotal(x: string, y: string)
    ensures LogicalLe(x, y) || LogicalLe(y, x)
  {
    match (SemVer.Parse(x), SemVer.Parse(y))
    case (Some(a), Some(b)) => SemVer.LeTotal(a, b);
    case (None, Some(_)) =>
    case (Some(_), None) =>
    case (None, None) => LexLeTotal(x, y);
  }

  lemma LogicalLeTrans(x: string, y: string, z: string)
    requires LogicalLe(x, y) && LogicalLe(y, z)
    ensures LogicalLe(x, z)
  {
    if SemVer.Parse(x).Some? && SemVer.Parse(y).Some? && SemVer.Parse(z).Some? {
      SemVer.LeTrans(SemVer.Parse(x).value, SemVer.Parse(y).value, SemVer.Parse(z).value);
    } else if SemVer.Parse(x).None? && SemVer.Parse(y).None? && SemVer.Parse(z).None? {
      LexLeTrans(x, y, z);
    }
  }

  /** Every element ranks at or below every earlier one. */
  ghost predicate SortedLogically(s: seq<string>) {
    Sorting.SortedDesc(s, LogicalLe)
  }

  /** `out` is the input in (one of the) descending logical orders. Ties in
      precedence may come out in any order, since the sort is not stable. */
  ghost predicate IsLogicalOrderOf(out: seq<string>, input: seq<string>) {
    multiset(out) == multiset(input) && SortedLogically(out)
  }

  lemma LogicalLeIsPreorder()
    ensures Sorting.IsTotal(LogicalLe) && Sorting.IsTransitive(LogicalLe)
  {
    forall x, y ensures LogicalLe(x, y) || LogicalLe(y, x) {
      LogicalLeTotal(x, y);
    }
    forall x, y, z | LogicalLe(x, y) && LogicalLe(y, z) ensures LogicalLe(x, z) {
      LogicalLeTrans(x, y, z);
    }
  }

  /** Between two parseable strings the logical order is the precedence of
      their versions, so sorting them by it is sorting a version collection;
      between two unparseable ones it is the lexicographic order. */
  lemma LogicalLeOnBlocks(x: string, y: string)
    ensures SemVer.IsSemVer(x) && SemVer.IsSemVer(y) ==>
      (LogicalLe(x, y) <==> SemVer.Le(SemVer.Parse(x).value, SemVer.Parse(y).value))
    ensures !SemVer.IsSemVer(x) && !SemVer.IsSemVer(y) ==> (LogicalLe(x, y) <==> LexLe(x, y))
  {
  }

  /** Parsed strings ahead of unparseable ones keep the logical order. */
  lemma BlocksConcatSorted(a: seq<string>, b: seq<string>)
    requires SortedLogically(a) && SortedLogically(b)
    requires forall x | x in a :: SemVer.IsSemVer(x)
    requires forall y | y in b :: !SemVer.IsSemVer(y)
    ensures SortedLogically(a + b)
  {
    var t := a + b;
    forall i, j | 0 <= i < j < |t|
      ensures LogicalLe(t[j], t[i])
    {
      if j < |a| {
        assert t[i] == a[i] && t[j] == a[j];
      } else if i < |a| {
        assert t[i] == a[i] && t[i] in a && t[j] == b[j - |a|] && t[j] in b;
      } else {
        assert t[i] == b[i - |a|] && t[j] == b[j - |a|];
      }
    }
  }

  /** A logical order lists parsed strings first, by descending precedence,
      then the others in descending lexicographic order. */
  lemma LogicalOrderBlocks(s: seq<string>)
    requires SortedLogically(s)
    ensures forall i, j :: 0 <= i < j < |s| && SemVer.IsSemVer(s[j]) ==> SemVer.IsSemVer(s[i])
    ensures forall i, j :: 0 <= i < j < |s| && SemVer.IsSemVer(s[i]) && SemVer.IsSemVer(s[j]) ==>
              SemVer.Le(SemVer.Parse(s[j]).value, SemVer.Parse(s[i]).value)
    ensures forall i, j :: 0 <= i < j < |s| && !SemVer.IsSemVer(s[i]) && !SemVer.IsSemVer(s[j]) ==>
              LexLe(s[j], s[i])
  {
    forall i, j | 0 <= i < j < |s|
      ensures LogicalLe(s[j], s[i])
    {
    }
  }

  /** Elements of a permutation of `s` are elements of `s`. */
  lemma PermutationMembers(xs: seq<string>, ys: seq<string>)
    requires multiset(xs) == multiset(ys)
    ensures forall x | x in xs :: x in ys
  {
    forall x | x in xs
      ensures x in ys
    {
      assert x in multiset(ys);
    }
  }

  /** `logicallySortedVersions`: the versions that parse, sorted by
      descending precedence, followed by the others in descending
      lexicographic order. The strings themselves are emitted, as
      `Original()` returns them. */
  method LogicallySortedVersions(versions: seq<string>) returns (sorted: seq<string>)
    ensures IsLogicalOrderOf(sorted, versions)
  {
    var semverVersions: seq<string> := [];
    var nonSemverVersions: seq<string> := [];
    for k := 0 to |versions|
      invariant semverVersions == Filter(versions[..k], SemVer.IsSemVer)
      invariant nonSemverVersions == Reject(versions[..k], SemVer.IsSemVer)
    {
      var v := versions[k];
      assert versions[..k + 1][..k] == versions[..k];
      var parsed := SemVer.Parse(v);
      if parsed.None? {
        nonSemverVersions := nonSemverVersions + [v];
      } else {
        semverVersions := semverVersions + [v];
      }
    }
    assert versions[..|versions|] == versions;

    LogicalLeIsPreorder();
    semverVersions := Sorting.SortedDescending(semverVersions, LogicalLe);
    nonSemverVersions := Sorting.SortedDescending(nonSemverVersions, LogicalLe);
    sorted := semverVersions + nonSemverVersions;
    SortedBlocksAreLogicalOrder(semverVersions, nonSemverVersions, versions);
  }

  /** The two sorted groups, the parseable one first, form a logical order
      of the input. */
  lemma SortedBlocksAreLogicalOrder(a: seq<string>, b: seq<string>, versions: seq<string>)
    requires multiset(a) == multiset(Filter(versions, SemVer.IsSemVer)) && SortedLogically(a)
    requires multiset(b) == multiset(Reject(versions, SemVer.IsSemVer)) && SortedLogically(b)
    ensures IsLogicalOrderOf(a + b, versions)
  {
    FilterRejectPermutation(versions, SemVer.IsSemVer);
    PermutationMembers(a, Filter(versions, SemVer.IsSemVer));
    PermutationMembers(b, Reject(versions, SemVer.IsSemVer));
    BlocksConcatSorted(a, b);
  }

  /** Every list has a logical order. */
  lemma LogicalOrderExists(s: seq<string>)
    ensures IsLogicalOrderOf(Sorting.SortBy(s, LogicalLe), s)
  {
    LogicalLeIsPreorder();
    Sorting.SortBySorts(s, LogicalLe);
  }

  // ---- Resolution ----

  /** The index of the first entry starting with `prefix`, or -1. */
  function FirstMatch(s: seq<string>, prefix: string): (i: int)
    ensures -1 <= i < |s|
    ensures i == -1 <==> forall k :: 0 <= k < |s| ==> !HasPrefix(s[k], prefix)
    ensures i >= 0 ==> HasPrefix(s[i], prefix) && forall k :: 0 <= k < i ==> !HasPrefix(s[k], prefix)
  {
    if s == [] then -1
    else if HasPrefix(s[0], prefix) then 0
    else
      var j := FirstMatch(s[1..], prefix);
      if j < 0 then -1 else j + 1
  }

  /** The version a strategy settles on, and whether it counts as installed. */
  datatype Choice = Choice(versionString: string, isInstalled: bool)

  /** The decision `ResolveVersion` takes, given the logical orders of the
      installed and of the released versions that the sort produced. */
  function Choose(
    request: ToolRequest, released: seq<string>, installed: seq<string>,
    sortedInstalled: seq<string>, sortedReleased: seq<string>): Result<Choice, ResolveError>
  {
    var wanted := request.unparsedVersion;
    if TrimSpace(wanted) in installed then
      Success(Choice(wanted, true))
    else if request.resolutionStrategy == Strict then
      if wanted in released then Success(Choice(wanted, wanted in installed))
      else Failure(NoMatchingVersion(released))
    else if request.resolutionStrategy == LatestInstalled then
      var i := FirstMatch(sortedInstalled, wanted);
      if i >= 0 then Success(Choice(sortedInstalled[i], true))
      else
        var j := FirstMatch(sortedReleased, wanted);
        if j >= 0 then Success(Choice(sortedReleased[j], false))
        else Failure(NoMatchingVersion(released))
    else if request.resolutionStrategy == LatestReleased then
      var j := FirstMatch(sortedReleased, wanted);
      if j >= 0 then Success(Choice(sortedReleased[j], sortedReleased[j] in installed))
      else Failure(NoMatchingVersion(released))
    else
      Failure(UnknownStrategy(request.resolutionStrategy))
  }

  /** The resolution reported for a choice: the chosen string with its own
      parse, which every branch of `ResolveVersion` attaches alike. */
  function Resolution(c: Choice): (r: VersionResolution)
    ensures r.versionString == c.versionString && r.isInstalled == c.isInstalled
    ensures r.isSemVer <==> r.semVer.Some?
    ensures r.semVer.Some? ==> r.semVer.value.original == c.versionString
  {
    VersionResolution(c.versionString, SemVer.IsSemVer(c.versionString), SemVer.Parse(c.versionString), c.isInstalled)
  }

  /** `ResolveVersion`, given the logical orders it sorted. */
  function ResolveSorted(
    request: ToolRequest, released: seq<string>, installed: seq<string>,
    sortedInstalled: seq<string>, sortedReleased: seq<string>): Result<VersionResolution, ResolveError>
  {
    match Choose(request, released, installed, sortedInstalled, sortedReleased)
    case Success(c) => Success(Resolution(c))
    case Failure(e) => Failure(e)
  }

  /** `r` is what `ResolveVersion` returns for some choice of the sort's
      order among versions of equal precedence. */
  ghost predicate IsResolutionOf(
    r: Result<VersionResolution, ResolveError>,
    request: ToolRequest, released: seq<string>, installed: seq<string>)
  {
    exists si, sr :: IsLogicalOrderOf(si, installed) && IsLogicalOrderOf(sr, released)
      && r == ResolveSorted(request, released, installed, si, sr)
  }

  /** `ResolveVersion`: sorts only the lists that the strategy scans. */
  method ResolveVersion(request: ToolRequest, released: seq<string>, installed: seq<string>)
    returns (r: Result<VersionResolution, ResolveError>)
    ensures IsResolutionOf(r, request, released, installed)
  {
    LogicalOrderExists(installed);
    LogicalOrderExists(released);
    ghost var si := Sorting.SortBy(installed, LogicalLe);
    ghost var sr := Sorting.SortBy(released, LogicalLe);
    var wanted := request.unparsedVersion;
    if TrimSpace(wanted) in installed {
      r := Success(Resolution(Choice(wanted, true)));
    } else if request.resolutionStrategy == Strict {
      if wanted in released {
        r := Success(Resolution(Choice(wanted, wanted in installed)));
      } else {
        r := Failure(NoMatchingVersion(released));
      }
    } else if request.resolutionStrategy == LatestInstalled {
      var sortedInstalled := LogicallySortedVersions(installed);
      var sortedReleased := LogicallySortedVersions(released);
      si, sr := sortedInstalled, sortedReleased;
      var i := FirstMatch(sortedInstalled, wanted);
      if i >= 0 {
        r := Success(Resolution(Choice(sortedInstalled[i], true)));
      } else {
        var j := FirstMatch(sortedReleased, wanted);
        if j >= 0 {
          r := Success(Resolution(Choice(sortedReleased[j], false)));
        } else {
          r := Failure(NoMatchingVersion(released));
        }
      }
    } else if request.resolutionStrategy == LatestReleased {
      var sortedReleased := LogicallySortedVersions(released);
      sr := sortedReleased;
      var j := FirstMatch(sortedReleased, wanted);
      if j >= 0 {
        r := Success(Resolution(Choice(sortedReleased[j], sortedReleased[j] in installed)));
      } else {
        r := Failure(NoMatchingVersion(released));
      }
    } else {
      r := Failure(UnknownStrategy(request.resolutionStrategy));
    }
    assert r == ResolveSorted(request, released, installed, si, sr);
  }

  // ---- Properties of every possible resolution ----

  /** The first prefix match of a logical order ranks at or above every
      other entry with that prefix. */
  lemma FirstMatchIsMaximal(s: seq<string>, prefix: string)
    requires SortedLogically(s) && FirstMatch(s, prefix) >= 0
    ensures forall x | x in s && HasPrefix(x, prefix) :: LogicalLe(x, s[FirstMatch(s, prefix)])
  {
    var i := FirstMatch(s, prefix);
    forall x | x in s && HasPrefix(x, prefix)
      ensures LogicalLe(x, s[i])
    {
      var k :| 0 <= k < |s| && s[k] == x;
      if k == i {
        LogicalLeTotal(x, x);
      }
    }
  }

  /** The entries of a list with a given prefix. */
  ghost predicate HasMatch(s: seq<string>, prefix: string) {
    exists x :: x in s && HasPrefix(x, prefix)
  }

  /** `v` is a largest entry of `s` with the prefix, in the logical order. */
  ghost predicate IsBestMatch(v: string, s: seq<string>, prefix: string) {
    v in s && HasPrefix(v, prefix) && forall x | x in s && HasPrefix(x, prefix) :: LogicalLe(x, v)
  }

  /** Scanning a logical order of `input` for a prefix finds a best match
      exactly when `input` has a match at all. */
  lemma FirstMatchInOrder(sorted: seq<string>, input: seq<string>, prefix: string)
    requires IsLogicalOrderOf(sorted, input)
    ensures FirstMatch(sorted, prefix) >= 0 <==> HasMatch(input, prefix)
    ensures FirstMatch(sorted, prefix) >= 0 ==> IsBestMatch(sorted[FirstMatch(sorted, prefix)], input, prefix)
  {
    PermutationMembers(sorted, input);
    PermutationMembers(input, sorted);
    var i := FirstMatch(sorted, prefix);
    if i >= 0 {
      FirstMatchIsMaximal(sorted, prefix);
      assert sorted[i] in sorted;
    }
  }

  /** An installed exact match, after trimming the request, wins under
      every strategy: the untrimmed request is returned as installed, and
      it counts as semver iff it parses. */
  lemma ResolveExactInstalled(
    r: Result<VersionResolution, ResolveError>,
    request: ToolRequest, released: seq<string>, installed: seq<string>)
    requires IsResolutionOf(r, request, released, installed)
    requires TrimSpace(request.unparsedVersion) in installed
    ensures r.Success? && r.value.versionString == request.unparsedVersion && r.value.isInstalled
    ensures r.value.isSemVer <==> SemVer.IsSemVer(request.unparsedVersion)
    ensures r.value.semVer == SemVer.Parse(request.unparsedVersion)
  {
    var si, sr :| IsLogicalOrderOf(si, installed) && IsLogicalOrderOf(sr, released)
      && r == ResolveSorted(request, released, installed, si, sr);
  }

  /** Strict: succeeds iff the request is verbatim among the released
      versions, installed iff it is verbatim among the installed ones;
      otherwise the error carries the whole released list. */
  lemma ResolveStrict(
    r: Result<VersionResolution, ResolveError>,
    request: ToolRequest, released: seq<string>, installed: seq<string>)
    requires IsResolutionOf(r, request, released, installed)
    requires request.resolutionStrategy == Strict
    requires TrimSpace(request.unparsedVersion) !in installed
    ensures r.Success? <==> request.unparsedVersion in released
    ensures r.Success? ==> r.value.versionString == request.unparsedVersion
                           && r.value.isInstalled == (request.unparsedVersion in installed)
    ensures r.Failure? ==> r.error == NoMatchingVersion(released)
  {
    var si, sr :| IsLogicalOrderOf(si, installed) && IsLogicalOrderOf(sr, released)
      && r == ResolveSorted(request, released, installed, si, sr);
  }

  /** LatestInstalled: the best installed match when there is one;
      otherwise the best released match, as not installed; otherwise the
      no-match error. */
  lemma ResolveLatestInstalled(
    r: Result<VersionResolution, ResolveError>,
    request: ToolRequest, released: seq<string>, installed: seq<string>)
    requires IsResolutionOf(r, request, released, installed)
    requires request.resolutionStrategy == LatestInstalled
    requires TrimSpace(request.unparsedVersion) !in installed
    ensures HasMatch(installed, request.unparsedVersion) ==>
              r.Success? && r.value.isInstalled
              && IsBestMatch(r.value.versionString, installed, request.unparsedVersion)
    ensures !HasMatch(installed, request.unparsedVersion) && HasMatch(released, request.unparsedVersion) ==>
              r.Success? && !r.value.isInstalled
              && IsBestMatch(r.value.versionString, released, request.unparsedVersion)
    ensures !HasMatch(installed, request.unparsedVersion) && !HasMatch(released, request.unparsedVersion) ==>
              r == Failure(NoMatchingVersion(released))
  {
    var si, sr :| IsLogicalOrderOf(si, installed) && IsLogicalOrderOf(sr, released)
      && r == ResolveSorted(request, released, installed, si, sr);
    FirstMatchInOrder(si, installed, request.unparsedVersion);
    FirstMatchInOrder(sr, released, request.unparsedVersion);
  }

  /** LatestReleased: the best released match, installed iff it is among
      the installed versions; the no-match error when nothing matches. */
  lemma ResolveLatestReleased(
    r: Result<VersionResolution, ResolveError>,
    request: ToolRequest, released: seq<string>, installed: seq<string>)
    requires IsResolutionOf(r, request, released, installed)
    requires request.resolutionStrategy == LatestReleased
    requires TrimSpace(request.unparsedVersion) !in installed
    ensures r.Success? <==> HasMatch(released, request.unparsedVersion)
    ensures r.Success? ==> IsBestMatch(r.value.versionString, released, request.unparsedVersion)
                           && r.value.isInstalled == (r.value.versionString in installed)
    ensures r.Failure? ==> r.error == NoMatchingVersion(released)
  {
    var si, sr :| IsLogicalOrderOf(si, installed) && IsLogicalOrderOf(sr, released)
      && r == ResolveSorted(request, released, installed, si, sr);
    FirstMatchInOrder(sr, released, request.unparsedVersion);
  }

  /** Every version has the empty prefix, so an empty LatestReleased
      request yields a greatest released version. */
  lemma ResolveEmptyRequest(
    r: Result<VersionResolution, ResolveError>,
    request: ToolRequest, released: seq<string>, installed: seq<string>)
    requires IsResolutionOf(r, request, released, installed)
    requires request.resolutionStrategy == LatestReleased && request.unparsedVersion == ""
    requires "" !in installed && |released| > 0
    ensures r.Success? && r.value.versionString in released
    ensures forall x | x in released :: LogicalLe(x, r.value.versionString)
  {
    assert HasPrefix(released[0], "");
    assert TrimSpace("") == "";
    ResolveLatestReleased(r, request, released, installed);
  }

  /** A strategy value outside the enumeration is an error of its own. */
  lemma ResolveUnknownStrategy(
    r: Result<VersionResolution, ResolveError>,
    request: ToolRequest, released: seq<string>, installed: seq<string>)
    requires IsResolutionOf(r, request, released, installed)
    requires request.resolutionStrategy !in {Strict, LatestInstalled, LatestReleased}
    requires TrimSpace(request.unparsedVersion) !in installed
    ensures r == Failure(UnknownStrategy(request.resolutionStrategy))
  {
    var si, sr :| IsLogicalOrderOf(si, installed) && IsLogicalOrderOf(sr, released)
      && r == ResolveSorted(request, released, installed, si, sr);
  }

  /** A resolved version is the request itself or one of the listed
      versions, and its semver fields describe exactly its own parse. The
      only errors are the no-match error with the released list and the
      unknown-strategy error. */
  lemma ResolveProvenance(
    r: Result<VersionResolution, ResolveError>,
    request: ToolRequest, released: seq<string>, installed: seq<string>)
    requires IsResolutionOf(r, request, released, installed)
    ensures r.Success? ==>
      (r.value.versionString == request.unparsedVersion
       || r.value.versionString in installed || r.value.versionString in released)
      && (r.value.isSemVer <==> SemVer.IsSemVer(r.value.versionString))
      && r.value.semVer == SemVer.Parse(r.value.versionString)
    ensures r.Failure? ==> r.error == NoMatchingVersion(released) || r.error == UnknownStrategy(request.resolutionStrategy)
  {
    var si, sr :| IsLogicalOrderOf(si, installed) && IsLogicalOrderOf(sr, released)
      && r == ResolveSorted(request, released, installed, si, sr);
    var wanted := request.unparsedVersion;
    var strategy := request.resolutionStrategy;
    if TrimSpace(wanted) in installed {
      ResolveExactInstalled(r, request, released, installed);
    } else if strategy == Strict {
      ResolveStrict(r, request, released, installed);
    } else if strategy == LatestInstalled {
      ResolveLatestInstalled(r, request, released, installed);
    } else if strategy == LatestReleased {
      ResolveLatestReleased(r, request, released, installed);
    } else {
      ResolveUnknownStrategy(r, request, released, installed);
    }
  }

  /** The unstable sort only matters between versions of equal rank: any
      two possible results agree on success, on the error, on the installed
      flag, and return versions that rank equal. */
  lemma ResolveUpToTies(
    r1: Result<VersionResolution, ResolveError>, r2: Result<VersionResolution, ResolveError>,
    request: ToolRequest, released: seq<string>, installed: seq<string>)
    requires IsResolutionOf(r1, request, released, installed)
    requires IsResolutionOf(r2, request, released, installed)
    ensures r1.Success? <==> r2.Success?
    ensures r1.Failure? ==> r1 == r2
    ensures r1.Success? && r2.Success? ==>
      LogicalLe(r1.value.versionString, r2.value.versionString)
      && LogicalLe(r2.value.versionString, r1.value.versionString)
  {
    var wanted := request.unparsedVersion;
    var strategy := request.resolutionStrategy;
    if TrimSpace(wanted) in installed {
      ResolveExactInstalled(r1, request, released, installed);
      ResolveExactInstalled(r2, request, released, installed);
      LogicalLeTotal(wanted, wanted);
    } else if strategy == Strict {
      ResolveStrict(r1, request, released, installed);
      ResolveStrict(r2, request, released, installed);
      LogicalLeTotal(wanted, wanted);
    } else if strategy == LatestInstalled {
      ResolveLatestInstalled(r1, request, released, installed);
      ResolveLatestInstalled(r2, request, released, installed);
    } else if strategy == LatestReleased {
      ResolveLatestReleased(r1, request, released, installed);
      ResolveLatestReleased(r2, request, released, installed);
    } else {
      ResolveUnknownStrategy(r1, request, released, installed);
      ResolveUnknownStrategy(r2, request, released, installed);
    }
  }

  // ---- The no-match error message ----

  const NoMatchHeader := "no matching version found, available versions: "

  /** `ErrNoMatchingVersion.Error()`. */
  function NoMatchText(availableVersions: seq<string>): string {
    if availableVersions == [] then "no matching version found"
    else NoMatchHeader + "\n" + Bullets(availableVersions)
  }

  /** The text of a resolution error. */
  function ErrorText(e: ResolveError): string {
    match e
    case NoMatchingVersion(vs) => NoMatchText(vs)
    case UnknownStrategy(strategy) => "unknown resolution strategy: " + IntToString(strategy)
  }

  /** One `- v` line per version, each terminated by a newline. */
  function Bullets(vs: seq<string>): string
  {
    if vs == [] then "" else "- " + vs[0] + "\n" + Bullets(vs[1..])
  }

  /** The bullet lines without their newlines. */
  function BulletLines(vs: seq<string>): seq<string>
  {
    seq(|vs|, i requires 0 <= i < |vs| => "- " + vs[i])
  }

  /** Adding a version adds its line at the end. */
  lemma {:induction false} BulletsAppend(vs: seq<string>, v: string)
    ensures Bullets(vs + [v]) == Bullets(vs) + "- " + v + "\n"
  {
    if vs != [] {
      BulletsAppend(vs[1..], v);
      assert (vs + [v])[1..] == vs[1..] + [v];
    } else {
      assert Bullets([v][1..]) == "";
    }
  }

  /** `ErrNoMatchingVersion.Error()`: a fixed message for an empty list,
      otherwise the header, a newline, then one bullet line per version. */
  method NoMatchingVersionMessage(availableVersions: seq<string>) returns (msg: string)
    ensures availableVersions == [] ==> msg == "no matching version found"
    ensures availableVersions != [] ==> msg == NoMatchHeader + "\n" + Bullets(availableVersions)
  {
    if |availableVersions| == 0 {
      return "no matching version found";
    }
    var versionList := "";
    for k := 0 to |availableVersions|
      invariant versionList == Bullets(availableVersions[..k])
    {
      BulletsAppend(availableVersions[..k], availableVersions[k]);
      assert availableVersions[..k + 1] == availableVersions[..k] + [availableVersions[k]];
      versionList := versionList + "- " + availableVersions[k] + "\n";
    }
    assert availableVersions[..|availableVersions|] == availableVersions;
    msg := NoMatchHeader + "\n" + versionList;
  }

  /** When no version spans several lines, the lines of the version list
      are `- v` for each version in order, then an empty rest. */
  lemma {:induction false} BulletsSplit(vs: seq<string>)
    requires forall v | v in vs :: '\n' !in v
    ensures Split(Bullets(vs), '\n') == BulletLines(vs) + [""]
  {
    if vs == [] {
      assert IndexOf("", '\n') == -1;
    } else {
      var line := "- " + vs[0];
      assert vs[0] in vs;
      assert '\n' !in "- ";
      assert '\n' !in line;
      forall v | v in vs[1..] ensures '\n' !in v {
        assert v in vs;
      }
      BulletsSplit(vs[1..]);
      assert Bullets(vs) == line + ['\n'] + Bullets(vs[1..]);
      SplitCons(line, '\n', Bullets(vs[1..]));
      assert BulletLines(vs) == [line] + BulletLines(vs[1..]);
    }
  }
}
