/** The earlier asdf resolver at the repository root. It guesses once, from
    the released list, whether the tool follows semantic versioning; for
    such tools it compares parsed versions and reports their normalised
    form, and for the others it compares strings lexicographically. */
module LegacyAsdf {
  import opened Wrappers
  import opened GoStrings
  import SemVer
  import Sorting
  import opened Provider
  import AsdfResolve

  /** `ErrNoMatchingVersion`, a `parse <tool> <version>` error for an
      installed version that does not parse, or the `TODO` error for a
      strategy outside the enumeration. */
  datatype LegacyError = NoMatchingVersion | ParseFailed(toolName: string, version: string) | Todo

  type Resolution = AsdfResolve.VersionResolution

  // ---- isToolSemVer ----

  /** Every element passes `ok`. */
  predicate AllOk<T(==)>(s: seq<T>, ok: T -> bool) {
    forall x | x in s :: ok(x)
  }

  /** The first element that fails `ok`, if any. */
  function FirstFailing<T>(s: seq<T>, ok: T -> bool): Option<T>
  {
    if s == [] then None
    else if !ok(s[0]) then Some(s[0])
    else FirstFailing(s[1..], ok)
  }

  /** `FirstFailing` finds nothing exactly when everything passes. */
  lemma {:induction false} FirstFailingNone<T>(s: seq<T>, ok: T -> bool)
    ensures FirstFailing(s, ok).None? <==> AllOk(s, ok)
  {
    if s != [] {
      FirstFailingNone(s[1..], ok);
      assert s[0] in s;
      assert forall x | x in s[1..] :: x in s;
      assert forall x | x in s :: x == s[0] || x in s[1..];
    }
  }

  /** What `FirstFailing` finds is an element that fails. */
  lemma {:induction false} FirstFailingIn<T>(s: seq<T>, ok: T -> bool)
    ensures FirstFailing(s, ok).Some? ==> FirstFailing(s, ok).value in s && !ok(FirstFailing(s, ok).value)
  {
    if s != [] && ok(s[0]) {
      FirstFailingIn(s[1..], ok);
      if FirstFailing(s, ok).Some? {
        assert FirstFailing(s, ok).value in s[1..];
      }
    }
  }

  /** ... and every element before it passes. */
  lemma {:induction false} FirstFailingFirst<T>(s: seq<T>, ok: T -> bool)
    ensures FirstFailing(s, ok).Some? ==>
      exists i | 0 <= i < |s| :: s[i] == FirstFailing(s, ok).value && !ok(s[i]) && AllOk(s[..i], ok)
  {
    if s != [] {
      if !ok(s[0]) {
        assert AllOk(s[..0], ok) by {
          assert s[..0] == [];
        }
      } else if FirstFailing(s, ok).Some? {
        var rest := s[1..];
        FirstFailingFirst(rest, ok);
        var i :| 0 <= i < |rest| && rest[i] == FirstFailing(s, ok).value && !ok(rest[i]) && AllOk(rest[..i], ok);
        assert s[..i + 1] == [s[0]] + rest[..i];
        assert s[i + 1] == rest[i];
      }
    }
  }

  predicate AllParse(vs: seq<string>) {
    AllOk(vs, SemVer.IsSemVer)
  }

  /** The first entry that does not parse, if any. */
  function FirstUnparseable(vs: seq<string>): Option<string> {
    FirstFailing(vs, SemVer.IsSemVer)
  }

  /** `isToolSemVer`: whether every released version parses, and if not,
      the first one that does not. */
  method IsToolSemVer(releasedVersions: seq<string>) returns (semVer: bool, offending: string)
    ensures semVer <==> AllParse(releasedVersions)
    ensures semVer ==> offending == ""
    ensures !semVer ==> FirstUnparseable(releasedVersions) == Some(offending)
  {
    for i := 0 to |releasedVersions|
      invariant FirstUnparseable(releasedVersions) == FirstUnparseable(releasedVersions[i..])
      invariant AllParse(releasedVersions[..i])
    {
      assert releasedVersions[i..][1..] == releasedVersions[i + 1..];
      assert releasedVersions[..i + 1] == releasedVersions[..i] + [releasedVersions[i]];
      if SemVer.Parse(releasedVersions[i]).None? {
        return false, releasedVersions[i];
      }
    }
    assert releasedVersions[..|releasedVersions|] == releasedVersions;
    return true, "";
  }

  // ---- Parsing and sorting a version collection ----

  function ParseEach(vs: seq<string>): (parsed: seq<SemVer.Version>)
    requires AllParse(vs)
  {
    if vs == [] then []
    else
      assert vs[|vs| - 1] in vs;
      ParseEach(vs[..|vs| - 1]) + [SemVer.Parse(vs[|vs| - 1]).value]
  }

  /** The loop that parses every entry into a version collection, failing
      on the first entry that does not parse. */
  method ParseAll(toolName: string, vs: seq<string>) returns (r: Result<seq<SemVer.Version>, LegacyError>)
    ensures FirstUnparseable(vs).None? ==> AllParse(vs) && r == Success(ParseEach(vs))
    ensures FirstUnparseable(vs).Some? ==> r == Failure(ParseFailed(toolName, FirstUnparseable(vs).value))
  {
    var parsed: seq<SemVer.Version> := [];
    for i := 0 to |vs|
      invariant FirstUnparseable(vs) == FirstUnparseable(vs[i..])
      invariant AllParse(vs[..i])
      invariant parsed == ParseEach(vs[..i])
    {
      assert vs[i..][1..] == vs[i + 1..];
      assert vs[..i + 1] == vs[..i] + [vs[i]];
      var v := SemVer.Parse(vs[i]);
      if v.None? {
        return Failure(ParseFailed(toolName, vs[i]));
      }
      parsed := parsed + [v.value];
    }
    assert vs[..|vs|] == vs && vs[|vs|..] == [];
    return Success(parsed);
  }

  /** `sorted` is `input` rearranged into non-increasing order under `le`. */
  ghost predicate IsOrderOf<T>(sorted: seq<T>, input: seq<T>, le: (T, T) -> bool) {
    multiset(sorted) == multiset(input) && Sorting.SortedDesc(sorted, le)
  }

  lemma SemVerLeIsPreorder()
    ensures Sorting.IsTotal(SemVer.Le) && Sorting.IsTransitive(SemVer.Le)
  {
    forall x, y ensures SemVer.Le(x, y) || SemVer.Le(y, x) {
      SemVer.LeTotal(x, y);
    }
    forall x, y, z | SemVer.Le(x, y) && SemVer.Le(y, z) ensures SemVer.Le(x, z) {
      SemVer.LeTrans(x, y, z);
    }
  }

  lemma LexLeIsPreorder()
    ensures Sorting.IsTotal(LexLe) && Sorting.IsTransitive(LexLe)
  {
    forall x, y ensures LexLe(x, y) || LexLe(y, x) {
      LexLeTotal(x, y);
    }
    forall x, y, z | LexLe(x, y) && LexLe(y, z) ensures LexLe(x, z) {
      LexLeTrans(x, y, z);
    }
  }

  /** `sort.Sort(sort.Reverse(collection))`. */
  method SortVersions(vs: seq<SemVer.Version>) returns (sorted: seq<SemVer.Version>)
    ensures IsOrderOf(sorted, vs, SemVer.Le)
  {
    SemVerLeIsPreorder();
    sorted := Sorting.SortedDescending(vs, SemVer.Le);
  }

  /** `slices.Sort` followed by `slices.Reverse` on a copy: descending
      lexicographic order. */
  method SortStrings(ss: seq<string>) returns (sorted: seq<string>)
    ensures IsOrderOf(sorted, ss, LexLe)
  {
    LexLeIsPreorder();
    sorted := Sorting.SortedDescending(ss, LexLe);
  }

  /** The head of a descending order is above every element. */
  lemma DescendingHead<T(!new)>(s: seq<T>, le: (T, T) -> bool, x: T)
    requires Sorting.IsTotal(le) && Sorting.SortedDesc(s, le)
    requires x in s
    ensures le(x, s[0])
  {
    var k :| 0 <= k < |s| && s[k] == x;
    if k == 0 {
      assert le(x, x) || le(x, x);
    }
  }

  /** A descending order stays one without its head. */
  lemma DescendingTail<T>(s: seq<T>, le: (T, T) -> bool)
    requires s != [] && Sorting.SortedDesc(s, le)
    ensures Sorting.SortedDesc(s[1..], le)
  {
    forall i, j | 0 <= i < j < |s[1..]| ensures le(s[1..][j], s[1..][i]) {
      assert s[1..][j] == s[j + 1] && s[1..][i] == s[i + 1];
    }
  }

  /** Two rearrangements of one list with the same head have rearranged
      tails. */
  lemma SameTails<T>(a: seq<T>, b: seq<T>)
    requires a != [] && b != [] && a[0] == b[0] && multiset(a) == multiset(b)
    ensures multiset(a[1..]) == multiset(b[1..])
  {
    assert a == [a[0]] + a[1..] && b == [b[0]] + b[1..];
    assert multiset(a[1..]) == multiset(a) - multiset{a[0]};
    assert multiset(b[1..]) == multiset(b) - multiset{b[0]};
  }

  /** Lexicographic order is antisymmetric, so the descending order of a
      list of strings is unique: the sort-then-reverse has one outcome. */
  lemma {:induction false} LexOrderUnique(a: seq<string>, b: seq<string>, input: seq<string>)
    requires IsOrderOf(a, input, LexLe) && IsOrderOf(b, input, LexLe)
    ensures a == b
    decreases |a|
  {
    if a != [] {
      LexLeIsPreorder();
      assert a[0] in multiset(b);
      assert b[0] in multiset(a);
      DescendingHead(b, LexLe, a[0]);
      DescendingHead(a, LexLe, b[0]);
      LexLeAntisymmetric(a[0], b[0]);
      SameTails(a, b);
      DescendingTail(a, LexLe);
      DescendingTail(b, LexLe);
      LexOrderUnique(a[1..], b[1..], a[1..]);
    }
  }

  // ---- Scanning for a prefix ----

  /** The index of the first element whose `key` starts with `prefix`, or
      -1. The key is `String()` for versions and the string itself
      otherwise. */
  function FirstKeyMatch<T>(s: seq<T>, key: T -> string, prefix: string): (i: int)
    ensures -1 <= i < |s|
  {
    if s == [] then -1
    else if HasPrefix(key(s[0]), prefix) then 0
    else
      var j := FirstKeyMatch(s[1..], key, prefix);
      if j < 0 then -1 else j + 1
  }

  function Itself(s: string): string {
    s
  }

  lemma {:induction false} FirstKeyMatchFirst<T>(s: seq<T>, key: T -> string, prefix: string)
    ensures FirstKeyMatch(s, key, prefix) >= 0 ==> HasPrefix(key(s[FirstKeyMatch(s, key, prefix)]), prefix)
    ensures forall k | 0 <= k < |s| && (FirstKeyMatch(s, key, prefix) < 0 || k < FirstKeyMatch(s, key, prefix)) ::
      !HasPrefix(key(s[k]), prefix)
  {
    if s != [] && !HasPrefix(key(s[0]), prefix) {
      FirstKeyMatchFirst(s[1..], key, prefix);
      forall k | 0 < k < |s| ensures s[k] == s[1..][k - 1] { }
    }
  }

  ghost predicate HasKeyMatch<T>(input: seq<T>, key: T -> string, prefix: string) {
    exists y :: y in input && HasPrefix(key(y), prefix)
  }

  /** `x` is a greatest element of `input` whose key has the prefix. */
  ghost predicate IsBestBy<T>(x: T, input: seq<T>, key: T -> string, le: (T, T) -> bool, prefix: string) {
    x in input && HasPrefix(key(x), prefix) && forall y | y in input && HasPrefix(key(y), prefix) :: le(y, x)
  }

  /** Scanning a descending order of `input` finds a match exactly when
      `input` has one, and the match is a greatest one. */
  lemma FirstKeyMatchIsBest<T(!new)>(sorted: seq<T>, input: seq<T>, key: T -> string, le: (T, T) -> bool, prefix: string)
    requires Sorting.IsTotal(le)
    requires IsOrderOf(sorted, input, le)
    ensures FirstKeyMatch(sorted, key, prefix) >= 0 <==> HasKeyMatch(input, key, prefix)
    ensures FirstKeyMatch(sorted, key, prefix) >= 0 ==> IsBestBy(sorted[FirstKeyMatch(sorted, key, prefix)], input, key, le, prefix)
  {
    var i := FirstKeyMatch(sorted, key, prefix);
    FirstKeyMatchFirst(sorted, key, prefix);
    forall y | y in input
      ensures y in sorted
    {
      assert y in multiset(sorted);
    }
    if i >= 0 {
      assert sorted[i] in multiset(input);
      forall y | y in input && HasPrefix(key(y), prefix)
        ensures le(y, sorted[i])
      {
        var k :| 0 <= k < |sorted| && sorted[k] == y;
        if k == i {
          assert le(y, y) || le(y, y);
        }
      }
    } else {
      forall y | y in input
        ensures !HasPrefix(key(y), prefix)
      {
        var k :| 0 <= k < |sorted| && sorted[k] == y;
      }
    }
  }

  // ---- ResolveVersion ----

  /** The orders the sorts may produce; the version orders matter only when
      their list parses. */
  datatype Orders = Orders(
    installedVersions: seq<SemVer.Version>, releasedVersions: seq<SemVer.Version>,
    installedStrings: seq<string>, releasedStrings: seq<string>)

  ghost predicate ValidOrders(o: Orders, released: seq<string>, installed: seq<string>) {
    && (AllParse(installed) ==> IsOrderOf(o.installedVersions, ParseEach(installed), SemVer.Le))
    && (AllParse(released) ==> IsOrderOf(o.releasedVersions, ParseEach(released), SemVer.Le))
    && IsOrderOf(o.installedStrings, installed, LexLe)
    && IsOrderOf(o.releasedStrings, released, LexLe)
  }

  /** The resolution of a parsed version: its normalised `String()`. */
  function Normalised(v: SemVer.Version, isInstalled: bool): Resolution {
    AsdfResolve.VersionResolution(SemVer.ToString(v), true, Some(v), isInstalled)
  }

  /** The resolution of a string of a tool that does not follow semver. */
  function Verbatim(s: string, isInstalled: bool): Resolution {
    AsdfResolve.VersionResolution(s, false, None, isInstalled)
  }

  /** What `ResolveVersion` decides, given the orders its sorts produced. */
  function Decide(request: ToolRequest, released: seq<string>, installed: seq<string>, o: Orders): Result<Resolution, LegacyError>
  {
    var wanted := request.unparsedVersion;
    var toolSemVer := FirstUnparseable(released).None?;
    if TrimSpace(wanted) in installed then
      Success(AsdfResolve.VersionResolution(wanted, SemVer.IsSemVer(wanted), SemVer.Parse(wanted), true))
    else if request.resolutionStrategy == Strict then
      if wanted in released then
        Success(AsdfResolve.VersionResolution(wanted, toolSemVer, SemVer.Parse(wanted), wanted in installed))
      else Failure(NoMatchingVersion)
    else if request.resolutionStrategy == LatestInstalled then
      if toolSemVer then
        if FirstUnparseable(installed).Some? then Failure(ParseFailed(request.toolName, FirstUnparseable(installed).value))
        else
          var i := FirstKeyMatch(o.installedVersions, SemVer.ToString, wanted);
          if i >= 0 then Success(Normalised(o.installedVersions[i], true))
          else
            var j := FirstKeyMatch(o.releasedVersions, SemVer.ToString, wanted);
            if j >= 0 then Success(Normalised(o.releasedVersions[j], false))
            else Failure(NoMatchingVersion)
      else
        var i := FirstKeyMatch(o.installedStrings, Itself, wanted);
        if i >= 0 then Success(Verbatim(o.installedStrings[i], true))
        else
          var j := FirstKeyMatch(o.releasedStrings, Itself, wanted);
          if j >= 0 then Success(Verbatim(o.releasedStrings[j], false))
          else Failure(NoMatchingVersion)
    else if request.resolutionStrategy == LatestReleased then
      if toolSemVer then
        var j := FirstKeyMatch(o.releasedVersions, SemVer.ToString, wanted);
        if j >= 0 then
          var v := o.releasedVersions[j];
          Success(Normalised(v, SemVer.ToString(v) in installed))
        else Failure(NoMatchingVersion)
      else
        var j := FirstKeyMatch(o.releasedStrings, Itself, wanted);
        if j >= 0 then Success(Verbatim(o.releasedStrings[j], o.releasedStrings[j] in installed))
        else Failure(NoMatchingVersion)
    else Failure(Todo)
  }

  /** `r` is what `ResolveVersion` returns for some outcome of its sorts. */
  ghost predicate IsLegacyResolutionOf(
    r: Result<Resolution, LegacyError>, request: ToolRequest, released: seq<string>, installed: seq<string>)
  {
    exists o :: ValidOrders(o, released, installed) && r == Decide(request, released, installed, o)
  }

  ghost function SomeOrders(released: seq<string>, installed: seq<string>): Orders {
    Orders(
      if AllParse(installed) then Sorting.SortBy(ParseEach(installed), SemVer.Le) else [],
      if AllParse(released) then Sorting.SortBy(ParseEach(released), SemVer.Le) else [],
      Sorting.SortBy(installed, LexLe),
      Sorting.SortBy(released, LexLe))
  }

  lemma SomeOrdersValid(released: seq<string>, installed: seq<string>)
    ensures ValidOrders(SomeOrders(released, installed), released, installed)
  {
    SemVerLeIsPreorder();
    LexLeIsPreorder();
    if AllParse(installed) {
      Sorting.SortBySorts(ParseEach(installed), SemVer.Le);
    }
    if AllParse(released) {
      Sorting.SortBySorts(ParseEach(released), SemVer.Le);
    }
    Sorting.SortBySorts(installed, LexLe);
    Sorting.SortBySorts(released, LexLe);
  }

  /** The legacy `ResolveVersion`: sorts only the lists that the strategy
      scans. */
  method ResolveVersion(request: ToolRequest, released: seq<string>, installed: seq<string>)
    returns (r: Result<Resolution, LegacyError>)
    ensures IsLegacyResolutionOf(r, request, released, installed)
  {
    SomeOrdersValid(released, installed);
    ghost var o := SomeOrders(released, installed);
    FirstFailingNone(released, SemVer.IsSemVer);
    var wanted := request.unparsedVersion;
    if TrimSpace(wanted) in installed {
      r := Success(AsdfResolve.VersionResolution(wanted, SemVer.Parse(wanted).Some?, SemVer.Parse(wanted), true));
    } else {
      var toolSemVer, offending := IsToolSemVer(released);
      if request.resolutionStrategy == Strict {
        if wanted in released {
          r := Success(AsdfResolve.VersionResolution(wanted, toolSemVer, SemVer.Parse(wanted), wanted in installed));
        } else {
          r := Failure(NoMatchingVersion);
        }
      } else if request.resolutionStrategy == LatestInstalled {
        if toolSemVer {
          r, o := LatestInstalledSemVer(request, released, installed, o);
        } else {
          r, o := LatestInstalledStrings(request, released, installed, o);
        }
      } else if request.resolutionStrategy == LatestReleased {
        if toolSemVer {
          var parsed := ParseAll(request.toolName, released);
          var sorted := SortVersions(parsed.value);
          o := o.(releasedVersions := sorted);
          var j := FirstKeyMatch(sorted, SemVer.ToString, wanted);
          if j >= 0 {
            var v := sorted[j];
            r := Success(Normalised(v, SemVer.ToString(v) in installed));
          } else {
            r := Failure(NoMatchingVersion);
          }
        } else {
          var sorted := SortStrings(released);
          o := o.(releasedStrings := sorted);
          var j := FirstKeyMatch(sorted, Itself, wanted);
          if j >= 0 {
            r := Success(Verbatim(sorted[j], sorted[j] in installed));
          } else {
            r := Failure(NoMatchingVersion);
          }
        }
      } else {
        r := Failure(Todo);
      }
    }
    assert ValidOrders(o, released, installed);
    assert r == Decide(request, released, installed, o);
  }

  /** The latest-installed branch for a semver tool: installed versions
      first, then released ones. */
  method LatestInstalledSemVer(request: ToolRequest, released: seq<string>, installed: seq<string>, ghost o0: Orders)
    returns (r: Result<Resolution, LegacyError>, ghost o: Orders)
    requires AllParse(released) && FirstUnparseable(released).None?
    requires ValidOrders(o0, released, installed)
    requires TrimSpace(request.unparsedVersion) !in installed && request.resolutionStrategy == LatestInstalled
    ensures ValidOrders(o, released, installed)
    ensures r == Decide(request, released, installed, o)
  {
    o := o0;
    var wanted := request.unparsedVersion;
    var parsedInstalled := ParseAll(request.toolName, installed);
    if parsedInstalled.Failure? {
      return Failure(parsedInstalled.error), o;
    }
    var sortedInstalled := SortVersions(parsedInstalled.value);
    o := o.(installedVersions := sortedInstalled);
    var i := FirstKeyMatch(sortedInstalled, SemVer.ToString, wanted);
    if i >= 0 {
      return Success(Normalised(sortedInstalled[i], true)), o;
    }
    var parsedReleased := ParseAll(request.toolName, released);
    var sortedReleased := SortVersions(parsedReleased.value);
    o := o.(releasedVersions := sortedReleased);
    var j := FirstKeyMatch(sortedReleased, SemVer.ToString, wanted);
    if j >= 0 {
      r := Success(Normalised(sortedReleased[j], false));
    } else {
      r := Failure(NoMatchingVersion);
    }
  }

  /** The latest-installed branch for a tool that does not follow semver. */
  method LatestInstalledStrings(request: ToolRequest, released: seq<string>, installed: seq<string>, ghost o0: Orders)
    returns (r: Result<Resolution, LegacyError>, ghost o: Orders)
    requires FirstUnparseable(released).Some?
    requires ValidOrders(o0, released, installed)
    requires TrimSpace(request.unparsedVersion) !in installed && request.resolutionStrategy == LatestInstalled
    ensures ValidOrders(o, released, installed)
    ensures r == Decide(request, released, installed, o)
  {
    o := o0;
    var wanted := request.unparsedVersion;
    var sortedInstalled := SortStrings(installed);
    o := o.(installedStrings := sortedInstalled);
    var i := FirstKeyMatch(sortedInstalled, Itself, wanted);
    if i >= 0 {
      return Success(Verbatim(sortedInstalled[i], true)), o;
    }
    var sortedReleased := SortStrings(released);
    o := o.(releasedStrings := sortedReleased);
    var j := FirstKeyMatch(sortedReleased, Itself, wanted);
    if j >= 0 {
      r := Success(Verbatim(sortedReleased[j], false));
    } else {
      r := Failure(NoMatchingVersion);
    }
  }

  /** The latest-installed branch of `Decide` for a semver tool whose
      installed versions parse. */
  lemma DecideSemVerInstalledBranch(request: ToolRequest, released: seq<string>, installed: seq<string>, o: Orders)
    requires request.resolutionStrategy == LatestInstalled && TrimSpace(request.unparsedVersion) !in installed
    requires FirstUnparseable(released).None? && FirstUnparseable(installed).None?
    ensures var i := FirstKeyMatch(o.installedVersions, SemVer.ToString, request.unparsedVersion);
            var j := FirstKeyMatch(o.releasedVersions, SemVer.ToString, request.unparsedVersion);
      Decide(request, released, installed, o) ==
        if i >= 0 then Success(Normalised(o.installedVersions[i], true))
        else if j >= 0 then Success(Normalised(o.releasedVersions[j], false))
        else Failure(NoMatchingVersion)
  {
  }

  /** The latest-released branch of `Decide` for a semver tool. */
  lemma DecideSemVerReleasedBranch(request: ToolRequest, released: seq<string>, installed: seq<string>, o: Orders)
    requires request.resolutionStrategy == LatestReleased && TrimSpace(request.unparsedVersion) !in installed
    requires FirstUnparseable(released).None?
    ensures var j := FirstKeyMatch(o.releasedVersions, SemVer.ToString, request.unparsedVersion);
      Decide(request, released, installed, o) ==
        if j >= 0 then Success(Normalised(o.releasedVersions[j], SemVer.ToString(o.releasedVersions[j]) in installed))
        else Failure(NoMatchingVersion)
  {
  }

  // ---- Properties of every possible resolution ----

  /** An installed exact match, after trimming the request, wins under
      every strategy, with the request's own parse. */
  lemma LegacyExactInstalled(
    r: Result<Resolution, LegacyError>, request: ToolRequest, released: seq<string>, installed: seq<string>)
    requires IsLegacyResolutionOf(r, request, released, installed)
    requires TrimSpace(request.unparsedVersion) in installed
    ensures r == Success(AsdfResolve.VersionResolution(request.unparsedVersion,
      SemVer.IsSemVer(request.unparsedVersion), SemVer.Parse(request.unparsedVersion), true))
  {
    var o :| ValidOrders(o, released, installed) && r == Decide(request, released, installed, o);
  }

  /** Strict: a verbatim released match succeeds, reporting whether the
      whole tool looks like semver (not whether the request parses) and
      whether the request is installed; anything else is
      `ErrNoMatchingVersion`. */
  lemma LegacyStrict(
    r: Result<Resolution, LegacyError>, request: ToolRequest, released: seq<string>, installed: seq<string>)
    requires IsLegacyResolutionOf(r, request, released, installed)
    requires request.resolutionStrategy == Strict && TrimSpace(request.unparsedVersion) !in installed
    ensures r.Success? <==> request.unparsedVersion in released
    ensures r.Success? ==>
      && r.value.versionString == request.unparsedVersion
      && (r.value.isSemVer <==> AllParse(released))
      && r.value.semVer == SemVer.Parse(request.unparsedVersion)
      && r.value.isInstalled == (request.unparsedVersion in installed)
    ensures r.Failure? ==> r.error == NoMatchingVersion
  {
    var o :| ValidOrders(o, released, installed) && r == Decide(request, released, installed, o);
    FirstFailingNone(released, SemVer.IsSemVer);
  }

  /** Latest-installed for a semver tool: an installed version that does
      not parse is an error naming the first such version. */
  lemma LegacyUnparseableInstalled(
    r: Result<Resolution, LegacyError>, request: ToolRequest, released: seq<string>, installed: seq<string>)
    requires IsLegacyResolutionOf(r, request, released, installed)
    requires request.resolutionStrategy == LatestInstalled && TrimSpace(request.unparsedVersion) !in installed
    requires AllParse(released) && !AllParse(installed)
    ensures r.Failure? && r.error.ParseFailed? && r.error.toolName == request.toolName
    ensures exists i | 0 <= i < |installed| ::
      installed[i] == r.error.version && !SemVer.IsSemVer(installed[i]) && AllParse(installed[..i])
  {
    var o :| ValidOrders(o, released, installed) && r == Decide(request, released, installed, o);
    FirstFailingNone(released, SemVer.IsSemVer);
    FirstFailingNone(installed, SemVer.IsSemVer);
    DecideUnparseableInstalled(request, released, installed, o);
    FirstFailingFirst(installed, SemVer.IsSemVer);
    var i :| 0 <= i < |installed| && installed[i] == FirstUnparseable(installed).value
             && !SemVer.IsSemVer(installed[i]) && AllOk(installed[..i], SemVer.IsSemVer);
    assert AllParse(installed[..i]);
  }

  lemma DecideUnparseableInstalled(request: ToolRequest, released: seq<string>, installed: seq<string>, o: Orders)
    requires request.resolutionStrategy == LatestInstalled && TrimSpace(request.unparsedVersion) !in installed
    requires FirstUnparseable(released).None? && FirstUnparseable(installed).Some?
    ensures Decide(request, released, installed, o)
            == Failure(ParseFailed(request.toolName, FirstUnparseable(installed).value))
  {
  }

  /** Latest-installed for a semver tool whose installed versions parse:
      the greatest installed version whose normalised form has the
      request as a prefix; failing that, the greatest such released
      version, as not installed; failing that, no match. The version is
      reported in normalised form. */
  lemma LegacySemVerLatestInstalled(
    r: Result<Resolution, LegacyError>, request: ToolRequest, released: seq<string>, installed: seq<string>)
    requires IsLegacyResolutionOf(r, request, released, installed)
    requires request.resolutionStrategy == LatestInstalled && TrimSpace(request.unparsedVersion) !in installed
    requires AllParse(released) && AllParse(installed)
    ensures r.Success? ==> r.value.isSemVer && r.value.semVer.Some?
                           && r.value.versionString == SemVer.ToString(r.value.semVer.value)
    ensures HasKeyMatch(ParseEach(installed), SemVer.ToString, request.unparsedVersion) ==>
      r.Success? && r.value.isInstalled
      && IsBestBy(r.value.semVer.value, ParseEach(installed), SemVer.ToString, SemVer.Le, request.unparsedVersion)
    ensures !HasKeyMatch(ParseEach(installed), SemVer.ToString, request.unparsedVersion)
            && HasKeyMatch(ParseEach(released), SemVer.ToString, request.unparsedVersion) ==>
      r.Success? && !r.value.isInstalled
      && IsBestBy(r.value.semVer.value, ParseEach(released), SemVer.ToString, SemVer.Le, request.unparsedVersion)
    ensures !HasKeyMatch(ParseEach(installed), SemVer.ToString, request.unparsedVersion)
            && !HasKeyMatch(ParseEach(released), SemVer.ToString, request.unparsedVersion) ==>
      r == Failure(NoMatchingVersion)
  {
    var o :| ValidOrders(o, released, installed) && r == Decide(request, released, installed, o);
    FirstFailingNone(released, SemVer.IsSemVer);
    FirstFailingNone(installed, SemVer.IsSemVer);
    DecideSemVerInstalledBranch(request, released, installed, o);
    SemVerLeIsPreorder();
    FirstKeyMatchIsBest(o.installedVersions, ParseEach(installed), SemVer.ToString, SemVer.Le, request.unparsedVersion);
    FirstKeyMatchIsBest(o.releasedVersions, ParseEach(released), SemVer.ToString, SemVer.Le, request.unparsedVersion);
  }

  /** Latest-released for a semver tool: the greatest released version
      whose normalised form has the request as a prefix, installed iff
      that normalised form is among the installed strings; otherwise no
      match. It never reports a parse error. */
  lemma LegacySemVerLatestReleased(
    r: Result<Resolution, LegacyError>, request: ToolRequest, released: seq<string>, installed: seq<string>)
    requires IsLegacyResolutionOf(r, request, released, installed)
    requires request.resolutionStrategy == LatestReleased && TrimSpace(request.unparsedVersion) !in installed
    requires AllParse(released)
    ensures r.Success? <==> HasKeyMatch(ParseEach(released), SemVer.ToString, request.unparsedVersion)
    ensures r.Success? ==>
      && r.value.isSemVer && r.value.semVer.Some?
      && r.value.versionString == SemVer.ToString(r.value.semVer.value)
      && IsBestBy(r.value.semVer.value, ParseEach(released), SemVer.ToString, SemVer.Le, request.unparsedVersion)
      && r.value.isInstalled == (r.value.versionString in installed)
    ensures r.Failure? ==> r.error == NoMatchingVersion
  {
    var o :| ValidOrders(o, released, installed) && r == Decide(request, released, installed, o);
    FirstFailingNone(released, SemVer.IsSemVer);
    DecideSemVerReleasedBranch(request, released, installed, o);
    SemVerLeIsPreorder();
    FirstKeyMatchIsBest(o.releasedVersions, ParseEach(released), SemVer.ToString, SemVer.Le, request.unparsedVersion);
  }

  /** For a tool that does not follow semver, the non-strict strategies
      take the lexicographically greatest string with the request as a
      prefix, trying the installed list first under latest-installed. */
  lemma LegacyStringStrategies(
    r: Result<Resolution, LegacyError>, request: ToolRequest, released: seq<string>, installed: seq<string>)
    requires IsLegacyResolutionOf(r, request, released, installed)
    requires request.resolutionStrategy in {LatestInstalled, LatestReleased}
    requires TrimSpace(request.unparsedVersion) !in installed
    requires !AllParse(released)
    ensures r.Success? ==> !r.value.isSemVer && r.value.semVer.None?
    ensures request.resolutionStrategy == LatestInstalled && HasKeyMatch(installed, Itself, request.unparsedVersion) ==>
      r.Success? && r.value.isInstalled
      && IsBestBy(r.value.versionString, installed, Itself, LexLe, request.unparsedVersion)
    ensures request.resolutionStrategy == LatestInstalled && !HasKeyMatch(installed, Itself, request.unparsedVersion) ==>
      (r.Success? <==> HasKeyMatch(released, Itself, request.unparsedVersion))
      && (r.Success? ==> !r.value.isInstalled && IsBestBy(r.value.versionString, released, Itself, LexLe, request.unparsedVersion))
    ensures request.resolutionStrategy == LatestReleased ==>
      (r.Success? <==> HasKeyMatch(released, Itself, request.unparsedVersion))
      && (r.Success? ==> IsBestBy(r.value.versionString, released, Itself, LexLe, request.unparsedVersion)
                         && r.value.isInstalled == (r.value.versionString in installed))
    ensures r.Failure? ==> r.error == NoMatchingVersion
  {
    var o :| ValidOrders(o, released, installed) && r == Decide(request, released, installed, o);
    FirstFailingNone(released, SemVer.IsSemVer);
    LexLeIsPreorder();
    FirstKeyMatchIsBest(o.installedStrings, installed, Itself, LexLe, request.unparsedVersion);
    FirstKeyMatchIsBest(o.releasedStrings, released, Itself, LexLe, request.unparsedVersion);
  }

  /** A strategy value outside the enumeration gives the `TODO` error. */
  lemma LegacyUnknownStrategy(
    r: Result<Resolution, LegacyError>, request: ToolRequest, released: seq<string>, installed: seq<string>)
    requires IsLegacyResolutionOf(r, request, released, installed)
    requires request.resolutionStrategy !in {Strict, LatestInstalled, LatestReleased}
    requires TrimSpace(request.unparsedVersion) !in installed
    ensures r == Failure(Todo)
  {
    var o :| ValidOrders(o, released, installed) && r == Decide(request, released, installed, o);
  }

  /** The one situation in which `ResolveVersion` parses the installed
      list and can fail doing so. */
  predicate ParseErrorCase(request: ToolRequest, released: seq<string>, installed: seq<string>) {
    && request.resolutionStrategy == LatestInstalled
    && TrimSpace(request.unparsedVersion) !in installed
    && FirstUnparseable(released).None?
    && FirstUnparseable(installed).Some?
  }

  /** `Decide` reports a parse error exactly in that situation, naming the
      first installed version that does not parse. */
  lemma DecideParseErrors(request: ToolRequest, released: seq<string>, installed: seq<string>, o: Orders)
    ensures Decide(request, released, installed, o).Failure? && Decide(request, released, installed, o).error.ParseFailed?
            <==> ParseErrorCase(request, released, installed)
    ensures ParseErrorCase(request, released, installed) ==>
      Decide(request, released, installed, o) == Failure(ParseFailed(request.toolName, FirstUnparseable(installed).value))
  {
    if ParseErrorCase(request, released, installed) {
      DecideUnparseableInstalled(request, released, installed, o);
    }
  }

  /** Parse errors come only from the installed list, under
      latest-installed, for a tool whose released versions all parse. */
  lemma LegacyParseErrorsFromInstalled(
    r: Result<Resolution, LegacyError>, request: ToolRequest, released: seq<string>, installed: seq<string>)
    requires IsLegacyResolutionOf(r, request, released, installed)
    requires r.Failure? && r.error.ParseFailed?
    ensures request.resolutionStrategy == LatestInstalled && AllParse(released)
    ensures r.error.version in installed && !SemVer.IsSemVer(r.error.version)
  {
    var o :| ValidOrders(o, released, installed) && r == Decide(request, released, installed, o);
    DecideParseErrors(request, released, installed, o);
    FirstFailingNone(released, SemVer.IsSemVer);
    FirstFailingIn(installed, SemVer.IsSemVer);
  }
}
