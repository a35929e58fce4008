/** A simplified model of the `hashicorp/go-version` parser and its precedence
    order: optional `v`, dot-separated decimal segments padded with zeros to
    three, an optional pre-release (introduced by `-`, or directly by a
    letter as in `1.25rc2`) and optional `+` build metadata. Precedence
    follows section 11 of Semantic Versioning 2.0.0 and ignores metadata. */
module SemVer {
  import opened Wrappers
  import opened GoStrings

  /** A parsed version. `segments` are padded with zeros to at least three;
      `pre` and `metadata` are "" when absent; `original` is the parsed text. */
  datatype Version = Version(segments: seq<nat>, pre: string, metadata: string, original: string)

  /** Segments are parsed as 64-bit signed integers. */
  const MaxSegment: nat := 0x8000_0000_0000_0000

  predicate IsLetter(c: char) {
    'a' <= c <= 'z' || 'A' <= c <= 'Z'
  }

  /** Characters allowed in pre-release and metadata identifiers. */
  predicate IsIdentChar(c: char) {
    IsDigit(c) || IsLetter(c) || c == '-' || c == '~'
  }

  predicate AllIdentChars(p: string) {
    p == [] || (IsIdentChar(p[0]) && AllIdentChars(p[1..]))
  }

  predicate IsIdent(p: string) {
    p != [] && AllIdentChars(p)
  }

  predicate AllIdents(parts: seq<string>) {
    parts == [] || (IsIdent(parts[0]) && AllIdents(parts[1..]))
  }

  /** Non-empty identifiers separated by single dots. */
  predicate IsDottedIdent(s: string) {
    AllIdents(Split(s, '.'))
  }

  predicate IsCoreChar(c: char) {
    IsDigit(c) || c == '.'
  }

  /** The length of the leading run of digits and dots. */
  function CoreLength(s: string): (n: nat)
    ensures n <= |s|
  {
    if s != [] && IsCoreChar(s[0]) then 1 + CoreLength(s[1..]) else 0
  }

  /** Every part must be a non-empty run of digits whose value fits an int64. */
  function ParseSegments(parts: seq<string>): (r: Option<seq<nat>>)
    ensures r.Some? ==> |r.value| == |parts|
  {
    if parts == [] then Some([])
    else
      var p := parts[0];
      if p == [] || !AllDigits(p) || DigitsValue(p) >= MaxSegment then None
      else
        match ParseSegments(parts[1..])
        case None => None
        case Some(rest) => Some([DigitsValue(p)] + rest)
  }

  /** Pads with zeros to at least three segments. */
  function Pad(segs: seq<nat>): (r: seq<nat>)
    ensures |r| >= 3
    decreases 3 - |segs|
  {
    if |segs| >= 3 then segs else Pad(segs + [0])
  }

  /** The pre-release part, given the text between the numeric core and the
      first `+`: "" stays "" (no pre-release); otherwise either `-` followed
      by dotted identifiers, or dotted identifiers starting with a letter,
      `-` or `~`. None when the text is not a pre-release. */
  function ParsePre(raw: string): Option<string>
  {
    if raw == [] then Some("")
    else if raw[0] == '-' && IsDottedIdent(raw[1..]) then Some(raw[1..])
    else if (IsLetter(raw[0]) || raw[0] == '-' || raw[0] == '~') && IsDottedIdent(raw) then Some(raw)
    else None
  }

  /** go-version's `NewVersion`: None stands for a parse error. */
  function Parse(s: string): (r: Option<Version>)
    ensures r.Some? ==> r.value.original == s && |r.value.segments| >= 3
  {
    var body := if s != [] && s[0] == 'v' then s[1..] else s;
    var n := CoreLength(body);
    var rest := body[n..];
    var plus := IndexOf(rest, '+');
    var preRaw := if plus < 0 then rest else rest[..plus];
    var meta := if plus < 0 then "" else rest[plus + 1..];
    match ParseSegments(Split(body[..n], '.'))
    case None => None
    case Some(segs) =>
      match ParsePre(preRaw)
      case None => None
      case Some(pre) =>
        if plus >= 0 && !IsDottedIdent(meta) then None
        else Some(Version(Pad(segs), pre, meta, s))
  }

  predicate IsSemVer(s: string) {
    Parse(s).Some?
  }

  /** A string whose first character is neither `v`, a dot nor a digit is never
      a version (so `temurin-21` or `openjdk-21` are not): its numeric core
      is empty. */
  lemma NotVersionWithoutLeadingDigit(s: string)
    requires s != [] && s[0] != 'v' && !IsCoreChar(s[0])
    ensures !IsSemVer(s)
  {
    assert CoreLength(s) == 0;
    assert Split(s[..0], '.') == [""];
  }

  /** The dotted decimal form of the segments. */
  function SegmentsString(segs: seq<nat>): string
  {
    if |segs| == 0 then ""
    else if |segs| == 1 then NatToString(segs[0])
    else NatToString(segs[0]) + "." + SegmentsString(segs[1..])
  }

  /** go-version's `String()`: the normalised form, e.g. `1.22.0` for `v1.22`. */
  function ToString(v: Version): string
  {
    SegmentsString(v.segments)
    + (if v.pre != "" then "-" + v.pre else "")
    + (if v.metadata != "" then "+" + v.metadata else "")
  }

  // ---- Precedence ----

  function Head0(a: seq<nat>): nat {
    if a == [] then 0 else a[0]
  }

  function Tail(a: seq<nat>): seq<nat> {
    if a == [] then [] else a[1..]
  }

  /** Segment-wise numeric order, missing segments counting as zero. */
  predicate SegLe(a: seq<nat>, b: seq<nat>)
    decreases |a| + |b|
  {
    if a == [] && b == [] then true
    else Head0(a) < Head0(b) || (Head0(a) == Head0(b) && SegLe(Tail(a), Tail(b)))
  }

  lemma {:induction false} SegLeTotal(a: seq<nat>, b: seq<nat>)
    ensures SegLe(a, b) || SegLe(b, a)
    decreases |a| + |b|
  {
    if !(a == [] && b == []) && Head0(a) == Head0(b) {
      SegLeTotal(Tail(a), Tail(b));
    }
  }

  lemma {:induction false} SegLeTrans(a: seq<nat>, b: seq<nat>, c: seq<nat>)
    requires SegLe(a, b) && SegLe(b, c)
    ensures SegLe(a, c)
    decreases |a| + |b| + |c|
  {
    if a == [] && c == [] {
    } else if a == [] && b == [] {
    } else if b == [] && c == [] {
      assert Head0(b) == 0 && Tail(b) == [];
    } else if Head0(a) == Head0(b) == Head0(c) {
      SegLeTrans(Tail(a), Tail(b), Tail(c));
    }
  }

  /** Numeric pre-release identifiers consist of digits only. */
  predicate IsNumericId(x: string) {
    x != [] && AllDigits(x)
  }

  /** Identifier order: numeric ones numerically and below alphanumeric
      ones, alphanumeric ones lexicographically. */
  predicate IdLe(x: string, y: string) {
    if IsNumericId(x) && IsNumericId(y) then DigitsValue(x) <= DigitsValue(y)
    else if IsNumericId(x) then true
    else if IsNumericId(y) then false
    else LexLe(x, y)
  }

  lemma IdLeTotal(x: string, y: string)
    ensures IdLe(x, y) || IdLe(y, x)
  {
    LexLeTotal(x, y);
  }

  lemma IdLeTrans(x: string, y: string, z: string)
    requires IdLe(x, y) && IdLe(y, z)
    ensures IdLe(x, z)
  {
    if !IsNumericId(x) && !IsNumericId(y) && !IsNumericId(z) {
      LexLeTrans(x, y, z);
    }
  }

  /** Identifier lists compared field by field; a proper prefix is lower. */
  predicate IdsLe(xs: seq<string>, ys: seq<string>) {
    xs == [] || (ys != [] && IdLe(xs[0], ys[0]) && (!IdLe(ys[0], xs[0]) || IdsLe(xs[1..], ys[1..])))
  }

  lemma {:induction false} IdsLeTotal(xs: seq<string>, ys: seq<string>)
    ensures IdsLe(xs, ys) || IdsLe(ys, xs)
  {
    if xs != [] && ys != [] {
      IdLeTotal(xs[0], ys[0]);
      IdsLeTotal(xs[1..], ys[1..]);
    }
  }

  lemma {:induction false} IdsLeTrans(xs: seq<string>, ys: seq<string>, zs: seq<string>)
    requires IdsLe(xs, ys) && IdsLe(ys, zs)
    ensures IdsLe(xs, zs)
  {
    if xs != [] {
      IdLeTrans(xs[0], ys[0], zs[0]);
      if IdLe(zs[0], xs[0]) {
        IdLeTrans(zs[0], xs[0], ys[0]);
        IdLeTrans(ys[0], zs[0], xs[0]);
        IdsLeTrans(xs[1..], ys[1..], zs[1..]);
      }
    }
  }

  /** A version without pre-release ranks above every one with a pre-release. */
  predicate PreLe(p: string, q: string) {
    q == "" || (p != "" && IdsLe(Split(p, '.'), Split(q, '.')))
  }

  lemma PreLeTotal(p: string, q: string)
    ensures PreLe(p, q) || PreLe(q, p)
  {
    IdsLeTotal(Split(p, '.'), Split(q, '.'));
  }

  lemma PreLeTrans(p: string, q: string, r: string)
    requires PreLe(p, q) && PreLe(q, r)
    ensures PreLe(p, r)
  {
    if r != "" {
      IdsLeTrans(Split(p, '.'), Split(q, '.'), Split(r, '.'));
    }
  }

  /** `a` has precedence lower than or equal to `b` (go-version's
      `a.Compare(b) <= 0`). */
  predicate Le(a: Version, b: Version) {
    SegLe(a.segments, b.segments) && (!SegLe(b.segments, a.segments) || PreLe(a.pre, b.pre))
  }

  lemma LeTotal(a: Version, b: Version)
    ensures Le(a, b) || Le(b, a)
  {
    SegLeTotal(a.segments, b.segments);
    PreLeTotal(a.pre, b.pre);
  }

  lemma LeTrans(a: Version, b: Version, c: Version)
    requires Le(a, b) && Le(b, c)
    ensures Le(a, c)
  {
    SegLeTrans(a.segments, b.segments, c.segments);
    if SegLe(c.segments, a.segments) {
      SegLeTrans(c.segments, a.segments, b.segments);
      SegLeTrans(b.segments, c.segments, a.segments);
      PreLeTrans(a.pre, b.pre, c.pre);
    }
  }

  /** Build metadata never affects precedence. */
  lemma MetadataIgnored(a: Version, b: Version)
    requires a.segments == b.segments && a.pre == b.pre
    ensures Le(a, b) && Le(b, a)
  {
    SegLeRefl(a.segments);
    PreLeTotal(a.pre, a.pre);
  }

  lemma SegLeRefl(a: seq<nat>)
    ensures SegLe(a, a)
  {
    SegLeTotal(a, a);
  }

  /** A pre-release ranks below the same version without one. */
  lemma PreReleaseBelowRelease(a: Version, b: Version)
    requires a.segments == b.segments && a.pre != "" && b.pre == ""
    ensures Le(a, b) && !Le(b, a)
  {
    SegLeRefl(a.segments);
  }
}
