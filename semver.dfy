/**
 * The Semantic Versioning 2.0.0 grammar as the version writer's regular
 * expression accepts it: MAJOR.MINOR.PATCH, then an optional pre-release
 * after "-" and optional build metadata after "+", anchored at both ends.
 *
 * The grammar is stated declaratively (WellFormed and Render), the regular
 * expression as a scanner (Match) that also returns its named groups, and
 * the two are proved to agree in both directions: Match accepts exactly the
 * rendered well-formed captures, and returns those captures.
 */
module SemVer {
  import opened Text

  // ---------------------------------------------------------------- the grammar

  /** `[0-9a-zA-Z-]` */
  predicate IsIdentChar(c: char)
  {
    IsDigit(c) || 'a' <= c <= 'z' || 'A' <= c <= 'Z' || c == '-'
  }

  /** `0|[1-9]\d*`: a decimal number with no leading zero. */
  predicate NumericIdentifier(s: string)
  {
    IsNumber(s) && (s[0] == '0' ==> |s| == 1)
  }

  /** `0|[1-9]\d*|\d*[a-zA-Z-][0-9a-zA-Z-]*`: a numeric identifier, or identifier characters with at least one non-digit. */
  predicate PrereleaseIdentifier(s: string)
  {
    || NumericIdentifier(s)
    || ((forall i :: 0 <= i < |s| ==> IsIdentChar(s[i])) && exists i :: 0 <= i < |s| && !IsDigit(s[i]))
  }

  /** `[0-9a-zA-Z-]+` */
  predicate BuildIdentifier(s: string)
  {
    |s| > 0 && forall i :: 0 <= i < |s| ==> IsIdentChar(s[i])
  }

  /** Only identifier characters and dots. */
  predicate DotsAndIdentChars(s: string)
  {
    forall i :: 0 <= i < |s| ==> IsIdentChar(s[i]) || s[i] == '.'
  }

  /** The prerelease group: pre-release identifiers separated by single dots. */
  predicate Prerelease(s: string)
  {
    DotsAndIdentChars(s) && forall p :: p in Split(s, '.') ==> PrereleaseIdentifier(p)
  }

  /** The buildmetadata group: build identifiers separated by single dots. */
  predicate BuildMetadata(s: string)
  {
    DotsAndIdentChars(s) && forall p :: p in Split(s, '.') ==> BuildIdentifier(p)
  }

  /** The named groups of a match; an optional group that did not take part is None. */
  datatype Captures = Captures(major: string, minor: string, patch: string,
                               prerelease: Option<string>, buildmetadata: Option<string>)

  predicate WellFormed(c: Captures)
  {
    && NumericIdentifier(c.major) && NumericIdentifier(c.minor) && NumericIdentifier(c.patch)
    && (c.prerelease.Some? ==> Prerelease(c.prerelease.value))
    && (c.buildmetadata.Some? ==> BuildMetadata(c.buildmetadata.value))
  }

  /** What follows the patch number: "-" and the pre-release, then "+" and the build metadata, each if present. */
  function RenderTail(prerelease: Option<string>, buildmetadata: Option<string>): string
  {
    (match prerelease case None => "" case Some(p) => "-" + p)
    + (match buildmetadata case None => "" case Some(b) => "+" + b)
  }

  /** The version string whose groups are c. */
  function Render(c: Captures): string
  {
    c.major + "." + c.minor + "." + c.patch + RenderTail(c.prerelease, c.buildmetadata)
  }

  /** Render read from the left: major, a dot, then the rest. */
  lemma RenderParts(c: Captures)
    ensures Render(c) == c.major + "." + (c.minor + "." + (c.patch + RenderTail(c.prerelease, c.buildmetadata)))
  {
    var t := RenderTail(c.prerelease, c.buildmetadata);
    calc {
      Render(c);
      c.major + "." + c.minor + "." + c.patch + t;
      c.major + "." + c.minor + "." + (c.patch + t);
      c.major + "." + (c.minor + "." + (c.patch + t));
    }
  }

  // ---------------------------------------------------------------- the regular expression

  /** The length of the longest run of digits at the start of s. */
  function DigitRun(s: string): (n: nat)
    ensures n <= |s|
    ensures forall i :: 0 <= i < n ==> IsDigit(s[i])
    ensures n < |s| ==> !IsDigit(s[n])
    decreases |s|
  {
    if |s| == 0 || !IsDigit(s[0]) then 0 else 1 + DigitRun(s[1..])
  }

  /** The index of the first c in s, or |s| if there is none. */
  function Find(s: string, c: char): (n: nat)
    ensures n <= |s|
    ensures forall i :: 0 <= i < n ==> s[i] != c
    ensures n < |s| ==> s[n] == c
    decreases |s|
  {
    if |s| == 0 || s[0] == c then 0 else 1 + Find(s[1..], c)
  }

  /**
   * `(?:-(?P<prerelease>...))?(?:\+(?P<buildmetadata>...))?$` on what
   * follows the patch number.  The pre-release cannot contain "+", so it
   * runs up to the first "+".
   */
  function MatchTail(t: string): (r: Option<(Option<string>, Option<string>)>)
    ensures r.Some? ==> RenderTail(r.value.0, r.value.1) == t
    ensures r.Some? && r.value.0.Some? ==> Prerelease(r.value.0.value)
    ensures r.Some? && r.value.1.Some? ==> BuildMetadata(r.value.1.value)
  {
    if |t| == 0 then Some((None, None))
    else if t[0] == '-' then
      var body := t[1..];
      var k := Find(body, '+');
      var pre := body[..k];
      if !Prerelease(pre) then None
      else if k == |body| then
        assert t == "-" + pre;
        Some((Some(pre), None))
      else
        var build := body[k + 1..];
        if BuildMetadata(build) then
          assert t == "-" + pre + "+" + build;
          Some((Some(pre), Some(build)))
        else None
    else if t[0] == '+' then
      var build := t[1..];
      if BuildMetadata(build) then
        assert t == "+" + build;
        Some((None, Some(build)))
      else None
    else None
  }

  /** `(0|[1-9]\d*)\.` at the start of s: the number and what follows the dot. */
  function MatchNumberDot(s: string): (r: Option<(string, string)>)
    ensures r.Some? ==> NumericIdentifier(r.value.0) && s == r.value.0 + "." + r.value.1
  {
    var n := DigitRun(s);
    if !NumericIdentifier(s[..n]) || n == |s| || s[n] != '.' then None
    else
      assert s == s[..n] + "." + s[n + 1..];
      Some((s[..n], s[n + 1..]))
  }

  /**
   * re.search(semver_regex, s): the named groups when s matches, None
   * otherwise.  Each number is the longest digit run, since the character
   * after it must be a dot or the start of the tail.
   */
  function Match(s: string): (r: Option<Captures>)
    ensures r.Some? ==> WellFormed(r.value) && Render(r.value) == s
  {
    match MatchNumberDot(s)
    case None => None
    case Some((major, s1)) =>
      match MatchNumberDot(s1)
      case None => None
      case Some((minor, s2)) =>
        var n := DigitRun(s2);
        var patch := s2[..n];
        if !NumericIdentifier(patch) then None
        else
          match MatchTail(s2[n..])
          case None => None
          case Some((prerelease, buildmetadata)) =>
            var c := Captures(major, minor, patch, prerelease, buildmetadata);
            RenderPieces(s, s1, s2, n, c);
            Some(c)
  }

  /** The pieces Match takes apart put back together: a number, a dot, a number, a dot, the patch and the tail. */
  lemma RenderPieces(s: string, s1: string, s2: string, n: nat, c: Captures)
    requires s == c.major + "." + s1 && s1 == c.minor + "." + s2
    requires n <= |s2| && c.patch == s2[..n] && s2[n..] == RenderTail(c.prerelease, c.buildmetadata)
    ensures Render(c) == s
  {
    assert s2 == c.patch + RenderTail(c.prerelease, c.buildmetadata);
    RenderParts(c);
  }

  // ---------------------------------------------------------------- the regular expression accepts the grammar

  lemma {:induction false} DigitRunOf(a: string, rest: string)
    requires forall i :: 0 <= i < |a| ==> IsDigit(a[i])
    requires |rest| > 0 ==> !IsDigit(rest[0])
    ensures DigitRun(a + rest) == |a|
    decreases |a|
  {
    if |a| > 0 {
      DigitRunOf(a[1..], rest);
      assert (a + rest)[1..] == a[1..] + rest;
    } else {
      assert a + rest == rest;
    }
  }

  lemma {:induction false} FindOf(a: string, c: char, rest: string)
    requires c !in a
    requires |rest| > 0 ==> rest[0] == c
    ensures Find(a + rest, c) == |a|
    decreases |a|
  {
    if |a| > 0 {
      FindOf(a[1..], c, rest);
      assert (a + rest)[1..] == a[1..] + rest;
    } else {
      assert a + rest == rest;
    }
  }

  /** The tail of a version with a pre-release: "-", the pre-release, and "+" and the build metadata if present. */
  lemma MatchTailPrerelease(p: string, buildmetadata: Option<string>)
    requires Prerelease(p)
    requires buildmetadata.Some? ==> BuildMetadata(buildmetadata.value)
    ensures MatchTail(RenderTail(Some(p), buildmetadata)) == Some((Some(p), buildmetadata))
  {
    var t := RenderTail(Some(p), buildmetadata);
    var rest := if buildmetadata.Some? then "+" + buildmetadata.value else "";
    assert t == "-" + (p + rest);
    assert t[1..] == p + rest;
    assert '+' !in p by {
      forall i | 0 <= i < |p| ensures p[i] != '+' {
        assert IsIdentChar(p[i]) || p[i] == '.';
      }
    }
    FindOf(p, '+', rest);
    assert t[1..][..|p|] == p;
    if buildmetadata.Some? {
      assert t[1..][|p| + 1..] == buildmetadata.value;
    }
  }

  lemma MatchTailComplete(prerelease: Option<string>, buildmetadata: Option<string>)
    requires prerelease.Some? ==> Prerelease(prerelease.value)
    requires buildmetadata.Some? ==> BuildMetadata(buildmetadata.value)
    ensures MatchTail(RenderTail(prerelease, buildmetadata)) == Some((prerelease, buildmetadata))
  {
    if prerelease.Some? {
      MatchTailPrerelease(prerelease.value, buildmetadata);
    } else if buildmetadata.Some? {
      assert RenderTail(prerelease, buildmetadata)[1..] == buildmetadata.value;
    }
  }

  lemma MatchNumberDotOf(a: string, rest: string)
    requires NumericIdentifier(a)
    ensures MatchNumberDot(a + "." + rest) == Some((a, rest))
  {
    var s := a + "." + rest;
    assert s == a + ("." + rest);
    DigitRunOf(a, "." + rest);
    assert s[..|a|] == a && s[|a| + 1..] == rest;
  }

  /** Every well-formed version string matches, and the groups are its parts. */
  lemma MatchComplete(c: Captures)
    requires WellFormed(c)
    ensures Match(Render(c)) == Some(c)
  {
    var tail := RenderTail(c.prerelease, c.buildmetadata);
    var s2 := c.patch + tail;
    var s1 := c.minor + "." + s2;
    RenderParts(c);
    MatchNumberDotOf(c.major, s1);
    MatchNumberDotOf(c.minor, s2);
    assert |tail| > 0 ==> tail[0] == '-' || tail[0] == '+';
    DigitRunOf(c.patch, tail);
    assert s2[..|c.patch|] == c.patch && s2[|c.patch|..] == tail;
    MatchTailComplete(c.prerelease, c.buildmetadata);
  }

  /** The regular expression matches exactly the well-formed version strings. */
  lemma MatchIff(s: string)
    ensures Match(s).Some? <==> exists c :: WellFormed(c) && Render(c) == s
  {
    if exists c :: WellFormed(c) && Render(c) == s {
      var c :| WellFormed(c) && Render(c) == s;
      MatchComplete(c);
    }
  }

  /**
   * A pre-release identifier made only of digits is a number without a
   * leading zero, like the major, minor and patch numbers.
   */
  lemma NumericPrereleaseIdentifier(c: Captures, p: string)
    requires WellFormed(c) && c.prerelease.Some? && p in Split(c.prerelease.value, '.')
    requires forall i :: 0 <= i < |p| ==> IsDigit(p[i])
    ensures NumericIdentifier(p)
  {
  }

  /** No group and no matching version string contains "*", the version file's delimiter. */
  lemma NoDelimiter(c: Captures)
    requires WellFormed(c)
    ensures '*' !in c.major && '*' !in c.minor && '*' !in c.patch
    ensures c.prerelease.Some? ==> '*' !in c.prerelease.value
    ensures '*' !in Render(c)
  {
    if c.prerelease.Some? {
      var p := c.prerelease.value;
      forall i | 0 <= i < |p| ensures p[i] != '*' {
        assert IsIdentChar(p[i]) || p[i] == '.';
      }
    }
    if c.buildmetadata.Some? {
      var b := c.buildmetadata.value;
      forall i | 0 <= i < |b| ensures b[i] != '*' {
        assert IsIdentChar(b[i]) || b[i] == '.';
      }
    }
  }
}
