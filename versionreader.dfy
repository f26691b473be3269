/**
 * The version reader: get_version_from_file in GetVersionFromFile.py.  The
 * file content (read by the caller) is split on "*" and the pieces are
 * coerced, by position, into the eight version entries.  A missing piece is
 * Python's IndexError and a guarded field that is not a number is int()'s
 * ValueError; neither is caught, so either one is the outcome of the read.
 */
module VersionReader {
  import opened Text
  import opened SemVer
  import opened VersionWriter

  /** The dictionary get_version_from_file returns, one field per key. */
  datatype VersionInfo = VersionInfo(
    versionString: string,     // VERSION_STRING
    versionStringFull: string, // VERSION_STRING_FULL
    versionMajor: nat,         // VERSION_MAJOR
    versionMinor: nat,         // VERSION_MINOR
    versionPatch: nat,         // VERSION_PATCH
    versionTweak: string,      // VERSION_TWEAK
    versionAhead: nat,         // VERSION_AHEAD
    versionGitSha: string)     // VERSION_GIT_SHA

  /** The exception that ends the read: a[index] out of range, or int(text) on a non-number. */
  datatype ReadError = IndexError(index: nat) | ValueError(text: string)

  datatype ReadResult = Read(info: VersionInfo) | Failed(error: ReadError)

  /**
   * The dictionary literal over the pieces a, evaluated entry by entry in
   * order, so that the first failing index or conversion is the one
   * reported.  MINOR and PATCH are converted only when the MAJOR piece a[2]
   * is non-empty, whatever their own pieces hold.
   */
  function FromPieces(a: seq<string>): (r: ReadResult)
    requires |a| >= 1
    ensures r.Failed? && r.error.IndexError? ==>
              r.error.index == if 3 <= |a| < 5 && a[2] == "" then 5 else |a|
    ensures r.Failed? && r.error.IndexError? ==> |a| < 8
    ensures r.Failed? && r.error.ValueError? ==> !IsNumber(r.error.text)
  {
    if |a| < 2 then Failed(IndexError(1))
    else if |a| < 3 then Failed(IndexError(2))
    else
      var guarded := a[2] != "";
      if guarded && !IsNumber(a[2]) then Failed(ValueError(a[2]))
      else if guarded && |a| < 4 then Failed(IndexError(3))
      else if guarded && !IsNumber(a[3]) then Failed(ValueError(a[3]))
      else if guarded && |a| < 5 then Failed(IndexError(4))
      else if guarded && !IsNumber(a[4]) then Failed(ValueError(a[4]))
      else if |a| < 6 then Failed(IndexError(5))
      else if |a| < 7 then Failed(IndexError(6))
      else if a[6] != "" && !IsNumber(a[6]) then Failed(ValueError(a[6]))
      else if |a| < 8 then Failed(IndexError(7))
      else
        Read(VersionInfo(
          a[0],
          a[1],
          if guarded then DigitsValue(a[2]) else 0,
          if guarded then DigitsValue(a[3]) else 0,
          if guarded then DigitsValue(a[4]) else 0,
          a[5],
          if a[6] != "" then DigitsValue(a[6]) else 0,
          a[7]))
  }

  /** get_version_from_file on a file whose content is content. */
  function GetVersionFromContent(content: string): ReadResult
  {
    FromPieces(Split(content, '*'))
  }

  /**
   * When the pieces read without an exception: at least eight of them, and
   * every numeric field that is converted holds a number.
   */
  predicate Readable(a: seq<string>)
  {
    && |a| >= 8
    && (a[2] != "" ==> IsNumber(a[2]) && IsNumber(a[3]) && IsNumber(a[4]))
    && (a[6] != "" ==> IsNumber(a[6]))
  }

  /** The read succeeds exactly on readable pieces. */
  lemma ReadSucceedsIff(content: string)
    ensures GetVersionFromContent(content).Read? <==> Readable(Split(content, '*'))
  {
  }

  /**
   * Pieces 0 to 7 map by position: the string entries are the raw pieces,
   * MAJOR and AHEAD are their pieces' values or 0 when the piece is empty,
   * and MINOR and PATCH are their pieces' values when MAJOR's piece is
   * non-empty and 0 otherwise.
   */
  lemma ReadFields(content: string)
    requires GetVersionFromContent(content).Read?
    ensures var a, v := Split(content, '*'), GetVersionFromContent(content).info;
            && v.versionString == a[0]
            && v.versionStringFull == a[1]
            && (a[2] == "" ==> v.versionMajor == 0 && v.versionMinor == 0 && v.versionPatch == 0)
            && (a[2] != "" ==> && v.versionMajor == DigitsValue(a[2])
                               && v.versionMinor == DigitsValue(a[3])
                               && v.versionPatch == DigitsValue(a[4]))
            && v.versionTweak == a[5]
            && v.versionAhead == (if a[6] == "" then 0 else DigitsValue(a[6]))
            && v.versionGitSha == a[7]
  {
  }

  /**
   * The guard quirk, both ways: with an empty MAJOR piece the MINOR and
   * PATCH pieces are never converted, so any text there still reads as 0;
   * with a non-empty MAJOR piece an empty MINOR piece is a conversion error.
   */
  lemma MinorPatchGuardedByMajor(a: seq<string>)
    requires |a| >= 8
    ensures a[2] == "" && (a[6] != "" ==> IsNumber(a[6])) ==>
              FromPieces(a).Read? && FromPieces(a).info.versionMinor == 0 && FromPieces(a).info.versionPatch == 0
    ensures IsNumber(a[2]) && a[3] == "" ==> FromPieces(a) == Failed(ValueError(""))
  {
  }

  /**
   * Content with fewer than seven "*" cannot be read: a piece index is out
   * of range, unless a conversion fails first.
   */
  lemma TooFewPieces(content: string)
    requires |Split(content, '*')| < 8
    ensures GetVersionFromContent(content).Failed?
    ensures GetVersionFromContent(content).error.IndexError? ==>
              GetVersionFromContent(content).error.index >= |Split(content, '*')|
  {
  }

  /** Seven fields as the writer lays them out, and the empty piece after the last "*". */
  lemma FromWrittenPieces(fields: seq<string>)
    requires |fields| == 7
    requires IsNumber(fields[2]) && IsNumber(fields[3]) && IsNumber(fields[4]) && fields[6] == "0"
    ensures FromPieces(fields + [""]) ==
              Read(VersionInfo(fields[0], fields[1], DigitsValue(fields[2]), DigitsValue(fields[3]),
                               DigitsValue(fields[4]), fields[5], 0, ""))
  {
    assert IsNumber("0");
  }

  /**
   * Reading back what the writer wrote for a matching version s gives s in
   * both string entries, the captured numbers, the pre-release (or "") as
   * the tweak, no commits ahead and an empty Git SHA.
   */
  lemma ReadWritten(s: string)
    requires Match(s).Some?
    ensures var c := Match(s).value;
            GetVersionFromContent(Record(s, c)) ==
              Read(VersionInfo(s, s, DigitsValue(c.major), DigitsValue(c.minor), DigitsValue(c.patch),
                               OrEmpty(c.prerelease), 0, ""))
  {
    RecordPieces(s, Match(s).value);
    FromWrittenPieces(Fields(s, Match(s).value));
  }
}
