/**
 * The version writer: the body of main in write-new-version.py.  The
 * version string is matched against the SemVer expression, the version file
 * is opened for writing, and the record is written field by field, each
 * field followed by "*".  The command line and the file name are left to
 * the caller; the file is an object whose content the writes extend.
 */
module VersionWriter {
  import opened Text
  import opened SemVer

  /** A text file opened for writing. */
  class VersionFile {
    var content: string

    /** open(version_file, "w"): the file starts out empty. */
    constructor Open()
      ensures content == ""
    {
      content := "";
    }

    /** f.write(s) appends s. */
    method Write(s: string)
      modifies this
      ensures content == old(content) + s
    {
      content := content + s;
    }
  }

  /** How main ends: it returns 0, or matches.group fails because the version did not match. */
  datatype Status = Exit(code: int) | NoMatch

  /**
   * The seven fields of the record: the version string twice, major,
   * minor, patch, the pre-release (empty when absent) and the commits
   * ahead of the tag, always "0".
   */
  function Fields(version: string, c: Captures): (fields: seq<string>)
    ensures |fields| == 7
  {
    [version, version, c.major, c.minor, c.patch, OrEmpty(c.prerelease), "0"]
  }

  /** The content of the version file written for version with groups c. */
  function Record(version: string, c: Captures): string
  {
    Terminated(Fields(version, c), '*')
  }

  /** Adding one field to a terminated record appends the field and the delimiter. */
  lemma TerminatedSnoc(fields: seq<string>, field: string, sep: char)
    ensures Terminated(fields + [field], sep) == Terminated(fields, sep) + field + [sep]
  {
    assert (fields + [field])[..|fields|] == fields;
  }

  /**
   * One field of the record: f.write(ret_emp_str_if_none(value)) followed
   * by f.write("*").
   */
  method WriteField(f: VersionFile, value: Option<string>, ghost written: seq<string>)
    requires f.content == Terminated(written, '*')
    modifies f
    ensures f.content == Terminated(written + [OrEmpty(value)], '*')
  {
    f.Write(OrEmpty(value));
    f.Write("*");
    TerminatedSnoc(written, OrEmpty(value), '*');
  }

  /**
   * The fields after the two copies of the version string: major, minor
   * and patch, the pre-release as the tweak, and "0*" for the commits ahead.
   */
  method WriteGroups(f: VersionFile, version: string, c: Captures)
    requires f.content == Terminated([version, version], '*')
    modifies f
    ensures f.content == Record(version, c)
  {
    ghost var written := [version, version];
    WriteField(f, Some(c.major), written);
    written := written + [c.major];
    WriteField(f, Some(c.minor), written);
    written := written + [c.minor];
    WriteField(f, Some(c.patch), written);
    written := written + [c.patch];
    WriteField(f, c.prerelease, written);
    written := written + [OrEmpty(c.prerelease)];
    f.Write("0*");
    TerminatedSnoc(written, "0", '*');
    written := written + ["0"];
    assert written == Fields(version, c);
  }

  /**
   * main with the version string as its argument: returns the file it
   * wrote and how it ended.  A version that does not match leaves the
   * version string written twice before the failure.
   */
  method WriteNewVersion(semverVersion: string) returns (f: VersionFile, status: Status)
    ensures fresh(f)
    ensures Match(semverVersion).Some? ==>
              status == Exit(0) && f.content == Record(semverVersion, Match(semverVersion).value)
    ensures Match(semverVersion).None? ==>
              status == NoMatch && f.content == Terminated([semverVersion, semverVersion], '*')
  {
    var matches := Match(semverVersion);
    f := new VersionFile.Open();
    // Full version string, then the version string
    WriteField(f, Some(semverVersion), []);
    WriteField(f, Some(semverVersion), [semverVersion]);
    assert [semverVersion] + [OrEmpty(Some(semverVersion))] == [semverVersion, semverVersion];
    if matches.None? {
      return f, NoMatch;
    }
    WriteGroups(f, semverVersion, matches.value);
    status := Exit(0);
  }

  /**
   * Splitting the record of a matching version on "*" gives exactly eight
   * pieces: the seven fields and an empty last piece.  The build metadata
   * has no field of its own; it is only part of the version string.
   */
  lemma RecordPieces(version: string, c: Captures)
    requires WellFormed(c) && Render(c) == version
    ensures Split(Record(version, c), '*') == Fields(version, c) + [""]
  {
    NoDelimiter(c);
    var fields := Fields(version, c);
    forall i | 0 <= i < |fields| ensures '*' !in fields[i] {
      if i == 5 && c.prerelease.None? {
        assert fields[i] == "";
      }
    }
    SplitTerminated(fields, '*');
  }
}
