/**
 * The string helpers the two version scripts share: ret_emp_str_if_none,
 * Python's str.split on one character, int() on a decimal digit string, and
 * the record layout of the version file, where every field is followed by
 * the delimiter.
 */
module Text {

  datatype Option<T> = None | Some(value: T)

  /** ret_emp_str_if_none: the empty string for a missing value, the value itself otherwise. */
  function OrEmpty(a: Option<string>): (r: string)
    ensures a.None? ==> r == ""
    ensures a.Some? ==> r == a.value
  {
    match a
    case None => ""
    case Some(v) => v
  }

  // ---------------------------------------------------------------- str.split

  /**
   * s.split(sep) for a one-character separator: the pieces between the
   * occurrences of sep, so n occurrences give n + 1 pieces.
   */
  function Split(s: string, sep: char): (pieces: seq<string>)
    ensures |pieces| >= 1
    decreases |s|
  {
    if |s| == 0 then [""]
    else if s[0] == sep then [""] + Split(s[1..], sep)
    else
      var rest := Split(s[1..], sep);
      [[s[0]] + rest[0]] + rest[1..]
  }

  /** Every field followed by sep, in order: the layout the version writer produces. */
  function Terminated(fields: seq<string>, sep: char): (s: string)
    decreases |fields|
  {
    if |fields| == 0 then ""
    else Terminated(fields[..|fields| - 1], sep) + fields[|fields| - 1] + [sep]
  }

  /** A string free of sep is a single piece. */
  lemma {:induction false} SplitNone(f: string, sep: char)
    requires sep !in f
    ensures Split(f, sep) == [f]
    decreases |f|
  {
    if |f| > 0 {
      SplitNone(f[1..], sep);
      assert [f[0]] + f[1..] == f;
    }
  }

  /** A trailing sep adds one empty piece. */
  lemma {:induction false} SplitSep(x: string, sep: char)
    ensures Split(x + [sep], sep) == Split(x, sep) + [""]
    decreases |x|
  {
    if |x| == 0 {
      assert x + [sep] == [sep];
      assert ([sep])[1..] == [];
    } else {
      SplitSep(x[1..], sep);
      assert (x + [sep])[1..] == x[1..] + [sep];
    }
  }

  /** The pieces p with f appended to the last one. */
  function ExtendLast(p: seq<string>, f: string): (q: seq<string>)
    requires |p| >= 1
    ensures |q| == |p| && q[|q| - 1] == p[|p| - 1] + f
    ensures forall i :: 0 <= i < |p| - 1 ==> q[i] == p[i]
  {
    p[..|p| - 1] + [p[|p| - 1] + f]
  }

  lemma ExtendLastEmptyFirst(r: seq<string>, f: string)
    requires |r| >= 1
    ensures ExtendLast([""] + r, f) == [""] + ExtendLast(r, f)
  {
  }

  lemma ExtendLastJoinFirst(c: char, r: seq<string>, f: string)
    requires |r| >= 1
    ensures var q := ExtendLast(r, f); ExtendLast([[c] + r[0]] + r[1..], f) == [[c] + q[0]] + q[1..]
  {
    var q := ExtendLast(r, f);
    if |r| == 1 {
      assert [c] + (r[0] + f) == [c] + r[0] + f;
    }
  }

  /** The step of SplitExtend for a string starting with sep. */
  lemma SplitExtendSep(x: string, f: string, sep: char)
    requires |x| > 0 && x[0] == sep
    requires Split(x[1..] + f, sep) == ExtendLast(Split(x[1..], sep), f)
    ensures Split(x + f, sep) == ExtendLast(Split(x, sep), f)
  {
    assert (x + f)[0] == sep && (x + f)[1..] == x[1..] + f;
    ExtendLastEmptyFirst(Split(x[1..], sep), f);
  }

  /** The step of SplitExtend for a string starting with another character. */
  lemma SplitExtendJoin(x: string, f: string, sep: char)
    requires |x| > 0 && x[0] != sep
    requires Split(x[1..] + f, sep) == ExtendLast(Split(x[1..], sep), f)
    ensures Split(x + f, sep) == ExtendLast(Split(x, sep), f)
  {
    assert (x + f)[0] == x[0] && (x + f)[1..] == x[1..] + f;
    ExtendLastJoinFirst(x[0], Split(x[1..], sep), f);
  }

  /** Characters other than sep appended to x extend its last piece. */
  lemma {:induction false} SplitExtend(x: string, f: string, sep: char)
    requires sep !in f
    ensures Split(x + f, sep) == ExtendLast(Split(x, sep), f)
    decreases |x|
  {
    if |x| == 0 {
      assert x + f == f;
      SplitNone(f, sep);
    } else {
      SplitExtend(x[1..], f, sep);
      if x[0] == sep {
        SplitExtendSep(x, f, sep);
      } else {
        SplitExtendJoin(x, f, sep);
      }
    }
  }

  /**
   * Splitting a terminated record gives back its fields and one empty piece
   * after the last delimiter, provided no field contains the delimiter.
   */
  lemma {:induction false} SplitTerminated(fields: seq<string>, sep: char)
    requires forall i :: 0 <= i < |fields| ==> sep !in fields[i]
    ensures Split(Terminated(fields, sep), sep) == fields + [""]
    decreases |fields|
  {
    if |fields| > 0 {
      var init, last := fields[..|fields| - 1], fields[|fields| - 1];
      var x := Terminated(init, sep);
      SplitTerminated(init, sep);
      assert (init + [""])[..|init|] == init && "" + last == last;
      assert ExtendLast(init + [""], last) == init + [last];
      SplitExtend(x, last, sep);
      SplitSep(x + last, sep);
      assert init + [last] == fields;
    }
  }

  // ---------------------------------------------------------------- int()

  predicate IsDigit(c: char)
  {
    '0' <= c <= '9'
  }

  /** What int() accepts here: one or more ASCII decimal digits. */
  predicate IsNumber(s: string)
  {
    |s| > 0 && forall i :: 0 <= i < |s| ==> IsDigit(s[i])
  }

  /** The value of a string of decimal digits. */
  function DigitsValue(s: string): (n: nat)
    requires forall i :: 0 <= i < |s| ==> IsDigit(s[i])
    ensures |s| == 1 ==> n == s[0] as int - '0' as int
    decreases |s|
  {
    if |s| == 0 then 0
    else
      assert IsDigit(s[|s| - 1]);
      10 * DigitsValue(s[..|s| - 1]) + (s[|s| - 1] as int - '0' as int)
  }
}
