/**
 * The few Python 2 string operations the log parser relies on: `rstrip`,
 * `strip`, `split` with an explicit separator, `in` on strings, and joining
 * fields with a separator (what the `%`-format of a CSV row amounts to).
 */
module Strings {

  /** The characters Python 2's `str.strip()` and `str.rstrip()` remove. */
  const Whitespace: set<char> := {' ', '\t', '\n', '\r', '\U{000B}', '\U{000C}'}

  /** `s.rstrip(chars)`: `s` without its longest suffix made of characters in `drop`. */
  function TrimEnd(s: string, drop: set<char>): (r: string)
    ensures r <= s
    ensures r == [] || r[|r| - 1] !in drop
    ensures forall i :: |r| <= i < |s| ==> s[i] in drop
    decreases |s|
  {
    if s != [] && s[|s| - 1] in drop then TrimEnd(s[..|s| - 1], drop) else s
  }

  /** `s.lstrip(chars)`: `s` without its longest prefix made of characters in `drop`. */
  function TrimStart(s: string, drop: set<char>): (r: string)
    ensures |r| <= |s| && r == s[|s| - |r|..]
    ensures r == [] || r[0] !in drop
    ensures forall i :: 0 <= i < |s| - |r| ==> s[i] in drop
    decreases |s|
  {
    if s != [] && s[0] in drop then
      var r := TrimStart(s[1..], drop);
      assert s[1..][|s| - 1 - |r|..] == s[|s| - |r|..];
      assert forall i :: 0 < i < |s| - |r| ==> s[i] == s[1..][i - 1];
      r
    else s
  }

  /** `s.strip()`: `s` without its leading and trailing whitespace. */
  function Strip(s: string): (r: string)
    ensures r == [] || (r[0] !in Whitespace && r[|r| - 1] !in Whitespace)
    ensures exists i, j :: 0 <= i <= j <= |s| && r == s[i..j] &&
              (forall k :: 0 <= k < i ==> s[k] in Whitespace) &&
              (forall k :: j <= k < |s| ==> s[k] in Whitespace)
  {
    var e := TrimEnd(s, Whitespace);
    var r := TrimStart(e, Whitespace);
    StripSlice(s, e, r);
    StripLeading(s, e, r);
    r
  }

  /** `Strip` keeps the slice of `s` that `TrimStart` leaves of `TrimEnd`'s prefix. */
  lemma StripSlice(s: string, e: string, r: string)
    requires e == TrimEnd(s, Whitespace) && r == TrimStart(e, Whitespace)
    ensures r == s[|e| - |r|..|e|]
  {
    assert e == s[..|e|];
  }

  /** What `Strip` cuts off in front of the slice is whitespace. */
  lemma StripLeading(s: string, e: string, r: string)
    requires e == TrimEnd(s, Whitespace) && r == TrimStart(e, Whitespace)
    ensures forall k :: 0 <= k < |e| - |r| ==> s[k] in Whitespace
  {
    forall k | 0 <= k < |e| - |r| ensures s[k] in Whitespace {
      assert s[k] == e[k];
    }
  }

  /** `needle in s`. */
  predicate Contains(s: string, needle: string) {
    exists i :: 0 <= i <= |s| - |needle| && needle <= s[i..]
  }

  /** `needle in s` holds exactly when `needle` is the slice of `s` between some two positions. */
  lemma ContainsOccurrence(s: string, needle: string)
    ensures Contains(s, needle) <==> exists i, j :: 0 <= i <= j <= |s| && s[i..j] == needle
  {
    if Contains(s, needle) {
      var i :| 0 <= i <= |s| - |needle| && needle <= s[i..];
      assert s[i..i + |needle|] == needle;
    }
    if exists i, j :: 0 <= i <= j <= |s| && s[i..j] == needle {
      var i, j :| 0 <= i <= j <= |s| && s[i..j] == needle;
      assert needle <= s[i..];
    }
  }

  /** `sep.join(parts)` for a one-character separator. */
  function Join(parts: seq<string>, sep: char): string
    requires |parts| > 0
  {
    if |parts| == 1 then parts[0] else parts[0] + [sep] + Join(parts[1..], sep)
  }

  /** A join of several parts starts with the first part and ends with the last, each beside a separator. */
  lemma {:induction false} JoinEnds(parts: seq<string>, sep: char)
    requires |parts| > 1
    ensures parts[0] + [sep] <= Join(parts, sep)
    ensures var j, last := Join(parts, sep), parts[|parts| - 1];
            |j| > |last| && j[|j| - |last| - 1..] == [sep] + last
    decreases |parts|
  {
    var tail := Join(parts[1..], sep);
    assert Join(parts, sep) == parts[0] + [sep] + tail;
    if |parts| > 2 {
      JoinEnds(parts[1..], sep);
    }
  }

  /**
   * `s.split(sep)` with an explicit one-character separator: never empty,
   * `""` splits into `[""]`, and two adjacent separators give an empty part.
   */
  function Split(s: string, sep: char): (parts: seq<string>)
    ensures |parts| > 0
    decreases |s|
  {
    if s == [] then [""]
    else
      var rest := Split(s[1..], sep);
      if s[0] == sep then [""] + rest
      else [[s[0]] + rest[0]] + rest[1..]
  }

  /** The parts of a split hold no separator and join back to the text. */
  lemma {:induction false} JoinSplit(s: string, sep: char)
    ensures Join(Split(s, sep), sep) == s
    ensures forall i :: 0 <= i < |Split(s, sep)| ==> sep !in Split(s, sep)[i]
    decreases |s|
  {
    if s != [] {
      var rest := Split(s[1..], sep);
      JoinSplit(s[1..], sep);
      var parts := Split(s, sep);
      if s[0] == sep {
        assert parts == [""] + rest;
        assert parts[1..] == rest;
      } else {
        assert parts == [[s[0]] + rest[0]] + rest[1..];
        assert |parts| > 1 ==> parts[1..] == rest[1..];
        assert |rest| > 1 ==> Join(rest, sep) == rest[0] + [sep] + Join(rest[1..], sep);
        forall i | 0 <= i < |parts| ensures sep !in parts[i] {
          if i > 0 { assert parts[i] == rest[i]; }
        }
      }
      assert s == [s[0]] + s[1..];
    }
  }

  /** A text without the separator is a single part. */
  lemma {:induction false} SplitWithoutSeparator(s: string, sep: char)
    requires sep !in s
    ensures Split(s, sep) == [s]
    decreases |s|
  {
    if s != [] {
      SplitWithoutSeparator(s[1..], sep);
      assert [s[0]] + s[1..] == s;
    }
  }

  /** `s.split(' ')[0]`: the text up to the first space, or all of it. */
  function FirstToken(s: string): (t: string)
    ensures t <= s && ' ' !in t
    ensures |t| == |s| || s[|t|] == ' '
  {
    var parts := Split(s, ' ');
    JoinSplit(s, ' ');
    assert |parts| > 1 ==> s == parts[0] + [' '] + Join(parts[1..], ' ');
    parts[0]
  }

  /** Splitting a separator-prefixed text: the first part absorbs `a`. */
  lemma {:induction false} SplitAfterPrefix(a: string, sep: char, r: string)
    requires sep !in a
    ensures Split(a + r, sep) == [a + Split(r, sep)[0]] + Split(r, sep)[1..]
    decreases |a|
  {
    if a == [] {
      assert a + r == r;
      var parts := Split(r, sep);
      assert a + parts[0] == parts[0];
      assert [parts[0]] + parts[1..] == parts;
    } else {
      assert (a + r)[0] == a[0];
      assert (a + r)[1..] == a[1..] + r;
      SplitAfterPrefix(a[1..], sep, r);
      assert [a[0]] + (a[1..] + Split(r, sep)[0]) == a + Split(r, sep)[0];
    }
  }

  /** Splitting a joined row gives back its fields, provided no field holds the separator. */
  lemma {:induction false} SplitJoin(parts: seq<string>, sep: char)
    requires |parts| > 0
    requires forall i :: 0 <= i < |parts| ==> sep !in parts[i]
    ensures Split(Join(parts, sep), sep) == parts
    decreases |parts|
  {
    if |parts| == 1 {
      SplitAfterPrefix(parts[0], sep, "");
      assert parts[0] + "" == parts[0];
    } else {
      var tail := Join(parts[1..], sep);
      SplitJoin(parts[1..], sep);
      assert parts[0] + [sep] + tail == parts[0] + ([sep] + tail);
      SplitAfterPrefix(parts[0], sep, [sep] + tail);
      assert ([sep] + tail)[1..] == tail;
      assert Split([sep] + tail, sep) == [""] + parts[1..];
      assert parts[0] + "" == parts[0];
      assert [parts[0]] + parts[1..] == parts;
    }
  }
}
