/**
 * The .NET string operations the server relies on: white-space tests, trimming,
 * String.Split on one character, String.Join and the invariant-culture ToUpper.
 * Strings are sequences of Unicode scalar values.
 */
module Strings {

  /** Char.IsWhiteSpace: the characters with Unicode's White_Space property. */
  predicate IsWhiteSpace(c: char)
  {
    || ('\U{0009}' <= c <= '\U{000D}')
    || c == ' '
    || c == '\U{0085}'
    || c == '\U{00A0}'
    || c == '\U{1680}'
    || ('\U{2000}' <= c <= '\U{200A}')
    || c == '\U{2028}'
    || c == '\U{2029}'
    || c == '\U{202F}'
    || c == '\U{205F}'
    || c == '\U{3000}'
  }

  /** String.IsNullOrWhiteSpace on a non-null string: empty, or white space only. */
  predicate IsBlank(s: string)
  {
    forall i | 0 <= i < |s| :: IsWhiteSpace(s[i])
  }

  /** Drops the longest prefix of characters satisfying `ws`. */
  function TrimStart(s: string, ws: char -> bool): (r: string)
    ensures |r| <= |s| && r == s[|s| - |r|..]
    ensures forall i | 0 <= i < |s| - |r| :: ws(s[i])
    ensures |r| > 0 ==> !ws(r[0])
  {
    if |s| > 0 && ws(s[0]) then
      var r := TrimStart(s[1..], ws);
      assert s[1..][|s| - 1 - |r|..] == s[|s| - |r|..];
      assert forall i | 1 <= i < |s| - |r| :: s[i] == s[1..][i - 1];
      r
    else s
  }

  /** Drops the longest suffix of characters satisfying `ws`. */
  function TrimEnd(s: string, ws: char -> bool): (r: string)
    ensures |r| <= |s| && r == s[..|r|]
    ensures forall i | |r| <= i < |s| :: ws(s[i])
    ensures |r| > 0 ==> !ws(r[|r| - 1])
  {
    if |s| > 0 && ws(s[|s| - 1]) then
      var r := TrimEnd(s[..|s| - 1], ws);
      assert s[..|s| - 1][..|r|] == s[..|r|];
      assert forall i | |r| <= i < |s| - 1 :: s[i] == s[..|s| - 1][i];
      r
    else s
  }

  /** TrimStart keeps a string that does not start with a trimmed character. */
  lemma TrimStartNothing(s: string, ws: char -> bool)
    requires |s| > 0 && !ws(s[0])
    ensures TrimStart(s, ws) == s
  {
  }

  /** TrimEnd keeps a string that does not end with a trimmed character. */
  lemma TrimEndNothing(s: string, ws: char -> bool)
    requires |s| > 0 && !ws(s[|s| - 1])
    ensures TrimEnd(s, ws) == s
  {
  }

  /** TrimStart and TrimEnd keep only characters of their input. */
  lemma TrimKeepsCharacters(s: string, ws: char -> bool)
    ensures forall c | c in TrimStart(s, ws) :: c in s
    ensures forall c | c in TrimEnd(s, ws) :: c in s
  {
    var a := TrimStart(s, ws);
    var b := TrimEnd(s, ws);
    forall c | c in a
      ensures c in s
    {
      var i :| 0 <= i < |a| && a[i] == c;
      assert s[|s| - |a| + i] == c;
    }
    forall c | c in b
      ensures c in s
    {
      var i :| 0 <= i < |b| && b[i] == c;
      assert s[i] == c;
    }
  }

  /** A suffix made only of trimmed characters makes no difference to TrimEnd. */
  lemma {:induction false} TrimEndDropsSuffix(s: string, tail: string, ws: char -> bool)
    requires forall i | 0 <= i < |tail| :: ws(tail[i])
    ensures TrimEnd(s + tail, ws) == TrimEnd(s, ws)
    decreases |tail|
  {
    if |tail| == 0 {
      assert s + tail == s;
    } else {
      var shorter := tail[..|tail| - 1];
      assert (s + tail)[..|s + tail| - 1] == s + shorter;
      TrimEndDropsSuffix(s, shorter, ws);
    }
  }

  /** String.Trim(): removes leading and trailing white space. */
  function Trim(s: string): (r: string)
    ensures |r| > 0 ==> !IsWhiteSpace(r[0]) && !IsWhiteSpace(r[|r| - 1])
    ensures IsBlank(s) <==> r == ""
  {
    var t := TrimStart(s, IsWhiteSpace);
    var r := TrimEnd(t, IsWhiteSpace);
    r
  }

  /** Every character Trim keeps comes from its input. */
  lemma TrimIsInfix(s: string)
    ensures forall c | c in Trim(s) :: c in s
  {
    var t := TrimStart(s, IsWhiteSpace);
    var r := TrimEnd(t, IsWhiteSpace);
    forall c | c in r
      ensures c in s
    {
      var i :| 0 <= i < |r| && r[i] == c;
      assert t[i] == c;
      assert s[|s| - |t| + i] == c;
    }
  }

  /** True when `s` neither starts nor ends with white space. */
  predicate Unpadded(s: string)
  {
    |s| > 0 ==> !IsWhiteSpace(s[0]) && !IsWhiteSpace(s[|s| - 1])
  }

  lemma TrimUnpadded(s: string)
    requires Unpadded(s)
    ensures Trim(s) == s
  {
  }

  /** One leading blank is removed by Trim. */
  lemma TrimLeadingSpace(s: string)
    requires Unpadded(s)
    ensures Trim(" " + s) == s
  {
    assert (" " + s)[1..] == s;
  }

  /** String.Split(sep): the pieces between occurrences of `sep`, empty pieces kept. */
  function Split(s: string, sep: char): (parts: seq<string>)
    ensures |parts| == multiset(s)[sep] + 1
    ensures forall i | 0 <= i < |parts| :: sep !in parts[i]
  {
    if |s| == 0 then [""]
    else
      assert s == [s[0]] + s[1..];
      var rest := Split(s[1..], sep);
      if s[0] == sep then [""] + rest
      else [[s[0]] + rest[0]] + rest[1..]
  }

  /** String.Join(glue, parts): the parts in order with `glue` between neighbours. */
  function Join(glue: string, parts: seq<string>): string
  {
    if |parts| == 0 then ""
    else if |parts| == 1 then parts[0]
    else parts[0] + glue + Join(glue, parts[1..])
  }

  /** Every part prefixed with `pre`. */
  function Prefixed(pre: string, parts: seq<string>): (r: seq<string>)
    ensures |r| == |parts|
    ensures forall i | 0 <= i < |parts| :: r[i] == pre + parts[i]
  {
    seq(|parts|, i requires 0 <= i < |parts| => pre + parts[i])
  }

  lemma PrefixedCons(pre: string, parts: seq<string>)
    requires |parts| >= 1
    ensures Prefixed(pre, parts) == [pre + parts[0]] + Prefixed(pre, parts[1..])
  {
  }

  lemma {:induction false} SplitWithoutSeparator(a: string, sep: char)
    requires sep !in a
    ensures Split(a, sep) == [a]
    decreases |a|
  {
    if |a| > 0 {
      SplitWithoutSeparator(a[1..], sep);
      assert [a[0]] + a[1..] == a;
    }
  }

  /** Splitting at the first separator peels off the text before it. */
  lemma {:induction false} SplitAtFirstSeparator(a: string, b: string, sep: char)
    requires sep !in a
    ensures Split(a + [sep] + b, sep) == [a] + Split(b, sep)
    decreases |a|
  {
    var s := a + [sep] + b;
    if |a| == 0 {
      assert s[1..] == b;
    } else {
      assert s[1..] == a[1..] + [sep] + b;
      SplitAtFirstSeparator(a[1..], b, sep);
      assert [a[0]] + a[1..] == a;
    }
  }

  /** A non-separator character in front of the text joins the first piece. */
  lemma SplitLeadingChar(c: char, s: string, sep: char)
    requires c != sep
    ensures Split([c] + s, sep) == [[c] + Split(s, sep)[0]] + Split(s, sep)[1..]
  {
    assert ([c] + s)[1..] == s;
  }

  /** Splitting a separator-joined list gives the list back. */
  lemma {:induction false} SplitJoin(parts: seq<string>, sep: char)
    requires |parts| >= 1
    requires forall i | 0 <= i < |parts| :: sep !in parts[i]
    ensures Split(Join([sep], parts), sep) == parts
    decreases |parts|
  {
    if |parts| == 1 {
      SplitWithoutSeparator(parts[0], sep);
    } else {
      SplitJoin(parts[1..], sep);
      SplitAtFirstSeparator(parts[0], Join([sep], parts[1..]), sep);
      assert [parts[0]] + parts[1..] == parts;
    }
  }

  /**
   * Splitting a list joined with a separator followed by one space gives the
   * first part and the remaining parts each with a leading space.
   */
  lemma {:induction false} SplitJoinSpaced(parts: seq<string>, sep: char)
    requires |parts| >= 1
    requires sep != ' '
    requires forall i | 0 <= i < |parts| :: sep !in parts[i]
    ensures Split(Join([sep, ' '], parts), sep) == [parts[0]] + Prefixed(" ", parts[1..])
    decreases |parts|
  {
    if |parts| == 1 {
      SplitWithoutSeparator(parts[0], sep);
    } else {
      var rest := Join([sep, ' '], parts[1..]);
      var tail := Split(rest, sep);
      SplitJoinSpaced(parts[1..], sep);
      assert tail == [parts[1]] + Prefixed(" ", parts[2..]);
      calc {
        Split(Join([sep, ' '], parts), sep);
        { assert Join([sep, ' '], parts) == parts[0] + [sep] + ([' '] + rest); }
        Split(parts[0] + [sep] + ([' '] + rest), sep);
        { SplitAtFirstSeparator(parts[0], [' '] + rest, sep); }
        [parts[0]] + Split([' '] + rest, sep);
        { SplitLeadingChar(' ', rest, sep); }
        [parts[0]] + ([[' '] + tail[0]] + tail[1..]);
        { assert tail[1..] == Prefixed(" ", parts[2..]); }
        [parts[0]] + ([" " + parts[1]] + Prefixed(" ", parts[2..]));
        { PrefixedCons(" ", parts[1..]); }
        [parts[0]] + Prefixed(" ", parts[1..]);
      }
    }
  }

  /** Upper-casing of one character as String.ToUpper does it outside the Turkish cultures. */
  function UpperChar(c: char): (u: char)
  {
    if 'a' <= c <= 'z' then (c as int - 32) as char
    else if c == '\U{0131}' then 'I'  // dotless i
    else if c == '\U{017F}' then 'S'  // long s
    else c
  }

  /** String.ToUpper(): character by character, length preserved. */
  function ToUpper(s: string): (r: string)
    ensures |r| == |s|
    ensures forall i | 0 <= i < |s| :: r[i] == UpperChar(s[i])
  {
    seq(|s|, i requires 0 <= i < |s| => UpperChar(s[i]))
  }

  /**
   * Whether Regex.IsMatch(s, "^…$") holds for a pattern body whose matches `body`
   * recognises: without RegexOptions.Multiline, `$` matches at the end of the
   * input and also just before a final '\n'.
   */
  predicate AnchoredMatch(s: string, body: string -> bool)
  {
    body(s) || (|s| > 0 && s[|s| - 1] == '\n' && body(s[..|s| - 1]))
  }
}
