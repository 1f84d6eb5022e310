/**
 * Decimal digits, Int32.TryParse with NumberStyles.Integer, and Int32.ToString
 * for non-negative values.
 */
module Numbers {
  import opened Wrappers
  import Strings

  const Int32Min: int := -0x8000_0000
  const Int32Max: int := 0x7FFF_FFFF

  predicate IsDigit(c: char)
  {
    '0' <= c <= '9'
  }

  predicate AllDigits(s: string)
  {
    forall i | 0 <= i < |s| :: IsDigit(s[i])
  }

  function DigitValue(c: char): (d: nat)
    requires IsDigit(c)
    ensures d < 10
  {
    c as int - '0' as int
  }

  function DigitChar(d: nat): (c: char)
    requires d < 10
    ensures IsDigit(c) && DigitValue(c) == d
  {
    ('0' as int + d) as char
  }

  /** The number a string of decimal digits denotes (leading zeros allowed). */
  function DigitsValue(s: string): nat
    requires AllDigits(s)
  {
    if |s| == 0 then 0 else 10 * DigitsValue(s[..|s| - 1]) + DigitValue(s[|s| - 1])
  }

  /** Int32.ToString() of a non-negative value: shortest decimal form. */
  function NatToString(n: nat): (r: string)
    ensures |r| > 0 && AllDigits(r)
    ensures DigitsValue(r) == n
    ensures r[0] == '0' ==> r == "0"
  {
    if n < 10 then [DigitChar(n)]
    else
      var prefix := NatToString(n / 10);
      var r := prefix + [DigitChar(n % 10)];
      assert r[..|r| - 1] == prefix;
      r
  }

  /** The white space NumberStyles.Integer allows before and after the number. */
  predicate IsNumberWhiteSpace(c: char)
  {
    ('\U{0009}' <= c <= '\U{000D}') || c == ' '
  }

  /** The NUL character, which the parser lets trail the number. */
  predicate IsNul(c: char)
  {
    c == '\0'
  }

  /**
   * The text Int32.TryParse reads the number from: a trailing run of NUL
   * characters, which the .NET parser accepts after everything else, and then
   * the surrounding white space are dropped.
   */
  function NumberText(s: string): string
  {
    Strings.TrimEnd(Strings.TrimStart(Strings.TrimEnd(s, IsNul), IsNumberWhiteSpace), IsNumberWhiteSpace)
  }

  /** The parser reads only characters of its input. */
  lemma NumberTextFromInput(s: string)
    ensures forall c | c in NumberText(s) :: c in s
  {
    var u := Strings.TrimEnd(s, IsNul);
    var w := Strings.TrimStart(u, IsNumberWhiteSpace);
    Strings.TrimKeepsCharacters(s, IsNul);
    Strings.TrimKeepsCharacters(u, IsNumberWhiteSpace);
    Strings.TrimKeepsCharacters(w, IsNumberWhiteSpace);
  }

  /** Text with nothing to trim at either end is read whole. */
  lemma NumberTextWhole(s: string)
    requires |s| > 0 && !IsNumberWhiteSpace(s[0])
    requires !IsNul(s[|s| - 1]) && !IsNumberWhiteSpace(s[|s| - 1])
    ensures NumberText(s) == s
  {
    Strings.TrimEndNothing(s, IsNul);
    Strings.TrimStartNothing(s, IsNumberWhiteSpace);
    Strings.TrimEndNothing(s, IsNumberWhiteSpace);
  }

  /** Text that does not start with white space is read from its first character, if at all. */
  lemma NumberTextStart(s: string)
    requires |s| > 0 && !IsNumberWhiteSpace(s[0])
    ensures |NumberText(s)| > 0 ==> NumberText(s)[0] == s[0]
  {
    var u := Strings.TrimEnd(s, IsNul);
    if |u| > 0 {
      assert u[0] == s[0];
      Strings.TrimStartNothing(u, IsNumberWhiteSpace);
    }
  }

  /** An optional '+' or '-', then one or more ASCII digits whose value fits in 32 bits. */
  function ParseSignedDigits(t: string): (r: Option<int>)
    ensures r.Some? ==> Int32Min <= r.value <= Int32Max
    ensures r.Some? ==> exists i | 0 <= i < |t| :: IsDigit(t[i])
  {
    var signed := |t| > 0 && (t[0] == '-' || t[0] == '+');
    var body := if signed then t[1..] else t;
    if |body| == 0 || !AllDigits(body) then None
    else
      var magnitude: int := DigitsValue(body);
      var n: int := if signed && t[0] == '-' then -magnitude else magnitude;
      if Int32Min <= n <= Int32Max then
        assert IsDigit(t[|t| - |body|]);
        Some(n)
      else None
  }

  /**
   * Int32.TryParse(s, out n) with NumberStyles.Integer: optional surrounding
   * white space, an optional '+' or '-', one or more ASCII digits, a value
   * that fits in 32 bits, and possibly NUL characters at the very end. None
   * stands for a false return.
   */
  function TryParseInt32(s: string): (r: Option<int>)
    ensures r.Some? ==> Int32Min <= r.value <= Int32Max
    ensures r.Some? ==> exists i | 0 <= i < |s| :: IsDigit(s[i])
  {
    NumberTextFromInput(s);
    var r := ParseSignedDigits(NumberText(s));
    if r.Some? then
      assert exists i | 0 <= i < |NumberText(s)| :: IsDigit(NumberText(s)[i]) && NumberText(s)[i] in s;
      r
    else r
  }

  /** NUL characters after the text never change what it parses to. */
  lemma ParseIgnoresTrailingNuls(s: string, nuls: string)
    requires forall i | 0 <= i < |nuls| :: IsNul(nuls[i])
    ensures TryParseInt32(s + nuls) == TryParseInt32(s)
  {
    Strings.TrimEndDropsSuffix(s, nuls, IsNul);
    assert NumberText(s + nuls) == NumberText(s);
  }

  /** A written number followed by NUL characters still parses to the number. */
  lemma NulsAfterNumber(n: nat, nuls: string)
    requires n <= Int32Max
    requires forall i | 0 <= i < |nuls| :: IsNul(nuls[i])
    ensures TryParseInt32(NatToString(n) + nuls) == Some(n)
  {
    ParseIgnoresTrailingNuls(NatToString(n), nuls);
    ParseWritten(n);
  }

  /** A NUL is accepted only at the very end: "8\0 " does not parse. */
  lemma NulBeforeWhiteSpaceRejected()
    ensures TryParseInt32("8\0 ") == None
  {
    var s := "8\0 ";
    var front := s[..2];
    Strings.TrimEndNothing(s, IsNul);
    Strings.TrimStartNothing(s, IsNumberWhiteSpace);
    assert s == front + [' '];
    Strings.TrimEndDropsSuffix(front, [' '], IsNumberWhiteSpace);
    Strings.TrimEndNothing(front, IsNumberWhiteSpace);
    assert NumberText(s) == front;
    assert !IsDigit(front[1]);
  }

  /** Int32.TryParse reads back what ToString wrote, with any trailing white space. */
  lemma ParseNatToString(n: nat, trailer: string)
    requires n <= Int32Max
    requires forall i | 0 <= i < |trailer| :: IsNumberWhiteSpace(trailer[i])
    ensures TryParseInt32(NatToString(n) + trailer) == Some(n)
  {
    var digits := NatToString(n);
    var s := digits + trailer;
    if |trailer| > 0 {
      assert s[|s| - 1] == trailer[|trailer| - 1];
    } else {
      assert s == digits;
    }
    Strings.TrimEndNothing(s, IsNul);
    assert s[0] == digits[0];
    Strings.TrimStartNothing(s, IsNumberWhiteSpace);
    TrimTrailer(digits, trailer);
    assert NumberText(s) == digits;
    PlainDigitsParse(digits);
  }

  /** A run of digits with no sign parses to the number it denotes, when that fits. */
  lemma PlainDigitsParse(digits: string)
    requires |digits| > 0 && AllDigits(digits) && DigitsValue(digits) <= Int32Max
    ensures ParseSignedDigits(digits) == Some(DigitsValue(digits))
  {
    assert IsDigit(digits[0]);
  }

  /** Int32.TryParse reads back what ToString wrote. */
  lemma ParseWritten(n: nat)
    requires n <= Int32Max
    ensures TryParseInt32(NatToString(n)) == Some(n)
  {
    ParseNatToString(n, "");
    assert NatToString(n) + "" == NatToString(n);
  }

  lemma {:induction false} TrimTrailer(digits: string, trailer: string)
    requires |digits| > 0 && AllDigits(digits)
    requires forall i | 0 <= i < |trailer| :: IsNumberWhiteSpace(trailer[i])
    ensures Strings.TrimEnd(digits + trailer, IsNumberWhiteSpace) == digits
    decreases |trailer|
  {
    var s := digits + trailer;
    if |trailer| == 0 {
      assert s == digits;
      assert !IsNumberWhiteSpace(s[|s| - 1]);
    } else {
      var shorter := trailer[..|trailer| - 1];
      assert s[..|s| - 1] == digits + shorter;
      TrimTrailer(digits, shorter);
    }
  }
}
