/**
 * The string operations the eclipse logger relies on, with Python's meaning:
 * `str.split(sep)`, `str.join`, `str.replace` of one character by another,
 * the whitespace `int()` ignores, the text `int()` accepts in base 10, and the
 * decimal rendering of a natural number that `f"{n}"` produces.
 */
module Text {
  import opened Wrappers

  // ---------------------------------------------------------------------------
  // Characters
  // ---------------------------------------------------------------------------

  predicate IsDigit(c: char) {
    '0' <= c <= '9'
  }

  function DigitValue(c: char): (d: nat)
    requires IsDigit(c)
    ensures d < 10
  {
    (c as int) - ('0' as int)
  }

  function DigitChar(d: nat): (c: char)
    requires d < 10
    ensures IsDigit(c) && DigitValue(c) == d
  {
    (('0' as int) + d) as char
  }

  /**
   * The characters `int()` ignores around its argument. Below U+0080 these are
   * only space and tab through carriage return: the information separators
   * U+001C to U+001F count for `str.isspace` but are kept, and refused, by
   * `int()`. Above, every character `str.isspace` accepts is ignored.
   */
  predicate IsSpace(c: char) {
    || c == ' '
    || ('\t' <= c <= '\r')
    || c == '\U{85}' || c == '\U{A0}' || c == '\U{1680}'
    || ('\U{2000}' <= c <= '\U{200A}')
    || c == '\U{2028}' || c == '\U{2029}' || c == '\U{202F}' || c == '\U{205F}' || c == '\U{3000}'
  }

  // ---------------------------------------------------------------------------
  // Splitting and joining on a separator
  // ---------------------------------------------------------------------------

  /** Python's `sep.join(parts)` for a one-character separator. */
  function Join(parts: seq<string>, sep: char): string
  {
    if |parts| == 0 then ""
    else if |parts| == 1 then parts[0]
    else parts[0] + [sep] + Join(parts[1..], sep)
  }

  /**
   * Python's `s.split(sep)` for a one-character separator: the pieces between
   * separators, empty ones included, so there is always at least one piece.
   */
  function Split(s: string, sep: char): (parts: seq<string>)
    ensures |parts| >= 1
    ensures Join(parts, sep) == s
    ensures forall i :: 0 <= i < |parts| ==> sep !in parts[i]
    decreases |s|
  {
    if |s| == 0 then [""]
    else
      var rest := Split(s[1..], sep);
      if s[0] == sep then
        [""] + rest
      else
        var parts := [[s[0]] + rest[0]] + rest[1..];
        assert parts[1..] == rest[1..];
        assert s == [s[0]] + s[1..];
        parts
  }

  /** Splitting text that holds no separator gives that text back as the only piece. */
  lemma {:induction false} SplitNoSeparator(a: string, sep: char)
    requires sep !in a
    ensures Split(a, sep) == [a]
    decreases |a|
  {
    if |a| > 0 {
      assert sep !in a[1..];
      SplitNoSeparator(a[1..], sep);
    }
  }

  /** The first separator of a string ends its first piece; the rest is split on its own. */
  lemma {:induction false} SplitAtFirstSeparator(a: string, sep: char, b: string)
    requires sep !in a
    ensures Split(a + [sep] + b, sep) == [a] + Split(b, sep)
    decreases |a|
  {
    var s := a + [sep] + b;
    if |a| == 0 {
      assert s[1..] == b;
    } else {
      assert s[1..] == a[1..] + [sep] + b;
      assert sep !in a[1..];
      SplitAtFirstSeparator(a[1..], sep, b);
      assert [a[0]] + a[1..] == a;
    }
  }

  /** Two separator-free pieces joined by one separator split back into exactly those two. */
  lemma SplitPair(a: string, sep: char, b: string)
    requires sep !in a && sep !in b
    ensures Split(a + [sep] + b, sep) == [a, b]
  {
    SplitAtFirstSeparator(a, sep, b);
    SplitNoSeparator(b, sep);
  }

  // ---------------------------------------------------------------------------
  // Replacing one character by another
  // ---------------------------------------------------------------------------

  /** Python's `s.replace(from, to)` where both are single characters. */
  function Replace(s: string, from: char, to: char): (r: string)
    ensures |r| == |s|
    ensures forall i :: 0 <= i < |s| ==> r[i] == (if s[i] == from then to else s[i])
  {
    if |s| == 0 then ""
    else [if s[0] == from then to else s[0]] + Replace(s[1..], from, to)
  }

  /**
   * Replacing `from` by `to` loses nothing when `to` can only sit at the first
   * position of the text and `from` never does: two such texts with the same
   * image are equal.
   */
  lemma ReplaceInjective(a: string, b: string, from: char, to: char)
    requires from != to
    requires |a| > 0 ==> a[0] != from
    requires |b| > 0 ==> b[0] != from
    requires forall i :: 0 < i < |a| ==> a[i] != to
    requires forall i :: 0 < i < |b| ==> b[i] != to
    requires Replace(a, from, to) == Replace(b, from, to)
    ensures a == b
  {
    assert |a| == |b|;
    forall i | 0 <= i < |a| ensures a[i] == b[i] {
      var ra, rb := Replace(a, from, to), Replace(b, from, to);
      assert ra[i] == rb[i];
    }
  }

  // ---------------------------------------------------------------------------
  // Whitespace stripping, as int() does it
  // ---------------------------------------------------------------------------

  /** Drops the leading whitespace: what remains is a suffix that starts with a non-space. */
  function StripLeft(s: string): (r: string)
    ensures |r| <= |s| && r == s[|s| - |r|..]
    ensures |r| > 0 ==> !IsSpace(r[0])
  {
    if |s| > 0 && IsSpace(s[0]) then StripLeft(s[1..]) else s
  }

  /** Drops the trailing whitespace: what remains is a prefix that ends with a non-space. */
  function StripRight(s: string): (r: string)
    ensures |r| <= |s| && r == s[..|r|]
    ensures |r| > 0 ==> !IsSpace(r[|r| - 1])
  {
    if |s| > 0 && IsSpace(s[|s| - 1]) then StripRight(s[..|s| - 1]) else s
  }

  /** Only whitespace is dropped: everything before what StripLeft keeps is a space. */
  lemma {:induction false} StripLeftDropsSpace(s: string, k: nat)
    requires k < |s| - |StripLeft(s)|
    ensures IsSpace(s[k])
    decreases |s|
  {
    if k > 0 {
      StripLeftDropsSpace(s[1..], k - 1);
    }
  }

  /** Only whitespace is dropped: everything after what StripRight keeps is a space. */
  lemma {:induction false} StripRightDropsSpace(s: string, k: nat)
    requires |StripRight(s)| <= k < |s|
    ensures IsSpace(s[k])
    decreases |s|
  {
    if k < |s| - 1 {
      StripRightDropsSpace(s[..|s| - 1], k);
    }
  }

  /** Drops the whitespace at both ends: what remains neither starts nor ends with a space. */
  function Strip(s: string): (r: string)
    ensures |r| <= |s|
    ensures |r| > 0 ==> !IsSpace(r[0]) && !IsSpace(r[|r| - 1])
  {
    var l := StripLeft(s);
    var r := StripRight(l);
    assert |r| > 0 ==> r[0] == l[0];
    r
  }

  // ---------------------------------------------------------------------------
  // Decimal digits
  // ---------------------------------------------------------------------------

  /**
   * The run of digits `int()` accepts in base 10 and the number it denotes: at
   * least one digit, single underscores allowed between two digits and skipped.
   * Read from the right, so each step takes off the last digit (and the
   * underscore before it, if any).
   */
  function DigitRunValue(s: string): Option<nat>
    decreases |s|
  {
    if |s| == 0 || !IsDigit(s[|s| - 1]) then None
    else if |s| == 1 then Some(DigitValue(s[0]))
    else
      var prefix := if s[|s| - 2] == '_' then s[..|s| - 2] else s[..|s| - 1];
      if |prefix| == 0 then None
      else
        match DigitRunValue(prefix)
        case None => None
        case Some(v) => Some(10 * v + DigitValue(s[|s| - 1]))
  }

  /**
   * What DigitRunValue accepts: digits throughout, except underscores that sit
   * between two digits.
   */
  lemma {:induction false} DigitRunShape(s: string, i: nat)
    requires DigitRunValue(s).Some?
    requires i < |s|
    ensures IsDigit(s[i]) || (0 < i < |s| - 1 && s[i] == '_' && IsDigit(s[i - 1]) && IsDigit(s[i + 1]))
    decreases |s|
  {
    if i < |s| - 1 {
      if s[|s| - 2] == '_' {
        var prefix := s[..|s| - 2];
        if i == |s| - 2 {
          DigitRunShape(prefix, |prefix| - 1);
        } else {
          DigitRunShape(prefix, i);
        }
      } else {
        DigitRunShape(s[..|s| - 1], i);
      }
    }
  }

  /**
   * Position i of s is allowed in a run of digits: a digit, or an underscore
   * with a digit on either side.
   */
  predicate RunChar(s: string, i: nat)
    requires i < |s|
  {
    IsDigit(s[i]) || (0 < i < |s| - 1 && s[i] == '_' && IsDigit(s[i - 1]) && IsDigit(s[i + 1]))
  }

  /** Non-empty, and every position is allowed in a run of digits. */
  predicate IsDigitRun(s: string)
  {
    |s| > 0 && forall i :: 0 <= i < |s| ==> RunChar(s, i)
  }

  /** The decimal digits of s read as one number in base ten; other characters are skipped. */
  function DigitsValue(s: string): nat
    decreases |s|
  {
    if |s| == 0 then 0
    else if IsDigit(s[|s| - 1]) then 10 * DigitsValue(s[..|s| - 1]) + DigitValue(s[|s| - 1])
    else DigitsValue(s[..|s| - 1])
  }

  /** Every run of digits is accepted, and is worth its digits with the underscores left out. */
  lemma {:induction false} DigitRunAccepted(s: string)
    requires IsDigitRun(s)
    ensures DigitRunValue(s) == Some(DigitsValue(s))
    decreases |s|
  {
    assert RunChar(s, |s| - 1);
    if |s| > 1 {
      var init := s[..|s| - 1];
      if s[|s| - 2] == '_' {
        var prefix := s[..|s| - 2];
        assert RunChar(s, |s| - 2);
        assert IsDigit(s[|s| - 3]);
        forall i | 0 <= i < |prefix| ensures RunChar(prefix, i) {
          assert RunChar(s, i);
        }
        DigitRunAccepted(prefix);
        assert init[..|init| - 1] == prefix;
        assert DigitsValue(init) == DigitsValue(prefix);
      } else {
        forall i | 0 <= i < |init| ensures RunChar(init, i) {
          assert RunChar(s, i);
        }
        DigitRunAccepted(init);
      }
    }
  }

  /** DigitRunValue accepts exactly the runs of digits, and reads each as its digits. */
  lemma DigitRunValueMeaning(s: string)
    ensures DigitRunValue(s).Some? <==> IsDigitRun(s)
    ensures IsDigitRun(s) ==> DigitRunValue(s) == Some(DigitsValue(s))
  {
    if DigitRunValue(s).Some? {
      forall i | 0 <= i < |s| ensures RunChar(s, i) {
        DigitRunShape(s, i);
      }
    }
    if IsDigitRun(s) {
      DigitRunAccepted(s);
    }
  }

  /** `f"{n}"` for a natural number: its decimal digits, no leading zero unless n is 0. */
  function Decimal(n: nat): (r: string)
    ensures |r| >= 1
    ensures forall i :: 0 <= i < |r| ==> IsDigit(r[i])
    ensures r[0] == '0' ==> n == 0 && |r| == 1
    ensures DigitRunValue(r) == Some(n)
  {
    if n < 10 then [DigitChar(n)]
    else
      var r := Decimal(n / 10) + [DigitChar(n % 10)];
      assert r[..|r| - 1] == Decimal(n / 10);
      r
  }

  /** A leading zero does not change the value of a run of digits. */
  lemma {:induction false} LeadingZero(s: string)
    requires DigitRunValue(s).Some?
    ensures DigitRunValue(['0'] + s) == DigitRunValue(s)
    decreases |s|
  {
    var z := ['0'] + s;
    if |s| > 1 {
      if s[|s| - 2] == '_' {
        assert z[..|z| - 2] == ['0'] + s[..|s| - 2];
        LeadingZero(s[..|s| - 2]);
      } else {
        assert z[..|z| - 1] == ['0'] + s[..|s| - 1];
        LeadingZero(s[..|s| - 1]);
      }
    } else {
      assert z[..|z| - 1] == ['0'];
    }
  }

  /** Numbers are less than 10 exactly when their decimal text is one character long. */
  lemma DecimalLength(n: nat)
    ensures |Decimal(n)| == 1 <==> n < 10
  {
    if n >= 10 {
      assert |Decimal(n)| == |Decimal(n / 10)| + 1;
    }
  }

  // ---------------------------------------------------------------------------
  // int(text) in base 10
  // ---------------------------------------------------------------------------

  /**
   * Python's `int(text)`: optional surrounding whitespace, an optional `+` or
   * `-`, then a run of digits; anything else is a ValueError, here None.
   */
  function ParseInt(text: string): Option<int>
  {
    ParseSigned(Strip(text))
  }

  /** An optional `+` or `-` in front of a run of digits. */
  function ParseSigned(t: string): Option<int>
  {
    if |t| > 0 && t[0] == '-' then
      match ParseUnsigned(t[1..])
      case Some(v) => Some(-v)
      case None => None
    else if |t| > 0 && t[0] == '+' then ParseUnsigned(t[1..])
    else ParseUnsigned(t)
  }

  function ParseUnsigned(t: string): Option<int>
  {
    match DigitRunValue(t)
    case Some(v) => Some(v)
    case None => None
  }

  /** Text that neither starts nor ends with whitespace is left as it is. */
  lemma StripUnpadded(s: string)
    requires |s| > 0 && !IsSpace(s[0]) && !IsSpace(s[|s| - 1])
    ensures Strip(s) == s
  {
    assert StripLeft(s) == s;
  }

  /** A run of digits with no sign and no surrounding space is read as its value. */
  lemma ParseIntOfRun(s: string)
    requires |s| > 0 && IsDigit(s[0])
    requires DigitRunValue(s).Some?
    ensures ParseInt(s) == Some(DigitRunValue(s).value)
  {
    StripDigitRun(s);
    UnsignedStart(s);
  }

  /** A run of digits has no whitespace around it to strip. */
  lemma StripDigitRun(s: string)
    requires |s| > 0 && IsDigit(s[0])
    requires DigitRunValue(s).Some?
    ensures Strip(s) == s
  {
    DigitRunShape(s, |s| - 1);
    StripUnpadded(s);
  }

  /** Text starting with a digit carries no sign. */
  lemma UnsignedStart(t: string)
    requires |t| > 0 && IsDigit(t[0])
    ensures ParseSigned(t) == ParseUnsigned(t)
  {
    assert t[0] != '-' && t[0] != '+';
  }

  /** `int()` reads back what `f"{n}"` writes, also with a leading zero in front. */
  lemma ParseIntOfDecimal(n: nat)
    ensures ParseInt(Decimal(n)) == Some(n)
    ensures ParseInt(['0'] + Decimal(n)) == Some(n)
  {
    var d := Decimal(n);
    ParseIntOfRun(d);
    LeadingZero(d);
    ParseIntOfRun(['0'] + d);
  }

  /** `int()` reads a minus sign followed by the decimal text of -n as n. */
  lemma ParseIntOfNegative(n: int)
    requires n < 0
    ensures ParseInt(['-'] + Decimal(-n)) == Some(n)
  {
    var d := Decimal(-n);
    var m := ['-'] + d;
    StripUnpadded(m);
    assert m[1..] == d;
  }

  /** `int()` reads a plus sign followed by the decimal text of n as n. */
  lemma ParseIntOfPlus(n: nat)
    ensures ParseInt(['+'] + Decimal(n)) == Some(n)
  {
    var d := Decimal(n);
    var m := ['+'] + d;
    StripUnpadded(m);
    assert m[1..] == d;
  }

  /** Leading whitespace goes, up to the first character that is not a space. */
  lemma {:induction false} StripLeftSpaces(w: string, u: string)
    requires forall i :: 0 <= i < |w| ==> IsSpace(w[i])
    requires |u| > 0 ==> !IsSpace(u[0])
    ensures StripLeft(w + u) == u
    decreases |w|
  {
    if |w| > 0 {
      assert (w + u)[1..] == w[1..] + u;
      StripLeftSpaces(w[1..], u);
    } else {
      assert w + u == u;
    }
  }

  /** Trailing whitespace goes, back to the last character that is not a space. */
  lemma {:induction false} StripRightSpaces(u: string, w: string)
    requires forall i :: 0 <= i < |w| ==> IsSpace(w[i])
    requires |u| > 0 ==> !IsSpace(u[|u| - 1])
    ensures StripRight(u + w) == u
    decreases |w|
  {
    if |w| > 0 {
      assert (u + w)[..|u + w| - 1] == u + w[..|w| - 1];
      StripRightSpaces(u, w[..|w| - 1]);
    } else {
      assert u + w == u;
    }
  }

  /**
   * Whitespace around the text does not matter: `int()` reads w1 + t + w2 as
   * it reads t alone, whenever t neither starts nor ends with whitespace.
   */
  lemma ParseIntPadded(w1: string, t: string, w2: string)
    requires forall i :: 0 <= i < |w1| ==> IsSpace(w1[i])
    requires forall i :: 0 <= i < |w2| ==> IsSpace(w2[i])
    requires |t| > 0 ==> !IsSpace(t[0]) && !IsSpace(t[|t| - 1])
    ensures ParseInt(w1 + t + w2) == ParseSigned(t)
  {
    if |t| == 0 {
      assert w1 + t + w2 == w1 + w2;
      ParseIntNeedsDigit(w1 + w2);
    } else {
      assert w1 + t + w2 == w1 + (t + w2);
      StripLeftSpaces(w1, t + w2);
      StripRightSpaces(t, w2);
    }
  }

  /** Text with no digit at all is never an integer. */
  lemma ParseIntNeedsDigit(text: string)
    requires forall i :: 0 <= i < |text| ==> !IsDigit(text[i])
    ensures ParseInt(text) == None
  {
    var l := StripLeft(text);
    var t := StripRight(l);
    if |t| > 0 {
      assert t[|t| - 1] == text[|text| - |l| + |t| - 1];
      if |t| > 1 {
        assert t[1..][|t| - 2] == t[|t| - 1];
      }
    }
  }

  /**
   * Text whose first character is neither skipped nor a sign nor a digit is
   * never an integer.
   */
  lemma ParseIntRefusesStrayFirst(text: string)
    requires |text| > 0
    requires !IsSpace(text[0]) && !IsDigit(text[0]) && text[0] != '-' && text[0] != '+'
    ensures ParseInt(text) == None
  {
    assert StripLeft(text) == text;
    var t := Strip(text);
    if |t| > 0 {
      assert t[0] == text[0];
      if DigitRunValue(t).Some? {
        DigitRunShape(t, 0);
      }
    }
  }

  /** An information separator in front of a number makes it a ValueError, not padding. */
  lemma ParseIntRefusesSeparatorControl(c: char, n: nat)
    requires '\U{1C}' <= c <= '\U{1F}'
    ensures ParseInt([c] + Decimal(n)) == None
  {
    ParseIntRefusesStrayFirst([c] + Decimal(n));
  }
}
