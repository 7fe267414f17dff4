/**
 * The string operations the program borrows from Python: `sep.join(parts)`,
 * `str.strip()` and `str(n)` of an integer. `Split` reads a text line by
 * line; the program never splits, but the model uses it to state how the
 * records and the description script it writes read back.
 */
module Text {

  /** Python's `sep.join(parts)`. */
  function Join(parts: seq<string>, sep: string): string
  {
    if |parts| == 0 then ""
    else if |parts| == 1 then parts[0]
    else parts[0] + sep + Join(parts[1..], sep)
  }

  /** Joining two non-empty lists is joining each and putting one separator between. */
  lemma {:induction false} JoinConcat(xs: seq<string>, ys: seq<string>, sep: string)
    requires |xs| >= 1 && |ys| >= 1
    ensures Join(xs + ys, sep) == Join(xs, sep) + sep + Join(ys, sep)
  {
    if |xs| > 1 {
      JoinConcat(xs[1..], ys, sep);
      assert (xs + ys)[1..] == xs[1..] + ys;
    } else {
      assert (xs + ys)[1..] == ys;
    }
  }

  /**
   * Every part followed by one separator: the reference definition against
   * which `Join(parts, sep) + sep` is checked.
   */
  function Terminated(parts: seq<string>, sep: string): string
  {
    if |parts| == 0 then "" else parts[0] + sep + Terminated(parts[1..], sep)
  }

  lemma TerminatedCons(x: string, xs: seq<string>, sep: string)
    ensures Terminated([x] + xs, sep) == x + sep + Terminated(xs, sep)
  {
    assert ([x] + xs)[1..] == xs;
  }

  /** Joining and then closing with one more separator terminates every part. */
  lemma {:induction false} JoinThenSeparator(parts: seq<string>, sep: string)
    requires |parts| >= 1
    ensures Join(parts, sep) + sep == Terminated(parts, sep)
  {
    if |parts| > 1 {
      JoinThenSeparator(parts[1..], sep);
      assert Join(parts, sep) + sep == parts[0] + sep + (Join(parts[1..], sep) + sep);
    }
  }

  // ---------------------------------------------------------------------
  // Trimming

  /**
   * The characters `str.strip()` removes, those Python counts as whitespace:
   * tab to carriage return, the four information separators, space, next
   * line, no-break space, and the Unicode space and line separators.
   */
  predicate IsSpace(c: char)
  {
    || '\t' <= c <= '\r'
    || '\U{1C}' <= c <= ' '
    || c == '\U{85}' || c == '\U{A0}' || c == '\U{1680}'
    || '\U{2000}' <= c <= '\U{200A}'
    || c == '\U{2028}' || c == '\U{2029}' || c == '\U{202F}' || c == '\U{205F}' || c == '\U{3000}'
  }

  /** The first position from `i` on that does not hold whitespace, or `|s|`. */
  function SkipSpaces(s: string, i: nat): (j: nat)
    requires i <= |s|
    ensures i <= j <= |s|
    decreases |s| - i
  {
    if i < |s| && IsSpace(s[i]) then SkipSpaces(s, i + 1) else i
  }

  /** `SkipSpaces` passes only whitespace and stops at the first other character. */
  lemma {:induction false} SkipSpacesShape(s: string, i: nat)
    requires i <= |s|
    ensures forall k :: i <= k < SkipSpaces(s, i) ==> IsSpace(s[k])
    ensures SkipSpaces(s, i) < |s| ==> !IsSpace(s[SkipSpaces(s, i)])
    decreases |s| - i
  {
    if i < |s| && IsSpace(s[i]) {
      SkipSpacesShape(s, i + 1);
    }
  }

  /** The position just after the last character before `j` that is not whitespace, or 0. */
  function SkipSpacesBack(s: string, j: nat): (i: nat)
    requires j <= |s|
    ensures i <= j
  {
    if j > 0 && IsSpace(s[j - 1]) then SkipSpacesBack(s, j - 1) else j
  }

  /** `SkipSpacesBack` passes only whitespace and stops after the last other character. */
  lemma {:induction false} SkipSpacesBackShape(s: string, j: nat)
    requires j <= |s|
    ensures forall k :: SkipSpacesBack(s, j) <= k < j ==> IsSpace(s[k])
    ensures SkipSpacesBack(s, j) > 0 ==> !IsSpace(s[SkipSpacesBack(s, j) - 1])
  {
    if j > 0 && IsSpace(s[j - 1]) {
      SkipSpacesBackShape(s, j - 1);
    }
  }

  /** `s` with its leading whitespace removed. */
  function TrimStart(s: string): string
  {
    s[SkipSpaces(s, 0)..]
  }

  /** `s` with its trailing whitespace removed. */
  function TrimEnd(s: string): string
  {
    s[..SkipSpacesBack(s, |s|)]
  }

  /** Python's `s.strip()`. */
  function Trim(s: string): string
  {
    TrimEnd(TrimStart(s))
  }

  /**
   * `Trim` keeps one stretch of `s` and drops only whitespace around it; the
   * stretch neither begins nor ends with whitespace.
   */
  lemma TrimShape(s: string)
    ensures exists a, b :: (0 <= a <= b <= |s| && Trim(s) == s[a..b]
                            && (forall k :: 0 <= k < a ==> IsSpace(s[k]))
                            && (forall k :: b <= k < |s| ==> IsSpace(s[k])))
    ensures Trim(s) != [] ==> !IsSpace(Trim(s)[0]) && !IsSpace(Trim(s)[|Trim(s)| - 1])
  {
    var a := SkipSpaces(s, 0);
    var t := s[a..];
    var e := SkipSpacesBack(t, |t|);
    SkipSpacesShape(s, 0);
    SkipSpacesBackShape(t, |t|);
    assert Trim(s) == s[a..a + e];
    forall k | a + e <= k < |s| ensures IsSpace(s[k]) {
      assert s[k] == t[k - a];
    }
  }

  /** Stripping removes an information separator in front and an ideographic space behind. */
  lemma TrimExample()
    ensures Trim("\U{1F}ab\U{3000}") == "ab"
  {
    assert SkipSpaces("\U{1F}ab\U{3000}", 0) == 1;
    assert TrimStart("\U{1F}ab\U{3000}") == "ab\U{3000}";
    assert SkipSpacesBack("ab\U{3000}", 3) == 2;
  }

  /** Trimming twice changes nothing more. */
  lemma TrimIdempotent(s: string)
    ensures Trim(Trim(s)) == Trim(s)
  {
    var r := Trim(s);
    TrimShape(s);
    if r != [] {
      assert SkipSpaces(r, 0) == 0;
      assert r[..SkipSpacesBack(r, |r|)] == r;
      assert TrimStart(r) == r;
      assert SkipSpacesBack(r, |r|) == |r|;
    } else {
      assert TrimStart(r) == [];
    }
  }

  // ---------------------------------------------------------------------
  // Decimal rendering of integers

  predicate IsDigit(c: char)
  {
    '0' <= c <= '9'
  }

  function DigitChar(d: nat): (c: char)
    requires d < 10
    ensures IsDigit(c) && c as int - '0' as int == d
  {
    "0123456789"[d]
  }

  /** Python's `str(n)` for a non-negative integer: its decimal digits. */
  function NatToString(n: nat): (s: string)
    ensures |s| >= 1
  {
    if n < 10 then [DigitChar(n)] else NatToString(n / 10) + [DigitChar(n % 10)]
  }

  /** The rendering of a number is all digits, without a leading zero unless it is `0`. */
  lemma {:induction false} NatToStringDigits(n: nat)
    ensures forall i :: 0 <= i < |NatToString(n)| ==> IsDigit(NatToString(n)[i])
    ensures |NatToString(n)| > 1 ==> NatToString(n)[0] != '0'
  {
    if n >= 10 {
      NatToStringDigits(n / 10);
    }
  }

  /** The number a string of decimal digits spells. */
  function DigitsValue(s: string): int
  {
    if s == [] then 0
    else DigitsValue(s[..|s| - 1]) * 10 + (s[|s| - 1] as int - '0' as int)
  }

  /** Reading back the digits of `n` gives `n`. */
  lemma {:induction false} NatToStringRoundTrip(n: nat)
    ensures DigitsValue(NatToString(n)) == n
  {
    if n >= 10 {
      NatToStringRoundTrip(n / 10);
      var s := NatToString(n);
      assert s[..|s| - 1] == NatToString(n / 10);
    }
  }

  /** Distinct numbers have distinct decimal renderings. */
  lemma NatToStringInjective(m: nat, n: nat)
    requires NatToString(m) == NatToString(n)
    ensures m == n
  {
    NatToStringRoundTrip(m);
    NatToStringRoundTrip(n);
  }

  /** Python's `str(i)` for any integer: a minus sign before the digits of a negative one. */
  function IntToString(i: int): (s: string)
    ensures |s| >= 1
  {
    if i < 0 then "-" + NatToString(-i) else NatToString(i)
  }

  /** The rendering of an integer is digits, after a minus sign when it is negative. */
  lemma IntToStringDigits(i: int)
    ensures forall k :: 0 <= k < |IntToString(i)| ==> IsDigit(IntToString(i)[k]) || (k == 0 && IntToString(i)[k] == '-')
  {
    if i < 0 {
      NatToStringDigits(-i);
      var s := IntToString(i);
      forall k | 0 <= k < |s| ensures IsDigit(s[k]) || (k == 0 && s[k] == '-') {
        if k > 0 {
          assert s[k] == NatToString(-i)[k - 1];
        }
      }
    } else {
      NatToStringDigits(i);
    }
  }

  // ---------------------------------------------------------------------
  // Splitting into lines

  /** A text cut at every `sep`, as Python's `s.split(sep)` cuts it; never empty. */
  function Split(s: string, sep: char): (r: seq<string>)
    ensures |r| >= 1
  {
    if s == [] then [""]
    else if s[0] == sep then [""] + Split(s[1..], sep)
    else var rest := Split(s[1..], sep); [[s[0]] + rest[0]] + rest[1..]
  }

  /** A piece without the separator, then the separator, starts a new piece. */
  lemma {:induction false} SplitPiece(a: string, sep: char, t: string)
    requires sep !in a
    ensures Split(a + [sep] + t, sep) == [a] + Split(t, sep)
    ensures Split(a, sep) == [a]
  {
    if a != [] {
      SplitPiece(a[1..], sep, t);
      assert (a + [sep] + t)[1..] == a[1..] + [sep] + t;
      assert a == [a[0]] + a[1..];
    } else {
      assert a + [sep] + t == [sep] + t;
    }
  }

  /** Splitting undoes joining when no part holds the separator. */
  lemma {:induction false} SplitJoin(parts: seq<string>, sep: char)
    requires |parts| >= 1
    requires forall i :: 0 <= i < |parts| ==> sep !in parts[i]
    ensures Split(Join(parts, [sep]), sep) == parts
  {
    if |parts| == 1 {
      SplitPiece(parts[0], sep, "");
    } else {
      SplitJoin(parts[1..], sep);
      SplitPiece(parts[0], sep, Join(parts[1..], [sep]));
      assert parts == [parts[0]] + parts[1..];
    }
  }
}
