/**
 * The few Python string operations the notes app depends on, written out over
 * `seq<char>`: `str.isspace`/`str.strip`, ASCII `str.lower`, the substring test
 * `kw in text`, `int(text)` for base-10 numerals, `str(n)` and `sep.join(parts)`.
 */
module Text {
  import opened Util

  /** Python's `str.isspace()` for one character (the Unicode White_Space set Python uses). */
  predicate IsSpace(c: char)
  {
    || ('\t' <= c <= '\r')
    || ('\U{1c}' <= c <= '\U{1f}')
    || c == ' ' || c == '\U{85}' || c == '\U{a0}' || c == '\U{1680}'
    || ('\U{2000}' <= c <= '\U{200a}')
    || c == '\U{2028}' || c == '\U{2029}' || c == '\U{202f}' || c == '\U{205f}' || c == '\U{3000}'
  }

  /**
   * The whitespace CPython's `int(text)` skips around a numeral: the ASCII
   * characters `\t\n\v\f\r` and space, and the non-ASCII characters of
   * `str.isspace()`. The ASCII separators U+001C..U+001F are kept, so they
   * make the numeral invalid.
   */
  predicate IntSpace(c: char)
  {
    IsSpace(c) && !('\U{1c}' <= c <= '\U{1f}')
  }

  /** `s.lstrip()` for the whitespace set `sp`: drops leading whitespace. */
  function TrimStart(sp: char -> bool, s: string): string
  {
    if s != [] && sp(s[0]) then TrimStart(sp, s[1..]) else s
  }

  /** `lstrip` keeps a suffix, drops only whitespace, and the suffix does not start with whitespace. */
  lemma {:induction false} TrimStartSpec(sp: char -> bool, s: string)
    ensures var r := TrimStart(sp, s);
            && |r| <= |s| && r == s[|s| - |r|..]
            && (forall i :: 0 <= i < |s| - |r| ==> sp(s[i]))
            && (r != [] ==> !sp(r[0]))
  {
    if s != [] && sp(s[0]) {
      TrimStartSpec(sp, s[1..]);
      var r := TrimStart(sp, s[1..]);
      assert s[1..][|s| - 1 - |r|..] == s[|s| - |r|..];
      forall i | 1 <= i < |s| - |r| ensures sp(s[i]) {
        assert s[1..][i - 1] == s[i];
      }
    }
  }

  /** `s.rstrip()` for the whitespace set `sp`: drops trailing whitespace. */
  function TrimEnd(sp: char -> bool, s: string): string
  {
    if s != [] && sp(s[|s| - 1]) then TrimEnd(sp, s[..|s| - 1]) else s
  }

  /** `rstrip` keeps a prefix, drops only whitespace, and the prefix does not end with whitespace. */
  lemma {:induction false} TrimEndSpec(sp: char -> bool, s: string)
    ensures var r := TrimEnd(sp, s);
            && |r| <= |s| && r == s[..|r|]
            && (forall i :: |r| <= i < |s| ==> sp(s[i]))
            && (r != [] ==> !sp(r[|r| - 1]))
  {
    if s != [] && sp(s[|s| - 1]) {
      TrimEndSpec(sp, s[..|s| - 1]);
      var r := TrimEnd(sp, s[..|s| - 1]);
      assert s[..|s| - 1][..|r|] == s[..|r|];
      forall i | |r| <= i < |s| - 1 ensures sp(s[i]) {
        assert s[..|s| - 1][i] == s[i];
      }
    }
  }

  /** `s.strip()`. */
  function Strip(s: string): string
  {
    TrimEnd(IsSpace, TrimStart(IsSpace, s))
  }

  /** The surrounding whitespace `int(text)` ignores, removed. */
  function IntStrip(s: string): string
  {
    TrimEnd(IntSpace, TrimStart(IntSpace, s))
  }

  /** `not s.strip()`: the text is empty once whitespace is stripped exactly when every character is whitespace. */
  lemma StripEmptyIffBlank(s: string)
    ensures Strip(s) == [] <==> forall i :: 0 <= i < |s| ==> IsSpace(s[i])
  {
    var t := TrimStart(IsSpace, s);
    TrimStartSpec(IsSpace, s);
    TrimEndSpec(IsSpace, t);
    if t != [] {
      assert t[0] == s[|s| - |t|];
    }
  }

  /** Trimming leaves alone a text that neither starts nor ends with whitespace. */
  lemma TrimUnpadded(sp: char -> bool, s: string)
    requires s != [] && !sp(s[0]) && !sp(s[|s| - 1])
    ensures TrimEnd(sp, TrimStart(sp, s)) == s
  {
    TrimStartSpec(sp, s);
    TrimEndSpec(sp, s);
  }

  /** ASCII case folding of one character. */
  function LowerChar(c: char): (r: char)
    ensures 'A' <= c <= 'Z' ==> 'a' <= r <= 'z'
    ensures !('A' <= c <= 'Z') ==> r == c
  {
    if 'A' <= c <= 'Z' then (c as int + 32) as char else c
  }

  /** `s.lower()`, restricted to the ASCII letters. */
  function Lower(s: string): (r: string)
    ensures |r| == |s|
    ensures forall i :: 0 <= i < |s| ==> r[i] == LowerChar(s[i])
  {
    Map(LowerChar, s)
  }

  /** Case folding works character by character, so it distributes over concatenation. */
  lemma LowerConcat(a: string, b: string)
    ensures Lower(a + b) == Lower(a) + Lower(b)
  {
    assert forall i :: 0 <= i < |a + b| ==> Lower(a + b)[i] == (Lower(a) + Lower(b))[i];
  }

  /** A text without upper-case ASCII letters is its own lower-case form. */
  lemma LowerUnchanged(s: string)
    requires forall i :: 0 <= i < |s| ==> !('A' <= s[i] <= 'Z')
    ensures Lower(s) == s
  {
  }

  /** `pat` occurs in `s` starting at position `i`. */
  predicate OccursAt(s: string, pat: string, i: int)
  {
    0 <= i <= |s| - |pat| && s[i..i + |pat|] == pat
  }

  /** Python's `pat in s` for strings, searched from the left. */
  predicate Contains(s: string, pat: string)
  {
    if |pat| > |s| then false
    else if s[..|pat|] == pat then true
    else Contains(s[1..], pat)
  }

  /** The search finds `pat` exactly when it occurs in `s` at some position. */
  lemma {:induction false} ContainsIff(s: string, pat: string)
    ensures Contains(s, pat) <==> exists i :: OccursAt(s, pat, i)
  {
    if |pat| > |s| {
    } else if s[..|pat|] == pat {
      assert OccursAt(s, pat, 0);
    } else {
      ContainsIff(s[1..], pat);
      assert forall i :: OccursAt(s, pat, i) ==> i >= 1 && OccursAt(s[1..], pat, i - 1);
      assert forall i :: OccursAt(s[1..], pat, i) ==> OccursAt(s, pat, i + 1);
    }
  }

  /** A text contains each of the pieces it is glued from. */
  lemma ContainsMiddle(a: string, b: string, c: string)
    ensures Contains(a + b + c, b)
  {
    assert (a + b + c)[|a|..|a| + |b|] == b;
    assert OccursAt(a + b + c, b, |a|);
    ContainsIff(a + b + c, b);
  }

  /** Text added around a text keeps every piece it contains. */
  lemma ContainsInside(a: string, s: string, c: string, pat: string)
    requires Contains(s, pat)
    ensures Contains(a + s + c, pat)
  {
    ContainsIff(s, pat);
    var i :| OccursAt(s, pat, i);
    assert (a + s + c)[|a| + i..|a| + i + |pat|] == s[i..i + |pat|];
    assert OccursAt(a + s + c, pat, |a| + i);
    ContainsIff(a + s + c, pat);
  }

  /** A text in which a character of `pat` never appears does not contain `pat`. */
  lemma NotContainsMissingChar(s: string, pat: string, k: nat)
    requires k < |pat| && pat[k] !in s
    ensures !Contains(s, pat)
  {
    ContainsIff(s, pat);
  }

  /* ---- int(text) and str(n) ---- */

  predicate IsDigit(c: char)
  {
    '0' <= c <= '9'
  }

  function DigitValue(c: char): (d: nat)
    requires IsDigit(c)
    ensures d < 10
  {
    c as int - '0' as int
  }

  function DigitChar(d: nat): (c: char)
    requires d < 10
    ensures IsDigit(c) && DigitValue(c) == d
  {
    ('0' as int + d) as char
  }

  /** The value of a numeral made only of decimal digits. */
  function DigitsValue(s: string): nat
    requires forall i :: 0 <= i < |s| ==> IsDigit(s[i])
  {
    if s == [] then 0 else 10 * DigitsValue(s[..|s| - 1]) + DigitValue(s[|s| - 1])
  }

  /**
   * The digit part Python's `int(text)` accepts in base 10: one or more
   * digits, with single underscores allowed between digits.
   */
  predicate DigitGroups(s: string)
  {
    && |s| > 0 && IsDigit(s[0]) && IsDigit(s[|s| - 1])
    && (forall i :: 0 <= i < |s| ==> IsDigit(s[i]) || s[i] == '_')
    && NoDoubleUnderscore(s)
  }

  /** No two underscores stand next to each other. */
  predicate NoDoubleUnderscore(s: string)
  {
    |s| < 2 || (!(s[0] == '_' && s[1] == '_') && NoDoubleUnderscore(s[1..]))
  }

  lemma {:induction false} DigitsNoDoubleUnderscore(s: string)
    requires forall i :: 0 <= i < |s| ==> IsDigit(s[i])
    ensures NoDoubleUnderscore(s)
  {
    if |s| >= 2 {
      DigitsNoDoubleUnderscore(s[1..]);
    }
  }

  function RemoveUnderscores(s: string): (r: string)
    requires forall i :: 0 <= i < |s| ==> IsDigit(s[i]) || s[i] == '_'
    ensures forall i :: 0 <= i < |r| ==> IsDigit(r[i])
  {
    if s == [] then []
    else RemoveUnderscores(s[..|s| - 1]) + (if s[|s| - 1] == '_' then [] else [s[|s| - 1]])
  }

  /**
   * The most digits CPython converts between a decimal string and an `int`
   * (`sys.int_info.default_max_str_digits`); beyond it `int()` and `str()`
   * raise `ValueError`.
   */
  const MaxStrDigits := 4300

  function ParseUnsigned(s: string): Option<nat>
  {
    if DigitGroups(s) && |RemoveUnderscores(s)| <= MaxStrDigits
    then Some(DigitsValue(RemoveUnderscores(s)))
    else None
  }

  /**
   * Python's `int(text)` in base 10: surrounding `IntSpace` whitespace is ignored, an
   * optional sign, then digit groups of at most `MaxStrDigits` digits;
   * anything else is a `ValueError` (None).
   */
  function ParseInt(text: string): Option<int>
  {
    var b := IntStrip(text);
    if |b| > 0 && (b[0] == '-' || b[0] == '+') then
      match ParseUnsigned(b[1..])
      case None => None
      case Some(m) => var v: int := m; Some(if b[0] == '-' then -v else v)
    else
      match ParseUnsigned(b)
      case None => None
      case Some(m) => Some(m)
  }

  /** The decimal numeral of a natural number, without leading zeros. */
  function NatToString(n: nat): (s: string)
    ensures |s| > 0
    ensures forall i :: 0 <= i < |s| ==> IsDigit(s[i])
  {
    if n < 10 then [DigitChar(n)] else NatToString(n / 10) + [DigitChar(n % 10)]
  }

  function Pow10(k: nat): (p: nat)
    ensures p >= 1
  {
    if k == 0 then 1 else 10 * Pow10(k - 1)
  }

  /** A natural number below 10^k, for k >= 1, has at most k digits. */
  lemma {:induction false} NatToStringLength(n: nat, k: nat)
    requires 1 <= k && n < Pow10(k)
    ensures |NatToString(n)| <= k
  {
    if n >= 10 {
      assert k >= 2;
      assert n / 10 < Pow10(k - 1);
      NatToStringLength(n / 10, k - 1);
    }
  }

  /** Python's `str(n)` for an integer (CPython raises beyond `MaxStrDigits` digits). */
  function IntToString(n: int): string
  {
    if n < 0 then "-" + NatToString(-n) else NatToString(n)
  }

  lemma {:induction false} NatToStringValue(n: nat)
    ensures DigitsValue(NatToString(n)) == n
  {
    if n >= 10 {
      var s := NatToString(n);
      assert s[..|s| - 1] == NatToString(n / 10);
      NatToStringValue(n / 10);
    }
  }

  lemma {:induction false} RemoveUnderscoresOfDigits(s: string)
    requires forall i :: 0 <= i < |s| ==> IsDigit(s[i])
    ensures RemoveUnderscores(s) == s
  {
    if s != [] {
      RemoveUnderscoresOfDigits(s[..|s| - 1]);
    }
  }

  lemma ParseUnsignedNatToString(n: nat)
    requires n < Pow10(MaxStrDigits)
    ensures ParseUnsigned(NatToString(n)) == Some(n)
  {
    var s := NatToString(n);
    DigitsNoDoubleUnderscore(s);
    RemoveUnderscoresOfDigits(s);
    NatToStringValue(n);
    NatToStringLength(n, MaxStrDigits);
  }

  /**
   * `int(str(n)) == n`: the numeral of a version is read back as that
   * version, for every `n` whose `str` CPython can produce.
   */
  lemma ParseIntRoundTrip(n: int)
    requires -n < Pow10(MaxStrDigits) && n < Pow10(MaxStrDigits)
    ensures ParseInt(IntToString(n)) == Some(n)
  {
    var s := IntToString(n);
    assert !IntSpace(s[0]) && !IntSpace(s[|s| - 1]);
    TrimUnpadded(IntSpace, s);
    if n < 0 {
      var m: nat := -n;
      assert s[1..] == NatToString(m);
      ParseUnsignedNatToString(m);
    } else {
      ParseUnsignedNatToString(n);
      assert !(s[0] == '-' || s[0] == '+');
    }
  }
  /** A numeral of more than `MaxStrDigits` plain digits is refused with `ValueError`. */
  lemma ParseIntTooManyDigits(s: string)
    requires |s| > MaxStrDigits && forall i :: 0 <= i < |s| ==> IsDigit(s[i])
    ensures ParseInt(s) == None
  {
    assert !IntSpace(s[0]) && !IntSpace(s[|s| - 1]);
    TrimUnpadded(IntSpace, s);
    RemoveUnderscoresOfDigits(s);
    assert !(s[0] == '-' || s[0] == '+');
  }
  /**
   * `int()` skips ASCII whitespace around a numeral but not the separator
   * U+001F, which `str.isspace()` counts as whitespace.
   */
  lemma ParseIntSeparatorIsNotSpace()
    ensures ParseInt(" 7\n") == Some(7)
    ensures ParseInt("0\U{1f}") == None
    ensures Strip("0\U{1f}") == "0"
  {
    TrimUnpadded(IntSpace, "0\U{1f}");
    assert TrimStart(IntSpace, " 7\n") == "7\n";
    assert TrimEnd(IntSpace, "7\n") == "7";
    assert RemoveUnderscores("7") == "7";
    assert TrimEnd(IsSpace, "0\U{1f}") == "0";
  }



  /** Python's `sep.join(parts)`. */
  function Join(sep: string, parts: seq<string>): string
  {
    if |parts| == 0 then ""
    else if |parts| == 1 then parts[0]
    else Join(sep, parts[..|parts| - 1]) + sep + parts[|parts| - 1]
  }

  /** Each part of a join stands in the joined text, between two other pieces. */
  lemma {:induction false} JoinHasPart(sep: string, parts: seq<string>, k: nat)
    requires k < |parts|
    ensures exists a, b :: Join(sep, parts) == a + parts[k] + b
  {
    var n := |parts|;
    if k == n - 1 {
      if n == 1 {
        assert Join(sep, parts) == "" + parts[k] + "";
      } else {
        assert Join(sep, parts) == (Join(sep, parts[..n - 1]) + sep) + parts[k] + "";
      }
    } else {
      JoinHasPart(sep, parts[..n - 1], k);
      var a, b :| Join(sep, parts[..n - 1]) == a + parts[..n - 1][k] + b;
      assert Join(sep, parts) == a + parts[k] + (b + sep + parts[n - 1]);
    }
  }

  /** `part in sep.join(parts)` for every part. */
  lemma JoinContainsPart(sep: string, parts: seq<string>, k: nat)
    requires k < |parts|
    ensures Contains(Join(sep, parts), parts[k])
  {
    JoinHasPart(sep, parts, k);
    var a, b :| Join(sep, parts) == a + parts[k] + b;
    ContainsMiddle(a, parts[k], b);
  }
}
