/**
 * The Kotlin standard-library text functions the detail screen's validation
 * relies on: `String.isBlank()`, `String.toIntOrNull()` (radix 10) and, as its
 * partner, `Int.toString()`, which the edit form uses to pre-fill the
 * quantity field.
 */
module StringConversions {
  import opened Wrappers
  import opened Products

  /**
   * `Char.isWhitespace()` on the JVM: `Character.isWhitespace` or
   * `Character.isSpaceChar`, i.e. the ASCII controls tab to carriage return,
   * the file/group/record/unit separators and the Unicode space separators.
   */
  predicate IsWhitespace(c: char): (r: bool)
    ensures r ==> !IsDigit(c) && c != '-' && c != '+'
    ensures c == ' ' || c == '\t' || c == '\n' || c == '\r' ==> r
  {
    || ('\t' <= c <= '\r')
    || ('\U{1C}' <= c <= ' ')
    || c == '\U{A0}' || c == '\U{1680}'
    || ('\U{2000}' <= c <= '\U{200A}')
    || c == '\U{2028}' || c == '\U{2029}' || c == '\U{202F}' || c == '\U{205F}' || c == '\U{3000}'
  }

  /** `String.isBlank()`: empty, or whitespace only. */
  predicate IsBlank(s: string): (r: bool)
    ensures s == [] ==> r
    ensures r ==> forall i :: 0 <= i < |s| ==> !IsDigit(s[i])
  {
    forall i :: 0 <= i < |s| ==> IsWhitespace(s[i])
  }

  predicate IsDigit(c: char)
  {
    '0' <= c <= '9'
  }

  /** Blank text holds no digit and no sign, so it never reads as a quantity. */
  lemma BlankNeverParses(s: string)
    requires IsBlank(s)
    ensures ToIntOrNull(s) == None
  {
    if s != [] {
      assert IsWhitespace(s[0]);
      if |s| > 1 {
        assert !AllDigits(s[1..]) by { assert s[1..][0] == s[1]; }
      }
    }
  }

  /** `isBlank()` on a few texts: whitespace of either kind is blank, a letter or a digit is not. */
  lemma BlankExamples()
    ensures IsBlank("") && IsBlank(" \t\n") && IsBlank("\U{A0}\U{3000}")
    ensures !IsBlank(" a ") && !IsBlank("0")
  {
    assert " a "[1] == 'a';
    assert "0"[0] == '0';
  }

  predicate AllDigits(s: string)
  {
    forall i :: 0 <= i < |s| ==> IsDigit(s[i])
  }

  function DigitValue(c: char): (d: nat)
    requires IsDigit(c)
    ensures d < 10
  {
    c as int - '0' as int
  }

  function DigitChar(d: nat): (c: char)
    requires d < 10
    ensures IsDigit(c) && DigitValue(c) == d
  {
    ('0' as int + d) as char
  }

  /** The value of a string of decimal digits, read most significant first. */
  function DigitsValue(s: string): (v: nat)
    requires AllDigits(s)
  {
    if s == [] then 0 else DigitsValue(s[..|s| - 1]) * 10 + DigitValue(s[|s| - 1])
  }

  lemma DigitsValueAppend(s: string, c: char)
    requires AllDigits(s) && IsDigit(c)
    ensures AllDigits(s + [c]) && DigitsValue(s + [c]) == DigitsValue(s) * 10 + DigitValue(c)
  {
    assert (s + [c])[..|s|] == s;
  }

  /** The digits, with no sign, have a value of at most `limit`. */
  function Magnitude(digits: string, limit: nat, negative: bool): (r: Option<Int32>)
    requires limit <= -MinInt
    requires !negative ==> limit <= MaxInt
  {
    if AllDigits(digits) && DigitsValue(digits) <= limit then
      Some(if negative then -(DigitsValue(digits) as int) else DigitsValue(digits))
    else
      None
  }

  /**
   * `String.toIntOrNull()`: an optional leading `-` or `+` followed by at
   * least one decimal digit, whose value lies in the 32-bit signed range;
   * `None` for anything else, including a lone sign and an out-of-range value.
   */
  function ToIntOrNull(s: string): (r: Option<Int32>)
    ensures r.Some? ==> |s| > 0
    ensures r.Some? && r.value < 0 ==> s[0] == '-'
  {
    if |s| == 0 then None
    else if s[0] < '0' then
      if |s| == 1 then None
      else if s[0] == '-' then Magnitude(s[1..], -MinInt, true)
      else if s[0] == '+' then Magnitude(s[1..], MaxInt, false)
      else None
    else
      Magnitude(s, MaxInt, false)
  }

  /** The decimal digits of `n`, most significant first, with no leading zero. */
  function NatToString(n: nat): (s: string)
    decreases n
  {
    if n < 10 then [DigitChar(n)] else NatToString(n / 10) + [DigitChar(n % 10)]
  }

  /** `Int.toString()`: a `-` for negative numbers, then the digits. */
  function IntToString(n: int): (s: string)
  {
    if n < 0 then "-" + NatToString(-n) else NatToString(n)
  }

  lemma {:induction false} NatToStringDigits(n: nat)
    ensures |NatToString(n)| > 0
    ensures AllDigits(NatToString(n))
    ensures DigitsValue(NatToString(n)) == n
    decreases n
  {
    if n >= 10 {
      NatToStringDigits(n / 10);
      var s := NatToString(n);
      assert s[..|s| - 1] == NatToString(n / 10);
    }
  }

  /**
   * Every `Int` survives a round trip through its text: the quantity that the
   * edit form shows parses back to the same quantity.
   */
  lemma QuantityTextRoundTrip(n: Int32)
    ensures ToIntOrNull(IntToString(n)) == Some(n)
  {
    var s := IntToString(n);
    if n < 0 {
      var m: nat := -(n as int);
      NatToStringDigits(m);
      assert s[1..] == NatToString(m);
      assert Magnitude(s[1..], -MinInt, true) == Some(n);
    } else {
      NatToStringDigits(n);
      assert s[0] >= '0';
      assert Magnitude(s, MaxInt, false) == Some(n);
    }
  }

  /** Signs, empty input and junk, as the detail screen's validation meets them. */
  lemma ToIntOrNullExamples()
    ensures ToIntOrNull("5") == Some(5) && ToIntOrNull("+5") == Some(5)
    ensures ToIntOrNull("-1") == Some(-1)
    ensures ToIntOrNull("") == None && ToIntOrNull("-") == None && ToIntOrNull("abc") == None
  {
    assert !AllDigits("abc") by { assert !IsDigit("abc"[0]); }
    assert "+5"[1..] == "5" && "-1"[1..] == "1";
  }

  /** The edges of the 32-bit range: one past either end is rejected. */
  lemma ToIntOrNullRangeEdges()
    ensures ToIntOrNull("2147483647") == Some(MaxInt) && ToIntOrNull("2147483648") == None
    ensures ToIntOrNull("-2147483648") == Some(MinInt) && ToIntOrNull("-2147483649") == None
  {
    var prefix := "214748364";
    PrefixValue();
    DigitsValueAppend(prefix, '7');
    DigitsValueAppend(prefix, '8');
    DigitsValueAppend(prefix, '9');
    assert prefix + ['7'] == "2147483647";
    assert prefix + ['8'] == "2147483648";
    assert prefix + ['9'] == "2147483649";
    assert "-2147483648"[1..] == "2147483648";
    assert "-2147483649"[1..] == "2147483649";
  }

  lemma PrefixValue()
    ensures AllDigits("214748364") && DigitsValue("214748364") == 214748364
  {
    PrefixValue6();
    DigitsValueAppend("214748", '3');
    assert "214748" + ['3'] == "2147483";
    DigitsValueAppend("2147483", '6');
    assert "2147483" + ['6'] == "21474836";
    DigitsValueAppend("21474836", '4');
    assert "21474836" + ['4'] == "214748364";
  }

  lemma PrefixValue6()
    ensures AllDigits("214748") && DigitsValue("214748") == 214748
  {
    PrefixValue3();
    DigitsValueAppend("214", '7');
    assert "214" + ['7'] == "2147";
    DigitsValueAppend("2147", '4');
    assert "2147" + ['4'] == "21474";
    DigitsValueAppend("21474", '8');
    assert "21474" + ['8'] == "214748";
  }

  lemma PrefixValue3()
    ensures AllDigits("214") && DigitsValue("214") == 214
  {
    assert DigitsValue("2") == 2;
    DigitsValueAppend("2", '1');
    assert "2" + ['1'] == "21";
    DigitsValueAppend("21", '4');
    assert "21" + ['4'] == "214";
  }
}
