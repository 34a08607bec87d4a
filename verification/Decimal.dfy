/** Decimal text of natural numbers: `repr` of an int, and `int` of a string of digits. */
module Decimal {

  datatype Option<+T> = None | Some(value: T)

  predicate IsDigit(c: char) {
    '0' <= c <= '9'
  }

  function DigitChar(d: nat): (c: char)
    requires d < 10
    ensures IsDigit(c) && c as int - '0' as int == d
  {
    ('0' as int + d) as char
  }

  /** The decimal digits of `n`, without leading zeros. */
  function ToText(n: nat): (s: string)
    ensures s != [] && forall c :: c in s ==> IsDigit(c)
  {
    if n < 10 then [DigitChar(n)] else ToText(n / 10) + [DigitChar(n % 10)]
  }

  /** The number a string of digits stands for; `int(..)` raises on the empty string and on
      anything that is not a digit. */
  function Parse(s: string): Option<nat>
  {
    if s == [] || !IsDigit(s[|s| - 1]) then None
    else
      var d := s[|s| - 1] as int - '0' as int;
      if |s| == 1 then Some(d)
      else
        var front := Parse(s[..|s| - 1]);
        if front.None? then None else Some(10 * front.value + d)
  }

  lemma {:induction false} ParseText(n: nat)
    ensures Parse(ToText(n)) == Some(n)
  {
    var s := ToText(n);
    if n >= 10 {
      ParseText(n / 10);
      assert s[..|s| - 1] == ToText(n / 10);
    }
  }

  /** `repr` writes no leading zero. */
  lemma {:induction false} NoLeadingZero(n: nat)
    ensures if n == 0 then ToText(n) == "0" else ToText(n)[0] != '0'
  {
    if n >= 10 {
      NoLeadingZero(n / 10);
    }
  }

  /** A text is a number if and only if it is digits only, and not empty. */
  lemma {:induction false} ParsesIff(s: string)
    ensures Parse(s).Some? <==> s != "" && forall i :: 0 <= i < |s| ==> '0' <= s[i] <= '9'
  {
    if |s| > 1 {
      ParsesIff(s[..|s| - 1]);
      assert s == s[..|s| - 1] + [s[|s| - 1]];
    }
  }

  /** Leading zeros do not count, and otherwise a number has one text. */
  lemma {:induction false} ParseIsText(s: string)
    requires Parse(s).Some?
    ensures s[0] != '0' || s == "0" ==> s == ToText(Parse(s).value)
    ensures Parse("0" + s) == Parse(s)
  {
    var n := |s| - 1;
    assert ("0" + s)[..|s|] == "0" + s[..n];
    if n > 0 {
      ParseIsText(s[..n]);
      assert s == s[..n] + [s[n]];
      if s[0] != '0' {
        NotSmall(s[..n]);
      }
    } else {
      assert s[..n] == "" && "0" + "" == "0" && Parse("0") == Some(0);
    }
  }

  lemma {:induction false} NotSmall(s: string)
    requires Parse(s).Some? && s[0] != '0'
    ensures Parse(s).value >= 1
  {
    if |s| > 1 {
      NotSmall(s[..|s| - 1]);
    }
  }
}
