/** Strings as the program compares them, and the strings it reads as whole numbers. */
module Texts {
  import opened Types

  predicate IsDigit(c: char) { '0' <= c <= '9' }

  function Digit(c: char): int { c as int - '0' as int }

  /** The < of strings: by the first character that differs, a prefix first. */
  predicate Less(s: string, t: string) {
    t != "" && (s == "" || s[0] < t[0] || (s[0] == t[0] && Less(s[1..], t[1..])))
  }

  /** Exactly one of s < t, s == t and t < s holds. */
  lemma {:induction false} LessIsTotal(s: string, t: string)
    ensures Less(s, t) <==> s != t && !Less(t, s)
  {
    if s != "" && t != "" {
      assert s == [s[0]] + s[1..] && t == [t[0]] + t[1..];
      LessIsTotal(s[1..], t[1..]);
    }
  }

  lemma {:induction false} LessTransitive(s: string, t: string, u: string)
    requires Less(s, t) && Less(t, u)
    ensures Less(s, u)
  {
    if s != "" && s[0] == t[0] == u[0] {
      LessTransitive(s[1..], t[1..], u[1..]);
    }
  }

  predicate AllDigits(s: string) { s != "" && forall i :: 0 <= i < |s| ==> IsDigit(s[i]) }

  function DigitsValue(s: string): int {
    if |s| == 0 then 0 else 10 * DigitsValue(s[..|s| - 1]) + Digit(s[|s| - 1])
  }

  /** The number a text such as 2026, a calendar year in ISO 8601, stands for wherever a number is wanted. */
  function BareNumber(s: string): Option<int> {
    if AllDigits(s) then Some(DigitsValue(s))
    else if s != "" && s[0] in {'+', '-'} && AllDigits(s[1..]) then
      Some(if s[0] == '-' then -DigitsValue(s[1..]) else DigitsValue(s[1..]))
    else None
  }
}
