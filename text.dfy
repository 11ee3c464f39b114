/**
 * Character and string helpers used by the schema inference: ASCII digits,
 * Python's str(n) for naturals and int() on strings, str.lower() and
 * str.isspace() restricted to ASCII, and duplicate-free sequences.
 */
module Text {
  import opened Wrappers

  predicate IsDigit(c: char) {
    '0' <= c <= '9'
  }

  predicate AllDigits(s: string) {
    forall i :: 0 <= i < |s| ==> IsDigit(s[i])
  }

  predicate Distinct<T(==)>(s: seq<T>) {
    forall i, j :: 0 <= i < j < |s| ==> s[i] != s[j]
  }

  function DigitChar(d: nat): (c: char)
    requires d < 10
    ensures IsDigit(c) && c as int - '0' as int == d
  {
    ('0' as int + d) as char
  }

  function DigitValue(c: char): nat
    requires IsDigit(c)
  {
    c as int - '0' as int
  }

  /** Python's str(n) for a natural number: decimal digits, no leading zero. */
  function NatToString(n: nat): (s: string)
    ensures |s| > 0 && AllDigits(s)
    ensures |s| > 1 ==> s[0] != '0'
  {
    if n < 10 then [DigitChar(n)] else NatToString(n / 10) + [DigitChar(n % 10)]
  }

  /** The value of a string of decimal digits (the inverse of NatToString). */
  function DigitsValue(s: string): nat
    requires AllDigits(s)
  {
    if s == [] then 0 else DigitsValue(s[..|s| - 1]) * 10 + DigitValue(s[|s| - 1])
  }

  lemma {:induction false} DigitsValueOfNatToString(n: nat)
    ensures DigitsValue(NatToString(n)) == n
  {
    var s := NatToString(n);
    if n < 10 {
      assert s[..|s| - 1] == [];
    } else {
      DigitsValueOfNatToString(n / 10);
      assert s[..|s| - 1] == NatToString(n / 10);
    }
  }

  /** Two numerals are equal only when the numbers are: generated names stay apart. */
  lemma NatToStringInjective(a: nat, b: nat)
    ensures NatToString(a) == NatToString(b) ==> a == b
  {
    DigitsValueOfNatToString(a);
    DigitsValueOfNatToString(b);
  }

  function LowerChar(c: char): char {
    if 'A' <= c <= 'Z' then (c as int - 'A' as int + 'a' as int) as char else c
  }

  /** str.lower() on ASCII letters; every other character is left as it is. */
  function Lower(s: string): (r: string)
    ensures |r| == |s|
    ensures forall i :: 0 <= i < |s| ==> r[i] == LowerChar(s[i])
  {
    if s == [] then [] else [LowerChar(s[0])] + Lower(s[1..])
  }

  lemma LowerIdempotent(s: string)
    ensures Lower(Lower(s)) == Lower(s)
  {
  }

  /** The ASCII characters for which Python's str.isspace() holds. */
  predicate IsSpaceChar(c: char) {
    c == ' ' || 9 <= c as int <= 13 || 28 <= c as int <= 31
  }

  /** str.isspace(): false on the empty string. */
  predicate IsSpace(s: string) {
    |s| > 0 && forall i :: 0 <= i < |s| ==> IsSpaceChar(s[i])
  }

  /** The string without its leading whitespace. */
  function TrimStart(s: string): (r: string)
    ensures |r| <= |s| && r == s[|s| - |r|..]
    ensures r == [] || !IsSpaceChar(r[0])
  {
    if s != [] && IsSpaceChar(s[0]) then TrimStart(s[1..]) else s
  }

  /** The string without its trailing whitespace. */
  function TrimEnd(s: string): (r: string)
    ensures |r| <= |s| && r == s[..|r|]
    ensures r == [] || !IsSpaceChar(r[|r| - 1])
  {
    if s != [] && IsSpaceChar(s[|s| - 1]) then TrimEnd(s[..|s| - 1]) else s
  }

  /**
   * Python's int() on a string: whitespace around an optionally signed,
   * non-empty run of decimal digits; None where int() raises ValueError.
   */
  function ParseInt(s: string): Option<int> {
    Signed(TrimEnd(TrimStart(s)))
  }

  /** An optionally signed, non-empty run of decimal digits, and its value. */
  function Signed(t: string): (r: Option<int>)
    ensures r.Some? ==> t != [] && IsDigit(t[|t| - 1])
  {
    if |t| > 1 && (t[0] == '+' || t[0] == '-') && AllDigits(t[1..]) then
      var v: int := DigitsValue(t[1..]);
      Some(if t[0] == '-' then -v else v)
    else if t != [] && AllDigits(t) then
      Some(DigitsValue(t))
    else
      None
  }

  /** int(str(n)) == n. */
  lemma ParseIntOfNatToString(n: nat)
    ensures ParseInt(NatToString(n)) == Some(n)
  {
    var s := NatToString(n);
    assert TrimStart(s) == s by { assert !IsSpaceChar(s[0]); }
    assert TrimEnd(s) == s by { assert !IsSpaceChar(s[|s| - 1]); }
    DigitsValueOfNatToString(n);
  }

  /** int("-" + str(n)) == -n. */
  lemma ParseIntOfNegative(n: nat)
    ensures ParseInt("-" + NatToString(n)) == Some(-(n as int))
  {
    var d := NatToString(n);
    var s := "-" + d;
    assert s[0] == '-' && s[1..] == d;
    assert TrimStart(s) == s by { assert !IsSpaceChar(s[0]); }
    assert TrimEnd(s) == s by { assert s[|s| - 1] == d[|d| - 1]; }
    DigitsValueOfNatToString(n);
    assert Signed(s) == Some(-(n as int));
  }

  /** int() ignores the whitespace around the number. */
  lemma ParseIntIgnoresSpace(s: string)
    ensures ParseInt(" " + s + " ") == ParseInt(s)
  {
    var p := " " + s + " ";
    assert TrimStart(p) == TrimStart(s + " ") by { assert p[1..] == s + " "; }
    TrimPadded(s);
  }

  /** One more space at the end changes nothing once both ends are trimmed. */
  lemma {:induction false} TrimPadded(s: string)
    ensures TrimEnd(TrimStart(s + " ")) == TrimEnd(TrimStart(s))
  {
    if s != [] && IsSpaceChar(s[0]) {
      assert (s + " ")[1..] == s[1..] + " ";
      TrimPadded(s[1..]);
    } else if s != [] {
      assert (s + " ")[..|s + " "| - 1] == s;
    }
  }
}
