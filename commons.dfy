/**
 * The pieces of seedu.address.commons and java.lang that the parsers rely on:
 * String.trim, the one-based Index, and StringUtil.isNonZeroUnsignedInteger.
 */
module Commons {

  /** Integer.MAX_VALUE: Integer.parseInt rejects anything larger. */
  const MaxInt: nat := 0x7FFF_FFFF

  /** String.trim strips every character whose code is at most U+0020. */
  predicate IsBlank(c: char) {
    c <= ' '
  }

  /** Leading trimmable characters removed. */
  function TrimStart(s: string): (r: string)
    ensures |r| <= |s|
    ensures r == [] || !IsBlank(r[0])
    ensures forall i :: 0 <= i < |s| - |r| ==> IsBlank(s[i])
  {
    if s == [] || !IsBlank(s[0]) then s else TrimStart(s[1..])
  }

  /** Trailing trimmable characters removed. */
  function TrimEnd(s: string): (r: string)
    ensures |r| <= |s|
    ensures r == [] || r[0] == s[0]
    ensures r == [] || !IsBlank(r[|r| - 1])
    ensures forall i :: |r| <= i < |s| ==> IsBlank(s[i])
  {
    if s == [] || !IsBlank(s[|s| - 1]) then s else TrimEnd(s[..|s| - 1])
  }

  /** String.trim: the longest infix of s that neither starts nor ends with a trimmable character. */
  function Trim(s: string): (r: string)
    ensures |r| <= |s|
    ensures r == [] || (!IsBlank(r[0]) && !IsBlank(r[|r| - 1]))
  {
    TrimEnd(TrimStart(s))
  }

  /** Trimming twice is trimming once, so a parser that trims first cannot tell s from Trim(s). */
  lemma TrimIdempotent(s: string)
    ensures Trim(Trim(s)) == Trim(s)
  {
  }

  /** TrimStart removes a prefix: what is left is a suffix of s. */
  lemma {:induction false} TrimStartIsSuffix(s: string)
    ensures TrimStart(s) == s[|s| - |TrimStart(s)|..]
  {
    if s != [] && IsBlank(s[0]) {
      TrimStartIsSuffix(s[1..]);
    }
  }

  /** TrimEnd removes a suffix: what is left is a prefix of s. */
  lemma {:induction false} TrimEndIsPrefix(s: string)
    ensures TrimEnd(s) == s[..|TrimEnd(s)|]
  {
    if s != [] && IsBlank(s[|s| - 1]) {
      TrimEndIsPrefix(s[..|s| - 1]);
    }
  }

  /**
   * String.trim returns the contiguous part of s left after dropping the blanks at both ends:
   * everything before it and everything after it is blank.
   */
  lemma TrimIsInfix(s: string)
    ensures var k := |s| - |TrimStart(s)|;
      && k + |Trim(s)| <= |s|
      && Trim(s) == s[k..k + |Trim(s)|]
      && (forall i :: 0 <= i < k ==> IsBlank(s[i]))
      && (forall i :: k + |Trim(s)| <= i < |s| ==> IsBlank(s[i]))
  {
    TrimStartIsSuffix(s);
    TrimEndIsPrefix(TrimStart(s));
  }

  predicate IsDigit(c: char) {
    '0' <= c <= '9'
  }

  predicate IsDigits(s: string) {
    forall i :: 0 <= i < |s| ==> IsDigit(s[i])
  }

  /** A numeral has no surrounding whitespace to trim. */
  lemma DigitsAreTrimmed(s: string)
    requires |s| > 0 && IsDigits(s)
    ensures Trim(s) == s
  {
  }

  /** The value of a decimal numeral (leading zeros allowed, as Integer.parseInt allows them). */
  function DecimalValue(s: string): nat
    requires IsDigits(s)
  {
    if s == [] then 0
    else 10 * DecimalValue(s[..|s| - 1]) + (s[|s| - 1] - '0') as nat
  }

  /** The shortest decimal numeral of n, as Integer.toString writes it. */
  function Decimal(n: nat): (r: string)
    ensures |r| > 0 && IsDigits(r)
  {
    if n < 10 then [('0' as int + n) as char]
    else Decimal(n / 10) + [('0' as int + n % 10) as char]
  }

  /** Reading back what Decimal writes gives the number again. */
  lemma {:induction false} DecimalRoundTrip(n: nat)
    ensures DecimalValue(Decimal(n)) == n
  {
    var r := Decimal(n);
    if n >= 10 {
      DecimalRoundTrip(n / 10);
      assert r[..|r| - 1] == Decimal(n / 10);
    }
  }

  /**
   * StringUtil.isNonZeroUnsignedInteger: Integer.parseInt succeeds on the string, the value is
   * positive and the string has no leading '+'. For ASCII input that is: a non-empty run of
   * decimal digits whose value lies in 1..Integer.MAX_VALUE.
   */
  predicate IsNonZeroUnsignedInteger(s: string) {
    |s| > 0 && IsDigits(s) && 0 < DecimalValue(s) <= MaxInt
  }

  /** Index: a position in a displayed list, kept zero-based as in the Java class. */
  datatype Index = Index(zeroBased: nat) {
    function OneBased(): nat {
      zeroBased + 1
    }
  }

  /** Index.fromOneBased, defined only for positive one-based values. */
  function FromOneBased(oneBased: nat): (i: Index)
    requires oneBased > 0
    ensures i.OneBased() == oneBased
  {
    Index(oneBased - 1)
  }
}
