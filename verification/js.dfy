/** The few JavaScript built-ins that the ciphers and the request handlers
    rely on: `undefined`, the `%` operator, the ASCII letter tests
    `/[A-Z]/`, `/[a-z]/` and `/[A-Za-z]/`, `toUpperCase`/`toLowerCase` on
    one character (ASCII letters only; every other character is left as
    it is), and `parseInt` on decimal text. */
module Js {

  /** A value that may be `undefined`. */
  datatype Option<+T> = None | Some(value: T)

  // ---------------------------------------------------------------------
  // The `%` operator
  // ---------------------------------------------------------------------

  /** JavaScript's `a % 26` on integers: the quotient is truncated toward
      zero, so the remainder takes the sign of the dividend (unlike Dafny's
      `%`, whose remainder is never negative). Both ciphers divide by 26
      only. */
  function Rem26(a: int): (r: int)
    ensures -26 < r < 26
    ensures a >= 0 ==> r == a % 26
    ensures a < 0 ==> r <= 0
    ensures r % 26 == a % 26
  {
    if a >= 0 then a % 26 else -((-a) % 26)
  }

  /** `((a % 26) + 26) % 26`, the idiom of the Caesar cipher, is the
      Euclidean remainder: it is never negative, whatever the sign of a. */
  lemma NormalisedRem26(a: int)
    ensures Rem26(Rem26(a) + 26) == a % 26
  {
    var r := Rem26(a);
    assert 0 < r + 26 < 52;
    assert (r + 26) % 26 == r % 26;
  }

  // ---------------------------------------------------------------------
  // Characters
  // ---------------------------------------------------------------------

  /** `/[A-Z]/.test(c)` for a single character. */
  predicate IsUpper(c: char) { 'A' <= c <= 'Z' }

  /** `/[a-z]/.test(c)` for a single character. */
  predicate IsLower(c: char) { 'a' <= c <= 'z' }

  /** `/[A-Za-z]/.test(c)` for a single character. */
  predicate IsLetter(c: char) { IsUpper(c) || IsLower(c) }

  /** `c.toUpperCase()`, restricted to ASCII: lower-case letters move to
      upper case and every other character is left as it is. */
  function ToUpperCase(c: char): (u: char)
    ensures !IsLower(u)
    ensures IsLetter(u) <==> IsLetter(c)
    ensures !IsLower(c) ==> u == c
    ensures IsLower(c) ==> u as int - 'A' as int == c as int - 'a' as int
    ensures IsLower(c) ==> ToLowerCase(u) == c
  {
    if IsLower(c) then (c as int - 32) as char else c
  }

  /** `c.toLowerCase()`, restricted to ASCII. */
  function ToLowerCase(c: char): (l: char)
    ensures !IsUpper(l)
    ensures IsLetter(l) <==> IsLetter(c)
    ensures !IsUpper(c) ==> l == c
    ensures IsUpper(c) ==> l as int - 'a' as int == c as int - 'A' as int
  {
    if IsUpper(c) then (c as int + 32) as char else c
  }

  // ---------------------------------------------------------------------
  // parseInt
  // ---------------------------------------------------------------------

  /** The white space that `parseInt` skips before the number (ASCII part). */
  predicate IsWhitespace(c: char)
  {
    c == ' ' || c == '\t' || c == '\n' || c == '\r' || c == '\U{000B}' || c == '\U{000C}'
  }

  predicate IsDigit(c: char) { '0' <= c <= '9' }

  predicate AllDigits(s: string) { forall i :: 0 <= i < |s| ==> IsDigit(s[i]) }

  /** s without its leading white space. */
  function TrimStart(s: string): (t: string)
    ensures |t| <= |s| && t == s[|s| - |t|..]
    ensures t == [] || !IsWhitespace(t[0])
    ensures forall i :: 0 <= i < |s| - |t| ==> IsWhitespace(s[i])
  {
    if s != [] && IsWhitespace(s[0]) then TrimStart(s[1..]) else s
  }

  /** The longest prefix of s made of decimal digits. */
  function DigitPrefix(s: string): (d: string)
    ensures d <= s && AllDigits(d)
    ensures |d| < |s| ==> !IsDigit(s[|d|])
  {
    if s != [] && IsDigit(s[0]) then [s[0]] + DigitPrefix(s[1..]) else []
  }

  /** The number a string of decimal digits denotes. */
  function DigitsValue(d: string): nat
    requires AllDigits(d)
  {
    if d == [] then 0 else 10 * DigitsValue(d[..|d| - 1]) + (d[|d| - 1] as int - '0' as int)
  }

  /** `parseInt(s)` with no radix, `None` standing for NaN: leading white
      space, then an optional sign, then the longest run of decimal digits;
      NaN when that run is empty. */
  function ParseInt(s: string): (r: Option<int>)
    ensures (forall i :: 0 <= i < |s| ==> IsWhitespace(s[i])) ==> r == None
    ensures r.Some? && r.value < 0 ==> '-' in s
  {
    ParseSigned(TrimStart(s))
  }

  /** `parseInt` once the white space is skipped. */
  function ParseSigned(t: string): (r: Option<int>)
    ensures t == [] ==> r == None
    ensures t != [] && IsDigit(t[0]) ==> r.Some? && r.value >= 0
    ensures r.Some? && r.value < 0 ==> t[0] == '-'
  {
    var negative := t != [] && t[0] == '-';
    var unsigned := if t != [] && (t[0] == '-' || t[0] == '+') then t[1..] else t;
    var digits := DigitPrefix(unsigned);
    var magnitude: int := DigitsValue(digits);
    if digits == [] then None
    else if negative then Some(-magnitude)
    else Some(magnitude)
  }

  /** The decimal text of a natural number, most significant digit first. */
  function NatToString(n: nat): (s: string)
    ensures s != [] && AllDigits(s)
  {
    if n < 10 then [('0' as int + n) as char]
    else NatToString(n / 10) + [('0' as int + n % 10) as char]
  }

  /** The decimal text of an integer, as JavaScript's `String(n)` writes it
      for integers below 2^53. */
  function IntToString(n: int): (s: string)
    ensures s != []
    ensures n >= 0 ==> AllDigits(s)
    ensures n < 0 ==> s[0] == '-' && AllDigits(s[1..])
  {
    if n < 0 then "-" + NatToString(-n) else NatToString(n)
  }

  lemma {:induction false} DigitPrefixOfDigits(s: string)
    requires AllDigits(s)
    ensures DigitPrefix(s) == s
  {
    if s != [] {
      DigitPrefixOfDigits(s[1..]);
    }
  }

  lemma {:induction false} DigitsValueOfNatToString(n: nat)
    ensures DigitsValue(NatToString(n)) == n
  {
    if n >= 10 {
      DigitsValueOfNatToString(n / 10);
      var s := NatToString(n);
      assert s[..|s| - 1] == NatToString(n / 10);
    }
  }

  /** `parseInt` reads back every integer that `String` writes. */
  lemma ParseIntOfIntToString(n: int)
    ensures ParseInt(IntToString(n)) == Some(n)
  {
    var s := IntToString(n);
    var m: nat := if n < 0 then -n else n;
    var digits := NatToString(m);
    DigitPrefixOfDigits(digits);
    DigitsValueOfNatToString(m);
    assert !IsWhitespace(s[0]);
    assert TrimStart(s) == s;
    if n < 0 {
      assert s[1..] == digits;
      assert ParseSigned(s) == Some(n);
    } else {
      assert ParseSigned(s) == Some(n);
    }
  }

  /** Text in which no character other than white space is a sign or a
      digit (the empty string, "abc", an absent key read as "undefined")
      parses as NaN. */
  lemma ParseIntNaN(s: string)
    requires forall i :: 0 <= i < |s| && !IsWhitespace(s[i]) ==>
               !IsDigit(s[i]) && s[i] != '-' && s[i] != '+'
    ensures ParseInt(s) == None
  {
    var t := TrimStart(s);
    if t != [] {
      assert t[0] == s[|s| - |t|];
    }
  }
}
