/** What the classical ciphers of module Encryption guarantee: the algebra
    of the Caesar shift (identity, period 26, composition, inverse), the
    Vigenère round trip for letter keys, the irrelevance of the key's case,
    the reduction of a one-letter key to Caesar, and the rule that a
    character other than a letter uses no key position. */
module CipherLaws {
  import opened Js
  import opened Encryption

  // ---------------------------------------------------------------------
  // Caesar
  // ---------------------------------------------------------------------

  /** Adding after reducing modulo 26 is adding before reducing. */
  lemma ModAdd(y: int, b: int)
    ensures (y % 26 + b) % 26 == (y + b) % 26
  {
    var q := y / 26;
    assert y + b == (y % 26 + b) + 26 * q;
  }

  /** Shifting by a and then by b is shifting by a + b. */
  lemma CaesarCharCompose(c: char, a: int, b: int)
    ensures CaesarChar(CaesarChar(c, a), b) == CaesarChar(c, a + b)
  {
    var d := CaesarChar(c, a);
    if IsUpper(c) {
      var x := c as int - 'A' as int;
      ModAdd(x + a, b);
      assert CaesarChar(d, b) as int == CaesarChar(c, a + b) as int;
    } else if IsLower(c) {
      var x := c as int - 'a' as int;
      ModAdd(x + a, b);
      assert CaesarChar(d, b) as int == CaesarChar(c, a + b) as int;
    }
  }

  /** Two Caesar shifts in a row are one Caesar shift by their sum. */
  lemma CaesarCompose(text: string, a: int, b: int)
    ensures CaesarCipher(CaesarCipher(text, a), b) == CaesarCipher(text, a + b)
  {
    var once := CaesarCipher(text, a);
    forall i | 0 <= i < |text|
      ensures CaesarCipher(once, b)[i] == CaesarCipher(text, a + b)[i]
    {
      CaesarCharCompose(text[i], a, b);
    }
  }

  /** A shift of 0 leaves a character as it is. */
  lemma CaesarCharZero(c: char)
    ensures CaesarChar(c, 0) == c
  {
    var d := CaesarChar(c, 0);
    if IsUpper(c) {
      assert d as int == c as int;
    } else if IsLower(c) {
      assert d as int == c as int;
    }
  }

  /** A shift of 0 changes nothing. */
  lemma CaesarIdentity(text: string)
    ensures CaesarCipher(text, 0) == text
  {
    forall i | 0 <= i < |text|
      ensures CaesarCipher(text, 0)[i] == text[i]
    {
      CaesarCharZero(text[i]);
    }
  }

  /** Decryption with the negated shift undoes encryption, for every
      integer shift, negative ones and ones beyond ±26 included. */
  lemma CaesarRoundTrip(text: string, shift: int)
    ensures CaesarCipher(CaesarCipher(text, shift), -shift) == text
  {
    CaesarCompose(text, shift, -shift);
    CaesarIdentity(text);
  }

  /** Shifts that differ by 26 encrypt alike. */
  lemma CaesarPeriodic(text: string, shift: int)
    ensures CaesarCipher(text, shift + 26) == CaesarCipher(text, shift)
  {
    forall i | 0 <= i < |text|
      ensures CaesarCipher(text, shift + 26)[i] == CaesarCipher(text, shift)[i]
    {
      var c := text[i];
      if IsUpper(c) {
        var x := c as int - 'A' as int;
        assert (x + shift + 26) % 26 == (x + shift) % 26;
        assert CaesarChar(c, shift + 26) as int == CaesarChar(c, shift) as int;
      } else if IsLower(c) {
        var x := c as int - 'a' as int;
        assert (x + shift + 26) % 26 == (x + shift) % 26;
        assert CaesarChar(c, shift + 26) as int == CaesarChar(c, shift) as int;
      }
    }
  }

  // ---------------------------------------------------------------------
  // Counting letters
  // ---------------------------------------------------------------------

  /** Two strings with letters at the same positions hold the same number
      of letters. */
  lemma {:induction false} LetterCountAgree(a: string, b: string)
    requires |a| == |b|
    requires forall i :: 0 <= i < |a| ==> (IsLetter(a[i]) <==> IsLetter(b[i]))
    ensures LetterCount(a) == LetterCount(b)
  {
    if a != [] {
      LetterCountAgree(a[..|a| - 1], b[..|b| - 1]);
    }
  }

  /** Counting letters is additive over concatenation. */
  lemma {:induction false} LetterCountAppend(a: string, b: string)
    ensures LetterCount(a + b) == LetterCount(a) + LetterCount(b)
  {
    if b != [] {
      assert (a + b)[..|a + b| - 1] == a + b[..|b| - 1];
      LetterCountAppend(a, b[..|b| - 1]);
    } else {
      assert a + b == a;
    }
  }

  // ---------------------------------------------------------------------
  // Vigenère
  // ---------------------------------------------------------------------

  /** Texts with letters at the same positions have equal letter counts
      in every prefix. */
  lemma LetterCountsAgree(a: string, b: string)
    requires |a| == |b|
    requires forall i :: 0 <= i < |a| ==> (IsLetter(a[i]) <==> IsLetter(b[i]))
    ensures forall i :: 0 <= i <= |a| ==> LetterCount(a[..i]) == LetterCount(b[..i])
  {
    forall i | 0 <= i <= |a|
      ensures LetterCount(a[..i]) == LetterCount(b[..i])
    {
      LetterCountAgree(a[..i], b[..i]);
    }
  }

  /** With a non-empty letter key, enciphering keeps every upper-case
      letter upper-case, every lower-case letter lower-case, and every
      other character as it is. */
  lemma EncipheredKeepsCase(text: string, key: string)
    requires |key| > 0 && LetterKey(key)
    ensures forall i :: 0 <= i < |text| ==>
      (IsUpper(Enciphered(text, key)[i]) <==> IsUpper(text[i])) &&
      (IsLower(Enciphered(text, key)[i]) <==> IsLower(text[i]))
  {
    forall i | 0 <= i < |text| && IsLetter(text[i])
      ensures IsUpper(Enciphered(text, key)[i]) <==> IsUpper(text[i])
      ensures IsLower(Enciphered(text, key)[i]) <==> IsLower(text[i])
    {
      EncipheredShift(text, key, i);
    }
  }

  /** With a non-empty letter key, deciphering keeps the case of every
      letter and every other character as it is. */
  lemma DecipheredKeepsCase(text: string, key: string)
    requires |key| > 0 && LetterKey(key)
    ensures forall i :: 0 <= i < |text| ==>
      (IsUpper(Deciphered(text, key)[i]) <==> IsUpper(text[i])) &&
      (IsLower(Deciphered(text, key)[i]) <==> IsLower(text[i]))
  {
    forall i | 0 <= i < |text| && IsLetter(text[i])
      ensures IsUpper(Deciphered(text, key)[i]) <==> IsUpper(text[i])
      ensures IsLower(Deciphered(text, key)[i]) <==> IsLower(text[i])
    {
      DecipheredShift(text, key, i);
    }
  }

  /** Deciphering with a non-empty letter key undoes enciphering with it. */
  lemma VigenereRoundTrip(text: string, key: string)
    requires |key| > 0 && LetterKey(key)
    ensures Deciphered(Enciphered(text, key), key) == text
  {
    var e := Enciphered(text, key);
    EncipheredKeepsCase(text, key);
    LetterCountsAgree(e, text);
    forall i | 0 <= i < |text| && IsLetter(text[i])
      ensures Deciphered(e, key)[i] == text[i]
    {
      LetterRoundTrip(text, e, key, i);
    }
  }

  /** The letter at position i comes back when e, its encryption, is
      deciphered: both use the same key character. */
  lemma LetterRoundTrip(text: string, e: string, key: string, i: int)
    requires |key| > 0 && LetterKey(key) && e == Enciphered(text, key)
    requires 0 <= i < |text| && IsLetter(text[i]) && IsLetter(e[i])
    requires LetterCount(e[..i]) == LetterCount(text[..i])
    ensures Deciphered(e, key)[i] == text[i]
  {
    var v := KeyValue(KeyAt(key, LetterCount(text[..i])));
    EncipheredShift(text, key, i);
    DecipheredShift(e, key, i);
    CaesarCharCompose(text[i], v, -v);
    CaesarCharZero(text[i]);
  }

  /** Enciphering with a non-empty letter key undoes deciphering with it. */
  lemma VigenereRoundTripConverse(text: string, key: string)
    requires |key| > 0 && LetterKey(key)
    ensures Enciphered(Deciphered(text, key), key) == text
  {
    var d := Deciphered(text, key);
    DecipheredKeepsCase(text, key);
    LetterCountsAgree(d, text);
    forall i | 0 <= i < |text| && IsLetter(text[i])
      ensures Enciphered(d, key)[i] == text[i]
    {
      LetterRoundTripConverse(text, d, key, i);
    }
  }

  /** The letter at position i comes back when d, its decryption, is
      enciphered. */
  lemma LetterRoundTripConverse(text: string, d: string, key: string, i: int)
    requires |key| > 0 && LetterKey(key) && d == Deciphered(text, key)
    requires 0 <= i < |text| && IsLetter(text[i]) && IsLetter(d[i])
    requires LetterCount(d[..i]) == LetterCount(text[..i])
    ensures Enciphered(d, key)[i] == text[i]
  {
    var v := KeyValue(KeyAt(key, LetterCount(text[..i])));
    DecipheredShift(text, key, i);
    EncipheredShift(d, key, i);
    CaesarCharCompose(text[i], -v, v);
    CaesarCharZero(text[i]);
  }

  /** Two positions that hold the same character after the same number of
      letters encipher alike. */
  lemma EncipheredAlike(s: string, t: string, key: string, i: int, j: int)
    requires KeyUsable(s, key) && KeyUsable(t, key)
    requires 0 <= i < |s| && 0 <= j < |t| && s[i] == t[j]
    requires LetterCount(s[..i]) == LetterCount(t[..j])
    ensures Enciphered(s, key)[i] == Enciphered(t, key)[j]
  {
  }

  /** Two keys of the same length that agree once upper-cased. */
  predicate SameKeyUpToCase(k1: string, k2: string)
  {
    |k1| == |k2| && forall i :: 0 <= i < |k1| ==> ToUpperCase(k1[i]) == ToUpperCase(k2[i])
  }

  /** Only the upper-cased key matters: "lemon" and "LEMON" encipher and
      decipher alike. */
  lemma VigenereKeyCase(text: string, k1: string, k2: string)
    requires KeyUsable(text, k1) && SameKeyUpToCase(k1, k2)
    ensures Enciphered(text, k1) == Enciphered(text, k2)
    ensures Deciphered(text, k1) == Deciphered(text, k2)
  {
    forall i | 0 <= i < |text| && IsLetter(text[i])
      ensures Enciphered(text, k1)[i] == Enciphered(text, k2)[i]
      ensures Deciphered(text, k1)[i] == Deciphered(text, k2)[i]
    {
      var n := LetterCount(text[..i]);
      assert KeyValue(KeyAt(k1, n)) == KeyValue(KeyAt(k2, n));
    }
  }

  /** A one-letter key c enciphers as the Caesar cipher with shift
      c - 'A'. */
  lemma VigenereOneLetterKey(text: string, c: char)
    requires IsLetter(c)
    ensures Enciphered(text, [c]) == CaesarCipher(text, KeyValue(c))
  {
    var e := Enciphered(text, [c]);
    var caesar := CaesarCipher(text, KeyValue(c));
    forall i | 0 <= i < |text|
      ensures e[i] == caesar[i]
    {
      if IsLetter(text[i]) {
        assert KeyAt([c], LetterCount(text[..i])) == c;
        assert e[i] == EncipherLetter(text[i], c);
      }
    }
  }

  /** A one-letter key c deciphers as the Caesar cipher with shift
      'A' - c. */
  lemma VigenereOneLetterKeyInverse(text: string, c: char)
    requires IsLetter(c)
    ensures Deciphered(text, [c]) == CaesarCipher(text, -KeyValue(c))
  {
    var d := Deciphered(text, [c]);
    var caesar := CaesarCipher(text, -KeyValue(c));
    forall i | 0 <= i < |text|
      ensures d[i] == caesar[i]
    {
      if IsLetter(text[i]) {
        assert KeyAt([c], LetterCount(text[..i])) == c;
        assert d[i] == DecipherLetter(text[i], c);
      }
    }
  }

  /** A key of 'A's (either case) leaves the text as it is. */
  lemma VigenereAllAKey(text: string, key: string)
    requires |key| > 0
    requires forall i :: 0 <= i < |key| ==> ToUpperCase(key[i]) == 'A'
    ensures Enciphered(text, key) == text
    ensures Deciphered(text, key) == text
  {
    assert LetterKey(key) by {
      forall i | 0 <= i < |key| ensures IsLetter(key[i]) {
        assert IsLetter(ToUpperCase(key[i]));
      }
    }
    CaesarIdentity(text);
    forall i | 0 <= i < |text| && IsLetter(text[i])
      ensures Enciphered(text, key)[i] == text[i]
      ensures Deciphered(text, key)[i] == text[i]
    {
      var k := KeyAt(key, LetterCount(text[..i]));
      assert KeyValue(k) == 0;
      assert CaesarCipher(text, 0)[i] == CaesarChar(text[i], 0);
    }
  }

  /** A character other than a letter is copied and uses no key position:
      removing it from the text leaves the encryption of every other
      character as it was. */
  lemma VigenereSkipsNonLetter(before: string, c: char, after: string, key: string)
    requires !IsLetter(c) && KeyUsable(before + after, key)
    ensures KeyUsable(before + [c] + after, key)
    ensures var shorter := Enciphered(before + after, key);
            Enciphered(before + [c] + after, key) == shorter[..|before|] + [c] + shorter[|before|..]
  {
    var long := before + [c] + after;
    var short := before + after;
    if |key| == 0 {
      assert NoLetters(long) by {
        forall i | 0 <= i < |long| ensures !IsLetter(long[i]) {
          if i < |before| { assert long[i] == short[i]; }
          else if i > |before| { assert long[i] == short[i - 1]; }
        }
      }
    }
    var es := Enciphered(short, key);
    var expected := es[..|before|] + [c] + es[|before|..];
    forall i | 0 <= i < |long|
      ensures Enciphered(long, key)[i] == expected[i]
    {
      if i < |before| {
        assert long[..i] == short[..i];
        EncipheredAlike(long, short, key, i, i);
      } else if i > |before| {
        var j := i - 1;
        var rest := after[..j - |before|];
        assert long[..i] == (before + [c]) + rest;
        assert short[..j] == before + rest;
        LetterCountAppend(before + [c], rest);
        LetterCountAppend(before, rest);
        LetterCountAppend(before, [c]);
        assert LetterCount([c]) == 0 by {
          assert [c][..0] == [];
        }
        EncipheredAlike(long, short, key, i, j);
      }
    }
  }
}
