/** Worked examples of the classical ciphers, including the start of the
    classic Vigenère reference vector and what a key with a digit in it
    does. */
module CipherVectors {
  import opened Js
  import opened Encryption
  import opened CipherLaws

  /** Shift 3 moves "ABC" to "DEF" and wraps "XYZ" round to "ABC". */
  lemma CaesarShiftThree()
    ensures CaesarCipher("ABC", 3) == "DEF"
    ensures CaesarCipher("XYZ", 3) == "ABC"
  {
  }

  /** Case, spaces and punctuation survive a Caesar shift. */
  lemma CaesarMixedText()
    ensures CaesarCipher("Attack at Dawn!", 3) == "Dwwdfn dw Gdzq!"
  {
  }

  /** Every character of s is a letter. */
  predicate AllLetters(s: string)
  {
    forall i :: 0 <= i < |s| ==> IsLetter(s[i])
  }

  lemma {:induction false} LetterCountOfLetters(s: string)
    requires AllLetters(s)
    ensures LetterCount(s) == |s|
  {
    if s != [] {
      LetterCountOfLetters(s[..|s| - 1]);
    }
  }

  /** On a text of letters only, the i-th letter uses key character
      i mod |key|; this lemma turns a position-by-position check into the
      whole enciphered text. */
  lemma EncipheredLetters(text: string, key: string, expected: string)
    requires AllLetters(text) && |key| > 0 && |expected| == |text|
    requires forall i :: 0 <= i < |text| ==> EncipherLetter(text[i], key[i % |key|]) == expected[i]
    ensures Enciphered(text, key) == expected
  {
    forall i | 0 <= i < |text|
      ensures Enciphered(text, key)[i] == expected[i]
    {
      assert AllLetters(text[..i]) by {
        forall j | 0 <= j < i ensures IsLetter(text[..i][j]) {
          assert text[..i][j] == text[j];
        }
      }
      LetterCountOfLetters(text[..i]);
      assert Enciphered(text, key)[i] == EncipherLetter(text[i], key[i % |key|]);
    }
  }

  /** The start of the classic Vigenère vector: ATTACK under LEMON, where
      the sixth letter wraps round to the key's first character. */
  lemma VigenereLemon()
    ensures Enciphered("ATTACK", "LEMON") == "LXFOPV"
  {
    EncipheredLetters("ATTACK", "LEMON", "LXFOPV");
  }

  /** LXFOPV deciphers under LEMON back to ATTACK. */
  lemma VigenereLemonInverse()
    ensures Deciphered("LXFOPV", "LEMON") == "ATTACK"
  {
    VigenereLemon();
    assert LetterKey("LEMON");
    VigenereRoundTrip("ATTACK", "LEMON");
  }

  /** The digit in "a1b" takes no key position: 'a' uses 'x' and 'b' uses
      'y'. */
  lemma VigenereDigitSkipped()
    ensures Enciphered("a1b", "xy") == "x1z"
  {
    var t := "a1b";
    assert t[..1] == "a" && t[..2] == "a1";
    assert "a"[..0] == [] && "a1"[..1] == "a";
  }

  /** A key character that is not a letter gives a shift outside 0..25, and
      the truncating `%` can then leave the alphabet: with key "3" the
      letter 'A' becomes the digit '3', and 'a' becomes 's', which
      deciphers to 'g', not back to 'a'. */
  lemma VigenereDigitKey()
    ensures Enciphered("A", "3") == "3"
    ensures Enciphered("a", "3") == "s"
    ensures Deciphered("s", "3") == "g"
  {
  }
}
