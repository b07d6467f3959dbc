/** The two hand-written classical ciphers of the application: the Caesar
    cipher and the Vigenère cipher with its inverse. The same three
    functions are written twice in the repository, once for the browser
    (client/src/lib/encryption.ts) and once as private helpers of the
    request handlers (server/routes.ts); the two copies are identical, and
    this module is the one model of both. */
module Encryption {
  import opened Js

  // ---------------------------------------------------------------------
  // Caesar
  // ---------------------------------------------------------------------

  /** The callback that `caesarCipher` maps over the characters: a letter
      moves `shift` places along its own alphabet, wrapping around, and any
      other character stays. The shift is any integer, negative ones
      included, because of the `((x % 26) + 26) % 26` normalisation. */
  function CaesarChar(c: char, shift: int): (d: char)
    ensures IsUpper(c) ==> IsUpper(d) && d as int - 'A' as int == (c as int - 'A' as int + shift) % 26
    ensures IsLower(c) ==> IsLower(d) && d as int - 'a' as int == (c as int - 'a' as int + shift) % 26
    ensures !IsLetter(c) ==> d == c
  {
    if IsUpper(c) then
      NormalisedRem26(c as int - 65 + shift);
      (Rem26(Rem26(c as int - 65 + shift) + 26) + 65) as char
    else if IsLower(c) then
      NormalisedRem26(c as int - 97 + shift);
      (Rem26(Rem26(c as int - 97 + shift) + 26) + 97) as char
    else
      c
  }

  /** `caesarCipher(text, shift)`: the text, character by character,
      through CaesarChar. Upper-case letters stay upper-case, lower-case
      letters stay lower-case, and everything else is copied. */
  function CaesarCipher(text: string, shift: int): (r: string)
    ensures |r| == |text|
    ensures forall i :: 0 <= i < |text| ==>
              (IsUpper(r[i]) <==> IsUpper(text[i])) && (IsLower(r[i]) <==> IsLower(text[i]))
    ensures forall i :: 0 <= i < |text| && !IsLetter(text[i]) ==> r[i] == text[i]
  {
    seq(|text|, i requires 0 <= i < |text| => CaesarChar(text[i], shift))
  }

  // ---------------------------------------------------------------------
  // Vigenère
  // ---------------------------------------------------------------------

  /** The number of ASCII letters in s: the value of the loop's `keyIndex`
      once it has read s. */
  function LetterCount(s: string): (n: nat)
    ensures n <= |s|
  {
    if s == [] then 0
    else LetterCount(s[..|s| - 1]) + (if IsLetter(s[|s| - 1]) then 1 else 0)
  }

  predicate NoLetters(s: string)
  {
    forall i :: 0 <= i < |s| ==> !IsLetter(s[i])
  }

  /** A key made of ASCII letters only. */
  predicate LetterKey(key: string)
  {
    forall i :: 0 <= i < |key| ==> IsLetter(key[i])
  }

  /** What the Vigenère loops need of their key. They read it only on
      meeting a letter; an empty key then indexes `key[NaN]`, which is
      `undefined`, and calling `toUpperCase` on that throws. */
  predicate KeyUsable(text: string, key: string)
  {
    |key| > 0 || NoLetters(text)
  }

  /** `key[keyIndex % key.length]`: the key character used by the letter
      that n letters follow. */
  function KeyAt(key: string, n: nat): char
    requires |key| > 0
  {
    key[n % |key|]
  }

  /** `toUpperCase(k) - 65`: the shift a key character stands for. Both
      cases of a letter give the same shift, from 0 for 'A' to 25 for 'Z';
      a key character that is not a letter gives a value out of that range
      (negative for digits and punctuation below 'A'). */
  function KeyValue(k: char): (v: int)
    ensures IsUpper(k) ==> v == k as int - 'A' as int
    ensures IsLower(k) ==> v == k as int - 'a' as int
    ensures IsLetter(k) ==> 0 <= v < 26
  {
    ToUpperCase(k) as int - 65
  }

  /** The body of `vigenereCipher` for one letter c and key character k.
      For a letter k this is the Caesar shift by k's value; for any other
      k the truncating `%` may leave the alphabet. */
  function EncipherLetter(c: char, k: char): (d: char)
    requires IsLetter(c)
    ensures IsLetter(k) ==> d == CaesarChar(c, KeyValue(k))
  {
    var isUpperCase := c == ToUpperCase(c);
    var baseCharCode := if isUpperCase then 65 else 97;
    var textCharCode := ToUpperCase(c) as int - 65;
    var encryptedCharCode := Rem26(textCharCode + KeyValue(k));
    var encryptedChar := (encryptedCharCode + baseCharCode) as char;
    var d := if isUpperCase then encryptedChar else ToLowerCase(encryptedChar);
    assert IsLetter(k) ==> d == CaesarChar(c, KeyValue(k)) by {
      if IsLetter(k) {
        assert encryptedCharCode == (textCharCode + KeyValue(k)) % 26;
        assert d as int == CaesarChar(c, KeyValue(k)) as int;
      }
    }
    d
  }

  /** The body of `vigenereDecipher` for one letter c and key character k:
      for a letter k, the Caesar shift back by k's value. */
  function DecipherLetter(c: char, k: char): (d: char)
    requires IsLetter(c)
    ensures IsLetter(k) ==> d == CaesarChar(c, -KeyValue(k))
  {
    var isUpperCase := c == ToUpperCase(c);
    var baseCharCode := if isUpperCase then 65 else 97;
    var textCharCode := ToUpperCase(c) as int - 65;
    var decryptedCharCode := Rem26(textCharCode - KeyValue(k) + 26);
    var decryptedChar := (decryptedCharCode + baseCharCode) as char;
    var d := if isUpperCase then decryptedChar else ToLowerCase(decryptedChar);
    assert IsLetter(k) ==> d == CaesarChar(c, -KeyValue(k)) by {
      if IsLetter(k) {
        ShiftBack(textCharCode, KeyValue(k));
        assert d as int == CaesarChar(c, -KeyValue(k)) as int;
      }
    }
    d
  }

  /** Adding 26 before the truncating `%` keeps the difference of two
      alphabet positions non-negative, so the result is the Euclidean
      remainder. */
  lemma ShiftBack(t: int, v: int)
    requires 0 <= t < 26 && 0 <= v < 26
    ensures Rem26(t - v + 26) == (t - v) % 26
  {
    assert (t - v + 26) % 26 == (t - v) % 26;
  }

  /** What `vigenereCipher(text, key)` returns, position by position: a
      letter that follows n letters is enciphered with key character
      n mod |key|; any other character is copied and uses no key position.
      EncipheredShift says what happens to a letter under a letter key. */
  function Enciphered(text: string, key: string): (r: string)
    requires KeyUsable(text, key)
    ensures |r| == |text|
    ensures forall i :: 0 <= i < |text| && !IsLetter(text[i]) ==> r[i] == text[i]
  {
    seq(|text|, i requires 0 <= i < |text| =>
      if IsLetter(text[i]) then EncipherLetter(text[i], KeyAt(key, LetterCount(text[..i])))
      else text[i])
  }

  /** What `vigenereDecipher(text, key)` returns: the same walk as
      Enciphered, shifting each letter back. */
  function Deciphered(text: string, key: string): (r: string)
    requires KeyUsable(text, key)
    ensures |r| == |text|
    ensures forall i :: 0 <= i < |text| && !IsLetter(text[i]) ==> r[i] == text[i]
  {
    seq(|text|, i requires 0 <= i < |text| =>
      if IsLetter(text[i]) then DecipherLetter(text[i], KeyAt(key, LetterCount(text[..i])))
      else text[i])
  }

  /** Under a letter key, the letter at position i is Caesar-shifted by the
      value of the key character its letter count selects. */
  lemma EncipheredShift(text: string, key: string, i: int)
    requires |key| > 0 && LetterKey(key) && 0 <= i < |text| && IsLetter(text[i])
    ensures Enciphered(text, key)[i] == CaesarChar(text[i], KeyValue(KeyAt(key, LetterCount(text[..i]))))
  {
    assert IsLetter(KeyAt(key, LetterCount(text[..i])));
  }

  /** Under a letter key, the letter at position i is Caesar-shifted back by
      the value of the key character its letter count selects. */
  lemma DecipheredShift(text: string, key: string, i: int)
    requires |key| > 0 && LetterKey(key) && 0 <= i < |text| && IsLetter(text[i])
    ensures Deciphered(text, key)[i] == CaesarChar(text[i], -KeyValue(KeyAt(key, LetterCount(text[..i]))))
  {
    assert IsLetter(KeyAt(key, LetterCount(text[..i])));
  }

  /** One step of the Vigenère loops: the letter count of the first i + 1
      characters, and the key character that the i-th character uses when
      it is a letter. */
  lemma VigenereStep(text: string, key: string, i: int)
    requires KeyUsable(text, key) && 0 <= i < |text|
    ensures LetterCount(text[..i + 1]) == LetterCount(text[..i]) + (if IsLetter(text[i]) then 1 else 0)
    ensures IsLetter(text[i]) ==> |key| > 0
  {
    assert text[..i + 1][..i] == text[..i];
    if IsLetter(text[i]) {
      assert !NoLetters(text);
    }
  }

  /** `vigenereCipher`: one pass over the text that pushes each output
      character onto `result` and advances `keyIndex` on letters only. The
      arithmetic for a letter is EncipherLetter. */
  method VigenereCipher(text: string, key: string) returns (r: string)
    requires KeyUsable(text, key)
    ensures r == Enciphered(text, key)
  {
    var result: seq<char> := [];
    var keyIndex: nat := 0;
    for i := 0 to |text|
      invariant |result| == i
      invariant keyIndex == LetterCount(text[..i])
      invariant result == Enciphered(text, key)[..i]
    {
      var ch := text[i];
      VigenereStep(text, key, i);
      assert Enciphered(text, key)[..i + 1] == result + [Enciphered(text, key)[i]];
      if IsLetter(ch) {
        result := result + [EncipherLetter(ch, key[keyIndex % |key|])];
        keyIndex := keyIndex + 1;
      } else {
        result := result + [ch];
      }
    }
    assert Enciphered(text, key)[..|text|] == Enciphered(text, key);
    r := result;
  }

  /** `vigenereDecipher`: the same loop as VigenereCipher, with
      DecipherLetter for a letter. */
  method VigenereDecipher(text: string, key: string) returns (r: string)
    requires KeyUsable(text, key)
    ensures r == Deciphered(text, key)
  {
    var result: seq<char> := [];
    var keyIndex: nat := 0;
    for i := 0 to |text|
      invariant |result| == i
      invariant keyIndex == LetterCount(text[..i])
      invariant result == Deciphered(text, key)[..i]
    {
      var ch := text[i];
      VigenereStep(text, key, i);
      assert Deciphered(text, key)[..i + 1] == result + [Deciphered(text, key)[i]];
      if IsLetter(ch) {
        result := result + [DecipherLetter(ch, key[keyIndex % |key|])];
        keyIndex := keyIndex + 1;
      } else {
        result := result + [ch];
      }
    }
    assert Deciphered(text, key)[..|text|] == Deciphered(text, key);
    r := result;
  }
}
