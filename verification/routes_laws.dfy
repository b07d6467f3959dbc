/** What the encrypt and decrypt handlers guarantee: which of the three
    answers a request gets, that a rejected request runs no cipher, how the
    Caesar and Vigenère keys default, and that decrypting what was
    encrypted with the same key gives the text back for both classical
    ciphers. */
module RoutesLaws {
  import opened Js
  import opened Encryption
  import opened Routes
  import CipherLaws

  /** Each request gets exactly one of four answers, and which one is
      decided by the request alone: the "required" message when text or
      algorithm is missing or empty; the "unsupported" message for a tag
      the switch does not list; a 500 exactly when the library is called
      and throws; a result otherwise. */
  lemma HandleOutcome(lib: CryptoLibrary, direction: Direction,
                      text: Option<string>, algorithm: Option<string>, key: Option<string>)
    ensures var r := Handle(lib, direction, text, algorithm, key);
      && (r == BadRequest(RequiredMessage) <==> !Truthy(text) || !Truthy(algorithm))
      && (r == BadRequest(UnsupportedMessage) <==>
            Truthy(text) && Truthy(algorithm) && ParseAlgorithm(algorithm.value).None?)
      && (r.ServerError? <==> LibraryThrows(lib, direction, text, algorithm, key))
      && (r.ServerError? ==> r.message == ErrorMessage(direction))
      && (r.Ok? <==> Truthy(text) && Truthy(algorithm) && ParseAlgorithm(algorithm.value).Some?
                     && !LibraryThrows(lib, direction, text, algorithm, key))
  {
    assert RequiredMessage != UnsupportedMessage by {
      assert RequiredMessage[0] != UnsupportedMessage[0];
    }
  }

  /** Only requests for a library cipher consult the library: for a
      rejected request, and for Caesar and Vigenère, the answer is the same
      whatever the library does. */
  lemma NoLibraryUnlessLibraryCipher(lib1: CryptoLibrary, lib2: CryptoLibrary, direction: Direction,
                                     text: Option<string>, algorithm: Option<string>, key: Option<string>)
    requires !Truthy(text) || !Truthy(algorithm) || !ParseAlgorithm(algorithm.value).Some?
             || !ParseAlgorithm(algorithm.value).value.Library?
    ensures Handle(lib1, direction, text, algorithm, key) == Handle(lib2, direction, text, algorithm, key)
  {
  }

  /** "rsa", which the playground offers, is not a case of the switch: the
      server rejects it as unsupported in both directions. */
  lemma RsaUnsupported(lib: CryptoLibrary, direction: Direction, text: Option<string>, key: Option<string>)
    requires Truthy(text)
    ensures Handle(lib, direction, text, Some("rsa"), key) == BadRequest(UnsupportedMessage)
  {
    assert ParseAlgorithm("rsa") == None;
  }

  /** A library cipher gets the text as it is and the key, or "" when the
      key is absent or empty; its result or its exception is passed on. */
  lemma LibraryPassThrough(lib: CryptoLibrary, direction: Direction, c: LibraryCipher,
                           text: string, key: Option<string>)
    requires text != ""
    ensures var r := Handle(lib, direction, Some(text), Some(Tag(Library(c))), key);
      match CallLibrary(lib, direction, c, text, KeyOr(key, ""))
      case Returned(output) => r == Ok(output)
      case Threw(message) => r == ServerError(ErrorMessage(direction), message)
  {
    ParseAlgorithmOfTag(Library(c));
  }

  /** An absent key, the empty key, a key that is not a number and the key
      "0" all give the default shift 3. */
  lemma CaesarShiftDefaults()
    ensures CaesarShift(None) == 3
    ensures CaesarShift(Some("")) == 3
    ensures CaesarShift(Some("abc")) == 3
    ensures CaesarShift(Some("0")) == 3
  {
    ParseIntNaN("");
    ParseIntNaN("abc");
    assert ParseInt("0") == Some(0) by {
      ParseIntOfIntToString(0);
    }
  }

  /** A key that is the decimal text of a non-zero integer n gives shift
      n, negative n included. */
  lemma CaesarShiftOfNumber(n: int)
    requires n != 0
    ensures CaesarShift(Some(IntToString(n))) == n
  {
    ParseIntOfIntToString(n);
  }

  /** A Caesar request with a non-empty text shifts it by the key's shift
      to encrypt and by its negation to decrypt. */
  lemma CaesarRequest(lib: CryptoLibrary, direction: Direction, text: string, key: Option<string>)
    requires text != ""
    ensures Handle(lib, direction, Some(text), Some("caesar"), key)
         == Ok(CaesarCipher(text, if direction == Encrypt then CaesarShift(key) else -CaesarShift(key)))
  {
    ParseAlgorithmOfTag(Caesar);
  }

  /** The Caesar handlers shift by the key's shift to encrypt and by its
      negation to decrypt, so decrypting what was encrypted with the same
      key returns the text, for every key string and for no key. */
  lemma CaesarRequestRoundTrip(lib: CryptoLibrary, text: string, key: Option<string>)
    requires text != ""
    ensures var encrypted := CaesarCipher(text, CaesarShift(key));
      && Handle(lib, Encrypt, Some(text), Some("caesar"), key) == Ok(encrypted)
      && Handle(lib, Decrypt, Some(encrypted), Some("caesar"), key) == Ok(text)
  {
    ParseAlgorithmOfTag(Caesar);
    var shift := CaesarShift(key);
    var encrypted := CaesarCipher(text, shift);
    CipherLaws.CaesarRoundTrip(text, shift);
    assert Truthy(Some(encrypted)) by { assert |encrypted| == |text|; }
  }

  /** An absent or empty Vigenère key is replaced by "key" in both
      directions. */
  lemma VigenereDefaultKey(lib: CryptoLibrary, direction: Direction, text: Option<string>, key: Option<string>)
    requires !Truthy(key)
    ensures Handle(lib, direction, text, Some("vigenere"), key)
         == Handle(lib, direction, text, Some("vigenere"), Some("key"))
  {
  }

  /** Decrypting what was Vigenère-encrypted with the same key returns the
      text when the key is absent, empty, or made of letters only. */
  lemma VigenereRequestRoundTrip(lib: CryptoLibrary, text: string, key: Option<string>)
    requires text != ""
    requires !Truthy(key) || LetterKey(key.value)
    ensures KeyOr(key, "key") != ""
    ensures var encrypted := Enciphered(text, KeyOr(key, "key"));
      && Handle(lib, Encrypt, Some(text), Some("vigenere"), key) == Ok(encrypted)
      && Handle(lib, Decrypt, Some(encrypted), Some("vigenere"), key) == Ok(text)
  {
    var keyword := KeyOr(key, "key");
    assert LetterKey("key");
    ParseAlgorithmOfTag(Vigenere);
    assert |Enciphered(text, keyword)| == |text|;
    CipherLaws.VigenereRoundTrip(text, keyword);
  }
}
