/** The request handlers behind `POST /api/encrypt` and `POST /api/decrypt`
    (server/routes.ts). Each takes the body fields `text`, `algorithm` and
    `key`, validates them, picks a cipher by its tag, and answers with
    exactly one of: the result (200), a validation message (400), or the
    message of an exception thrown by the crypto library (500).

    The two handlers are the same code apart from the direction, so they
    are modelled as one function with a Direction argument. The crypto
    library is not modelled: it is a parameter (CryptoLibrary) about which
    nothing is assumed, not even that decryption undoes encryption. */
module Routes {
  import opened Js
  import Encryption

  /** The ciphers that the handlers pass to the crypto library. */
  datatype LibraryCipher = Aes | Des | TripleDes | Rabbit | Rc4

  /** The tags the handlers' `switch` accepts. */
  datatype Algorithm = Library(cipher: LibraryCipher) | Caesar | Vigenere

  datatype Direction = Encrypt | Decrypt

  /** The `case` label of each accepted algorithm. */
  function Tag(a: Algorithm): string
  {
    match a
    case Library(Aes) => "aes"
    case Library(Des) => "des"
    case Library(TripleDes) => "tripledes"
    case Library(Rabbit) => "rabbit"
    case Library(Rc4) => "rc4"
    case Caesar => "caesar"
    case Vigenere => "vigenere"
  }

  /** The `switch (algorithm)`: the algorithm whose label is tag, or None
      for the `default` branch. */
  function ParseAlgorithm(tag: string): (a: Option<Algorithm>)
    ensures a.Some? ==> Tag(a.value) == tag
  {
    if tag == "aes" then Some(Library(Aes))
    else if tag == "des" then Some(Library(Des))
    else if tag == "tripledes" then Some(Library(TripleDes))
    else if tag == "rabbit" then Some(Library(Rabbit))
    else if tag == "rc4" then Some(Library(Rc4))
    else if tag == "caesar" then Some(Caesar)
    else if tag == "vigenere" then Some(Vigenere)
    else None
  }

  /** Every accepted algorithm is recognised by its own label, so Tag and
      ParseAlgorithm are inverse on the seven accepted tags. */
  lemma ParseAlgorithmOfTag(a: Algorithm)
    ensures ParseAlgorithm(Tag(a)) == Some(a)
  {
  }

  /** What a call into the crypto library ends with: a string, or an
      exception with its message (a malformed UTF-8 decryption, say). */
  datatype LibraryOutcome = Returned(output: string) | Threw(message: string)

  /** The crypto library as the handlers use it:
      `C.encrypt(text, key).toString()` and
      `C.decrypt(text, key).toString(CryptoJS.enc.Utf8)` for each library
      cipher C. */
  datatype CryptoLibrary = CryptoLibrary(
    encrypt: (LibraryCipher, string, string) -> LibraryOutcome,
    decrypt: (LibraryCipher, string, string) -> LibraryOutcome)

  /** The handlers' three possible answers. */
  datatype Response =
    | Ok(result: string)                          // 200 { result }
    | BadRequest(message: string)                 // 400 { message }
    | ServerError(message: string, error: string) // 500 { message, error }

  const RequiredMessage: string := "Text and algorithm are required"
  const UnsupportedMessage: string := "Unsupported algorithm"

  /** The 500 message of each handler. */
  function ErrorMessage(direction: Direction): string
  {
    if direction == Encrypt then "Encryption error" else "Decryption error"
  }

  /** JavaScript truthiness of a string field of the body: present and not
      empty. */
  predicate Truthy(field: Option<string>)
  {
    field.Some? && field.value != ""
  }

  /** `key || fallback`. */
  function KeyOr(key: Option<string>, fallback: string): (k: string)
    ensures Truthy(key) ==> k == key.value
    ensures !Truthy(key) ==> k == fallback
  {
    if Truthy(key) then key.value else fallback
  }

  /** `parseInt(key) || 3`: the parsed number when it is a number other
      than 0; otherwise (NaN or 0) the default 3. An absent key reaches
      `parseInt` as `undefined`, which is NaN. */
  function CaesarShift(key: Option<string>): (shift: int)
    ensures shift != 0
  {
    var parsed := if key.Some? then ParseInt(key.value) else None;
    if parsed.Some? && parsed.value != 0 then parsed.value else 3
  }

  /** The library call for cipher c in the given direction. */
  function CallLibrary(lib: CryptoLibrary, direction: Direction, c: LibraryCipher,
                       text: string, key: string): LibraryOutcome
  {
    if direction == Encrypt then lib.encrypt(c, text, key) else lib.decrypt(c, text, key)
  }

  /** One request to `/api/encrypt` (direction Encrypt) or `/api/decrypt`
      (direction Decrypt). A 400 carries one of the two validation
      messages, and a 500 happens only when the library was called and
      threw. */
  function Handle(lib: CryptoLibrary, direction: Direction,
                  text: Option<string>, algorithm: Option<string>, key: Option<string>): (r: Response)
    ensures r.BadRequest? ==> r.message == RequiredMessage || r.message == UnsupportedMessage
    ensures r.ServerError? ==> r.message == ErrorMessage(direction)
    ensures r.ServerError? ==> LibraryThrows(lib, direction, text, algorithm, key)
  {
    if !Truthy(text) || !Truthy(algorithm) then BadRequest(RequiredMessage)
    else match ParseAlgorithm(algorithm.value)
      case None => BadRequest(UnsupportedMessage)
      case Some(Library(c)) =>
        (match CallLibrary(lib, direction, c, text.value, KeyOr(key, ""))
         case Returned(output) => Ok(output)
         case Threw(message) => ServerError(ErrorMessage(direction), message))
      case Some(Caesar) =>
        var shift := CaesarShift(key);
        Ok(Encryption.CaesarCipher(text.value, if direction == Encrypt then shift else -shift))
      case Some(Vigenere) =>
        var keyword := KeyOr(key, "key");
        if direction == Encrypt then Ok(Encryption.Enciphered(text.value, keyword))
        else Ok(Encryption.Deciphered(text.value, keyword))
  }

  /** The request reaches the crypto library, and the library throws. */
  predicate LibraryThrows(lib: CryptoLibrary, direction: Direction,
                          text: Option<string>, algorithm: Option<string>, key: Option<string>)
  {
    && Truthy(text) && Truthy(algorithm)
    && var a := ParseAlgorithm(algorithm.value);
    && a.Some? && a.value.Library?
    && CallLibrary(lib, direction, a.value.cipher, text.value, KeyOr(key, "")).Threw?
  }
}
