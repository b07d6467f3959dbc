# CipherSecrets core, modelled in Dafny

CipherSecrets is a web playground for ciphers. The browser and the server
both carry two hand-written classical ciphers:

- the Caesar shift;
- the Vigenère cipher and its inverse.

The server answers `POST /api/encrypt` and `POST /api/decrypt` by validating
the body fields `text`, `algorithm` and `key`, picking a cipher by its tag
and returning the result, a 400 message or a 500 message. An in-memory
store (`MemStorage`) keeps users and algorithm descriptions in two
auto-numbered tables and is seeded with six algorithm descriptions.

This project models those three parts:

| file | module | models |
|---|---|---|
| `js.dfy` | `Js` | the JavaScript built-ins the code relies on: truncating `%`, the ASCII letter tests, `toUpperCase`/`toLowerCase`, `parseInt` on decimal text |
| `encryption.dfy` | `Encryption` | `caesarCipher` as a function; `vigenereCipher`/`vigenereDecipher` as the loops they are, each proved equal to a position-by-position specification (`Enciphered`, `Deciphered`) |
| `cipher_laws.dfy` | `CipherLaws` | the algebra of the ciphers: Caesar identity, period, composition and round trip; Vigenère case preservation, the round trip both ways, key-case independence, one-letter keys, all-'A' keys, non-letters skipping the key |
| `cipher_vectors.dfy` | `CipherVectors` | worked examples, among them the start of the classic LEMON vector and what a digit in the key does |
| `routes.dfy` | `Routes` | the two request handlers as one total function `Handle` over a `Direction` |
| `routes_laws.dfy` | `RoutesLaws` | the outcome classification, key defaulting and request-level round trips |
| `storage.dfy` | `Storage` | class `MemStorage`: two `map` tables, each with its insertion order and its id counter, and a validity invariant that every method keeps |

The three cipher functions are written twice in the repository:
`client/src/lib/encryption.ts:50-122` and `server/routes.ts:124-196`. The two
copies are the same text, so module `Encryption` models both. A cipher row
below cites one of the two copies; the same lines in the other copy are
modelled alike.

JavaScript's `%` truncates toward zero and Dafny's does not. The model
writes it out as `Js.Rem26`, and `Js.NormalisedRem26` proves that Caesar's
`((x % 26) + 26) % 26` is the Euclidean remainder.

## Model

| member | source | states |
|---|---|---|
| Js.Rem26 | client/src/lib/encryption.ts:84 | JavaScript `a % 26`: lies strictly between -26 and 26, equals Euclidean `%` for a >= 0, is never positive for a < 0, and is congruent to a modulo 26 |
| Js.NormalisedRem26 | client/src/lib/encryption.ts:57 | `((a % 26) + 26) % 26` is the non-negative Euclidean remainder of a, for every integer a |
| Js.ToUpperCase | client/src/lib/encryption.ts:78-80 | the result is never lower-case, is a letter exactly when the input is, leaves non-lower-case characters alone, maps a lower-case letter to the upper-case letter at the same alphabet position, and `toLowerCase` takes it back for a lower-case input |
| Js.ToLowerCase | client/src/lib/encryption.ts:87 | the result is never upper-case, is a letter exactly when the input is, leaves non-upper-case characters alone, and maps an upper-case letter to the lower-case letter at the same alphabet position |
| Js.TrimStart | server/routes.ts:60 | the white space `parseInt` skips: the result is a suffix of the input, everything dropped is white space, and the result does not start with white space |
| Js.DigitPrefix | server/routes.ts:60 | the digit run `parseInt` reads: a prefix of the input made of digits, followed by a non-digit or the end |
| Js.ParseInt | server/routes.ts:60 | `parseInt(key)`: text that is all white space gives NaN, and a negative result needs a '-' in the text |
| Js.ParseSigned | server/routes.ts:103 | the part of `parseInt` after the white space: empty text gives NaN, a leading digit gives a non-negative number, and a negative result needs a leading '-' |
| Js.IntToString | server/routes.ts:60 | `String(n)` for an integer: decimal digits, with a leading '-' exactly for a negative n |
| Js.NatToString | server/routes.ts:60 | the decimal text of a natural number is a non-empty run of digits |
| Js.DigitPrefixOfDigits | server/routes.ts:60 | on a string of digits, `parseInt` reads every digit |
| Js.DigitsValueOfNatToString | server/routes.ts:60 | reading back the decimal text of n gives n |
| Js.ParseIntOfIntToString | server/routes.ts:60 | `parseInt(String(n)) == n` for every integer n, negative ones included |
| Js.ParseIntNaN | server/routes.ts:60 | text with no sign or digit outside white space (such as "", "abc" or "undefined") parses as NaN |
| Encryption.CaesarChar | client/src/lib/encryption.ts:53-66 | an upper-case letter stays upper-case and moves `(c - 'A' + shift) mod 26`; a lower-case letter does the same within 'a'..'z'; any other character is unchanged; this holds for every integer shift |
| Encryption.CaesarCipher | server/routes.ts:124-142 | `caesarCipher` (both copies) keeps the length, keeps the case class of every character, and copies every character that is not a letter |
| Encryption.LetterCount | client/src/lib/encryption.ts:72-88 | the value of `keyIndex` after a prefix, which is its count of letters, is at most the prefix's length |
| Encryption.KeyValue | client/src/lib/encryption.ts:81-82 | a letter key character gives a shift in 0..25, the same for both of its cases |
| Encryption.EncipherLetter | client/src/lib/encryption.ts:78-87 | for a letter key character k, one step of `vigenereCipher` is the Caesar shift by k's value |
| Encryption.DecipherLetter | client/src/lib/encryption.ts:105-114 | for a letter key character k, one step of `vigenereDecipher` is the Caesar shift back by k's value |
| Encryption.ShiftBack | client/src/lib/encryption.ts:111 | adding 26 before the truncating `%` makes `(t - v + 26) % 26` the Euclidean remainder of t - v for alphabet positions t and v |
| Encryption.Enciphered | client/src/lib/encryption.ts:70-95 | `vigenereCipher` keeps the length and copies every character that is not a letter |
| Encryption.Deciphered | client/src/lib/encryption.ts:97-122 | `vigenereDecipher` keeps the length and copies every character that is not a letter |
| Encryption.EncipheredShift | client/src/lib/encryption.ts:77-88 | under a letter key, the letter at position i is Caesar-shifted by the value of key character (letters before i) mod (key length) |
| Encryption.DecipheredShift | client/src/lib/encryption.ts:104-115 | under a letter key, the letter at position i is Caesar-shifted back by the value of key character (letters before i) mod (key length) |
| Encryption.VigenereStep | client/src/lib/encryption.ts:74-91 | one loop iteration advances `keyIndex` by one exactly on a letter, and a letter is met only with a non-empty key |
| Encryption.VigenereCipher | server/routes.ts:144-169 | the `for` loop (both copies), with its `keyIndex` and `result.push`, returns exactly Enciphered(text, key) |
| Encryption.VigenereDecipher | server/routes.ts:171-196 | the deciphering loop (both copies) returns exactly Deciphered(text, key) |
| CipherLaws.ModAdd | client/src/lib/encryption.ts:57 | reducing modulo 26 before adding b gives the same remainder as reducing after |
| CipherLaws.CaesarCharCompose | client/src/lib/encryption.ts:55-62 | shifting a character by a and then by b is shifting it by a + b |
| CipherLaws.CaesarCompose | client/src/lib/encryption.ts:50-68 | two Caesar ciphers in a row are one Caesar cipher with the sum of the shifts |
| CipherLaws.CaesarCharZero | client/src/lib/encryption.ts:55-62 | shift 0 leaves every character as it is |
| CipherLaws.CaesarIdentity | client/src/lib/encryption.ts:55-62 | shift 0 returns the text unchanged |
| CipherLaws.CaesarRoundTrip | client/src/lib/encryption.ts:55-62 | `caesarCipher(caesarCipher(t, s), -s) == t` for every integer s |
| CipherLaws.CaesarPeriodic | client/src/lib/encryption.ts:55-62 | shifts s and s + 26 encrypt every text alike |
| CipherLaws.LetterCountAgree | client/src/lib/encryption.ts:77-88 | two texts with letters at the same positions advance `keyIndex` alike |
| CipherLaws.LetterCountAppend | client/src/lib/encryption.ts:77-88 | the letter count of a concatenation is the sum of the letter counts |
| CipherLaws.LetterCountsAgree | client/src/lib/encryption.ts:77-88 | two texts with letters at the same positions have equal `keyIndex` after every prefix |
| CipherLaws.EncipheredKeepsCase | client/src/lib/encryption.ts:78-87 | under a non-empty letter key, `vigenereCipher` keeps every upper-case letter upper-case and every lower-case letter lower-case, in both directions of the equivalence |
| CipherLaws.DecipheredKeepsCase | client/src/lib/encryption.ts:105-114 | the same for `vigenereDecipher` |
| CipherLaws.VigenereRoundTrip | client/src/lib/encryption.ts:70-122 | for a non-empty letter key, deciphering what was enciphered returns the text |
| CipherLaws.LetterRoundTrip | client/src/lib/encryption.ts:84-111 | a letter enciphered and then deciphered meets the same key character both times and comes back |
| CipherLaws.VigenereRoundTripConverse | client/src/lib/encryption.ts:70-122 | for a non-empty letter key, enciphering what was deciphered returns the text |
| CipherLaws.LetterRoundTripConverse | client/src/lib/encryption.ts:84-111 | a letter deciphered and then enciphered comes back |
| CipherLaws.EncipheredAlike | client/src/lib/encryption.ts:77-88 | the output at a position depends only on the character there and on how many letters precede it |
| CipherLaws.VigenereKeyCase | client/src/lib/encryption.ts:81-82 | keys that agree once upper-cased encipher and decipher alike |
| CipherLaws.VigenereOneLetterKey | client/src/lib/encryption.ts:81-84 | a one-letter key c enciphers as the Caesar cipher with shift c - 'A' |
| CipherLaws.VigenereOneLetterKeyInverse | client/src/lib/encryption.ts:108-111 | a one-letter key c deciphers as the Caesar cipher with shift 'A' - c |
| CipherLaws.VigenereAllAKey | client/src/lib/encryption.ts:81-84 | a key of 'A's or 'a's leaves the text unchanged in both directions |
| CipherLaws.VigenereSkipsNonLetter | client/src/lib/encryption.ts:77-91 | inserting a non-letter into the text inserts it unchanged in the output and leaves the encryption of every other character as it was |
| CipherVectors.CaesarShiftThree | client/src/lib/encryption.ts:50-68 | shift 3 maps "ABC" to "DEF" and wraps "XYZ" to "ABC" |
| CipherVectors.CaesarMixedText | client/src/lib/encryption.ts:50-68 | "Attack at Dawn!" under shift 3 is "Dwwdfn dw Gdzq!" |
| CipherVectors.LetterCountOfLetters | client/src/lib/encryption.ts:77-88 | on a text of letters only, `keyIndex` advances at every character |
| CipherVectors.EncipheredLetters | client/src/lib/encryption.ts:70-95 | on a text of letters only, letter i uses key character i mod (key length) |
| CipherVectors.VigenereLemon | client/src/lib/encryption.ts:70-95 | "ATTACK" under key "LEMON" is "LXFOPV", the sixth letter wrapping to the key's start |
| CipherVectors.VigenereLemonInverse | client/src/lib/encryption.ts:97-122 | "LXFOPV" deciphers under "LEMON" to "ATTACK" |
| CipherVectors.VigenereDigitSkipped | client/src/lib/encryption.ts:89-91 | the digit in "a1b" takes no key position: under "xy" the result is "x1z" |
| CipherVectors.VigenereDigitKey | client/src/lib/encryption.ts:81-87 | a digit key leaves the alphabet: under "3", "A" becomes "3" and "a" becomes "s", which deciphers to "g" |
| Routes.ParseAlgorithm | server/routes.ts:43-67 | a recognised tag is the label of the algorithm it selects |
| Routes.ParseAlgorithmOfTag | server/routes.ts:43-67 | each of the seven case labels selects its own algorithm |
| Routes.KeyOr | server/routes.ts:45-64 | the key-or-fallback idiom is the key when it is present and not empty, and the fallback otherwise |
| Routes.Handle | server/routes.ts:33-117 | a 400 carries "Text and algorithm are required" or "Unsupported algorithm"; a 500 carries the direction's error message and happens only when the library was called and threw |
| Routes.CaesarShift | server/routes.ts:60 | parseInt(key)-or-3 is never 0 |
| RoutesLaws.HandleOutcome | server/routes.ts:33-117 | each request gets exactly one of: "Text and algorithm are required" exactly when text or algorithm is missing or empty; "Unsupported algorithm" exactly for an unlisted tag; a 500 with "Encryption error"/"Decryption error" exactly when the library is called and throws; a result otherwise |
| RoutesLaws.NoLibraryUnlessLibraryCipher | server/routes.ts:37-67 | a rejected request and a Caesar or Vigenère request get the same answer whatever the crypto library does |
| RoutesLaws.RsaUnsupported | server/routes.ts:66-110 | "rsa" is rejected as unsupported in both directions |
| RoutesLaws.LibraryPassThrough | server/routes.ts:43-73 | a library cipher gets the text and the key or "", and its result or exception message is passed on |
| RoutesLaws.CaesarShiftDefaults | server/routes.ts:60 | no key, "", "abc" and "0" all give shift 3 |
| RoutesLaws.CaesarShiftOfNumber | server/routes.ts:60 | the decimal text of a non-zero integer n gives shift n |
| RoutesLaws.CaesarRequest | server/routes.ts:59-104 | a Caesar request with a non-empty text answers with `caesarCipher(text, shift)` to encrypt and `caesarCipher(text, -shift)` to decrypt, shift being parseInt(key)-or-3 |
| RoutesLaws.CaesarRequestRoundTrip | server/routes.ts:59-104 | for every non-empty text and every key, encryption answers with the Caesar cipher under the key's shift, and decrypting that with the same key answers with the text |
| RoutesLaws.VigenereDefaultKey | server/routes.ts:63-107 | an absent or empty Vigenère key is treated as "key" in both directions |
| RoutesLaws.VigenereRequestRoundTrip | server/routes.ts:63-107 | the key used is never empty; encryption answers with the Vigenère cipher under the key or "key", and decrypting that with the same key answers with the text when the key is absent, empty or letters only |
| Storage.SeedSize | server/storage.ts:68-180 | the seed list holds six records |
| Storage.SeedOrder | server/storage.ts:68-180 | the six records are named RSA, AES, DES, Vigenère Cipher, Caesar Cipher and Hash Functions, in that order |
| Storage.StoreAll | server/storage.ts:182-185 | the `forEach` that stores each record under the next id keeps every old key; StoreAllKeys, StoreAllKeeps and StoreAllStores state the rest |
| Storage.IdRange | server/storage.ts:182-185 | the ids start, start + 1, and so on, n of them in ascending order |
| Storage.IdSet | server/storage.ts:182-185 | the set of the ids from start up to but not including start + n |
| Storage.IdTableInsert | server/storage.ts:45-50 | storing under the counter and moving the counter on keeps the table invariant, and the counter's value was not yet a key |
| Storage.IdTableInsertAll | server/storage.ts:182-185 | handing out n ids from the counter keeps the table invariant: the ids join the keys and the end of the order, ascending, and the counter moves on by n |
| Storage.StoreAllKeys | server/storage.ts:182-185 | storing the records adds exactly the ids start to start + n - 1 to the keys |
| Storage.StoreAllKeeps | server/storage.ts:182-185 | a record stored under an id below start is kept as it was |
| Storage.StoreAllStores | server/storage.ts:182-185 | the i-th record ends up under id start + i, with that id written into it |
| Storage.StoreAllKeyed | server/storage.ts:182-185 | every record stays stored under its own id |
| Storage.StoreAllValid | server/storage.ts:182-185 | from a consistent table with start as its counter, storing n records leaves a consistent table whose order gained the new ids and whose counter is start + n |
| Storage.StoreAllFresh | server/storage.ts:182-185 | storing records in an empty table from id start gives exactly the ids start to start + n - 1, the one under id holding record id - start |
| Storage.MemStorage.constructor | server/storage.ts:25-33 | a new store has no users and user counter 1; it holds exactly the ids 1 to 6 (SeedSize), the one under id holding the seed record id - 1 in seed order (RSA, AES, DES, Vigenère, Caesar, hash functions); its order is 1, ..., 6 and its algorithm counter 7; the invariant holds |
| Storage.MemStorage.SeedAlgorithms | server/storage.ts:67-186 | the table becomes StoreAll of the old table from the old counter, so each record is stored under the next id in turn and the old records are kept; the order gains the new ids; the counter moves on by the number of records; users are untouched; the invariant is kept |
| Storage.MemStorage.GetUser | server/storage.ts:35-37 | the user under id exactly when id is a key; never an id the counter has not reached; changes nothing |
| Storage.MemStorage.GetUserByUsername | server/storage.ts:39-43 | the first user in insertion order with that username, or None exactly when no user has it |
| Storage.MemStorage.CreateUser | server/storage.ts:45-50 | the new record has the old counter as id; that id was free, so no record is overwritten; the counter moves on by one; the algorithm table is untouched; the invariant is kept |
| Storage.MemStorage.GetAlgorithms | server/storage.ts:52-54 | every stored algorithm exactly once, in insertion order, which is ascending id order |
| Storage.MemStorage.GetAlgorithm | server/storage.ts:56-58 | the algorithm under id exactly when id is a key; never an id the counter has not reached |
| Storage.MemStorage.CreateAlgorithm | server/storage.ts:60-65 | as CreateUser, on the algorithm table; users are untouched |

## Left out

- The CryptoJS ciphers (AES, DES, TripleDES, Rabbit, RC4) are foreign library calls. `Routes.CryptoLibrary` is a parameter holding an encrypt and a decrypt function. Nothing is assumed about those functions, not even that one undoes the other. A thrown exception is the `Threw` outcome.
- The hashes (MD5, SHA-1, SHA-256, SHA-512) and the CryptoJS wrappers in `client/src/lib/encryption.ts` are not part of this model. The handlers do not call them.
- `server/crypto-adapter.ts`, `server/crypto-adapter.js` and `server/crypto-js.d.ts` are not part of this model. They are typings and thin wrappers.
- Express and HTTP are not modelled: routing, body parsing and `res.status`. Status codes 200, 400 and 500 are the `Response` variants `Ok`, `BadRequest` and `ServerError`.
- The body fields are modelled as absent or a string. A JSON body can also carry a number, an object or other non-string values, and those are left out.
- `async`/`Promise` in the store are left out. The store's methods are ordinary calls, since nothing runs between their steps.
- The React pages are left out, including the step narration and the canvas animation.
- RSA has no server implementation. The handlers reject it as unsupported, which `RoutesLaws.RsaUnsupported` states.
- Js.ParseInt: decimal only. It covers leading ASCII white space, an optional sign and a digit run. It does not model the `0x` prefix that `parseInt` reads as hexadecimal, the loss of precision beyond 2^53, or non-ASCII white space.
- Js.ToUpperCase: ASCII only. JavaScript also upper-cases non-ASCII letters. This matters only for a non-ASCII Vigenère key character, whose shift the model then gets differently.
- Strings are sequences of Dafny `char`s, which are Unicode scalar values. JavaScript strings are UTF-16 code units, as `split("")`, `key.length` and `key[i]` see them. A character outside the Basic Multilingual Plane is one `char` here and two code units (a surrogate pair) in JavaScript. In the text this changes nothing: either way it is not a letter and is copied unchanged. In a Vigenère key it does: such a character makes the model's key length and key characters differ from `key.length` and `key[i]`, so the shifts differ from JavaScript's.
- Encryption.Enciphered, Encryption.Deciphered: the contracts say only that the length is kept and non-letters are copied. What happens to a letter is stated by Encryption.EncipheredShift and Encryption.DecipheredShift, for a letter key; for a key character that is not a letter, CipherVectors.VigenereDigitKey shows an example.
- Encryption.Enciphered: requires `KeyUsable`, so the key is non-empty or the text has no letters. With an empty key and a letter in the text, `key[keyIndex % 0]` is `undefined` and `.toUpperCase()` throws. The model does not describe that exception. The server never passes an empty Vigenère key, because it replaces it with "key".
- Encryption.Deciphered, Encryption.VigenereCipher, Encryption.VigenereDecipher: the same `KeyUsable` precondition, for the same reason.
- Storage.MemStorage.CreateUser, Storage.MemStorage.CreateAlgorithm: the id counters are unbounded integers. In JavaScript `++` on a Number stops advancing past 2^53, after which ids repeat and `set` overwrites a record. The promise that no record is overwritten holds while the counter stays below 2^53.
- CipherVectors.VigenereLemon: proves the first six letters of the classic LEMON vector ("ATTACK" to "LXFOPV"), not the whole "ATTACKATDAWN" to "LXFOPVEFRNHR".
- Storage.MemStorage.SeedAlgorithms: takes its records as a parameter, and the constructor passes the six literal records `Storage.Seed`. In the source the list is a local constant of the method.
- The two handlers are modelled as one function, `Routes.Handle`, with a `Direction` argument. They differ only in the library call, the sign of the Caesar shift, the Vigenère direction and the 500 message.
