/** The in-memory store of the server (class MemStorage in
    server/storage.ts): a table of users and a table of algorithm
    descriptions, each an insertion-ordered map from an auto-incremented
    id to a record, seeded at construction with the six algorithms the site
    describes. The store's methods are asynchronous in the source; here
    they are ordinary calls, since nothing else runs between their steps. */
module Storage {
  import opened Js

  /** A user record (table `users`): the insert fields plus the id. */
  datatype User = User(id: int, username: string, password: string)

  /** The fields a caller gives to createUser. */
  datatype InsertUser = InsertUser(username: string, password: string)

  /** An algorithm record (table `algorithms`): the insert fields plus the
      id. `steps` is a JSON array of strings. */
  datatype Algorithm = Algorithm(
    id: int, name: string, algorithmType: string, description: string, keyLength: string,
    security: string, speed: string, useCases: string, steps: string)

  /** The fields a caller gives to createAlgorithm. */
  datatype InsertAlgorithm = InsertAlgorithm(
    name: string, algorithmType: string, description: string, keyLength: string,
    security: string, speed: string, useCases: string, steps: string)

  /** `{ ...insertUser, id }` */
  function UserWithId(u: InsertUser, id: int): User
  {
    User(id, u.username, u.password)
  }

  /** `{ ...insertAlgorithm, id }` */
  function AlgorithmWithId(a: InsertAlgorithm, id: int): Algorithm
  {
    Algorithm(id, a.name, a.algorithmType, a.description, a.keyLength,
              a.security, a.speed, a.useCases, a.steps)
  }

  /** The six algorithms seedAlgorithms stores, in order: RSA, AES, DES,
      Vigenère, Caesar and hash functions. */
  const Seed: seq<InsertAlgorithm> := [
    InsertAlgorithm(
      "RSA",
      "Asymmetric",
      "RSA " + "(Rivest–Shamir–Adleman) " + "is " + "one " + "of " + "the " + "first " +
        "public-key " + "cryptosystems " + "and " + "is " + "widely " + "used " + "for " +
        "secure " + "data " + "transmission. " + "The " + "encryption " + "key " + "is " +
        "public " + "and " + "distinct " + "from " + "the " + "decryption " + "key " +
        "which " + "is " + "kept " + "secret " + "(private).",
      "1024-4096 " + "bits",
      "High",
      "Slow",
      "Digital " + "signatures, " + "key " + "exchange, " + "secure " + "communications",
      "[\"Generate " + "two " + "large " + "prime " + "numbers: " + "p " + "and " +
        "q\",\"Calculate " + "n " + "= " + "p " + "× " + "q\",\"Calculate " + "the " +
        "totient " + "function " + "φ(n) " + "= " + "(p-1) " + "× " + "(q-1)\",\"Choose " +
        "encryption " + "key " + "e, " + "so " + "that " + "1 " + "< " + "e " + "< " + "φ(n) " +
        "and " + "e " + "is " + "coprime " + "with " + "φ(n)\",\"Calculate " + "decryption " +
        "key " + "d, " + "where " + "(d " + "× " + "e) " + "mod " + "φ(n) " + "= " +
        "1\",\"Public " + "key " + "= " + "(e, " + "n), " + "Private " + "key " + "= " +
        "(d, " + "n)\",\"Encryption: " + "c " + "= " + "m^e " + "mod " + "n\",\"Decryption: " +
        "m " + "= " + "c^d " + "mod " + "n\"]"),
    InsertAlgorithm(
      "AES",
      "Symmetric",
      "Advanced " + "Encryption " + "Standard " + "(AES) " + "is " + "a " + "symmetric " +
        "encryption " + "algorithm " + "that " + "uses " + "the " + "same " + "key " + "for " +
        "both " + "encryption " + "and " + "decryption. " + "It " + "operates " + "on " +
        "blocks " + "of " + "data " + "using " + "a " + "substitution-permutation " +
        "network.",
      "128, " + "192, " + "256 " + "bits",
      "Very " + "High",
      "Fast",
      "File " + "encryption, " + "secure " + "communications, " + "VPNs",
      "[\"Divide " + "plaintext " + "into " + "128-bit " + "blocks\",\"Generate " + "key " +
        "schedule " + "from " + "the " + "cipher " + "key\",\"Initial " + "round: " +
        "AddRoundKey " + "- " + "XOR " + "block " + "with " + "round " + "key\",\"Main " +
        "rounds " + "(9, " + "11, " + "or " + "13 " + "depending " + "on " + "key " +
        "size):\",\"- " + "SubBytes " + "- " + "Substitute " + "bytes " + "using " +
        "S-box\",\"- " + "ShiftRows " + "- " + "Shift " + "rows " + "of " + "state " +
        "array\",\"- " + "MixColumns " + "- " + "Mix " + "data " + "within " +
        "columns\",\"- " + "AddRoundKey " + "- " + "XOR " + "with " + "round " +
        "key\",\"Final " + "round " + "(no " + "MixColumns):\",\"- " + "SubBytes\",\"- " +
        "ShiftRows\",\"- " + "AddRoundKey\"]"),
    InsertAlgorithm(
      "DES",
      "Symmetric",
      "Data " + "Encryption " + "Standard " + "(DES) " + "is " + "a " + "symmetric-key " +
        "algorithm " + "for " + "the " + "encryption " + "of " + "digital " + "data. " +
        "Although " + "its " + "short " + "key " + "length " + "makes " + "it " + "too " +
        "insecure " + "for " + "modern " + "applications, " + "it " + "was " + "highly " +
        "influential " + "in " + "the " + "advancement " + "of " + "cryptography.",
      "56 " + "bits",
      "Low " + "(Broken)",
      "Medium",
      "Historical, " + "legacy " + "systems",
      "[\"Initial " + "permutation " + "of " + "input " + "block\",\"Split " + "block " +
        "into " + "left " + "and " + "right " + "halves\",\"16 " + "rounds " + "of " +
        "processing:\",\"- " + "Expand " + "right " + "half " + "to " + "48 " + "bits\",\"- " +
        "XOR " + "with " + "round " + "key\",\"- " + "S-box " + "substitution\",\"- " +
        "Permutation\",\"- " + "XOR " + "with " + "left " + "half\",\"Final " +
        "permutation\"]"),
    InsertAlgorithm(
      "Vigenère " + "Cipher",
      "Polyalphabetic " + "Cipher",
      "A " + "method " + "of " + "encrypting " + "text " + "using " + "a " + "series " +
        "of " + "interwoven " + "Caesar " + "ciphers, " + "based " + "on " + "the " +
        "letters " + "of " + "a " + "keyword. " + "It " + "employs " + "a " + "form " + "of " +
        "polyalphabetic " + "substitution.",
      "Variable",
      "Very " + "Low",
      "Fast",
      "Educational " + "purposes, " + "historical " + "interest",
      "[\"Choose " + "a " + "keyword " + "and " + "repeat " + "it " + "to " + "match " +
        "input " + "length\",\"Convert " + "letters " + "to " + "numbers " + "(A=0, " +
        "B=1, " + "etc.)\",\"For " + "each " + "character:\",\"- " + "Add " + "keyword " +
        "value " + "to " + "input " + "value\",\"- " + "Modulo " + "26 " + "to " + "get " +
        "resulting " + "value\",\"- " + "Convert " + "back " + "to " + "letter\"]"),
    InsertAlgorithm(
      "Caesar " + "Cipher",
      "Substitution " + "Cipher",
      "One " + "of " + "the " + "simplest " + "encryption " + "techniques, " + "where " +
        "each " + "letter " + "in " + "the " + "plaintext " + "is " + "shifted " + "a " +
        "certain " + "number " + "of " + "places " + "down " + "the " + "alphabet. " + "It's " +
        "a " + "type " + "of " + "substitution " + "cipher " + "in " + "which " + "each " +
        "letter " + "is " + "replaced " + "by " + "a " + "letter " + "some " + "fixed " +
        "number " + "of " + "positions " + "down " + "the " + "alphabet.",
      "Fixed " + "(small)",
      "Very " + "Low",
      "Very " + "Fast",
      "Educational " + "purposes, " + "puzzles",
      "[\"Choose " + "a " + "shift " + "value " + "(typically " + "3)\",\"For " + "each " +
        "character " + "in " + "the " + "plaintext:\",\"- " + "Convert " + "to " + "numeric " +
        "value " + "(A=0, " + "B=1, " + "etc.)\",\"- " + "Add " + "the " + "shift " +
        "value\",\"- " + "Use " + "modulo " + "26 " + "to " + "wrap " + "around " +
        "alphabet\",\"- " + "Convert " + "back " + "to " + "character\"]"),
    InsertAlgorithm(
      "Hash " + "Functions",
      "Cryptographic " + "Function",
      "Hash " + "functions " + "are " + "cryptographic " + "algorithms " + "that " +
        "convert " + "data " + "of " + "arbitrary " + "size " + "to " + "a " + "fixed-size " +
        "value. " + "They " + "are " + "one-way " + "functions, " + "making " + "it " +
        "practically " + "impossible " + "to " + "invert " + "or " + "reverse " + "the " +
        "computation.",
      "N/A",
      "Varies " + "by " + "algorithm",
      "Fast",
      "Password " + "storage, " + "data " + "integrity " + "verification, " + "digital " +
        "signatures",
      "[\"Take " + "input " + "data " + "of " + "any " + "length\",\"Apply " +
        "mathematical " + "transformations\",\"Produce " + "fixed-length " + "hash " +
        "value\",\"Common " + "algorithms " + "include " + "MD5, " + "SHA-1, " + "SHA-256, " +
        "SHA-3\"]")
  ]

  /** There are six seed records. */
  lemma SeedSize()
    ensures |Seed| == 6
  {
  }

  /** The seed records, by name, in the order they are stored. */
  lemma SeedOrder()
    ensures |Seed| == 6
    ensures Seed[0].name == "RSA" && Seed[1].name == "AES" && Seed[2].name == "DES"
    ensures Seed[3].name == "Vigenère Cipher" && Seed[4].name == "Caesar Cipher"
    ensures Seed[5].name == "Hash Functions"
  {
    assert Seed[3].name == "Vigenère " + "Cipher";
    assert Seed[4].name == "Caesar " + "Cipher";
    assert Seed[5].name == "Hash " + "Functions";
  }

  /** The ids start, start + 1, ..., start + n - 1. */
  function IdRange(start: int, n: nat): (ids: seq<int>)
    ensures |ids| == n
    ensures forall i :: 0 <= i < n ==> ids[i] == start + i
  {
    seq(n, i requires 0 <= i < n => start + i)
  }

  /** The keys of a table, their insertion order and the table's id
      counter agree: the order lists each key once, in ascending order, and
      every key is a past counter value, at least 1 and below the
      counter. */
  ghost predicate IdTable(keys: set<int>, order: seq<int>, next: int)
  {
    && 1 <= next
    && (forall i, j :: 0 <= i < j < |order| ==> order[i] < order[j])
    && (forall i :: 0 <= i < |order| ==> order[i] in keys)
    && (forall id :: id in keys ==> id in order && 1 <= id < next)
  }

  /** Storing under the counter's value and moving the counter on keeps
      the agreement, and the counter's value was not a key before. */
  lemma IdTableInsert(keys: set<int>, order: seq<int>, next: int)
    requires IdTable(keys, order, next)
    ensures next !in keys
    ensures IdTable(keys + {next}, order + [next], next + 1)
  {
    assert forall i :: 0 <= i < |order| ==> order[i] < next;
  }

  /** The ids start, start + 1, ..., start + n - 1, as a set. */
  function IdSet(start: int, n: nat): (ids: set<int>)
    ensures forall id :: id in ids <==> start <= id < start + n
  {
    if n == 0 then {} else IdSet(start, n - 1) + {start + n - 1}
  }

  /** Every record of the table is stored under its own id. */
  ghost predicate KeyedById(table: map<int, Algorithm>)
  {
    forall id :: id in table ==> table[id].id == id
  }

  /** The table after storing each record of data in turn under the ids
      start, start + 1, ...: what seedAlgorithms's `forEach` builds. */
  function StoreAll(table: map<int, Algorithm>, start: int, data: seq<InsertAlgorithm>): (r: map<int, Algorithm>)
    ensures table.Keys <= r.Keys
  {
    if data == [] then table
    else
      var n := |data| - 1;
      StoreAll(table, start, data[..n])[start + n := AlgorithmWithId(data[n], start + n)]
  }

  /** Storing data adds exactly the ids start, ..., start + |data| - 1 to
      the keys. */
  lemma {:induction false} StoreAllKeys(table: map<int, Algorithm>, start: int, data: seq<InsertAlgorithm>)
    ensures StoreAll(table, start, data).Keys == table.Keys + IdSet(start, |data|)
  {
    if data != [] {
      StoreAllKeys(table, start, data[..|data| - 1]);
    }
  }

  /** A record stored below start is kept as it was. */
  lemma {:induction false} StoreAllKeeps(table: map<int, Algorithm>, start: int, data: seq<InsertAlgorithm>,
                                         id: int)
    requires id in table && id < start
    ensures id in StoreAll(table, start, data) && StoreAll(table, start, data)[id] == table[id]
  {
    if data != [] {
      StoreAllKeeps(table, start, data[..|data| - 1], id);
    }
  }

  /** The i-th record of data ends up under id start + i. */
  lemma {:induction false} StoreAllStores(table: map<int, Algorithm>, start: int, data: seq<InsertAlgorithm>,
                                          i: int)
    requires 0 <= i < |data|
    ensures start + i in StoreAll(table, start, data)
    ensures StoreAll(table, start, data)[start + i] == AlgorithmWithId(data[i], start + i)
  {
    var n := |data| - 1;
    if i < n {
      StoreAllStores(table, start, data[..n], i);
    }
  }

  /** Handing out n ids from the counter keeps keys, order and counter in
      agreement: the ids join the keys and, in ascending order, the end of
      the order. */
  lemma IdTableInsertAll(keys: set<int>, order: seq<int>, start: int, n: nat)
    requires IdTable(keys, order, start)
    ensures IdTable(keys + IdSet(start, n), order + IdRange(start, n), start + n)
  {
    var ids := IdRange(start, n);
    var order' := order + ids;
    forall i, j | 0 <= i < j < |order'|
      ensures order'[i] < order'[j]
    {
      if j < |order| {
        assert order'[i] == order[i] && order'[j] == order[j];
      } else if i < |order| {
        assert order'[i] == order[i] && order[i] in keys;
        assert order'[j] == ids[j - |order|];
      } else {
        assert order'[i] == ids[i - |order|] && order'[j] == ids[j - |order|];
      }
    }
    forall id | id in keys + IdSet(start, n)
      ensures id in order'
    {
      if id !in keys {
        assert order'[|order| + id - start] == id;
      }
    }
  }

  /** Storing data keeps every record under its own id. */
  lemma {:induction false} StoreAllKeyed(table: map<int, Algorithm>, start: int, data: seq<InsertAlgorithm>)
    requires KeyedById(table)
    ensures KeyedById(StoreAll(table, start, data))
  {
    if data != [] {
      StoreAllKeyed(table, start, data[..|data| - 1]);
    }
  }

  /** Storing data in an empty table gives a table holding exactly the
      ids start, ..., start + |data| - 1, the one under id holding the
      record data[id - start]. */
  lemma StoreAllFresh(start: int, data: seq<InsertAlgorithm>)
    ensures var table := StoreAll(map[], start, data);
      forall id :: id in table <==> start <= id < start + |data|
    ensures var table := StoreAll(map[], start, data);
      forall id :: id in table ==> table[id] == AlgorithmWithId(data[id - start], id)
  {
    var table := StoreAll(map[], start, data);
    StoreAllKeys(map[], start, data);
    forall id | id in table
      ensures table[id] == AlgorithmWithId(data[id - start], id)
    {
      StoreAllStores(map[], start, data, id - start);
    }
  }

  /** Storing data from a consistent table with start as its counter
      leaves a consistent table, whose order has gained the new ids and
      whose counter has moved on by |data|. */
  lemma StoreAllValid(table: map<int, Algorithm>, order: seq<int>, start: int,
                      data: seq<InsertAlgorithm>)
    requires IdTable(table.Keys, order, start) && KeyedById(table)
    ensures IdTable(StoreAll(table, start, data).Keys, order + IdRange(start, |data|), start + |data|)
    ensures KeyedById(StoreAll(table, start, data))
  {
    StoreAllKeys(table, start, data);
    IdTableInsertAll(table.Keys, order, start, |data|);
    StoreAllKeyed(table, start, data);
  }

  class MemStorage {
    var users: map<int, User>
    /** The keys of `users` in the order they were set: a JavaScript Map
        iterates in insertion order. */
    var userOrder: seq<int>
    var algorithms: map<int, Algorithm>
    /** The keys of `algorithms` in insertion order. */
    var algorithmOrder: seq<int>
    var userCurrentId: int
    var algorithmCurrentId: int

    /** Each table's insertion order lists exactly its keys, in ascending
        order; every key is a past counter value, so it lies between 1 and
        the counter (exclusive), and every record carries its own key. */
    ghost predicate Valid()
      reads this
    {
      UsersValid() && AlgorithmsValid()
    }

    ghost predicate UsersValid()
      reads this
    {
      && IdTable(users.Keys, userOrder, userCurrentId)
      && (forall id :: id in users ==> users[id].id == id)
    }

    ghost predicate AlgorithmsValid()
      reads this
    {
      && IdTable(algorithms.Keys, algorithmOrder, algorithmCurrentId)
      && KeyedById(algorithms)
    }

    /** A new store: no users, the user counter at 1, and the seed
        algorithms (six of them, SeedSize) under ids 1, 2, ... in seed
        order, with the algorithm counter just past them. */
    constructor ()
      ensures Valid()
      ensures users == map[] && userOrder == [] && userCurrentId == 1
      ensures algorithms == StoreAll(map[], 1, Seed)
      ensures forall id :: id in algorithms <==> 1 <= id <= |Seed|
      ensures forall id :: id in algorithms ==> algorithms[id] == AlgorithmWithId(Seed[id - 1], id)
      ensures algorithmOrder == IdRange(1, |Seed|) && algorithmCurrentId == |Seed| + 1
    {
      users := map[];
      userOrder := [];
      algorithms := map[];
      algorithmOrder := [];
      userCurrentId := 1;
      algorithmCurrentId := 1;
      new;
      SeedAlgorithms(Seed);
      StoreAllFresh(1, Seed);
    }

    /** `seedAlgorithms`: each record of algorithmData (the seed list, in
        the source a local array) in turn is stored under the next
        algorithm id, as StoreAll describes; the table stays consistent. */
    method SeedAlgorithms(algorithmData: seq<InsertAlgorithm>)
      requires AlgorithmsValid()
      modifies this
      ensures AlgorithmsValid()
      ensures users == old(users) && userOrder == old(userOrder) && userCurrentId == old(userCurrentId)
      ensures algorithms == StoreAll(old(algorithms), old(algorithmCurrentId), algorithmData)
      ensures algorithmOrder == old(algorithmOrder) + IdRange(old(algorithmCurrentId), |algorithmData|)
      ensures algorithmCurrentId == old(algorithmCurrentId) + |algorithmData|
    {
      var start := algorithmCurrentId;
      for i := 0 to |algorithmData|
        invariant users == old(users) && userOrder == old(userOrder) && userCurrentId == old(userCurrentId)
        invariant algorithms == StoreAll(old(algorithms), start, algorithmData[..i])
        invariant algorithmOrder == old(algorithmOrder) + IdRange(start, i)
        invariant algorithmCurrentId == start + i
      {
        assert algorithmData[..i + 1][..i] == algorithmData[..i];
        assert IdRange(start, i + 1) == IdRange(start, i) + [start + i];
        var id := algorithmCurrentId;
        algorithmCurrentId := algorithmCurrentId + 1;
        algorithms := algorithms[id := AlgorithmWithId(algorithmData[i], id)];
        algorithmOrder := algorithmOrder + [id];
      }
      assert algorithmData[..|algorithmData|] == algorithmData;
      StoreAllValid(old(algorithms), old(algorithmOrder), start, algorithmData);
    }

    /** `getUser`: the user stored under id, or None (`undefined`); ids
        the counter has not reached yet are never found. */
    method GetUser(id: int) returns (user: Option<User>)
      requires Valid()
      ensures user.Some? <==> id in users
      ensures user.Some? ==> user.value == users[id] && user.value.id == id
      ensures id >= userCurrentId ==> user == None
    {
      user := if id in users then Some(users[id]) else None;
    }

    /** `getUserByUsername`: the first user in insertion order whose
        username matches, or None when none does. Usernames are not unique:
        createUser does not check them. */
    method GetUserByUsername(username: string) returns (user: Option<User>)
      requires Valid()
      ensures user.None? <==> forall i :: 0 <= i < |userOrder| ==> users[userOrder[i]].username != username
      ensures user.Some? ==> exists i :: 0 <= i < |userOrder| && users[userOrder[i]] == user.value
                                && user.value.username == username
                                && forall j :: 0 <= j < i ==> users[userOrder[j]].username != username
    {
      user := None;
      var i := 0;
      while i < |userOrder|
        invariant 0 <= i <= |userOrder|
        invariant forall j :: 0 <= j < i ==> users[userOrder[j]].username != username
      {
        var candidate := users[userOrder[i]];
        if candidate.username == username {
          user := Some(candidate);
          return;
        }
        i := i + 1;
      }
    }

    /** `createUser`: the record gets the current user id, the counter
        moves on by one, and the record is added under that id; since the
        id is fresh no record is overwritten, and the algorithm table is
        untouched. */
    method CreateUser(insertUser: InsertUser) returns (user: User)
      requires Valid()
      modifies this
      ensures Valid()
      ensures user == UserWithId(insertUser, old(userCurrentId))
      ensures old(userCurrentId) !in old(users)
      ensures users == old(users)[user.id := user] && user.id in users && users[user.id] == user
      ensures userOrder == old(userOrder) + [user.id]
      ensures userCurrentId == old(userCurrentId) + 1
      ensures algorithms == old(algorithms) && algorithmOrder == old(algorithmOrder)
      ensures algorithmCurrentId == old(algorithmCurrentId)
    {
      var id := userCurrentId;
      IdTableInsert(users.Keys, userOrder, id);
      userCurrentId := userCurrentId + 1;
      user := UserWithId(insertUser, id);
      users := users[id := user];
      userOrder := userOrder + [id];
    }

    /** `getAlgorithms`: every stored algorithm once, in insertion order,
        which is ascending id order. */
    method GetAlgorithms() returns (list: seq<Algorithm>)
      requires Valid()
      ensures |list| == |algorithmOrder|
      ensures forall i :: 0 <= i < |list| ==> list[i].id in algorithms && algorithms[list[i].id] == list[i]
      ensures forall i, j :: 0 <= i < j < |list| ==> list[i].id < list[j].id
      ensures forall id :: id in algorithms ==> exists i :: 0 <= i < |list| && list[i].id == id
    {
      var order, table := algorithmOrder, algorithms;
      list := seq(|order|, i requires 0 <= i < |order| && order[i] in table => table[order[i]]);
      forall id | id in algorithms
        ensures exists i :: 0 <= i < |list| && list[i].id == id
      {
        var i :| 0 <= i < |algorithmOrder| && algorithmOrder[i] == id;
        assert list[i].id == id;
      }
    }

    /** `getAlgorithm`: the algorithm stored under id, or None. */
    method GetAlgorithm(id: int) returns (algorithm: Option<Algorithm>)
      requires Valid()
      ensures algorithm.Some? <==> id in algorithms
      ensures algorithm.Some? ==> algorithm.value == algorithms[id] && algorithm.value.id == id
      ensures id >= algorithmCurrentId ==> algorithm == None
    {
      algorithm := if id in algorithms then Some(algorithms[id]) else None;
    }

    /** `createAlgorithm`: as CreateUser, on the algorithm table. */
    method CreateAlgorithm(insertAlgorithm: InsertAlgorithm) returns (algorithm: Algorithm)
      requires Valid()
      modifies this
      ensures Valid()
      ensures algorithm == AlgorithmWithId(insertAlgorithm, old(algorithmCurrentId))
      ensures old(algorithmCurrentId) !in old(algorithms)
      ensures algorithms == old(algorithms)[algorithm.id := algorithm]
      ensures algorithm.id in algorithms && algorithms[algorithm.id] == algorithm
      ensures algorithmOrder == old(algorithmOrder) + [algorithm.id]
      ensures algorithmCurrentId == old(algorithmCurrentId) + 1
      ensures users == old(users) && userOrder == old(userOrder) && userCurrentId == old(userCurrentId)
    {
      var id := algorithmCurrentId;
      IdTableInsert(algorithms.Keys, algorithmOrder, id);
      algorithmCurrentId := algorithmCurrentId + 1;
      algorithm := AlgorithmWithId(insertAlgorithm, id);
      algorithms := algorithms[id := algorithm];
      algorithmOrder := algorithmOrder + [id];
    }
  }
}
