/** Re-encrypting what depends on the auth secret, inside one transaction. */
module AuthSecretMigration {
  import opened Wrappers

  /** The cipher: encryption takes fresh randomness, decryption fails on what is not a ciphertext of the key. */
  datatype Cipher = Cipher(encrypt: (string, string, nat) -> string, decrypt: (string, string) -> Option<string>)
  {
    ghost predicate Sound() {
      forall key, text, nonce :: decrypt(key, encrypt(key, text, nonce)) == Some(text)
    }

    /** Another key does not read a ciphertext back to its text. */
    ghost predicate TellsKeysApart() {
      forall key, other, text, nonce :: key != other ==> decrypt(other, encrypt(key, text, nonce)) != Some(text)
    }

    /** `value` is a ciphertext of `text` under `key`. */
    ghost predicate Encrypts(key: string, text: string, value: string) {
      exists nonce :: value == encrypt(key, text, nonce)
    }
  }

  datatype TwoFactor = TwoFactor(id: string, userId: string, secret: string, backupCodes: string)

  datatype OauthClient = OauthClient(id: string, clientSecret: Option<string>)

  datatype RefreshToken = RefreshToken(id: string, rotationReplayResponse: Option<string>)

  datatype Tables = Tables(twoFactor: seq<TwoFactor>, clients: seq<OauthClient>, tokens: seq<RefreshToken>)

  const LEGACY_PLAINTEXT_CLIENT_SECRET_PREFIX := "dokploy-legacy-plain:"

  /** Not null, not empty, not legacy: the secret depends on the auth secret. */
  predicate Encrypted(client: OauthClient) {
    client.clientSecret.Some? && client.clientSecret.value != ""
    && !(LEGACY_PLAINTEXT_CLIENT_SECRET_PREFIX <= client.clientSecret.value)
  }

  function EncryptedClients(clients: seq<OauthClient>): (r: seq<OauthClient>)
    ensures forall c :: c in r <==> c in clients && Encrypted(c)
  {
    if clients == [] then []
    else (if Encrypted(clients[0]) then [clients[0]] else []) + EncryptedClients(clients[1..])
  }

  ghost predicate UniqueIds(t: Tables) {
    && (forall i, j :: 0 <= i < j < |t.clients| ==> t.clients[i].id != t.clients[j].id)
    && (forall i, j :: 0 <= i < j < |t.twoFactor| ==> t.twoFactor[i].id != t.twoFactor[j].id)
  }

  // ---- What a successful run means.

  /** `before` said something under the old key; `after` is a ciphertext of it under the new one, and says the same. */
  ghost predicate SameText(c: Cipher, oldKey: string, newKey: string, before: string, after: string) {
    && c.decrypt(oldKey, before).Some? && c.decrypt(newKey, after) == c.decrypt(oldKey, before)
    && c.Encrypts(newKey, c.decrypt(oldKey, before).value, after)
  }

  ghost predicate ClientCarried(c: Cipher, oldKey: string, newKey: string, before: OauthClient, after: OauthClient) {
    if Encrypted(before) then
      after.id == before.id && after.clientSecret.Some?
      && SameText(c, oldKey, newKey, before.clientSecret.value, after.clientSecret.value)
    else after == before
  }

  ghost predicate RecordCarried(c: Cipher, oldKey: string, newKey: string, before: TwoFactor, after: TwoFactor) {
    after.id == before.id && after.userId == before.userId
    && SameText(c, oldKey, newKey, before.secret, after.secret)
    && SameText(c, oldKey, newKey, before.backupCodes, after.backupCodes)
  }

  function Cleared(tokens: seq<RefreshToken>): seq<RefreshToken> {
    seq(|tokens|, i requires 0 <= i < |tokens| => tokens[i].(rotationReplayResponse := None))
  }

  ghost predicate Carried(c: Cipher, oldKey: string, newKey: string, before: Tables, after: Tables) {
    && |after.clients| == |before.clients| && |after.twoFactor| == |before.twoFactor|
    && (forall i :: 0 <= i < |before.clients| ==> ClientCarried(c, oldKey, newKey, before.clients[i], after.clients[i]))
    && (forall i :: 0 <= i < |before.twoFactor| ==>
          RecordCarried(c, oldKey, newKey, before.twoFactor[i], after.twoFactor[i]))
    && after.tokens == Cleared(before.tokens)
  }

  predicate SecretReadable(c: Cipher, key: string, client: OauthClient) {
    client.clientSecret.Some? && c.decrypt(key, client.clientSecret.value).Some?
  }

  predicate RecordReadable(c: Cipher, key: string, record: TwoFactor) {
    c.decrypt(key, record.secret).Some? && c.decrypt(key, record.backupCodes).Some?
  }

  predicate Readable(c: Cipher, key: string, t: Tables) {
    && (forall x <- t.clients :: Encrypted(x) ==> SecretReadable(c, key, x))
    && (forall x <- t.twoFactor :: RecordReadable(c, key, x))
  }

  // ---- The script.

  class Database {
    var tables: Tables

    constructor (tables: Tables)
      ensures this.tables == tables
    {
      this.tables := tables;
    }
  }

  datatype Exit = Migrated(records: nat, clients: nat) | Aborted

  /** The new ciphertext says under the new key what the value says under the old one, if it says anything. */
  method ReEncrypt(c: Cipher, value: string, oldKey: string, newKey: string, nonce: nat) returns (r: Option<string>)
    requires c.Sound()
    ensures r.Some? <==> c.decrypt(oldKey, value).Some?
    ensures r.Some? ==> SameText(c, oldKey, newKey, value, r.value)
  {
    var plaintext := c.decrypt(oldKey, value);
    if plaintext.None? { return None; }
    return Some(c.encrypt(newKey, plaintext.value, nonce));
  }

  /** `update oauth_client set client_secret = ... where id = ...` */
  function SetClientSecret(rows: seq<OauthClient>, id: string, secret: string): seq<OauthClient> {
    seq(|rows|, i requires 0 <= i < |rows| =>
      if rows[i].id == id then rows[i].(clientSecret := Some(secret)) else rows[i])
  }

  function SetRecord(rows: seq<TwoFactor>, id: string, secret: string, codes: string): seq<TwoFactor> {
    seq(|rows|, i requires 0 <= i < |rows| =>
      if rows[i].id == id then rows[i].(secret := secret, backupCodes := codes) else rows[i])
  }

  /** The clients in `done` are carried over, the others are as they were. */
  ghost predicate PartlyCarried(
    c: Cipher, oldKey: string, newKey: string, rows: seq<OauthClient>, done: seq<OauthClient>, after: seq<OauthClient>)
  {
    |after| == |rows| &&
    forall j :: 0 <= j < |rows| ==>
      if rows[j] in done then ClientCarried(c, oldKey, newKey, rows[j], after[j]) else after[j] == rows[j]
  }

  /** An update by id reaches the one row it is meant for. */
  lemma ClientStep(
    c: Cipher, oldKey: string, newKey: string, rows: seq<OauthClient>, done: seq<OauthClient>, after: seq<OauthClient>,
    client: OauthClient, secret: string)
    requires forall i, j :: 0 <= i < j < |rows| ==> rows[i].id != rows[j].id
    requires PartlyCarried(c, oldKey, newKey, rows, done, after)
    requires client in rows && Encrypted(client) && SameText(c, oldKey, newKey, client.clientSecret.value, secret)
    ensures PartlyCarried(c, oldKey, newKey, rows, done + [client], SetClientSecret(after, client.id, secret))
  {
    var next := SetClientSecret(after, client.id, secret);
    var k :| 0 <= k < |rows| && rows[k] == client;
    forall j | 0 <= j < |rows|
      ensures if rows[j] in done + [client] then ClientCarried(c, oldKey, newKey, rows[j], next[j])
              else next[j] == rows[j]
    {
      assert after[j].id == rows[j].id;
      assert rows[j].id == client.id <==> j == k;
    }
  }

  lemma AllCarried(
    c: Cipher, oldKey: string, newKey: string, rows: seq<OauthClient>, clients: seq<OauthClient>,
    after: seq<OauthClient>)
    requires PartlyCarried(c, oldKey, newKey, rows, clients, after)
    requires forall x <- rows :: x in clients <==> Encrypted(x)
    ensures forall j :: 0 <= j < |rows| ==> ClientCarried(c, oldKey, newKey, rows[j], after[j])
  {
    forall j | 0 <= j < |rows|
      ensures ClientCarried(c, oldKey, newKey, rows[j], after[j])
    {
      assert rows[j] in rows;
    }
  }

  /** The first loop of the transaction. `fails(n)` says that database operation `n` of the run fails. */
  method MigrateClients(
    c: Cipher, oldKey: string, newKey: string, rows: seq<OauthClient>, clients: seq<OauthClient>,
    first: nat, fails: nat -> bool)
    returns (ok: bool, after: seq<OauthClient>)
    requires c.Sound()
    requires forall i :: 0 <= i < |clients| ==> clients[i] in rows && Encrypted(clients[i])
    requires forall i, j :: 0 <= i < j < |rows| ==> rows[i].id != rows[j].id
    ensures ok <==> (forall i :: 0 <= i < |clients| ==> SecretReadable(c, oldKey, clients[i]))
                    && forall n :: first <= n < first + |clients| ==> !fails(n)
    ensures ok ==> PartlyCarried(c, oldKey, newKey, rows, clients, after)
  {
    after := rows;
    ghost var done: seq<OauthClient> := [];
    for i := 0 to |clients|
      invariant done == clients[..i] && PartlyCarried(c, oldKey, newKey, rows, done, after)
      invariant forall k :: 0 <= k < i ==> SecretReadable(c, oldKey, clients[k])
      invariant forall n :: first <= n < first + i ==> !fails(n)
    {
      var client := clients[i];
      var secret := ReEncrypt(c, client.clientSecret.value, oldKey, newKey, first + i);
      if secret.None? || fails(first + i) {
        return false, after;
      }
      ClientStep(c, oldKey, newKey, rows, done, after, client, secret.value);
      after := SetClientSecret(after, client.id, secret.value);
      done := done + [client];
    }
    ok := true;
    assert done == clients;
  }

  /** The second loop of the transaction. */
  method MigrateRecords(
    c: Cipher, oldKey: string, newKey: string, records: seq<TwoFactor>, first: nat, fails: nat -> bool)
    returns (ok: bool, after: seq<TwoFactor>, migrated: nat)
    requires c.Sound()
    requires forall i, j :: 0 <= i < j < |records| ==> records[i].id != records[j].id
    ensures ok <==> (forall x <- records :: RecordReadable(c, oldKey, x))
                    && forall n :: first <= n < first + |records| ==> !fails(n)
    ensures ok ==> |after| == |records| == migrated
    ensures ok ==> forall j :: 0 <= j < |records| ==> RecordCarried(c, oldKey, newKey, records[j], after[j])
  {
    hide SameText;
    after, migrated := records, 0;
    for i := 0 to |records|
      invariant |after| == |records| && migrated == i
      invariant forall j :: 0 <= j < i ==> RecordCarried(c, oldKey, newKey, records[j], after[j])
      invariant forall j :: i <= j < |records| ==> after[j] == records[j]
      invariant forall x <- records[..i] :: RecordReadable(c, oldKey, x)
      invariant forall n :: first <= n < first + i ==> !fails(n)
    {
      var record := records[i];
      assert record in records;
      var newSecret := ReEncrypt(c, record.secret, oldKey, newKey, 2 * (first + i));
      var newBackupCodes := ReEncrypt(c, record.backupCodes, oldKey, newKey, 2 * (first + i) + 1);
      if newSecret.None? || newBackupCodes.None? || fails(first + i) {
        return false, after, migrated;
      }
      assert records[..i + 1] == records[..i] + [record];
      after := SetRecord(after, record.id, newSecret.value, newBackupCodes.value);
      migrated := migrated + 1;
    }
    ok := true;
    assert records[..|records|] == records;
  }

  lemma ReadableClients(c: Cipher, key: string, rows: seq<OauthClient>)
    ensures var clients := EncryptedClients(rows);
            && (forall i :: 0 <= i < |clients| ==> clients[i] in rows && Encrypted(clients[i]))
            && ((forall i :: 0 <= i < |clients| ==> SecretReadable(c, key, clients[i]))
                <==> forall x <- rows :: Encrypted(x) ==> SecretReadable(c, key, x))
  {
    var clients := EncryptedClients(rows);
    assert forall i :: 0 <= i < |clients| ==> clients[i] in clients;
    forall x | x in rows && Encrypted(x) && forall i :: 0 <= i < |clients| ==> SecretReadable(c, key, clients[i])
      ensures SecretReadable(c, key, x)
    {
      assert x in clients;
    }
  }

  /** A null, empty or legacy secret stays; any other decrypts under the new key to what it was under the old one. */
  predicate RotatedClient(c: Cipher, oldKey: string, newKey: string, before: OauthClient, after: OauthClient) {
    && after.id == before.id
    && match before.clientSecret
       case None => after.clientSecret == None
       case Some(was) =>
         if was == "" || "dokploy-legacy-plain:" <= was then after.clientSecret == Some(was)
         else
           && after.clientSecret.Some? && c.decrypt(oldKey, was).Some?
           && c.decrypt(newKey, after.clientSecret.value) == c.decrypt(oldKey, was)
  }

  predicate RotatedRecord(c: Cipher, oldKey: string, newKey: string, before: TwoFactor, after: TwoFactor) {
    && after.id == before.id && after.userId == before.userId
    && c.decrypt(oldKey, before.secret).Some? && c.decrypt(oldKey, before.backupCodes).Some?
    && c.decrypt(newKey, after.secret) == c.decrypt(oldKey, before.secret)
    && c.decrypt(newKey, after.backupCodes) == c.decrypt(oldKey, before.backupCodes)
  }

  lemma CarriedIsRotated(c: Cipher, oldKey: string, newKey: string, before: Tables, after: Tables)
    requires Carried(c, oldKey, newKey, before, after)
    ensures forall i :: 0 <= i < |before.tokens| ==> after.tokens[i] == RefreshToken(before.tokens[i].id, None)
    ensures forall i :: 0 <= i < |before.clients| ==>
              RotatedClient(c, oldKey, newKey, before.clients[i], after.clients[i])
    ensures forall i :: 0 <= i < |before.twoFactor| ==>
              RotatedRecord(c, oldKey, newKey, before.twoFactor[i], after.twoFactor[i])
  {
    forall i | 0 <= i < |before.clients|
      ensures RotatedClient(c, oldKey, newKey, before.clients[i], after.clients[i])
    {
      assert ClientCarried(c, oldKey, newKey, before.clients[i], after.clients[i]);
    }
    forall i | 0 <= i < |before.twoFactor|
      ensures RotatedRecord(c, oldKey, newKey, before.twoFactor[i], after.twoFactor[i])
    {
      assert RecordCarried(c, oldKey, newKey, before.twoFactor[i], after.twoFactor[i]);
    }
  }

  /** A full run: two selects, one update per client, one for the tokens, one per record, the commit. */
  function Operations(t: Tables): nat {
    2 + |EncryptedClients(t.clients)| + 1 + |t.twoFactor| + 1
  }

  /**
   * All or nothing. The run commits exactly when every secret can be read with the old key and no
   * database operation fails; then every secret says under the new key what it said under the old.
   */
  method MigrateAuthSecret(db: Database, c: Cipher, oldKey: string, newKey: string, fails: nat -> bool)
    returns (exit: Exit)
    requires c.Sound() && UniqueIds(db.tables)
    modifies db
    ensures exit.Aborted? ==> db.tables == old(db.tables)
    ensures exit.Migrated? ==> Carried(c, oldKey, newKey, old(db.tables), db.tables)
    // The same, table by table and in so many words.
    ensures exit.Migrated? ==> |db.tables.tokens| == |old(db.tables.tokens)|
    ensures exit.Migrated? ==> forall i :: 0 <= i < |db.tables.tokens| ==>
              db.tables.tokens[i] == RefreshToken(old(db.tables.tokens)[i].id, None)
    ensures exit.Migrated? ==> |db.tables.clients| == |old(db.tables.clients)|
    ensures exit.Migrated? ==> forall i :: 0 <= i < |db.tables.clients| ==>
              RotatedClient(c, oldKey, newKey, old(db.tables.clients)[i], db.tables.clients[i])
    ensures exit.Migrated? ==> |db.tables.twoFactor| == |old(db.tables.twoFactor)|
    ensures exit.Migrated? ==> forall i :: 0 <= i < |db.tables.twoFactor| ==>
              RotatedRecord(c, oldKey, newKey, old(db.tables.twoFactor)[i], db.tables.twoFactor[i])
    ensures exit.Migrated? ==> exit.records == |db.tables.twoFactor|
    ensures exit.Migrated? ==> exit.clients == |EncryptedClients(old(db.tables.clients))|
    ensures exit.Migrated? <==> Readable(c, oldKey, old(db.tables))
                                && forall n :: 0 <= n < Operations(old(db.tables)) ==> !fails(n)
  {
    hide ClientCarried, RecordCarried, SecretReadable, RecordReadable, Encrypted, EncryptedClients;
    hide RotatedClient, RotatedRecord;
    var before := db.tables;
    var records := before.twoFactor;
    var clients := EncryptedClients(before.clients);
    ReadableClients(c, oldKey, before.clients);
    if fails(0) || fails(1) { return Aborted; }
    var tx := before;
    var ok, newClients := MigrateClients(c, oldKey, newKey, tx.clients, clients, 2, fails);
    if !ok { return Aborted; }
    AllCarried(c, oldKey, newKey, tx.clients, clients, newClients);
    tx := tx.(clients := newClients);
    var op := 2 + |clients|;
    if fails(op) { return Aborted; }
    tx := tx.(tokens := Cleared(tx.tokens));
    var newRecords, migrated;
    ok, newRecords, migrated := MigrateRecords(c, oldKey, newKey, records, op + 1, fails);
    if !ok { return Aborted; }
    tx := tx.(twoFactor := newRecords);
    if fails(op + 1 + |records|) { return Aborted; }
    CarriedIsRotated(c, oldKey, newKey, before, tx);
    db.tables := tx;
    return Migrated(migrated, |clients|);
  }

  // ---- Rotations in a row.

  lemma ClientTwice(c: Cipher, k1: string, k2: string, k3: string, x1: OauthClient, x2: OauthClient, x3: OauthClient)
    requires c.TellsKeysApart() && k2 != k3
    requires ClientCarried(c, k1, k2, x1, x2) && ClientCarried(c, k2, k3, x2, x3)
    ensures ClientCarried(c, k1, k3, x1, x3) <==> (Encrypted(x1) ==> Encrypted(x2))
  {
    if Encrypted(x1) && !Encrypted(x2) {
      var text := c.decrypt(k1, x1.clientSecret.value).value;
      var nonce :| x2.clientSecret.value == c.encrypt(k2, text, nonce);
      assert c.decrypt(k3, x3.clientSecret.value) != Some(text);
    }
  }

  /**
   * Two rotations carry every secret as one would, so that rotating back restores what it says, exactly
   * when the second one still finds every client that the first one did: a new ciphertext that is
   * empty or looks legacy is passed over, and stays behind under the second key.
   */
  lemma RotationsCompose(c: Cipher, k1: string, k2: string, k3: string, t1: Tables, t2: Tables, t3: Tables)
    requires c.TellsKeysApart() && k2 != k3
    requires Carried(c, k1, k2, t1, t2) && Carried(c, k2, k3, t2, t3)
    ensures Carried(c, k1, k3, t1, t3)
            <==> forall i :: 0 <= i < |t1.clients| && Encrypted(t1.clients[i]) ==> Encrypted(t2.clients[i])
  {
    forall i | 0 <= i < |t1.clients|
      ensures ClientCarried(c, k1, k3, t1.clients[i], t3.clients[i])
              <==> (Encrypted(t1.clients[i]) ==> Encrypted(t2.clients[i]))
    {
      ClientTwice(c, k1, k2, k3, t1.clients[i], t2.clients[i], t3.clients[i]);
    }
    forall i | 0 <= i < |t1.twoFactor|
      ensures RecordCarried(c, k1, k3, t1.twoFactor[i], t3.twoFactor[i])
    {
      assert RecordCarried(c, k1, k2, t1.twoFactor[i], t2.twoFactor[i]);
      assert RecordCarried(c, k2, k3, t2.twoFactor[i], t3.twoFactor[i]);
    }
  }

  /** No ciphertext of the cipher is empty or looks legacy. */
  ghost predicate NeverLegacy(c: Cipher) {
    forall key, text, nonce ::
      var value := c.encrypt(key, text, nonce);
      value != "" && !(LEGACY_PLAINTEXT_CLIENT_SECRET_PREFIX <= value)
  }

  /** With such a cipher, rotations always compose. */
  lemma RotationsAlwaysCompose(c: Cipher, k1: string, k2: string, k3: string, t1: Tables, t2: Tables, t3: Tables)
    requires NeverLegacy(c) && c.TellsKeysApart() && k2 != k3
    requires Carried(c, k1, k2, t1, t2) && Carried(c, k2, k3, t2, t3)
    ensures Carried(c, k1, k3, t1, t3)
  {
    forall i | 0 <= i < |t1.clients| && Encrypted(t1.clients[i])
      ensures Encrypted(t2.clients[i])
    {
      assert ClientCarried(c, k1, k2, t1.clients[i], t2.clients[i]);
      var text := c.decrypt(k1, t1.clients[i].clientSecret.value).value;
      var nonce :| t2.clients[i].clientSecret.value == c.encrypt(k2, text, nonce);
    }
    RotationsCompose(c, k1, k2, k3, t1, t2, t3);
  }

  // A cipher that keeps both laws, and whose ciphertexts look legacy for one nonce.

  function Mark(nonce: nat): string {
    if nonce == 0 then LEGACY_PLAINTEXT_CLIENT_SECRET_PREFIX else "x"
  }

  function Unmark(key: string, value: string): Option<string> {
    if Mark(0) + key <= value then Some(value[|Mark(0) + key|..])
    else if Mark(1) + key <= value then Some(value[|Mark(1) + key|..])
    else None
  }

  function MarkedCipher(): Cipher {
    Cipher((key: string, text: string, nonce: nat) => Mark(nonce) + key + text,
           (key: string, value: string) => Unmark(key, value))
  }

  lemma MarkedIsRead(key: string, other: string, text: string, nonce: nat)
    ensures Unmark(key, Mark(nonce) + key + text) == Some(text)
    ensures key != other ==> Unmark(other, Mark(nonce) + key + text) != Some(text)
  {
    var value := Mark(nonce) + key + text;
    assert value[0] == if nonce == 0 then 'd' else 'x';
    assert Mark(0)[0] == 'd' && Mark(1)[0] == 'x';
    assert value[|Mark(nonce) + key|..] == text;
    if Mark(nonce) + other <= value && |other| == |key| {
      assert other == value[|Mark(nonce)|..|Mark(nonce)| + |key|] == key;
    }
  }

  /** With it, and any three keys, a secret is lost: the second rotation passes over the new ciphertext. */
  lemma LegacyCiphertextStaysBehind(k1: string, k2: string, k3: string, text: string)
    requires k2 != k3
    ensures var c := MarkedCipher();
            var t1 := Tables([], [OauthClient("id", Some(c.encrypt(k1, text, 1)))], []);
            var t2 := Tables([], [OauthClient("id", Some(c.encrypt(k2, text, 0)))], []);
            && c.Sound() && c.TellsKeysApart()
            && Carried(c, k1, k2, t1, t2) && Carried(c, k2, k3, t2, t2) && !Carried(c, k1, k3, t1, t2)
  {
    var c := MarkedCipher();
    forall key, text, nonce ensures c.decrypt(key, c.encrypt(key, text, nonce)) == Some(text) {
      MarkedIsRead(key, key, text, nonce);
    }
    forall key, other, text, nonce | key != other
      ensures c.decrypt(other, c.encrypt(key, text, nonce)) != Some(text)
    {
      MarkedIsRead(key, other, text, nonce);
    }
    var x1, x2 := OauthClient("id", Some(c.encrypt(k1, text, 1))), OauthClient("id", Some(c.encrypt(k2, text, 0)));
    var t1, t2 := Tables([], [x1], []), Tables([], [x2], []);
    assert x1.clientSecret.value[0] == 'x' && LEGACY_PLAINTEXT_CLIENT_SECRET_PREFIX[0] == 'd';
    assert Encrypted(x1) && !Encrypted(x2);
    assert ClientCarried(c, k1, k2, x1, x2);
    assert Carried(c, k1, k2, t1, t2) && Carried(c, k2, k3, t2, t2);
    RotationsCompose(c, k1, k2, k3, t1, t2, t2);
    assert Encrypted(t1.clients[0]) && !Encrypted(t2.clients[0]);
  }
}
