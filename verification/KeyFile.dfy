// The file that holds the token key (internal/auth/key_manager.go): bare base64url when there is
// no password, otherwise salt and sealed key joined by a colon.
module KeyFile {
  import opened Wrappers
  import Base64Url
  import Text

  const KEY_BYTES := 32
  const SALT_BYTES := 16
  const DERIVED_BYTES := 44

  // Argon2id (password, salt, time, memory, threads, length) and AES-256-GCM sealing and opening
  // (key, nonce, text, additional data).
  datatype Primitives = Primitives(
    argon2id: (Bytes, Bytes, nat, nat, nat, nat) -> Bytes,
    seal: (Bytes, Bytes, Bytes, Bytes) -> Bytes,
    open: (Bytes, Bytes, Bytes, Bytes) -> Option<Bytes>)
  {
    ghost predicate Valid() {
      && (forall password, salt, time, memory, threads, n :: |argon2id(password, salt, time, memory, threads, n)| == n)
      && (forall key, nonce, text, data :: open(key, nonce, seal(key, nonce, text, data), data) == Some(text))
    }
  }

  // The password and the Argon2id parameters a manager is started with.
  datatype Settings = Settings(password: Bytes, time: nat, memory: nat, threads: nat)

  function Derive(p: Primitives, c: Settings, salt: Bytes): Bytes {
    p.argon2id(c.password, salt, c.time, c.memory, c.threads, DERIVED_BYTES)
  }

  ghost function Written(p: Primitives, c: Settings, key: Bytes, salt: Bytes): string
    requires p.Valid()
  {
    if c.password == [] then Base64Url.Encode(key)
    else
      var derived := Derive(p, c, salt);
      Base64Url.Encode(salt) + ":" + Base64Url.Encode(p.seal(derived[..32], derived[32..], key, salt))
  }

  ghost function Read(p: Primitives, c: Settings, data: string): Option<Bytes>
    requires p.Valid()
  {
    if c.password == [] then Base64Url.Decode(data)
    else
      var parts := Text.Split(data, ':');
      if |parts| != 2 then None
      else
        var salt, sealed := Base64Url.Decode(parts[0]), Base64Url.Decode(parts[1]);
        if salt.None? || sealed.None? then None
        else
          var derived := Derive(p, c, salt.value);
          p.open(derived[..32], derived[32..], sealed.value, salt.value)
  }

  // ---------- Colons ----------

  lemma AlphabetHasNoColon(s: string)
    requires Base64Url.InAlphabet(s)
    ensures ':' !in s
  {
  }

  lemma DecodableHasNoColon(s: string)
    requires Base64Url.Decode(s).Some?
    ensures ':' !in s
  {
    forall i | 0 <= i < |s| ensures s[i] != ':' {
      Base64Url.DecodableCharacters(s, i);
    }
  }

  lemma SplitPair(a: string, b: string)
    requires ':' !in a && ':' !in b
    ensures Text.Split(a + ":" + b, ':') == [a, b]
  {
    Text.SplitFirst(a, b, ':');
    Text.SplitFree(b, ':');
  }

  // ---------- Round trip ----------

  // What is written under some settings is read back under the same settings, with and without a
  // password.
  lemma ReadUndoesWrite(p: Primitives, c: Settings, key: Bytes, salt: Bytes)
    requires p.Valid()
    ensures Read(p, c, Written(p, c, key, salt)) == Some(key)
  {
    if c.password == [] {
      Base64Url.DecodeEncode(key);
    } else {
      var derived := Derive(p, c, salt);
      var sealed := p.seal(derived[..32], derived[32..], key, salt);
      AlphabetHasNoColon(Base64Url.Encode(salt));
      AlphabetHasNoColon(Base64Url.Encode(sealed));
      SplitPair(Base64Url.Encode(salt), Base64Url.Encode(sealed));
      Base64Url.DecodeEncode(salt);
      Base64Url.DecodeEncode(sealed);
    }
  }

  // With a password the file is the salt, a colon, and the key sealed under what Argon2id makes of
  // that password and that salt, with the salt as additional data.
  lemma WrittenLayout(p: Primitives, c: Settings, key: Bytes, salt: Bytes)
    requires p.Valid() && c.password != []
    ensures var derived := p.argon2id(c.password, salt, c.time, c.memory, c.threads, 44);
            Text.Split(Written(p, c, key, salt), ':')
            == [Base64Url.Encode(salt), Base64Url.Encode(p.seal(derived[..32], derived[32..44], key, salt))]
  {
    var derived := Derive(p, c, salt);
    assert derived[32..44] == derived[32..];
    var sealed := p.seal(derived[..32], derived[32..], key, salt);
    AlphabetHasNoColon(Base64Url.Encode(salt));
    AlphabetHasNoColon(Base64Url.Encode(sealed));
    SplitPair(Base64Url.Encode(salt), Base64Url.Encode(sealed));
  }

  // What was sealed does not open under another key and nonce.
  ghost predicate OpensOnlyUnder(p: Primitives, derived: Bytes, key: Bytes, salt: Bytes)
    requires |derived| == 44
  {
    forall other: Bytes | |other| == 44 && other != derived ::
      p.open(other[..32], other[32..44], p.seal(derived[..32], derived[32..44], key, salt), salt) == None
  }

  // So a file written under one password is not read under another, nor under other parameters,
  // for which Argon2id makes something else of the salt.
  lemma OtherPasswordReadsNothing(p: Primitives, c: Settings, c': Settings, key: Bytes, salt: Bytes)
    requires p.Valid() && c.password != [] && c'.password != []
    requires p.argon2id(c.password, salt, c.time, c.memory, c.threads, 44)
          != p.argon2id(c'.password, salt, c'.time, c'.memory, c'.threads, 44)
    requires OpensOnlyUnder(p, p.argon2id(c.password, salt, c.time, c.memory, c.threads, 44), key, salt)
    ensures Read(p, c', Written(p, c, key, salt)) == None
  {
    WrittenLayout(p, c, key, salt);
    var derived := Derive(p, c, salt);
    Base64Url.DecodeEncode(salt);
    Base64Url.DecodeEncode(p.seal(derived[..32], derived[32..44], key, salt));
    var other := Derive(p, c', salt);
    assert other[32..44] == other[32..] && derived[32..44] == derived[32..];
  }

  // A file written in one mode is never read as a key in the other: the password reader misses
  // the colon, the plain reader stumbles over it.
  lemma ModesDoNotMix(p: Primitives, c: Settings, c': Settings, key: Bytes, salt: Bytes)
    requires p.Valid() && (c.password == [] <==> c'.password != [])
    ensures Read(p, c', Written(p, c, key, salt)) == None
  {
    var data := Written(p, c, key, salt);
    if c.password == [] {
      AlphabetHasNoColon(data);
      Text.SplitFree(data, ':');
    } else {
      assert data[|Base64Url.Encode(salt)|] == ':';
      if Base64Url.Decode(data).Some? {
        DecodableHasNoColon(data);
      }
    }
  }

  // Exactly the files that hold a decodable salt, one colon and a decodable sealed key that opens
  // are accepted.
  ghost predicate Holds(p: Primitives, c: Settings, data: string, a: string, b: string, key: Bytes)
    requires p.Valid()
  {
    && data == a + ":" + b
    && Base64Url.Decode(a).Some? && Base64Url.Decode(b).Some?
    && var salt := Base64Url.Decode(a).value;
       var derived := Derive(p, c, salt);
       p.open(derived[..32], derived[32..], Base64Url.Decode(b).value, salt) == Some(key)
  }

  lemma ReadAcceptsExactly(p: Primitives, c: Settings, data: string, key: Bytes)
    requires p.Valid() && c.password != []
    ensures Read(p, c, data) == Some(key) <==> exists a, b :: Holds(p, c, data, a, b, key)
  {
    if Read(p, c, data) == Some(key) {
      var parts := Text.Split(data, ':');
      Text.JoinSplit(data, ':');
      assert parts[1..] == [parts[1]];
      assert Holds(p, c, data, parts[0], parts[1], key);
    }
    forall a, b | Holds(p, c, data, a, b, key) ensures Read(p, c, data) == Some(key) {
      DecodableHasNoColon(a);
      DecodableHasNoColon(b);
      SplitPair(a, b);
    }
  }

  lemma WrittenIsNotEmpty(p: Primitives, c: Settings, key: Bytes, salt: Bytes)
    requires p.Valid() && |key| == KEY_BYTES
    ensures Written(p, c, key, salt) != ""
  {
  }

  // ---------- The manager ----------

  // The path the manager is given; None when no file is there.
  class Disk {
    var file: Option<string>
    constructor (file: Option<string>)
      ensures this.file == file
    {
      this.file := file;
    }
  }

  // A failing write leaves something else behind: nothing, an empty file, or a torn one.
  datatype Write = Complete | Torn(left: Option<string>)

  class FileKeyManager {
    const p: Primitives
    const settings: Settings
    const disk: Disk

    constructor (p: Primitives, settings: Settings, disk: Disk)
      ensures this.p == p && this.settings == settings && this.disk == disk
    {
      this.p := p;
      this.settings := settings;
      this.disk := disk;
    }

    // Creates the file when it is missing or empty and leaves any other file alone. `statFails`
    // stands for an error other than a missing file; `key` and `salt` are what the system's
    // generator returns, None when it fails.
    static method Start(p: Primitives, settings: Settings, disk: Disk, statFails: bool,
                        key: Option<Bytes>, salt: Option<Bytes>, write: Write)
      returns (r: Option<FileKeyManager>)
      requires p.Valid()
      requires (key.Some? ==> |key.value| == KEY_BYTES) && (salt.Some? ==> |salt.value| == SALT_BYTES)
      modifies disk
      ensures r.Some? ==> r.value.p == p && r.value.settings == settings && r.value.disk == disk
      ensures statFails ==> r.None? && disk.file == old(disk.file)
      ensures old(disk.file).Some? && old(disk.file).value != "" ==> disk.file == old(disk.file) && (r.Some? <==> !statFails)
      ensures (old(disk.file).None? || old(disk.file).value == "") && r.Some? ==>
                && key.Some? && disk.file.Some? && disk.file.value != ""
                && Read(p, settings, disk.file.value) == key
    {
      if statFails {
        return None;
      }
      var km := new FileKeyManager(p, settings, disk);
      if disk.file.None? || |disk.file.value| == 0 {
        var ok := km.GenerateAndSaveKey(key, salt, write);
        if !ok {
          return None;
        }
      }
      r := Some(km);
    }

    method GenerateAndSaveKey(key: Option<Bytes>, salt: Option<Bytes>, write: Write) returns (ok: bool)
      requires p.Valid()
      requires (key.Some? ==> |key.value| == KEY_BYTES) && (salt.Some? ==> |salt.value| == SALT_BYTES)
      modifies disk
      ensures ok <==> key.Some? && (settings.password != [] ==> salt.Some?) && write.Complete?
      ensures ok ==> disk.file.Some? && disk.file.value != "" && Read(p, settings, disk.file.value) == key
      ensures ok ==> disk.file.value == Written(p, settings, key.value, salt.UnwrapOr([]))
      ensures !ok ==> disk.file == old(disk.file) || (write.Torn? && disk.file == write.left)
    {
      if key.None? {
        return false;
      }
      var data;
      if |settings.password| == 0 {
        data := Base64Url.Encode(key.value);
      } else {
        if salt.None? {
          return false;
        }
        var derived := p.argon2id(settings.password, salt.value, settings.time, settings.memory, settings.threads, DERIVED_BYTES);
        var encryptionKey, nonce := derived[..32], derived[32..];
        var sealed := p.seal(encryptionKey, nonce, key.value, salt.value);
        data := Base64Url.Encode(salt.value) + ":" + Base64Url.Encode(sealed);
      }
      ReadUndoesWrite(p, settings, key.value, salt.UnwrapOr([]));
      WrittenIsNotEmpty(p, settings, key.value, salt.UnwrapOr([]));
      match write {
        case Complete => disk.file := Some(data);
        case Torn(left) => disk.file := left;
      }
      ok := write.Complete?;
    }

    method GetPasetoSymmetricKey(readFails: bool) returns (key: Option<Bytes>)
      requires p.Valid()
      ensures key == if readFails || disk.file.None? then None else Read(p, settings, disk.file.value)
    {
      if readFails || disk.file.None? {
        return None;
      }
      var data := disk.file.value;
      if |settings.password| == 0 {
        return Base64Url.Decode(data);
      }
      var parts := Text.Split(data, ':');
      if |parts| != 2 {
        return None;
      }
      var salt := Base64Url.Decode(parts[0]);
      if salt.None? {
        return None;
      }
      var encrypted := Base64Url.Decode(parts[1]);
      if encrypted.None? {
        return None;
      }
      var derived := p.argon2id(settings.password, salt.value, settings.time, settings.memory, settings.threads, DERIVED_BYTES);
      var decryptionKey, nonce := derived[..32], derived[32..];
      key := p.open(decryptionKey, nonce, encrypted.value, salt.value);
    }
  }
}
