// The message attribute format (internal/crypto/attribute_encryption.go):
//   version (1) || random (32) || commitment (32) || tag (32) || ciphertext
// over abstract primitives of which only output lengths are assumed.
module AttributeEncryption {
  import opened Wrappers

  const VERSION_1: Bytes := [0x01]
  const VERSION_LEN := 1
  const RANDOM_LEN := 32
  const COMMITMENT_LEN := 32
  const TAG_LEN := 32
  const HEADER_LEN := VERSION_LEN + RANDOM_LEN + COMMITMENT_LEN + TAG_LEN

  const KEY_BYTES := 32
  const NONCE_BYTES := 16
  const ARGON2_SALT_LEN := 16
  const ARGON2_KEY_LEN := 32
  const ARGON2_TIME := 3
  const ARGON2_MEMORY := 16384
  const ARGON2_THREADS := 1

  const KDF_ENCRYPT_KEY_INFO := "FediE2EE-v1-Compliance-Encryption-Key"
  const KDF_AUTH_KEY_INFO := "FediE2EE-v1-Compliance-Message-Auth-Key"
  const KDF_COMMIT_SALT_INFO := "FediE2EE-v1-Compliance-KDF-Salt"

  function Ascii(s: string): (bs: Bytes)
    ensures |bs| == |s|
    ensures forall i | 0 <= i < |s| :: bs[i] == s[i] as int % 256
  {
    seq(|s|, i requires 0 <= i < |s| => s[i] as int % 256)
  }

  // HKDF-SHA512 without salt, SHA-512, HMAC-SHA512, Argon2id, and the AES-CTR keystream.
  datatype Primitives = Primitives(
    hkdf: (Bytes, Bytes, nat) -> Bytes,
    sha512: Bytes -> Bytes,
    hmac: (Bytes, Bytes) -> Bytes,
    argon2id: (Bytes, Bytes, nat, nat, nat, nat) -> Bytes,
    keystream: (Bytes, Bytes, nat) -> Bytes)
  {
    ghost predicate Valid() {
      && (forall ikm, info, n :: |hkdf(ikm, info, n)| == n)
      && (forall data :: |sha512(data)| == 64)
      && (forall key, data :: |hmac(key, data)| == 64)
      && (forall password, salt, time, memory, threads, n :: |argon2id(password, salt, time, memory, threads, n)| == n)
      && (forall key, nonce, n :: |keystream(key, nonce, n)| == n)
    }
  }

  // ---------- Length prefixes ----------

  // The `k` low octets of `n`, least significant first.
  function LittleEndian(n: nat, k: nat): (bs: Bytes)
    ensures |bs| == k
  {
    if k == 0 then [] else [n % 256] + LittleEndian(n / 256, k - 1)
  }

  function FromLittleEndian(bs: Bytes): nat {
    if bs == [] then 0 else bs[0] + 256 * FromLittleEndian(bs[1..])
  }

  function Pow256(k: nat): nat {
    if k == 0 then 1 else 256 * Pow256(k - 1)
  }

  const TWO_TO_THE_64: nat := 0x1_0000_0000_0000_0000

  lemma {:induction false} FromLittleEndianOf(n: nat, k: nat)
    requires n < Pow256(k)
    ensures FromLittleEndian(LittleEndian(n, k)) == n
  {
    if k > 0 {
      FromLittleEndianOf(n / 256, k - 1);
      assert LittleEndian(n, k)[1..] == LittleEndian(n / 256, k - 1);
    }
  }

  // The prefix is an unsigned 64-bit length.
  function LengthPrefixed(data: Bytes): (bs: Bytes)
    ensures |bs| == 8 + |data|
  {
    LittleEndian(|data|, 8) + data
  }

  lemma PrefixIsInvertible(n: nat)
    requires n < TWO_TO_THE_64
    ensures FromLittleEndian(LittleEndian(n, 8)) == n
  {
    assert Pow256(4) == 0x1_0000_0000;
    assert Pow256(8) == TWO_TO_THE_64;
    FromLittleEndianOf(n, 8);
  }

  predicate Fits(data: Bytes) {
    |data| < TWO_TO_THE_64
  }

  // A prefixed item can be read off the front of any text in only one way.
  lemma PrefixedSplits(a: Bytes, x: Bytes, b: Bytes, y: Bytes)
    requires Fits(a) && Fits(b) && LengthPrefixed(a) + x == LengthPrefixed(b) + y
    ensures a == b && x == y
  {
    var s := LengthPrefixed(a) + x;
    assert s[..8] == LittleEndian(|a|, 8) == LittleEndian(|b|, 8);
    PrefixIsInvertible(|a|);
    PrefixIsInvertible(|b|);
    assert s[8..8 + |a|] == a == b;
    assert s[8 + |a|..] == x == y;
  }

  method PutUint64(buf: array<byte>, value: nat)
    requires buf.Length >= 8
    modifies buf
    ensures buf[..8] == LittleEndian(value, 8)
    ensures buf[8..] == old(buf[8..])
  {
    var v := value;
    for i := 0 to 8
      invariant buf[..i] + LittleEndian(v, 8 - i) == LittleEndian(value, 8)
      invariant buf[8..] == old(buf[8..])
    {
      ghost var before := buf[..i];
      assert LittleEndian(v, 8 - i) == [v % 256] + LittleEndian(v / 256, 7 - i);
      buf[i] := v % 256;
      assert buf[..i + 1] == before + [v % 256];
      v := v / 256;
    }
    assert buf[..8] + [] == buf[..8];
  }

  method LenEncode(data: Bytes) returns (encoded: Bytes)
    ensures encoded == LengthPrefixed(data)
  {
    var buf := new byte[8 + |data|](_ => 0);
    PutUint64(buf, |data|);
    for i := 0 to |data|
      invariant buf[..8] == LittleEndian(|data|, 8)
      invariant buf[8..8 + i] == data[..i]
    {
      ghost var before := buf[8..8 + i];
      buf[8 + i] := data[i];
      assert buf[8..8 + i + 1] == before + [data[i]];
    }
    encoded := buf[..];
    assert encoded == buf[..8] + buf[8..8 + |data|];
  }

  // ---------- The framed inputs of the primitives ----------

  function Info(context: string, version: Bytes, random: Bytes, name: Bytes): Bytes {
    Ascii(context) + version + random + LengthPrefixed(name)
  }

  function SaltInput(version: Bytes, random: Bytes, root: Bytes, name: Bytes): Bytes {
    Ascii(KDF_COMMIT_SALT_INFO) + version + random + LengthPrefixed(root) + LengthPrefixed(name)
  }

  function CommitmentInput(root: Bytes, name: Bytes, plaintext: Bytes): Bytes {
    LengthPrefixed(root) + LengthPrefixed(name) + LengthPrefixed(plaintext)
  }

  function MacInput(version: Bytes, random: Bytes, name: Bytes, ciphertext: Bytes, commitment: Bytes): Bytes {
    version + random + LengthPrefixed(name) + LengthPrefixed(ciphertext) + LengthPrefixed(commitment)
  }

  predicate IsHeader(version: Bytes, random: Bytes) {
    |version| == VERSION_LEN && |random| == RANDOM_LEN
  }

  lemma CommitmentInputShape(root: Bytes, name: Bytes, plaintext: Bytes)
    ensures CommitmentInput(root, name, plaintext)
         == LengthPrefixed(root) + (LengthPrefixed(name) + LengthPrefixed(plaintext))
  {
  }

  // The commitment binds root, name and plaintext: no two triples are hashed as the same octets.
  lemma CommitmentInputDetermines(root: Bytes, name: Bytes, plaintext: Bytes,
                                  root': Bytes, name': Bytes, plaintext': Bytes)
    requires Fits(root) && Fits(name) && Fits(plaintext) && Fits(root') && Fits(name') && Fits(plaintext')
    requires CommitmentInput(root, name, plaintext) == CommitmentInput(root', name', plaintext')
    ensures root == root' && name == name' && plaintext == plaintext'
  {
    var x, x' := LengthPrefixed(name) + LengthPrefixed(plaintext), LengthPrefixed(name') + LengthPrefixed(plaintext');
    CommitmentInputShape(root, name, plaintext);
    CommitmentInputShape(root', name', plaintext');
    hide LengthPrefixed, CommitmentInput;
    PrefixedSplits(root, x, root', x');
    PrefixedSplits(name, LengthPrefixed(plaintext), name', LengthPrefixed(plaintext'));
    assert LengthPrefixed(plaintext) + [] == LengthPrefixed(plaintext);
    assert LengthPrefixed(plaintext') + [] == LengthPrefixed(plaintext');
    PrefixedSplits(plaintext, [], plaintext', []);
  }

  lemma HeaderSplits(version: Bytes, random: Bytes, x: Bytes, version': Bytes, random': Bytes, x': Bytes)
    requires IsHeader(version, random) && IsHeader(version', random')
    requires version + random + x == version' + random' + x'
    ensures version == version' && random == random' && x == x'
  {
    var s := version + random + x;
    assert s[..1] == version == version';
    assert s[1..33] == random == random';
    assert s[33..] == x == x';
  }

  // The MAC input is a header followed by three prefixed items, as the commitment input is.
  lemma MacInputShape(version: Bytes, random: Bytes, name: Bytes, ciphertext: Bytes, commitment: Bytes)
    ensures MacInput(version, random, name, ciphertext, commitment)
         == version + random + CommitmentInput(name, ciphertext, commitment)
  {
  }

  lemma MacInputDetermines(version: Bytes, random: Bytes, name: Bytes, ciphertext: Bytes, commitment: Bytes,
                           version': Bytes, random': Bytes, name': Bytes, ciphertext': Bytes, commitment': Bytes)
    requires IsHeader(version, random) && IsHeader(version', random')
    requires Fits(name) && Fits(ciphertext) && Fits(commitment)
    requires Fits(name') && Fits(ciphertext') && Fits(commitment')
    requires MacInput(version, random, name, ciphertext, commitment)
          == MacInput(version', random', name', ciphertext', commitment')
    ensures version == version' && random == random' && name == name'
    ensures ciphertext == ciphertext' && commitment == commitment'
  {
    var x, x' := CommitmentInput(name, ciphertext, commitment), CommitmentInput(name', ciphertext', commitment');
    MacInputShape(version, random, name, ciphertext, commitment);
    MacInputShape(version', random', name', ciphertext', commitment');
    HeaderSplits(version, random, x, version', random', x');
    CommitmentInputDetermines(name, ciphertext, commitment, name', ciphertext', commitment');
  }

  lemma SaltInputDetermines(version: Bytes, random: Bytes, root: Bytes, name: Bytes,
                            version': Bytes, random': Bytes, root': Bytes, name': Bytes)
    requires IsHeader(version, random) && IsHeader(version', random')
    requires Fits(root) && Fits(name) && Fits(root') && Fits(name')
    requires SaltInput(version, random, root, name) == SaltInput(version', random', root', name')
    ensures version == version' && random == random' && root == root' && name == name'
  {
    var c := Ascii(KDF_COMMIT_SALT_INFO);
    var x, x' := LengthPrefixed(root) + LengthPrefixed(name), LengthPrefixed(root') + LengthPrefixed(name');
    assert SaltInput(version, random, root, name) == c + (version + random + x);
    assert SaltInput(version', random', root', name') == c + (version' + random' + x');
    assert (c + (version + random + x))[|c|..] == version + random + x;
    assert (c + (version' + random' + x'))[|c|..] == version' + random' + x';
    HeaderSplits(version, random, x, version', random', x');
    PrefixedSplits(root, LengthPrefixed(name), root', LengthPrefixed(name'));
    PrefixedSplits(name, [], name', []);
  }

  // Within one context the key-derivation info names its header and attribute.
  lemma InfoDetermines(context: string, version: Bytes, random: Bytes, name: Bytes,
                       version': Bytes, random': Bytes, name': Bytes)
    requires IsHeader(version, random) && IsHeader(version', random') && Fits(name) && Fits(name')
    requires Info(context, version, random, name) == Info(context, version', random', name')
    ensures version == version' && random == random' && name == name'
  {
    var c := Ascii(context);
    assert Info(context, version, random, name) == c + (version + random + LengthPrefixed(name));
    assert Info(context, version', random', name') == c + (version' + random' + LengthPrefixed(name'));
    assert Info(context, version, random, name)[|c|..] == version + random + LengthPrefixed(name);
    assert Info(context, version', random', name')[|c|..] == version' + random' + LengthPrefixed(name');
    HeaderSplits(version, random, LengthPrefixed(name), version', random', LengthPrefixed(name'));
    PrefixedSplits(name, [], name', []);
  }

  // Encryption keys and authentication keys are never derived from the same info, whatever the
  // header and the attribute: the two contexts differ within their common length.
  lemma KeysAreSeparated(version: Bytes, random: Bytes, name: Bytes, version': Bytes, random': Bytes, name': Bytes)
    ensures Info(KDF_ENCRYPT_KEY_INFO, version, random, name) != Info(KDF_AUTH_KEY_INFO, version', random', name')
  {
    var k := |"FediE2EE-v1-Compliance-"|;
    assert KDF_ENCRYPT_KEY_INFO[k] == 'E' && KDF_AUTH_KEY_INFO[k] == 'M';
    assert Info(KDF_ENCRYPT_KEY_INFO, version, random, name)[k] == 'E' as int;
    assert Info(KDF_AUTH_KEY_INFO, version', random', name')[k] == 'M' as int;
  }

  // ---------- Derived values ----------

  function Pow2(k: nat): nat {
    if k == 0 then 1 else 2 * Pow2(k - 1)
  }

  // Bitwise exclusive or of the `k` low bits.
  function XorBits(a: nat, b: nat, k: nat): (r: nat)
    ensures r < Pow2(k)
  {
    if k == 0 then 0 else (a + b) % 2 + 2 * XorBits(a / 2, b / 2, k - 1)
  }

  lemma BitTwice(a: nat, b: nat, r: nat)
    ensures var x := (a + b) % 2 + 2 * r; x / 2 == r && (x + b) % 2 == a % 2
  {
  }

  lemma {:induction false} XorBitsTwice(a: nat, b: nat, k: nat)
    requires a < Pow2(k)
    ensures XorBits(XorBits(a, b, k), b, k) == a
  {
    if k > 0 {
      var r := XorBits(a / 2, b / 2, k - 1);
      XorBitsTwice(a / 2, b / 2, k - 1);
      BitTwice(a, b, r);
      assert a == a % 2 + 2 * (a / 2);
    }
  }

  function Xor(a: byte, b: byte): byte {
    assert Pow2(8) == 256;
    XorBits(a, b, 8)
  }

  lemma XorTwice(a: byte, b: byte)
    ensures Xor(Xor(a, b), b) == a
  {
    assert Pow2(8) == 256;
    XorBitsTwice(a, b, 8);
  }

  function XorKeyStream(data: Bytes, stream: Bytes): (r: Bytes)
    requires |stream| == |data|
    ensures |r| == |data|
  {
    seq(|data|, i requires 0 <= i < |data| => Xor(data[i], stream[i]))
  }

  lemma XorKeyStreamTwice(data: Bytes, stream: Bytes)
    requires |stream| == |data|
    ensures XorKeyStream(XorKeyStream(data, stream), stream) == data
  {
    forall i | 0 <= i < |data| ensures XorKeyStream(XorKeyStream(data, stream), stream)[i] == data[i] {
      XorTwice(data[i], stream[i]);
    }
  }

  function EncryptionKeyAndNonce(p: Primitives, version: Bytes, random: Bytes, name: Bytes, ikm: Bytes): Bytes {
    p.hkdf(ikm, Info(KDF_ENCRYPT_KEY_INFO, version, random, name), KEY_BYTES + NONCE_BYTES)
  }

  function AuthKey(p: Primitives, version: Bytes, random: Bytes, name: Bytes, ikm: Bytes): Bytes {
    p.hkdf(ikm, Info(KDF_AUTH_KEY_INFO, version, random, name), KEY_BYTES)
  }

  ghost function Crypt(p: Primitives, version: Bytes, random: Bytes, name: Bytes, ikm: Bytes, data: Bytes): (r: Bytes)
    requires p.Valid()
    ensures |r| == |data|
  {
    var derived := EncryptionKeyAndNonce(p, version, random, name, ikm);
    XorKeyStream(data, p.keystream(derived[..KEY_BYTES], derived[KEY_BYTES..], |data|))
  }

  lemma CryptTwice(p: Primitives, version: Bytes, random: Bytes, name: Bytes, ikm: Bytes, data: Bytes)
    requires p.Valid()
    ensures Crypt(p, version, random, name, ikm, Crypt(p, version, random, name, ikm, data)) == data
  {
    var derived := EncryptionKeyAndNonce(p, version, random, name, ikm);
    XorKeyStreamTwice(data, p.keystream(derived[..KEY_BYTES], derived[KEY_BYTES..], |data|));
  }

  ghost function Salt(p: Primitives, version: Bytes, random: Bytes, root: Bytes, name: Bytes): Bytes
    requires p.Valid()
  {
    p.sha512(SaltInput(version, random, root, name))[..ARGON2_SALT_LEN]
  }

  function Argon2id(p: Primitives, input: Bytes, salt: Bytes): Bytes {
    p.argon2id(input, salt, ARGON2_TIME, ARGON2_MEMORY, ARGON2_THREADS, ARGON2_KEY_LEN)
  }

  ghost function Commitment(p: Primitives, version: Bytes, random: Bytes, root: Bytes, name: Bytes, plaintext: Bytes)
    : Bytes
    requires p.Valid()
  {
    Argon2id(p, CommitmentInput(root, name, plaintext), Salt(p, version, random, root, name))
  }

  // The rightmost octets of the MAC.
  ghost function Tag(p: Primitives, key: Bytes, version: Bytes, random: Bytes, name: Bytes, ciphertext: Bytes,
                     commitment: Bytes): (t: Bytes)
    requires p.Valid()
    ensures |t| == TAG_LEN
  {
    p.hmac(key, MacInput(version, random, name, ciphertext, commitment))[64 - TAG_LEN..]
  }

  // ---------- Encryption and decryption ----------

  ghost function Encrypted(p: Primitives, name: Bytes, plaintext: Bytes, ikm: Bytes, root: Bytes, random: Bytes): Bytes
    requires p.Valid()
  {
    var q := Commitment(p, VERSION_1, random, root, name, plaintext);
    var c := Crypt(p, VERSION_1, random, name, ikm, plaintext);
    VERSION_1 + random + q + Tag(p, AuthKey(p, VERSION_1, random, name, ikm), VERSION_1, random, name, c, q) + c
  }

  datatype Failure = TooShort | UnknownVersion | InvalidTag | CommitmentMismatch

  // The parts of an input of sufficient length.
  function VersionOf(input: Bytes): Bytes requires |input| >= HEADER_LEN { input[..1] }
  function RandomOf(input: Bytes): Bytes requires |input| >= HEADER_LEN { input[1..33] }
  function CommitmentOf(input: Bytes): Bytes requires |input| >= HEADER_LEN { input[33..65] }
  function TagOf(input: Bytes): Bytes requires |input| >= HEADER_LEN { input[65..97] }
  function CiphertextOf(input: Bytes): Bytes requires |input| >= HEADER_LEN { input[97..] }

  ghost function Decrypted(p: Primitives, name: Bytes, input: Bytes, ikm: Bytes, root: Bytes): Result<Bytes, Failure>
    requires p.Valid()
  {
    if |input| < HEADER_LEN then Result.Failure(TooShort)
    else
      var h, r, q, c := VersionOf(input), RandomOf(input), CommitmentOf(input), CiphertextOf(input);
      if h != VERSION_1 then Result.Failure(UnknownVersion)
      else if TagOf(input) != Tag(p, AuthKey(p, h, r, name, ikm), h, r, name, c, q) then Result.Failure(InvalidTag)
      else
        var plaintext := Crypt(p, h, r, name, ikm, c);
        if q != Commitment(p, h, r, root, name, plaintext) then Result.Failure(CommitmentMismatch)
        else Success(plaintext)
  }

  lemma PartsOf(h: Bytes, r: Bytes, q: Bytes, t: Bytes, c: Bytes)
    requires |h| == 1 && |r| == 32 && |q| == 32 && |t| == 32
    ensures var input := h + r + q + t + c;
            && |input| >= HEADER_LEN && VersionOf(input) == h && RandomOf(input) == r
            && CommitmentOf(input) == q && TagOf(input) == t && CiphertextOf(input) == c
  {
  }

  lemma PartsMakeInput(input: Bytes)
    requires |input| >= HEADER_LEN
    ensures input == VersionOf(input) + RandomOf(input) + CommitmentOf(input) + TagOf(input) + CiphertextOf(input)
  {
  }

  lemma DecryptEncrypt(p: Primitives, name: Bytes, plaintext: Bytes, ikm: Bytes, root: Bytes, random: Bytes)
    requires p.Valid() && |random| == RANDOM_LEN
    ensures var input := Encrypted(p, name, plaintext, ikm, root, random);
            && Decrypted(p, name, input, ikm, root) == Success(plaintext)
            && |input| >= HEADER_LEN && RandomOf(input) == random
  {
    var q := Commitment(p, VERSION_1, random, root, name, plaintext);
    var c := Crypt(p, VERSION_1, random, name, ikm, plaintext);
    PartsOf(VERSION_1, random, q, Tag(p, AuthKey(p, VERSION_1, random, name, ikm), VERSION_1, random, name, c, q), c);
    CryptTwice(p, VERSION_1, random, name, ikm, plaintext);
  }

  // Decryption accepts exactly what encryption produces: an input decrypts to a plaintext if and
  // only if it is, octet for octet, that plaintext encrypted with the randomness in the input.
  lemma DecryptAcceptsExactlyEncryptions(p: Primitives, name: Bytes, input: Bytes, ikm: Bytes, root: Bytes, plaintext: Bytes)
    requires p.Valid()
    ensures Decrypted(p, name, input, ikm, root) == Success(plaintext)
        <==> |input| >= HEADER_LEN && input == Encrypted(p, name, plaintext, ikm, root, RandomOf(input))
  {
    if Decrypted(p, name, input, ikm, root) == Success(plaintext) {
      PartsMakeInput(input);
      CryptTwice(p, VERSION_1, RandomOf(input), name, ikm, CiphertextOf(input));
    }
    if |input| >= HEADER_LEN && input == Encrypted(p, name, plaintext, ikm, root, RandomOf(input)) {
      DecryptEncrypt(p, name, plaintext, ikm, root, RandomOf(input));
    }
  }

  // One input accepted for two different meanings, even under two different keys, exhibits two
  // different inputs on which Argon2id agrees.
  lemma TwoMeaningsNeedACollision(p: Primitives, input: Bytes, name: Bytes, ikm: Bytes, root: Bytes, plaintext: Bytes,
                                  name': Bytes, ikm': Bytes, root': Bytes, plaintext': Bytes)
    requires p.Valid()
    requires Fits(root) && Fits(name) && Fits(plaintext) && Fits(root') && Fits(name') && Fits(plaintext')
    requires Decrypted(p, name, input, ikm, root) == Success(plaintext)
    requires Decrypted(p, name', input, ikm', root') == Success(plaintext')
    requires (root, name, plaintext) != (root', name', plaintext')
    ensures var l, l' := CommitmentInput(root, name, plaintext), CommitmentInput(root', name', plaintext');
            var r := RandomOf(input);
            && l != l'
            && Argon2id(p, l, Salt(p, VERSION_1, r, root, name)) == Argon2id(p, l', Salt(p, VERSION_1, r, root', name'))
  {
    if CommitmentInput(root, name, plaintext) == CommitmentInput(root', name', plaintext') {
      CommitmentInputDetermines(root, name, plaintext, root', name', plaintext');
    }
  }

  // ---------- The layout, octet by octet ----------

  function EncryptionInfoPrefix(): Bytes {
    Ascii("FediE2EE-v1-Compliance-Encryption-Key")
  }

  function AuthInfoPrefix(): Bytes {
    Ascii("FediE2EE-v1-Compliance-Message-Auth-Key")
  }

  // What an encryption consists of, in terms of the primitives alone.
  lemma EncryptionLayout(p: Primitives, name: Bytes, plaintext: Bytes, ikm: Bytes, root: Bytes, random: Bytes)
    requires p.Valid() && |random| == 32
    ensures var out := Encrypted(p, name, plaintext, ikm, root, random);
            var derived := p.hkdf(ikm, EncryptionInfoPrefix() + [1] + random + LengthPrefixed(name), 48);
            var authKey := p.hkdf(ikm, AuthInfoPrefix() + [1] + random + LengthPrefixed(name), 32);
            var salt := p.sha512(Ascii("FediE2EE-v1-Compliance-KDF-Salt") + [1] + random
                                 + LengthPrefixed(root) + LengthPrefixed(name))[..16];
            var committed := LengthPrefixed(root) + LengthPrefixed(name) + LengthPrefixed(plaintext);
            var stream := p.keystream(derived[..32], derived[32..], |plaintext|);
            && |out| == 97 + |plaintext|
            && out[0] == 1
            && out[1..33] == random
            && out[33..65] == p.argon2id(committed, salt, 3, 16384, 1, 32)
            && out[65..97] == p.hmac(authKey, [1] + random + LengthPrefixed(name) + LengthPrefixed(out[97..])
                                              + LengthPrefixed(out[33..65]))[32..]
            && forall i | 0 <= i < |plaintext| :: out[97 + i] == Xor(plaintext[i], stream[i])
  {
    var q := Commitment(p, VERSION_1, random, root, name, plaintext);
    var c := Crypt(p, VERSION_1, random, name, ikm, plaintext);
    var t := Tag(p, AuthKey(p, VERSION_1, random, name, ikm), VERSION_1, random, name, c, q);
    PartsOf(VERSION_1, random, q, t, c);
    var out := VERSION_1 + random + q + t + c;
    assert out[97..] == c && out[33..65] == q && out[65..97] == t;
    hide Ascii, LengthPrefixed, Xor;
    assert forall i | 0 <= i < |plaintext| :: out[97 + i] == c[i];
  }

  // The prefix is the length as eight octets, least significant first.
  lemma PrefixOctets(data: Bytes)
    requires Fits(data)
    ensures var b := LengthPrefixed(data);
            && b[8..] == data
            && |data| == b[0] as int + 0x100 * (b[1] as int) + 0x1_0000 * (b[2] as int) + 0x100_0000 * (b[3] as int) + 0x1_0000_0000 * (b[4] as int)
                         + 0x100_0000_0000 * (b[5] as int) + 0x1_0000_0000_0000 * (b[6] as int) + 0x100_0000_0000_0000 * (b[7] as int)
  {
    var bs := LittleEndian(|data|, 8);
    PrefixIsInvertible(|data|);
    EightOctets(bs);
  }

  lemma EightOctets(b: Bytes)
    requires |b| == 8
    ensures FromLittleEndian(b) == b[0] as int + 0x100 * (b[1] as int) + 0x1_0000 * (b[2] as int) + 0x100_0000 * (b[3] as int) + 0x1_0000_0000 * (b[4] as int)
                                   + 0x100_0000_0000 * (b[5] as int) + 0x1_0000_0000_0000 * (b[6] as int) + 0x100_0000_0000_0000 * (b[7] as int)
  {
    FourOctets(b[4..]);
    FourOctets(b[..4]);
    LowAndHigh(b);
  }

  lemma FourOctets(b: Bytes)
    requires |b| == 4
    ensures FromLittleEndian(b) == b[0] as int + 0x100 * (b[1] as int) + 0x1_0000 * (b[2] as int) + 0x100_0000 * (b[3] as int)
  {
    assert FromLittleEndian(b[3..]) == b[3];
    assert b[2..][1..] == b[3..] && b[1..][1..] == b[2..];
    assert FromLittleEndian(b[2..]) == b[2] + 256 * FromLittleEndian(b[3..]);
    assert FromLittleEndian(b[1..]) == b[1] + 256 * FromLittleEndian(b[2..]);
  }

  lemma LowAndHigh(b: Bytes)
    requires |b| == 8
    ensures FromLittleEndian(b) == FromLittleEndian(b[..4]) + 0x1_0000_0000 * FromLittleEndian(b[4..])
  {
    FourOctets(b[..4]);
    assert b[3..][1..] == b[4..] && b[2..][1..] == b[3..] && b[1..][1..] == b[2..];
    assert FromLittleEndian(b[3..]) == b[3] + 256 * FromLittleEndian(b[4..]);
    assert FromLittleEndian(b[2..]) == b[2] + 256 * FromLittleEndian(b[3..]);
    assert FromLittleEndian(b[1..]) == b[1] + 256 * FromLittleEndian(b[2..]);
  }

  // The bits of an exclusive or.
  lemma {:induction false} XorBitIs(a: nat, b: nat, k: nat, i: nat)
    requires i < k
    ensures BitOf(XorBits(a, b, k), i) == (BitOf(a, i) + BitOf(b, i)) % 2
  {
    var r := XorBits(a / 2, b / 2, k - 1);
    BitTwice(a, b, r);
    var d := (a + b) % 2;
    assert XorBits(a, b, k) == d + 2 * r && (d + 2 * r) % 2 == d;
    if i > 0 {
      XorBitIs(a / 2, b / 2, k - 1, i - 1);
    }
  }

  function BitOf(n: nat, i: nat): nat {
    if i == 0 then n % 2 else BitOf(n / 2, i - 1)
  }

  // ---------- Which key does what ----------

  // The two sets of primitives differ, if at all, in what HKDF gives for infos with this beginning.
  ghost predicate DifferOnlyUnder(p: Primitives, p': Primitives, prefix: Bytes) {
    && p' == p.(hkdf := p'.hkdf)
    && forall ikm, info, n | !(prefix <= info) :: p'.hkdf(ikm, info, n) == p.hkdf(ikm, info, n)
  }

  lemma PrefixesAreApart(x: Bytes)
    ensures !(EncryptionInfoPrefix() <= AuthInfoPrefix() + x)
    ensures !(AuthInfoPrefix() <= EncryptionInfoPrefix() + x)
  {
    var k := |"FediE2EE-v1-Compliance-"|;
    assert EncryptionInfoPrefix()[k] == 'E' as int && AuthInfoPrefix()[k] == 'M' as int;
  }

  // The authentication key does not depend on anything derived under the encryption context.
  lemma AuthKeyIgnoresEncryptionContext(p: Primitives, p': Primitives, random: Bytes, name: Bytes, ikm: Bytes)
    requires DifferOnlyUnder(p, p', EncryptionInfoPrefix())
    ensures AuthKey(p', VERSION_1, random, name, ikm) == AuthKey(p, VERSION_1, random, name, ikm)
  {
    var x := VERSION_1 + random + LengthPrefixed(name);
    PrefixesAreApart(x);
    assert Info(KDF_AUTH_KEY_INFO, VERSION_1, random, name) == AuthInfoPrefix() + x;
  }

  // The ciphertext does not depend on anything derived under the authentication context.
  lemma CiphertextIgnoresAuthContext(p: Primitives, p': Primitives, random: Bytes, name: Bytes, ikm: Bytes, data: Bytes)
    requires p.Valid() && p'.Valid() && DifferOnlyUnder(p, p', AuthInfoPrefix())
    ensures Crypt(p', VERSION_1, random, name, ikm, data) == Crypt(p, VERSION_1, random, name, ikm, data)
  {
    var x := VERSION_1 + random + LengthPrefixed(name);
    PrefixesAreApart(x);
    assert Info(KDF_ENCRYPT_KEY_INFO, VERSION_1, random, name) == EncryptionInfoPrefix() + x;
    hide Ascii, LengthPrefixed;
    assert EncryptionKeyAndNonce(p', VERSION_1, random, name, ikm) == EncryptionKeyAndNonce(p, VERSION_1, random, name, ikm);
  }

  // ---------- The algorithms ----------

  method BuildInfo(context: string, version: Bytes, random: Bytes, name: Bytes) returns (info: Bytes)
    ensures info == Info(context, version, random, name)
  {
    info := [];
    info := info + Ascii(context);
    info := info + version;
    info := info + random;
    var encoded := LenEncode(name);
    info := info + encoded;
  }

  method CommitPlaintext(p: Primitives, name: Bytes, plaintext: Bytes, root: Bytes, salt: Bytes) returns (q: Bytes)
    ensures q == Argon2id(p, CommitmentInput(root, name, plaintext), salt)
  {
    var l: Bytes := [];
    var encoded := LenEncode(root);
    l := l + encoded;
    encoded := LenEncode(name);
    l := l + encoded;
    encoded := LenEncode(plaintext);
    l := l + encoded;
    assert l == CommitmentInput(root, name, plaintext);
    q := p.argon2id(l, salt, ARGON2_TIME, ARGON2_MEMORY, ARGON2_THREADS, ARGON2_KEY_LEN);
  }

  method DeriveSalt(p: Primitives, version: Bytes, random: Bytes, root: Bytes, name: Bytes) returns (salt: Bytes)
    requires p.Valid()
    ensures salt == Salt(p, version, random, root, name)
  {
    var hashed := Ascii(KDF_COMMIT_SALT_INFO);
    hashed := hashed + version;
    hashed := hashed + random;
    var encoded := LenEncode(root);
    hashed := hashed + encoded;
    encoded := LenEncode(name);
    hashed := hashed + encoded;
    salt := p.sha512(hashed)[..ARGON2_SALT_LEN];
  }

  method ComputeTag(p: Primitives, key: Bytes, version: Bytes, random: Bytes, name: Bytes, ciphertext: Bytes,
                    commitment: Bytes) returns (tag: Bytes)
    requires p.Valid()
    ensures tag == Tag(p, key, version, random, name, ciphertext, commitment)
  {
    var fed := version;
    fed := fed + random;
    var encoded := LenEncode(name);
    fed := fed + encoded;
    encoded := LenEncode(ciphertext);
    fed := fed + encoded;
    encoded := LenEncode(commitment);
    fed := fed + encoded;
    var full := p.hmac(key, fed);
    tag := full[|full| - TAG_LEN..];
  }

  method ApplyKeyStream(p: Primitives, derived: Bytes, data: Bytes) returns (out: Bytes)
    requires p.Valid() && |derived| == KEY_BYTES + NONCE_BYTES
    ensures out == XorKeyStream(data, p.keystream(derived[..KEY_BYTES], derived[KEY_BYTES..], |data|))
  {
    var stream := p.keystream(derived[..KEY_BYTES], derived[KEY_BYTES..], |data|);
    var buf := new byte[|data|](_ => 0);
    for i := 0 to |data|
      invariant forall j | 0 <= j < i :: buf[j] == Xor(data[j], stream[j])
    {
      buf[i] := Xor(data[i], stream[i]);
    }
    out := buf[..];
  }

  // `random` is what the system's generator returns, None when it fails.
  method EncryptAttribute(p: Primitives, name: Bytes, plaintext: Bytes, ikm: Bytes, root: Bytes, random: Option<Bytes>)
    returns (result: Option<Bytes>)
    requires p.Valid() && (random.Some? ==> |random.value| == RANDOM_LEN)
    ensures result == if random.None? then None
                      else Some(Encrypted(p, name, plaintext, ikm, root, random.value))
  {
    var h := VERSION_1;
    if random.None? {
      return None;
    }
    var r := random.value;
    var info := BuildInfo(KDF_ENCRYPT_KEY_INFO, h, r, name);
    var derived := p.hkdf(ikm, info, KEY_BYTES + NONCE_BYTES);
    info := BuildInfo(KDF_AUTH_KEY_INFO, h, r, name);
    var ak := p.hkdf(ikm, info, KEY_BYTES);
    var s := DeriveSalt(p, h, r, root, name);
    var q := CommitPlaintext(p, name, plaintext, root, s);
    var c := ApplyKeyStream(p, derived, plaintext);
    var t := ComputeTag(p, ak, h, r, name, c, q);
    var out := h;
    out := out + r;
    out := out + q;
    out := out + t;
    out := out + c;
    result := Some(out);
  }

  method DecryptAttribute(p: Primitives, name: Bytes, ciphertext: Bytes, ikm: Bytes, root: Bytes)
    returns (result: Result<Bytes, Failure>)
    requires p.Valid()
    ensures result == Decrypted(p, name, ciphertext, ikm, root)
  {
    hide Tag, Salt, Info, CommitmentInput, Argon2id, XorKeyStream;
    if |ciphertext| < VERSION_LEN + RANDOM_LEN + COMMITMENT_LEN + TAG_LEN {
      return Result.Failure(TooShort);
    }
    var pos := 0;
    var h := ciphertext[pos..pos + VERSION_LEN];
    pos := pos + VERSION_LEN;
    var r := ciphertext[pos..pos + RANDOM_LEN];
    pos := pos + RANDOM_LEN;
    var q := ciphertext[pos..pos + COMMITMENT_LEN];
    pos := pos + COMMITMENT_LEN;
    var t := ciphertext[pos..pos + TAG_LEN];
    pos := pos + TAG_LEN;
    var c := ciphertext[pos..];
    if h[0] != 0x01 {
      return Result.Failure(UnknownVersion);
    }
    assert h == VERSION_1;
    var info := BuildInfo(KDF_AUTH_KEY_INFO, h, r, name);
    var ak := p.hkdf(ikm, info, KEY_BYTES);
    var t2 := ComputeTag(p, ak, h, r, name, c, q);
    if t != t2 {
      return Result.Failure(InvalidTag);
    }
    info := BuildInfo(KDF_ENCRYPT_KEY_INFO, h, r, name);
    var derived := p.hkdf(ikm, info, KEY_BYTES + NONCE_BYTES);
    var plaintext := ApplyKeyStream(p, derived, c);
    var s := DeriveSalt(p, h, r, root, name);
    var q2 := CommitPlaintext(p, name, plaintext, root, s);
    if q != q2 {
      return Result.Failure(CommitmentMismatch);
    }
    result := Success(plaintext);
  }
}
