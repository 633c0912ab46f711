// Key texts and message signatures (internal/crypto/signing.go).
module Signing {
  import opened Wrappers
  import opened Protocol
  import Base64Url

  const ED25519_PREFIX := "ed25519:"
  const PUBLIC_KEY_SIZE := 32

  type PublicKey = pk: Bytes | |pk| == PUBLIC_KEY_SIZE witness seq(PUBLIC_KEY_SIZE, _ => 0)

  function EncodePublicKey(pk: Bytes): string {
    ED25519_PREFIX + Base64Url.Encode(pk)
  }

  function DecodePublicKey(text: string): Option<PublicKey> {
    if !(ED25519_PREFIX <= text) then None
    else
      var bytes := Base64Url.Decode(text[|ED25519_PREFIX|..]);
      if bytes.None? || |bytes.value| != PUBLIC_KEY_SIZE then None else Some(bytes.value)
  }

  // A signature holds over the four signed fields only: the key id hint, the disclosed
  // symmetric keys and the one-time password are outside it.
  predicate VerifyMessageSignature(env: Env, msg: ProtocolMessage, pk: Bytes) {
    var signed := env.canonical(SignedPart(msg));
    var sig := Base64Url.Decode(msg.signature);
    signed.Some? && sig.Some? && env.ed25519(pk, signed.value, sig.value)
  }

  // ---------- What a signature covers ----------

  ghost predicate SignatureHolds(env: Env, msg: ProtocolMessage, pk: Bytes) {
    exists text: Bytes, sig: Bytes ::
      && env.canonical(SignedMessage(msg.pkdContext, msg.action, msg.message, msg.recentMerkleRoot)) == Some(text)
      && Base64Url.Decode(msg.signature) == Some(sig)
      && env.ed25519(pk, text, sig)
  }

  lemma VerifyMeans(env: Env, msg: ProtocolMessage, pk: Bytes)
    ensures VerifyMessageSignature(env, msg, pk) <==> SignatureHolds(env, msg, pk)
  {
    if VerifyMessageSignature(env, msg, pk) {
      var text, sig := env.canonical(SignedPart(msg)).value, Base64Url.Decode(msg.signature).value;
      assert env.ed25519(pk, text, sig);
    }
  }

  // Whoever signs the canonical form of the four fields and encodes the signature is accepted.
  lemma SignedMessageVerifies(env: Env, msg: ProtocolMessage, pk: Bytes, text: Bytes, sig: Bytes)
    requires env.canonical(SignedMessage(msg.pkdContext, msg.action, msg.message, msg.recentMerkleRoot)) == Some(text)
    requires env.ed25519(pk, text, sig) && msg.signature == Base64Url.Encode(sig)
    ensures VerifyMessageSignature(env, msg, pk)
  {
    Base64Url.DecodeEncode(sig);
  }

  // No two signed messages have the same canonical form.
  ghost predicate CanonicalIsInjective(env: Env) {
    forall m: SignedMessage, n: SignedMessage | env.canonical(m).Some? && env.canonical(m) == env.canonical(n) :: m == n
  }

  // Under this key this signature is good for one text.
  ghost predicate SignsOneText(env: Env, pk: Bytes, sig: Bytes) {
    forall a: Bytes, b: Bytes | env.ed25519(pk, a, sig) && env.ed25519(pk, b, sig) :: a == b
  }

  // A signature binds its message in all four fields: it cannot be moved to another context, action,
  // body or recent root.
  lemma SignatureBindsAllFields(env: Env, m: ProtocolMessage, n: ProtocolMessage, pk: Bytes)
    requires CanonicalIsInjective(env) && m.signature == n.signature
    requires Base64Url.Decode(m.signature).Some? ==> SignsOneText(env, pk, Base64Url.Decode(m.signature).value)
    requires VerifyMessageSignature(env, m, pk) && VerifyMessageSignature(env, n, pk)
    ensures m.pkdContext == n.pkdContext && m.action == n.action && m.message == n.message
    ensures m.recentMerkleRoot == n.recentMerkleRoot
  {
    VerifyMeans(env, m, pk);
    VerifyMeans(env, n, pk);
    var mText: Bytes, mSig: Bytes :|
      && env.canonical(SignedMessage(m.pkdContext, m.action, m.message, m.recentMerkleRoot)) == Some(mText)
      && Base64Url.Decode(m.signature) == Some(mSig) && env.ed25519(pk, mText, mSig);
    var nText: Bytes, nSig: Bytes :|
      && env.canonical(SignedMessage(n.pkdContext, n.action, n.message, n.recentMerkleRoot)) == Some(nText)
      && Base64Url.Decode(n.signature) == Some(nSig) && env.ed25519(pk, nText, nSig);
    assert mText == nText;
    assert SignedMessage(m.pkdContext, m.action, m.message, m.recentMerkleRoot)
        == SignedMessage(n.pkdContext, n.action, n.message, n.recentMerkleRoot);
  }

  // The key id, the disclosed symmetric keys and the one-time password may change freely.
  lemma SignatureIgnoresTheRest(env: Env, msg: ProtocolMessage, pk: Bytes, keyId: string,
                                symmetricKeys: map<string, string>, otp: string)
    ensures VerifyMessageSignature(env, msg.(keyId := keyId, symmetricKeys := symmetricKeys, otp := otp), pk)
        <==> VerifyMessageSignature(env, msg, pk)
  {
  }

  // ---------- Key texts ----------

  // A key text is the prefix and a base64url text of 32 octets.
  lemma DecodePublicKeyMeans(text: string, pk: Bytes)
    ensures DecodePublicKey(text) == Some(pk)
        <==> "ed25519:" <= text && |pk| == 32 && Base64Url.Decode(text[8..]) == Some(pk)
  {
    assert |"ed25519:"| == 8;
  }

  lemma DecodeEncodePublicKey(pk: PublicKey)
    ensures DecodePublicKey(EncodePublicKey(pk)) == Some(pk)
  {
    Base64Url.DecodeEncode(pk);
    assert EncodePublicKey(pk)[|ED25519_PREFIX|..] == Base64Url.Encode(pk);
  }

  // The other direction fails for some texts; it holds exactly for the canonical ones.
  lemma EncodeDecodePublicKey(text: string)
    requires DecodePublicKey(text).Some?
    ensures EncodePublicKey(DecodePublicKey(text).value) == text
        <==> Base64Url.Canonical(text[|ED25519_PREFIX|..])
  {
    var body := text[|ED25519_PREFIX|..];
    Base64Url.EncodeDecode(body);
    assert text == ED25519_PREFIX + body;
    assert EncodePublicKey(DecodePublicKey(text).value)[|ED25519_PREFIX|..]
        == Base64Url.Encode(Base64Url.Decode(body).value);
  }

  // Every key has a second spelling, so comparing texts is finer than comparing keys.
  lemma EveryKeyHasTwoTexts(pk: PublicKey)
    ensures var other := EncodePublicKey(pk) + "\n";
            other != EncodePublicKey(pk) && DecodePublicKey(other) == Some(pk)
  {
    var body := Base64Url.Encode(pk);
    Base64Url.DecodeEncode(pk);
    StripTrailingBreak(body);
    assert (EncodePublicKey(pk) + "\n")[|ED25519_PREFIX|..] == body + "\n";
  }

  lemma {:induction false} StripTrailingBreak(s: string)
    ensures Base64Url.StripLineBreaks(s + "\n") == Base64Url.StripLineBreaks(s)
  {
    if s == "" {
      assert s + "\n" == "\n";
    } else {
      assert (s + "\n")[1..] == s[1..] + "\n";
      StripTrailingBreak(s[1..]);
    }
  }
}
