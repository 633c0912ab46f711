// Protocol messages and the outside world they are judged against.
module Protocol {
  import opened Wrappers

  // A message as it arrives. The payload keeps its raw JSON text, as in the source.
  datatype ProtocolMessage = ProtocolMessage(
    pkdContext: string,
    action: string,
    keyId: string,
    message: string,
    recentMerkleRoot: string,
    signature: string,
    symmetricKeys: map<string, string>,
    otp: string)

  // The part of a message that its signature covers and that the log receives.
  datatype SignedMessage = SignedMessage(
    pkdContext: string,
    action: string,
    message: string,
    recentMerkleRoot: string)

  function SignedPart(msg: ProtocolMessage): SignedMessage {
    SignedMessage(msg.pkdContext, msg.action, msg.message, msg.recentMerkleRoot)
  }

  // The payload of each action. Fields that only travel (time, aux-id of an AddAuxData) are
  // not kept.
  datatype Payload =
    | AddKey(actor: string, publicKey: string)
    | RevokeKey(actor: string, publicKey: string)
    | MoveIdentity(oldActor: string, newActor: string)
    | BurnDown(actor: string, operator: string)
    | Fireproof(actor: string)
    | UndoFireproof(actor: string)
    | AddAuxData(actor: string, auxType: string, auxData: string)
    | RevokeAuxData(actor: string, auxId: string)

  // An operator's TOTP secret, stored encrypted to the server's key.
  datatype Enrolment = NotEnrolled | Undecryptable | Enrolled(secret: Bytes)

  // What the server calls but does not define: the JSON decoder of each action's payload, the
  // canonical form of a signed message (section 3 of RFC 8785), Ed25519 verification, the
  // auxiliary-data validators, and the operators' enrolled TOTP secrets with their check at a
  // given time.
  datatype Env = Env(
    parse: (string, string) -> Option<Payload>,
    canonical: SignedMessage -> Option<Bytes>,
    ed25519: (Bytes, Bytes, Bytes) -> bool,
    auxValid: (string, string) -> bool,
    totpSecret: string -> Enrolment,
    totpValid: (Bytes, string, nat) -> bool)
}
