// What each protocol action demands before it is logged, and what it then does to the tables
// (internal/api/protocol_actions.go, internal/api/protocol_handler.go).
module Actions {
  import opened Wrappers
  import opened Protocol
  import opened Signing
  import opened Tables
  import opened Transactions
  import Base64Url

  const PKD_CONTEXT_V1 := "https://github.com/fedi-e2ee/public-key-directory/v1"

  function ActionName(p: Payload): string {
    match p
    case AddKey(_, _) => "AddKey"
    case RevokeKey(_, _) => "RevokeKey"
    case MoveIdentity(_, _) => "MoveIdentity"
    case BurnDown(_, _) => "BurnDown"
    case Fireproof(_) => "Fireproof"
    case UndoFireproof(_) => "UndoFireproof"
    case AddAuxData(_, _, _) => "AddAuxData"
    case RevokeAuxData(_, _) => "RevokeAuxData"
  }

  // The payload of a message with the right context, a supported action and a well-formed body.
  function PayloadOf(env: Env, signed: SignedMessage): Option<Payload> {
    if signed.pkdContext != PKD_CONTEXT_V1 then None
    else
      match env.parse(signed.action, signed.message)
      case None => None
      case Some(p) => if ActionName(p) == signed.action then Some(p) else None
  }

  // ---------- Signatures ----------

  predicate Signs(env: Env, msg: ProtocolMessage, keyText: string) {
    DecodePublicKey(keyText).Some? && VerifyMessageSignature(env, msg, DecodePublicKey(keyText).value)
  }

  predicate SignedByAny(env: Env, msg: ProtocolMessage, rows: seq<KeyRow>) {
    exists i :: 0 <= i < |rows| && Signs(env, msg, rows[i].publicKey)
  }

  predicate SignedByOther(env: Env, msg: ProtocolMessage, rows: seq<KeyRow>, revoked: PublicKey) {
    exists i :: 0 <= i < |rows| && Signs(env, msg, rows[i].publicKey)
      && DecodePublicKey(rows[i].publicKey) != Some(revoked)
  }

  // ---------- Checks made before the log sees the message ----------

  predicate AddKeyAllowed(env: Env, t: Tables, msg: ProtocolMessage, actor: string, publicKey: string) {
    var rows := ListKeysForActor(t, actor);
    if |rows| == 0 then Signs(env, msg, publicKey) else SignedByAny(env, msg, rows)
  }

  predicate RevokeKeyAllowed(env: Env, t: Tables, msg: ProtocolMessage, actor: string, publicKey: string) {
    var rows := ListKeysForActor(t, actor);
    |rows| >= 2 && DecodePublicKey(publicKey).Some?
    && SignedByOther(env, msg, rows, DecodePublicKey(publicKey).value)
  }

  predicate TotpAllowed(env: Env, msg: ProtocolMessage, operator: string, now: nat) {
    match env.totpSecret(operator)
    case NotEnrolled => true
    case Undecryptable => false
    case Enrolled(secret) => msg.otp != "" && env.totpValid(secret, msg.otp, now)
  }

  // Whose listed keys must sign. A BurnDown is signed by the operator, not by the actor.
  function Signer(p: Payload): string {
    match p
    case AddKey(actor, _) => actor
    case RevokeKey(actor, _) => actor
    case MoveIdentity(oldActor, _) => oldActor
    case BurnDown(_, operator) => operator
    case Fireproof(actor) => actor
    case UndoFireproof(actor) => actor
    case AddAuxData(actor, _, _) => actor
    case RevokeAuxData(actor, _) => actor
  }

  predicate Allowed(env: Env, t: Tables, msg: ProtocolMessage, p: Payload, now: nat) {
    match p
    case AddKey(actor, publicKey) => AddKeyAllowed(env, t, msg, actor, publicKey)
    case RevokeKey(actor, publicKey) => RevokeKeyAllowed(env, t, msg, actor, publicKey)
    case BurnDown(_, operator) =>
      SignedByAny(env, msg, ListKeysForActor(t, operator)) && TotpAllowed(env, msg, operator, now)
    case _ => SignedByAny(env, msg, ListKeysForActor(t, Signer(p)))
  }

  predicate Admitted(env: Env, t: Tables, msg: ProtocolMessage, now: nat) {
    var p := PayloadOf(env, SignedPart(msg));
    p.Some? && Allowed(env, t, msg, p.value, now)
  }

  // ---------- Effect after the log has returned a root ----------

  // What the run of a transaction cannot know beforehand: a random identifier, the row a query
  // without ORDER BY returns, the clock, and whether every repository call succeeds.
  datatype Oracle = Oracle(newId: string, pick: nat, now: nat, healthy: bool)

  function DecodeDisclosed(texts: map<string, string>): Option<map<string, Bytes>> {
    if exists attribute | attribute in texts :: Base64Url.Decode(texts[attribute]).None? then None
    else Some(map attribute | attribute in texts :: Base64Url.Decode(texts[attribute]).value)
  }

  function Effect(env: Env, t: Tables, msg: ProtocolMessage, p: Payload, root: string, o: Oracle)
    : Result<Tables, Error>
  {
    match p
    case AddKey(actor, publicKey) =>
      (match DecodeDisclosed(msg.symmetricKeys)
       case None => Failure(BadSymmetricKey)
       case Some(disclosed) => AddKeyTx(t, actor, publicKey, root, o.newId, disclosed))
    case RevokeKey(actor, publicKey) =>
      (match DecodeDisclosed(msg.symmetricKeys)
       case None => Failure(BadSymmetricKey)
       case Some(disclosed) => RevokeKeyTx(t, actor, publicKey, root, disclosed, o.now, o.pick))
    case MoveIdentity(oldActor, newActor) => MoveIdentityTx(t, oldActor, newActor)
    case BurnDown(actor, _) => BurnDownTx(t, actor, root, o.now)
    case Fireproof(actor) => SetFireproof(t, actor, true)
    case UndoFireproof(actor) => SetFireproof(t, actor, false)
    case AddAuxData(actor, auxType, auxData) =>
      if !env.auxValid(auxType, auxData) then Failure(AuxInvalid)
      else AddAuxDataTx(t, actor, auxType, auxData, root, o.newId)
    case RevokeAuxData(actor, auxId) => RevokeAuxDataTx(t, actor, auxId, root, o.now)
  }

  // The tables after the transaction of a logged message: the whole effect or none of it.
  function After(env: Env, t: Tables, msg: ProtocolMessage, root: string, o: Oracle): Tables {
    match PayloadOf(env, SignedPart(msg))
    case None => t
    case Some(p) =>
      var r := Effect(env, t, msg, p, root, o);
      if o.healthy && r.Success? then r.value else t
  }

  // An administrator's crypto-shred invents its own root.
  function AdminRoot(actor: string, nanos: int): string {
    ADMIN_PREFIX + actor + "-" + Decimal(nanos)
  }

  const ADMIN_PREFIX := "admin-shred-"

  function Decimal(n: int): string
    decreases n < 0, if n < 0 then -n else n
  {
    if n < 0 then "-" + Decimal(-n)
    else if n < 10 then [('0' as int + n) as char]
    else Decimal(n / 10) + [('0' as int + n % 10) as char]
  }

  // The decimal digits denote the number.
  function Denoted(s: string): nat
    requires forall i | 0 <= i < |s| :: '0' <= s[i] <= '9'
  {
    if s == "" then 0 else 10 * Denoted(s[..|s| - 1]) + (s[|s| - 1] as int - '0' as int)
  }

  lemma {:induction false} DecimalDenotes(n: nat)
    ensures forall i | 0 <= i < |Decimal(n)| :: '0' <= Decimal(n)[i] <= '9'
    ensures Denoted(Decimal(n)) == n
  {
    if n < 10 {
      assert Decimal(n)[..0] == "";
    } else {
      DecimalDenotes(n / 10);
      var s := Decimal(n);
      assert s[..|s| - 1] == Decimal(n / 10);
    }
  }

  // Two shreds of one actor at different times have different roots.
  lemma AdminRootsDiffer(actor: string, m: nat, n: nat)
    ensures "admin-shred-" + actor + "-" <= AdminRoot(actor, n)
    ensures AdminRoot(actor, m) == AdminRoot(actor, n) ==> m == n
  {
    DecimalDenotes(m);
    DecimalDenotes(n);
    var k := |"admin-shred-" + actor + "-"|;
    assert AdminRoot(actor, m)[k..] == Decimal(m) && AdminRoot(actor, n)[k..] == Decimal(n);
  }

  function AfterShred(t: Tables, actor: string, nanos: int, o: Oracle): Tables {
    var r := BurnDownTx(t, actor, AdminRoot(actor, nanos), o.now);
    if o.healthy && r.Success? then r.value else t
  }

  // ---------- What every effect keeps ----------

  lemma ExtensionKeepsRecorded(t: Tables, t': Tables, h: string)
    requires Valid(t) && Extends(t, t') && RecordedSomewhere(t, h)
    ensures RecordedSomewhere(t', h)
  {
  }

  // The invariant of the tables, and the append-only relation to the earlier tables, hold after
  // every action, allowed or not: neither depends on the signature checks.
  lemma EffectKeeps(env: Env, t: Tables, msg: ProtocolMessage, p: Payload, root: string, o: Oracle)
    requires Valid(t) && NoOrphans(t)
    requires Effect(env, t, msg, p, root, o).Success?
    ensures var t' := Effect(env, t, msg, p, root, o).value;
            Valid(t') && Extends(t, t') && NoOrphans(t')
  {
    hide AddKeyTx, RevokeKeyTx, MoveIdentityTx, BurnDownTx, AddAuxDataTx, RevokeAuxDataTx, SetFireproof;
    var t' := Effect(env, t, msg, p, root, o).value;
    match p {
      case AddKey(actor, publicKey) =>
        var disclosed := DecodeDisclosed(msg.symmetricKeys).value;
        AddKeyTxEffect(t, actor, publicKey, root, o.newId, disclosed);
        assert t'.keys[|t.keys|].merkleRoot == root;
      case RevokeKey(actor, publicKey) =>
        var disclosed := DecodeDisclosed(msg.symmetricKeys).value;
        RevokeKeyTxEffect(t, actor, publicKey, root, disclosed, o.now, o.pick);
        assert t'.keys[FindKeyToRevoke(t, actor, publicKey, o.pick).value].revokeRoot == Some(root);
      case MoveIdentity(oldActor, newActor) => MoveIdentityTxEffect(t, oldActor, newActor);
      case BurnDown(actor, _) => BurnDownTxEffect(t, actor, root, o.now);
      case Fireproof(actor) => SetFireproofEffect(t, actor, true);
      case UndoFireproof(actor) => SetFireproofEffect(t, actor, false);
      case AddAuxData(actor, auxType, auxData) => AddAuxDataTxEffect(t, actor, auxType, auxData, root, o.newId);
      case RevokeAuxData(actor, auxId) => RevokeAuxDataTxEffect(t, actor, auxId, root, o.now);
    }
    forall q | q in t'.symmetricKeys ensures RecordedSomewhere(t', q.0) {
      if q in t.symmetricKeys {
        ExtensionKeepsRecorded(t, t', q.0);
      }
    }
  }

  lemma AfterKeeps(env: Env, t: Tables, msg: ProtocolMessage, root: string, o: Oracle)
    requires Valid(t) && NoOrphans(t)
    ensures var t' := After(env, t, msg, root, o);
            Valid(t') && Extends(t, t') && NoOrphans(t')
  {
    var p := PayloadOf(env, SignedPart(msg));
    if p.Some? && o.healthy && Effect(env, t, msg, p.value, root, o).Success? {
      EffectKeeps(env, t, msg, p.value, root, o);
    }
  }

  lemma AfterShredKeeps(t: Tables, actor: string, nanos: int, o: Oracle)
    requires Valid(t) && NoOrphans(t)
    ensures var t' := AfterShred(t, actor, nanos, o);
            Valid(t') && Extends(t, t') && NoOrphans(t')
  {
    var t' := AfterShred(t, actor, nanos, o);
    if o.healthy && BurnDownTx(t, actor, AdminRoot(actor, nanos), o.now).Success? {
      BurnDownTxEffect(t, actor, AdminRoot(actor, nanos), o.now);
      forall q | q in t'.symmetricKeys ensures RecordedSomewhere(t', q.0) {
        ExtensionKeepsRecorded(t, t', q.0);
      }
    }
  }

  // ---------- The AddKey rule, read off the rows ----------

  // With no live key the new key must sign itself; otherwise a live key of the actor must sign.
  ghost predicate Authorised(env: Env, t: Tables, msg: ProtocolMessage, actor: string, publicKey: string) {
    if ActorId(t, actor).Some? && HasLive(t, ActorId(t, actor).value)
    then SignedByLive(env, t, msg, ActorId(t, actor).value)
    else Signs(env, msg, publicKey)
  }

  ghost predicate SignedByLive(env: Env, t: Tables, msg: ProtocolMessage, a: nat) {
    exists i: nat :: Live(t, i) && t.keys[i].actor == a && Signs(env, msg, t.keys[i].publicKey)
  }

  lemma SignedByAnyMeans(env: Env, t: Tables, msg: ProtocolMessage, a: nat)
    ensures SignedByAny(env, msg, LiveKeys(t.keys, a)) <==> SignedByLive(env, t, msg, a)
  {
    var rows := LiveKeys(t.keys, a);
    if SignedByAny(env, msg, rows) {
      var j :| 0 <= j < |rows| && Signs(env, msg, rows[j].publicKey);
      LiveKeysMember(t.keys, a, rows[j]);
      var i :| 0 <= i < |t.keys| && t.keys[i] == rows[j];
      assert Live(t, i);
    }
    if SignedByLive(env, t, msg, a) {
      var i: nat :| Live(t, i) && t.keys[i].actor == a && Signs(env, msg, t.keys[i].publicKey);
      LiveKeysMember(t.keys, a, t.keys[i]);
      var j :| 0 <= j < |rows| && rows[j] == t.keys[i];
    }
  }

  lemma AddKeyAllowedMeans(env: Env, t: Tables, msg: ProtocolMessage, actor: string, publicKey: string)
    ensures AddKeyAllowed(env, t, msg, actor, publicKey) <==> Authorised(env, t, msg, actor, publicKey)
  {
    match ActorId(t, actor)
    case None =>
    case Some(a) =>
      HasLiveMeans(t, a);
      SignedByAnyMeans(env, t, msg, a);
  }
}
