// Who asked for what: the rule under which each transaction of an interleaved run was let in,
// written out action by action, and what its message's signature covers.
module Admission {
  import opened Wrappers
  import opened Protocol
  import opened Signing
  import opened Tables
  import opened Transactions
  import opened Actions
  import opened Interleaved
  import Base64Url

  // Some live key row of the actor of this name carries the text of a 32-byte key under which the
  // signature over context, action, message and recent root holds.
  ghost predicate KeyOfActorSigned(env: Env, t: Tables, msg: ProtocolMessage, name: string) {
    exists i: nat :: RowOf(t, i, name) && KeySigned(env, msg, t.keys[i].publicKey)
  }

  // Key row `i` is unrevoked and owned by the actor row of this name.
  ghost predicate RowOf(t: Tables, i: nat, name: string) {
    i < |t.keys| && t.keys[i].revokedAt == None
    && exists x :: 0 <= x < |t.actors| && t.actors[x].id == t.keys[i].actor && t.actors[x].actorId == name
  }

  ghost predicate KeySigned(env: Env, msg: ProtocolMessage, text: string) {
    "ed25519:" <= text
    && exists pk: Bytes :: |pk| == 32 && Base64Url.Decode(text[8..]) == Some(pk) && SignatureHolds(env, msg, pk)
  }

  // Live rows of the actor exist at two places at least.
  ghost predicate TwoRows(t: Tables, name: string) {
    exists i: nat, j: nat :: i != j && RowOf(t, i, name) && RowOf(t, j, name)
  }

  ghost predicate OtherKeySigned(env: Env, t: Tables, msg: ProtocolMessage, name: string, revoked: Bytes) {
    exists i: nat :: RowOf(t, i, name) && KeySigned(env, msg, t.keys[i].publicKey)
      && "ed25519:" <= t.keys[i].publicKey
      && Base64Url.Decode(t.keys[i].publicKey[8..]) != Some(revoked)
  }

  ghost predicate PasswordGiven(env: Env, msg: ProtocolMessage, operator: string, now: nat) {
    match env.totpSecret(operator)
    case NotEnrolled => true
    case Undecryptable => false
    case Enrolled(secret) => msg.otp != "" && env.totpValid(secret, msg.otp, now)
  }

  // The rule of each action, read off the rows.
  ghost predicate Rule(env: Env, t: Tables, msg: ProtocolMessage, p: Payload, now: nat) {
    match p
    case AddKey(actor, publicKey) =>
      if exists i: nat :: RowOf(t, i, actor) then KeyOfActorSigned(env, t, msg, actor) else KeySigned(env, msg, publicKey)
    case RevokeKey(actor, publicKey) =>
      && TwoRows(t, actor) && "ed25519:" <= publicKey
      && (exists revoked: Bytes :: |revoked| == 32 && Base64Url.Decode(publicKey[8..]) == Some(revoked)
            && OtherKeySigned(env, t, msg, actor, revoked))
    case MoveIdentity(oldActor, _) => KeyOfActorSigned(env, t, msg, oldActor)
    case BurnDown(_, operator) => KeyOfActorSigned(env, t, msg, operator) && PasswordGiven(env, msg, operator, now)
    case Fireproof(actor) => KeyOfActorSigned(env, t, msg, actor)
    case UndoFireproof(actor) => KeyOfActorSigned(env, t, msg, actor)
    case AddAuxData(actor, _, _) => KeyOfActorSigned(env, t, msg, actor)
    case RevokeAuxData(actor, _) => KeyOfActorSigned(env, t, msg, actor)
  }

  // What the message asks: context and action name are known, and the body is well formed.
  ghost predicate Asks(env: Env, msg: ProtocolMessage, p: Payload) {
    && msg.pkdContext == "https://github.com/fedi-e2ee/public-key-directory/v1"
    && env.parse(msg.action, msg.message) == Some(p)
    && match p
       case AddKey(_, _) => msg.action == "AddKey"
       case RevokeKey(_, _) => msg.action == "RevokeKey"
       case MoveIdentity(_, _) => msg.action == "MoveIdentity"
       case BurnDown(_, _) => msg.action == "BurnDown"
       case Fireproof(_) => msg.action == "Fireproof"
       case UndoFireproof(_) => msg.action == "UndoFireproof"
       case AddAuxData(_, _, _) => msg.action == "AddAuxData"
       case RevokeAuxData(_, _) => msg.action == "RevokeAuxData"
  }

  lemma AsksMeans(env: Env, msg: ProtocolMessage, p: Payload)
    ensures PayloadOf(env, SignedPart(msg)) == Some(p) <==> Asks(env, msg, p)
  {
  }

  // ---------- The rule is what the handlers check ----------

  lemma KeySignedMeans(env: Env, msg: ProtocolMessage, text: string)
    ensures Signs(env, msg, text) <==> KeySigned(env, msg, text)
  {
    if Signs(env, msg, text) {
      var pk := DecodePublicKey(text).value;
      VerifyMeans(env, msg, pk);
      DecodePublicKeyMeans(text, pk);
      assert |pk| == 32 && Base64Url.Decode(text[8..]) == Some(pk) && SignatureHolds(env, msg, pk);
    }
    if KeySigned(env, msg, text) {
      var pk: Bytes :| |pk| == 32 && Base64Url.Decode(text[8..]) == Some(pk) && SignatureHolds(env, msg, pk);
      VerifyMeans(env, msg, pk);
      DecodePublicKeyMeans(text, pk);
    }
  }

  lemma RowOfMeans(t: Tables, i: nat, name: string)
    requires Valid(t)
    ensures RowOf(t, i, name) <==> Live(t, i) && ActorId(t, name) == Some(t.keys[i].actor)
  {
    if i < |t.keys| {
      ActorIdMeans(t, name, t.keys[i].actor);
    }
  }

  // The listing has a row exactly for each live row of the actor.
  lemma ListedRow(t: Tables, name: string, j: nat) returns (i: nat)
    requires Valid(t) && j < |ListKeysForActor(t, name)|
    ensures RowOf(t, i, name) && t.keys[i] == ListKeysForActor(t, name)[j]
  {
    var a := ActorId(t, name).value;
    LiveKeysMember(t.keys, a, LiveKeys(t.keys, a)[j]);
    i :| 0 <= i < |t.keys| && t.keys[i] == LiveKeys(t.keys, a)[j];
    RowOfMeans(t, i, name);
  }

  lemma RowIsListed(t: Tables, name: string, i: nat) returns (j: nat)
    requires Valid(t) && RowOf(t, i, name)
    ensures j < |ListKeysForActor(t, name)| && ListKeysForActor(t, name)[j] == t.keys[i]
  {
    RowOfMeans(t, i, name);
    var rows := LiveKeys(t.keys, t.keys[i].actor);
    LiveKeysMember(t.keys, t.keys[i].actor, t.keys[i]);
    j :| 0 <= j < |rows| && rows[j] == t.keys[i];
  }

  lemma SignedByAnyIs(env: Env, t: Tables, msg: ProtocolMessage, name: string)
    requires Valid(t)
    ensures SignedByAny(env, msg, ListKeysForActor(t, name)) <==> KeyOfActorSigned(env, t, msg, name)
  {
    hide Valid, Signs, KeySigned, ListKeysForActor;
    var rows := ListKeysForActor(t, name);
    if SignedByAny(env, msg, rows) {
      var j :| 0 <= j < |rows| && Signs(env, msg, rows[j].publicKey);
      var i := ListedRow(t, name, j);
      KeySignedMeans(env, msg, t.keys[i].publicKey);
    }
    if KeyOfActorSigned(env, t, msg, name) {
      var i: nat :| RowOf(t, i, name) && KeySigned(env, msg, t.keys[i].publicKey);
      var j := RowIsListed(t, name, i);
      KeySignedMeans(env, msg, t.keys[i].publicKey);
    }
  }

  lemma SignedByOtherIs(env: Env, t: Tables, msg: ProtocolMessage, name: string, revoked: PublicKey)
    requires Valid(t)
    ensures SignedByOther(env, msg, ListKeysForActor(t, name), revoked) <==> OtherKeySigned(env, t, msg, name, revoked)
  {
    hide Valid, ListKeysForActor, Base64Url.Decode, VerifyMessageSignature, SignatureHolds;
    var rows := ListKeysForActor(t, name);
    if SignedByOther(env, msg, rows, revoked) {
      var j :| 0 <= j < |rows| && Signs(env, msg, rows[j].publicKey) && DecodePublicKey(rows[j].publicKey) != Some(revoked);
      var i := ListedRow(t, name, j);
      KeySignedMeans(env, msg, t.keys[i].publicKey);
      DecodePublicKeyMeans(t.keys[i].publicKey, revoked);
      assert RowOf(t, i, name) && KeySigned(env, msg, t.keys[i].publicKey);
    }
    if OtherKeySigned(env, t, msg, name, revoked) {
      var i: nat :| RowOf(t, i, name) && KeySigned(env, msg, t.keys[i].publicKey) && "ed25519:" <= t.keys[i].publicKey
                    && Base64Url.Decode(t.keys[i].publicKey[8..]) != Some(revoked);
      var j := RowIsListed(t, name, i);
      KeySignedMeans(env, msg, t.keys[i].publicKey);
      DecodePublicKeyMeans(t.keys[i].publicKey, revoked);
    }
  }

  ghost predicate TwoLive(keys: seq<KeyRow>, a: nat) {
    exists i: nat, j: nat :: i < j < |keys| && LiveOf(keys[i], a) && LiveOf(keys[j], a)
  }

  lemma {:induction false} TwoListedMeans(keys: seq<KeyRow>, a: nat)
    ensures |LiveKeys(keys, a)| >= 2 <==> TwoLive(keys, a)
  {
    if keys != [] {
      var n := |keys| - 1;
      TwoListedMeans(keys[..n], a);
      LiveKeysEmpty(keys[..n], a);
      if TwoLive(keys[..n], a) {
        var i: nat, j: nat :| i < j < n && LiveOf(keys[..n][i], a) && LiveOf(keys[..n][j], a);
        assert LiveOf(keys[i], a) && LiveOf(keys[j], a);
      }
      if TwoLive(keys, a) {
        var i: nat, j: nat :| i < j < |keys| && LiveOf(keys[i], a) && LiveOf(keys[j], a);
        assert LiveOf(keys[..n][i], a);
        assert j < n ==> LiveOf(keys[..n][j], a);
      }
      if |LiveKeys(keys, a)| >= 2 && !TwoLive(keys[..n], a) {
        var i :| 0 <= i < n && LiveOf(keys[..n][i], a);
        assert LiveOf(keys[i], a) && LiveOf(keys[n], a);
      }
    }
  }

  lemma TwoRowsMeans(t: Tables, name: string)
    requires Valid(t)
    ensures |ListKeysForActor(t, name)| >= 2 <==> TwoRows(t, name)
  {
    forall i: nat ensures RowOf(t, i, name) <==> Live(t, i) && ActorId(t, name) == Some(t.keys[i].actor) {
      RowOfMeans(t, i, name);
    }
    hide Valid, RowOf, ActorId;
    match ActorId(t, name)
    case None =>
    case Some(a) =>
      TwoListedMeans(t.keys, a);
      TwoRowsAreTwoLive(t, name, a);
      hide LiveKeys, TwoRows, TwoLive;
  }

  lemma TwoRowsAreTwoLive(t: Tables, name: string, a: nat)
    requires forall i: nat :: RowOf(t, i, name) <==> i < |t.keys| && LiveOf(t.keys[i], a)
    ensures TwoRows(t, name) <==> TwoLive(t.keys, a)
  {
    hide RowOf, LiveOf;
    if TwoLive(t.keys, a) {
      var i: nat, j: nat :| i < j < |t.keys| && LiveOf(t.keys[i], a) && LiveOf(t.keys[j], a);
      assert RowOf(t, i, name) && RowOf(t, j, name);
    }
    if TwoRows(t, name) {
      var i: nat, j: nat :| i != j && RowOf(t, i, name) && RowOf(t, j, name);
      var x, y := if i < j then i else j, if i < j then j else i;
      assert LiveOf(t.keys[x], a) && LiveOf(t.keys[y], a);
    }
  }

  lemma SomeRowMeans(t: Tables, name: string)
    requires Valid(t)
    ensures |ListKeysForActor(t, name)| == 0 <==> !exists i: nat :: RowOf(t, i, name)
  {
    hide Valid, RowOf, ListKeysForActor;
    if |ListKeysForActor(t, name)| > 0 {
      var i := ListedRow(t, name, 0);
    }
    if exists i: nat :: RowOf(t, i, name) {
      var i: nat :| RowOf(t, i, name);
      var j := RowIsListed(t, name, i);
    }
  }

  lemma RevokeRuleMeans(env: Env, t: Tables, msg: ProtocolMessage, actor: string, publicKey: string, now: nat)
    requires Valid(t)
    ensures RevokeKeyAllowed(env, t, msg, actor, publicKey) <==> Rule(env, t, msg, RevokeKey(actor, publicKey), now)
  {
    hide Valid, TwoRows, ListKeysForActor, SignedByOther, OtherKeySigned, Base64Url.Decode;
    TwoRowsMeans(t, actor);
    if DecodePublicKey(publicKey).Some? {
      var revoked := DecodePublicKey(publicKey).value;
      DecodePublicKeyMeans(publicKey, revoked);
      SignedByOtherIs(env, t, msg, actor, revoked);
    }
    if Rule(env, t, msg, RevokeKey(actor, publicKey), now) {
      var revoked: Bytes :| |revoked| == 32 && Base64Url.Decode(publicKey[8..]) == Some(revoked)
                            && OtherKeySigned(env, t, msg, actor, revoked);
      DecodePublicKeyMeans(publicKey, revoked);
    }
  }

  // A message is admitted if and only if it asks for something and the rule of that action holds.
  lemma AdmittedIffRule(env: Env, t: Tables, msg: ProtocolMessage, now: nat)
    requires Valid(t)
    ensures Admitted(env, t, msg, now) <==> exists p :: Asks(env, msg, p) && Rule(env, t, msg, p, now)
  {
    hide Valid, ListKeysForActor, SignedByAny, KeyOfActorSigned, RevokeKeyAllowed, Signs, KeySigned, RowOf;
    forall p ensures PayloadOf(env, SignedPart(msg)) == Some(p) <==> Asks(env, msg, p) {
      AsksMeans(env, msg, p);
    }
    forall p ensures Allowed(env, t, msg, p, now) <==> Rule(env, t, msg, p, now) {
      AllowedIffRule(env, t, msg, p, now);
    }
    hide Allowed, Rule, PayloadOf, Asks;
  }

  lemma AllowedIffRule(env: Env, t: Tables, msg: ProtocolMessage, p: Payload, now: nat)
    requires Valid(t)
    ensures Allowed(env, t, msg, p, now) <==> Rule(env, t, msg, p, now)
  {
    hide Valid, ListKeysForActor, SignedByAny, KeyOfActorSigned, RevokeKeyAllowed, Signs, KeySigned, RowOf;
    match p {
      case AddKey(actor, publicKey) =>
        SomeRowMeans(t, actor);
        SignedByAnyIs(env, t, msg, actor);
        KeySignedMeans(env, msg, publicKey);
      case RevokeKey(actor, publicKey) => RevokeRuleMeans(env, t, msg, actor, publicKey, now);
      case MoveIdentity(oldActor, _) => SignedByAnyIs(env, t, msg, oldActor);
      case BurnDown(_, operator) => SignedByAnyIs(env, t, msg, operator);
      case Fireproof(actor) => SignedByAnyIs(env, t, msg, actor);
      case UndoFireproof(actor) => SignedByAnyIs(env, t, msg, actor);
      case AddAuxData(actor, _, _) => SignedByAnyIs(env, t, msg, actor);
      case RevokeAuxData(actor, _) => SignedByAnyIs(env, t, msg, actor);
    }
  }

  // ---------- Every request of every run ----------

  // At its own check, step `c`, the request met the rule of what it asks.
  ghost predicate MetRuleAt(env: Env, ss: seq<State>, es: seq<Event>, c: nat, n: nat, id: nat, msg: ProtocolMessage,
                            p: Payload)
  {
    OwnCheck(env, ss, es, c, n, id, msg) && Asks(env, msg, p) && Rule(env, ss[c].t, msg, p, es[c].now)
  }

  // Under any interleaving, whatever is in flight, and so whatever the log is given or a transaction
  // applies, met the rule of its action at its own check, with the clock of that check.
  lemma EveryRequestMetItsRule(env: Env, ss: seq<State>, es: seq<Event>, n: nat, id: nat)
    requires IsRun(env, ss, es) && n < |ss| && id in ss[n].flights
    ensures exists c: nat, p :: MetRuleAt(env, ss, es, c, n, id, ss[n].flights[id].msg, p)
  {
    hide Rule, Asks, Admitted, Valid;
    var msg := ss[n].flights[id].msg;
    FlightWasChecked(env, ss, es, n, id);
    var c: nat :| OwnCheck(env, ss, es, c, n, id, msg);
    RunKeepsInvariant(env, ss, es, c);
    AdmittedIffRule(env, ss[c].t, msg, es[c].now);
    var p :| Asks(env, msg, p) && Rule(env, ss[c].t, msg, p, es[c].now);
    assert MetRuleAt(env, ss, es, c, n, id, msg, p);
  }

  // In particular no BurnDown is applied unless, at its own check, a live key of the operator signed
  // and the one-time password was right if the operator has enrolled.
  lemma EveryBurnDownHadItsPassword(env: Env, ss: seq<State>, es: seq<Event>, r: nat, actor: string, operator: string)
    returns (c: nat)
    requires IsRun(env, ss, es) && TransactsAt(env, ss, es, r)
    requires Asks(env, ss[r].flights[es[r].id].msg, BurnDown(actor, operator))
    ensures var msg := ss[r].flights[es[r].id].msg;
            && OwnCheck(env, ss, es, c, r, es[r].id, msg)
            && KeyOfActorSigned(env, ss[c].t, msg, operator)
            && (env.totpSecret(operator) == NotEnrolled
                || exists secret :: env.totpSecret(operator) == Enrolled(secret) && msg.otp != ""
                     && env.totpValid(secret, msg.otp, es[c].now))
  {
    hide KeyOfActorSigned, OwnCheck;
    var msg := ss[r].flights[es[r].id].msg;
    EveryRequestMetItsRule(env, ss, es, r, es[r].id);
    var p;
    c, p :| MetRuleAt(env, ss, es, c, r, es[r].id, msg, p);
  }

  // ---------- The fireproof mark ----------

  ghost predicate MarksOnly(t: Tables, t': Tables, name: string, on: bool) {
    && |t'.actors| == |t.actors|
    && forall i | 0 <= i < |t.actors| ::
         t'.actors[i].isFireproof == if t.actors[i].actorId == name then on else t.actors[i].isFireproof
  }

  lemma SetFireproofMarks(t: Tables, name: string, on: bool)
    requires Valid(t) && SetFireproof(t, name, on).Success?
    ensures MarksOnly(t, SetFireproof(t, name, on).value, name, on)
  {
  }

  lemma MoveKeepsMarks(t: Tables, oldActor: string, newActor: string)
    requires MoveIdentityTx(t, oldActor, newActor).Success?
    ensures var t' := MoveIdentityTx(t, oldActor, newActor).value;
            |t'.actors| == |t.actors| && forall i | 0 <= i < |t.actors| :: t'.actors[i].isFireproof == t.actors[i].isFireproof
  {
  }

  lemma TransactionMarks(env: Env, t: Tables, msg: ProtocolMessage, root: string, o: Oracle, i: nat)
    requires Valid(t) && i < |t.actors|
    ensures var t', p := After(env, t, msg, root, o), PayloadOf(env, SignedPart(msg));
            && i < |t'.actors|
            && (t'.actors[i].isFireproof != t.actors[i].isFireproof ==>
                  p == Some(if t'.actors[i].isFireproof then Fireproof(t.actors[i].actorId) else UndoFireproof(t.actors[i].actorId)))
  {
    hide AddKeyTx, RevokeKeyTx, MoveIdentityTx, BurnDownTx, AddAuxDataTx, RevokeAuxDataTx, SetFireproof, Extends, Valid;
    var q := PayloadOf(env, SignedPart(msg));
    if q.Some? && o.healthy && Effect(env, t, msg, q.value, root, o).Success? {
      match q.value {
        case AddKey(actor, publicKey) =>
          AddKeyTxEffect(t, actor, publicKey, root, o.newId, DecodeDisclosed(msg.symmetricKeys).value);
        case RevokeKey(actor, publicKey) =>
          RevokeKeyTxEffect(t, actor, publicKey, root, DecodeDisclosed(msg.symmetricKeys).value, o.now, o.pick);
        case MoveIdentity(oldActor, newActor) => MoveKeepsMarks(t, oldActor, newActor);
        case BurnDown(actor, _) => BurnDownTxEffect(t, actor, root, o.now);
        case Fireproof(actor) => SetFireproofMarks(t, actor, true);
        case UndoFireproof(actor) => SetFireproofMarks(t, actor, false);
        case AddAuxData(actor, auxType, auxData) => AddAuxDataTxEffect(t, actor, auxType, auxData, root, o.newId);
        case RevokeAuxData(actor, auxId) => RevokeAuxDataTxEffect(t, actor, auxId, root, o.now);
      }
    }
  }

  // A mark is set by a logged Fireproof for the actor's present name and taken away by a logged
  // UndoFireproof for it, each signed by a live key at its check (EveryRequestMetItsRule).
  lemma EveryMarkWasAsked(env: Env, ss: seq<State>, es: seq<Event>, r: nat, i: nat)
    requires IsRun(env, ss, es) && r < |es| && i < |ss[r].t.actors|
    ensures i < |ss[r + 1].t.actors|
    ensures var x, x' := ss[r].t.actors[i], ss[r + 1].t.actors[i];
            x'.isFireproof != x.isFireproof ==>
              && TransactsAt(env, ss, es, r)
              && Asks(env, ss[r].flights[es[r].id].msg,
                      if x'.isFireproof then Fireproof(x.actorId) else UndoFireproof(x.actorId))
  {
    hide After, Admitted;
    RunKeepsInvariant(env, ss, es, r);
    var s, e := ss[r], es[r];
    assert ss[r + 1] == Next(env, s, e);
    if e.Shred? {
      ShredKeepsActors(s.t, e.actor, e.nanos, e.oracle);
    } else if e.Transact? && e.id in s.flights && s.flights[e.id].Submitted? {
      StepTransacts(env, ss, es, r);
      TransactionMarks(env, s.t, s.flights[e.id].msg, s.flights[e.id].root, e.oracle, i);
      AsksMeans(env, s.flights[e.id].msg, Fireproof(s.t.actors[i].actorId));
      AsksMeans(env, s.flights[e.id].msg, UndoFireproof(s.t.actors[i].actorId));
    }
  }

  lemma ShredKeepsActors(t: Tables, actor: string, nanos: int, o: Oracle)
    requires Valid(t)
    ensures AfterShred(t, actor, nanos, o).actors == t.actors
  {
  }
}
