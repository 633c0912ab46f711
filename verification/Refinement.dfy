// The server on tables behaves as a server on the map of profiles: same admissions, same effects.
module Refinement {
  import opened Wrappers
  import opened Protocol
  import opened Signing
  import T = Tables
  import X = Transactions
  import A = Actions
  import D = Directory
  import S = Sequential
  import I = Interleaved

  // ---------- A server on the map ----------

  predicate SignedByAny(env: Env, msg: ProtocolMessage, keys: seq<D.Key>) {
    exists i :: 0 <= i < |keys| && A.Signs(env, msg, keys[i].publicKey)
  }

  predicate SignedByOther(env: Env, msg: ProtocolMessage, keys: seq<D.Key>, revoked: PublicKey) {
    exists i :: 0 <= i < |keys| && A.Signs(env, msg, keys[i].publicKey)
      && DecodePublicKey(keys[i].publicKey) != Some(revoked)
  }

  function LiveKeysOf(d: D.Directory, actor: string): seq<D.Key> {
    D.LiveIn(D.ProfileOrNew(d, actor).keys)
  }

  predicate Allowed(env: Env, d: D.Directory, msg: ProtocolMessage, p: Payload, now: nat) {
    match p
    case AddKey(actor, publicKey) =>
      var keys := LiveKeysOf(d, actor);
      if |keys| == 0 then A.Signs(env, msg, publicKey) else SignedByAny(env, msg, keys)
    case RevokeKey(actor, publicKey) =>
      var keys := LiveKeysOf(d, actor);
      |keys| >= 2 && DecodePublicKey(publicKey).Some?
      && SignedByOther(env, msg, keys, DecodePublicKey(publicKey).value)
    case MoveIdentity(oldActor, _) => SignedByAny(env, msg, LiveKeysOf(d, oldActor))
    case BurnDown(_, operator) =>
      SignedByAny(env, msg, LiveKeysOf(d, operator))
      && (match env.totpSecret(operator)
          case NotEnrolled => true
          case Undecryptable => false
          case Enrolled(secret) => msg.otp != "" && env.totpValid(secret, msg.otp, now))
    case Fireproof(actor) => SignedByAny(env, msg, LiveKeysOf(d, actor))
    case UndoFireproof(actor) => SignedByAny(env, msg, LiveKeysOf(d, actor))
    case AddAuxData(actor, _, _) => SignedByAny(env, msg, LiveKeysOf(d, actor))
    case RevokeAuxData(actor, _) => SignedByAny(env, msg, LiveKeysOf(d, actor))
  }

  // `d'` is a possible result of the payload on `d`.
  ghost predicate Effect(env: Env, d: D.Directory, msg: ProtocolMessage, p: Payload, root: string, o: A.Oracle,
                         d': D.Directory)
  {
    match p
    case AddKey(actor, publicKey) =>
      var disclosed := A.DecodeDisclosed(msg.symmetricKeys);
      disclosed.Some? && D.AddKeyTo(d, actor, publicKey, root, o.newId, disclosed.value) == Some(d')
    case RevokeKey(actor, publicKey) =>
      var disclosed := A.DecodeDisclosed(msg.symmetricKeys);
      disclosed.Some?
      && exists j: nat :: D.RevokeKeyOf(d, actor, publicKey, root, disclosed.value, o.now, j) == Some(d')
    case MoveIdentity(oldActor, newActor) => D.Rename(d, oldActor, newActor) == Some(d')
    case BurnDown(actor, _) => D.Burn(d, actor, root, o.now) == Some(d')
    case Fireproof(actor) => D.SetFireproofOf(d, actor, true) == Some(d')
    case UndoFireproof(actor) => D.SetFireproofOf(d, actor, false) == Some(d')
    case AddAuxData(actor, auxType, auxData) =>
      env.auxValid(auxType, auxData) && D.AddAuxTo(d, actor, auxType, auxData, root, o.newId) == Some(d')
    case RevokeAuxData(actor, auxId) => D.RevokesAuxOf(d, actor, auxId, root, o.now, d')
  }

  ghost predicate Possible(env: Env, d: D.Directory, msg: ProtocolMessage, p: Payload, root: string, o: A.Oracle) {
    exists d' :: Effect(env, d, msg, p, root, o, d')
  }

  // A logged, admitted message has its effect unless a fault strikes or no effect is possible;
  // everything else leaves the map alone.
  ghost predicate Next(env: Env, d: D.Directory, e: S.Event, d': D.Directory) {
    match e
    case Message(msg, root, o) =>
      var p := A.PayloadOf(env, SignedPart(msg));
      if root.Some? && p.Some? && o.healthy && Allowed(env, d, msg, p.value, o.now)
         && Possible(env, d, msg, p.value, root.value, o)
      then Effect(env, d, msg, p.value, root.value, o, d')
      else d' == d
    case Shred(actor, nanos, o) =>
      var burnt := D.Burn(d, actor, A.AdminRoot(actor, nanos), o.now);
      d' == if actor != "" && o.healthy && burnt.Some? then burnt.value else d
  }

  // ---------- Simulation ----------

  lemma AllowedRefines(env: Env, t: T.Tables, msg: ProtocolMessage, p: Payload, now: nat)
    ensures A.Allowed(env, t, msg, p, now) <==> Allowed(env, D.Abs(t), msg, p, now)
  {
    D.ListKeysReads(t, A.Signer(p));
    var rows, keys := T.ListKeysForActor(t, A.Signer(p)), LiveKeysOf(D.Abs(t), A.Signer(p));
    assert forall i | 0 <= i < |rows| :: keys[i].publicKey == rows[i].publicKey;
    assert A.SignedByAny(env, msg, rows) <==> SignedByAny(env, msg, keys);
    if p.RevokeKey? && DecodePublicKey(p.publicKey).Some? {
      var revoked := DecodePublicKey(p.publicKey).value;
      assert A.SignedByOther(env, msg, rows, revoked) <==> SignedByOther(env, msg, keys, revoked);
    }
  }

  // Whatever a payload does to the tables it does to the map; when it fails on the tables no
  // result is possible on the map.
  lemma EffectRefines(env: Env, t: T.Tables, msg: ProtocolMessage, p: Payload, root: string, o: A.Oracle)
    requires T.Valid(t)
    ensures var r := A.Effect(env, t, msg, p, root, o);
            && (r.Success? ==> Effect(env, D.Abs(t), msg, p, root, o, D.Abs(r.value)))
            && (r.Failure? ==> forall d' :: !Effect(env, D.Abs(t), msg, p, root, o, d'))
  {
    match p {
      case AddKey(actor, publicKey) =>
        var disclosed := A.DecodeDisclosed(msg.symmetricKeys);
        if disclosed.Some? {
          D.AddKeyRefines(t, actor, publicKey, root, o.newId, disclosed.value);
        }
      case RevokeKey(actor, publicKey) =>
        var disclosed := A.DecodeDisclosed(msg.symmetricKeys);
        if disclosed.Some? {
          D.RevokeKeyRefines(t, actor, publicKey, root, disclosed.value, o.now, o.pick);
        }
      case MoveIdentity(oldActor, newActor) => D.MoveIdentityRefines(t, oldActor, newActor);
      case BurnDown(actor, _) => D.BurnDownRefines(t, actor, root, o.now);
      case Fireproof(actor) => D.SetFireproofRefines(t, actor, true);
      case UndoFireproof(actor) => D.SetFireproofRefines(t, actor, false);
      case AddAuxData(actor, auxType, auxData) =>
        D.AddAuxDataRefines(t, actor, auxType, auxData, root, o.newId);
      case RevokeAuxData(actor, auxId) => D.RevokeAuxDataRefines(t, actor, auxId, root, o.now);
    }
  }

  // Every step of every run on the tables is a step of the server on the map.
  lemma RunRefines(env: Env, ss: seq<S.State>, es: seq<S.Event>, n: nat)
    requires S.IsRun(env, ss, es) && n < |es|
    ensures D.Abs(ss[0].t) == D.Directory(map[], map[])
    ensures Next(env, D.Abs(ss[n].t), es[n], D.Abs(ss[n + 1].t))
  {
    hide A.Effect, Effect, A.Allowed, Allowed, D.Burn, X.BurnDownTx;
    S.RunKeepsInvariant(env, ss, es, n);
    assert ss[n + 1] == S.Next(env, ss[n], es[n]);
    match es[n] {
      case Message(msg, root, o) =>
        var p := A.PayloadOf(env, SignedPart(msg));
        if root.Some? && p.Some? {
          AllowedRefines(env, ss[n].t, msg, p.value, o.now);
          EffectRefines(env, ss[n].t, msg, p.value, root.value, o);
        }
      case Shred(actor, nanos, o) =>
        D.BurnDownRefines(ss[n].t, actor, A.AdminRoot(actor, nanos), o.now);
    }
  }

  // ---------- Overlapping requests ----------

  // A transaction on the map: the check was made earlier, perhaps of another map.
  ghost predicate Transact(env: Env, d: D.Directory, msg: ProtocolMessage, root: string, o: A.Oracle, d': D.Directory) {
    var p := A.PayloadOf(env, SignedPart(msg));
    if p.Some? && o.healthy && Possible(env, d, msg, p.value, root, o) then Effect(env, d, msg, p.value, root, o, d')
    else d' == d
  }

  // What each step of overlapping requests does to the map; checks and submissions do nothing.
  ghost predicate Step(env: Env, s: I.State, e: I.Event, d': D.Directory) {
    var d := D.Abs(s.t);
    match e
    case Check(_, _, _) => d' == d
    case Submit(_, _) => d' == d
    case Transact(id, o) =>
      if id in s.flights && s.flights[id].Submitted? then Transact(env, d, s.flights[id].msg, s.flights[id].root, o, d')
      else d' == d
    case Shred(actor, nanos, o) =>
      var burnt := D.Burn(d, actor, A.AdminRoot(actor, nanos), o.now);
      d' == if actor != "" && o.healthy && burnt.Some? then burnt.value else d
  }

  lemma TransactRefines(env: Env, t: T.Tables, msg: ProtocolMessage, root: string, o: A.Oracle)
    requires T.Valid(t)
    ensures Transact(env, D.Abs(t), msg, root, o, D.Abs(A.After(env, t, msg, root, o)))
  {
    hide A.Effect, Effect;
    var p := A.PayloadOf(env, SignedPart(msg));
    if p.Some? {
      EffectRefines(env, t, msg, p.value, root, o);
    }
  }

  // Every step of every interleaved run is a step on the map, and an admission on the tables is one
  // on the map.
  lemma InterleavedRunRefines(env: Env, ss: seq<I.State>, es: seq<I.Event>, n: nat)
    requires I.IsRun(env, ss, es) && n < |es|
    ensures Step(env, ss[n], es[n], D.Abs(ss[n + 1].t))
    ensures es[n].Check? ==>
              var p := A.PayloadOf(env, SignedPart(es[n].msg));
              A.Admitted(env, ss[n].t, es[n].msg, es[n].now)
              <==> p.Some? && Allowed(env, D.Abs(ss[n].t), es[n].msg, p.value, es[n].now)
  {
    hide A.After, Transact, A.Allowed, Allowed, D.Burn, X.BurnDownTx;
    I.RunKeepsInvariant(env, ss, es, n);
    assert ss[n + 1] == I.Next(env, ss[n], es[n]);
    match es[n] {
      case Check(_, msg, now) =>
        var p := A.PayloadOf(env, SignedPart(msg));
        if p.Some? {
          AllowedRefines(env, ss[n].t, msg, p.value, now);
        }
      case Submit(_, _) =>
      case Transact(id, o) =>
        if id in ss[n].flights && ss[n].flights[id].Submitted? {
          TransactRefines(env, ss[n].t, ss[n].flights[id].msg, ss[n].flights[id].root, o);
        }
      case Shred(actor, nanos, o) =>
        D.BurnDownRefines(ss[n].t, actor, A.AdminRoot(actor, nanos), o.now);
    }
  }
}
