// The log leads the auxiliary data too, under any interleaving: every row was asked for, and every
// revocation of one, by a message that a live key of the actor had signed and that the log has.
module AuxHistory {
  import opened Wrappers
  import opened Protocol
  import opened Tables
  import opened Transactions
  import opened Actions
  import opened Interleaved

  ghost predicate LiveAux(t: Tables, i: nat) {
    i < |t.aux| && t.aux[i].revokedAt.None?
  }

  // What a transaction may do to the aux table: append the one row an AddAuxData asks for, or mark
  // the one live row a RevokeAuxData names.
  lemma AuxChange(env: Env, t: Tables, msg: ProtocolMessage, root: string, o: Oracle)
    requires Valid(t) && After(env, t, msg, root, o).aux != t.aux
    ensures var t', p := After(env, t, msg, root, o), PayloadOf(env, SignedPart(msg));
            && p.Some?
            && match p.value
               case AddAuxData(actor, auxType, auxData) =>
                 && env.auxValid(auxType, auxData)
                 && var a := GetOrCreateActor(t, actor).1;
                    && ActorId(t', actor) == Some(a)
                    && t'.aux == t.aux + [AuxRow(t.nextAux, a, o.newId, auxType, auxData, root, None, None)]
               case RevokeAuxData(actor, auxId) =>
                 && ActorId(t, actor).Some?
                 && var i := AuxIndex(t.aux, ActorId(t, actor).value, auxId);
                    i < |t.aux| && t'.aux == t.aux[i := MarkAux(t.aux[i], root, o.now)]
               case _ => false
  {
    hide AddKeyTx, RevokeKeyTx, MoveIdentityTx, BurnDownTx, AddAuxDataTx, RevokeAuxDataTx, SetFireproof, GetOrCreateActor;
    var p := PayloadOf(env, SignedPart(msg)).value;
    match p {
      case AddKey(actor, publicKey) =>
        AddKeyTxEffect(t, actor, publicKey, root, o.newId, DecodeDisclosed(msg.symmetricKeys).value);
      case RevokeKey(actor, publicKey) =>
        RevokeKeyTxEffect(t, actor, publicKey, root, DecodeDisclosed(msg.symmetricKeys).value, o.now, o.pick);
      case MoveIdentity(oldActor, newActor) => MoveIdentityTxEffect(t, oldActor, newActor);
      case BurnDown(actor, _) => BurnDownTxEffect(t, actor, root, o.now);
      case Fireproof(actor) => SetFireproofEffect(t, actor, true);
      case UndoFireproof(actor) => SetFireproofEffect(t, actor, false);
      case AddAuxData(actor, auxType, auxData) => AddAuxDataTxEffect(t, actor, auxType, auxData, root, o.newId);
      case RevokeAuxData(actor, auxId) => RevokeAuxDataTxEffect(t, actor, auxId, root, o.now);
    }
  }

  lemma ShredLeavesAux(t: Tables, actor: string, nanos: int, o: Oracle)
    requires Valid(t)
    ensures AfterShred(t, actor, nanos, o).aux == t.aux
  {
  }

  // At its own check the request was signed by a key that was live for `actor` then.
  ghost predicate SignedAtCheck(env: Env, ss: seq<State>, es: seq<Event>, r: nat, id: nat, msg: ProtocolMessage,
                                actor: string)
  {
    exists c: nat :: OwnCheck(env, ss, es, c, r, id, msg) && ActorId(ss[c].t, actor).Some?
      && SignedByLive(env, ss[c].t, msg, ActorId(ss[c].t, actor).value)
  }

  ghost predicate InsertsAuxAt(env: Env, ss: seq<State>, es: seq<Event>, r: nat, i: nat) {
    && TransactsAt(env, ss, es, r)
    && |ss[r].t.aux| == i < |ss[r + 1].t.aux|
    && var f, x := ss[r].flights[es[r].id], ss[r + 1].t.aux[i];
    && x.merkleRoot == f.root && LiveAux(ss[r + 1].t, i)
    && var p := PayloadOf(env, SignedPart(f.msg));
    && p.Some? && p.value.AddAuxData? && p.value.auxType == x.auxType && p.value.auxData == x.auxData
    && env.auxValid(x.auxType, x.auxData)
    && ActorId(ss[r + 1].t, p.value.actor) == Some(x.actor)
    && SignedAtCheck(env, ss, es, r, es[r].id, f.msg, p.value.actor)
  }

  ghost predicate RevokesAuxAt(env: Env, ss: seq<State>, es: seq<Event>, r: nat, i: nat) {
    && TransactsAt(env, ss, es, r) && LiveAux(ss[r].t, i) && i < |ss[r + 1].t.aux|
    && var f, x := ss[r].flights[es[r].id], ss[r].t.aux[i];
    && ss[r + 1].t.aux[i] == MarkAux(x, f.root, es[r].oracle.now)
    && var p := PayloadOf(env, SignedPart(f.msg));
    && p.Some? && p.value.RevokeAuxData? && p.value.auxId == x.auxId
    && ActorId(ss[r].t, p.value.actor) == Some(x.actor)
    && SignedAtCheck(env, ss, es, r, es[r].id, f.msg, p.value.actor)
  }

  ghost predicate AuxInsertedBefore(env: Env, ss: seq<State>, es: seq<Event>, n: nat, i: nat) {
    exists r: nat :: r < n && InsertsAuxAt(env, ss, es, r, i)
  }

  ghost predicate AuxRevokedBefore(env: Env, ss: seq<State>, es: seq<Event>, n: nat, i: nat) {
    exists r: nat :: r < n && RevokesAuxAt(env, ss, es, r, i)
  }

  lemma CheckedAuxWasSigned(env: Env, ss: seq<State>, es: seq<Event>, r: nat, id: nat, msg: ProtocolMessage)
    requires r < |ss| && CheckedBefore(env, ss, es, r, id, msg)
    requires var p := PayloadOf(env, SignedPart(msg)); p.Some? && (p.value.AddAuxData? || p.value.RevokeAuxData?)
    ensures SignedAtCheck(env, ss, es, r, id, msg, PayloadOf(env, SignedPart(msg)).value.actor)
  {
    var actor := PayloadOf(env, SignedPart(msg)).value.actor;
    var c: nat :| OwnCheck(env, ss, es, c, r, id, msg);
    var t := ss[c].t;
    assert SignedByAny(env, msg, ListKeysForActor(t, actor));
    if ActorId(t, actor).Some? {
      SignedByAnyMeans(env, t, msg, ActorId(t, actor).value);
    }
  }

  // What a step of a run may do to the aux table.
  lemma StepChangesAux(env: Env, ss: seq<State>, es: seq<Event>, r: nat, i: nat)
    requires IsRun(env, ss, es) && r < |es| && i < |ss[r + 1].t.aux|
    ensures i >= |ss[r].t.aux| ==> InsertsAuxAt(env, ss, es, r, i)
    ensures i < |ss[r].t.aux| ==> ss[r + 1].t.aux[i] == ss[r].t.aux[i] || RevokesAuxAt(env, ss, es, r, i)
  {
    hide After, AfterShred, Admitted;
    RunKeepsInvariant(env, ss, es, r);
    var s, e := ss[r], es[r];
    assert ss[r + 1] == Next(env, s, e);
    if e.Shred? {
      ShredLeavesAux(s.t, e.actor, e.nanos, e.oracle);
    }
    if ss[r + 1].t.aux != s.t.aux {
      var f := s.flights[e.id];
      AuxChange(env, s.t, f.msg, f.root, e.oracle);
      StepTransacts(env, ss, es, r);
      CheckedAuxWasSigned(env, ss, es, r, e.id, f.msg);
    }
  }

  lemma {:induction false} EveryAuxRowWasLogged(env: Env, ss: seq<State>, es: seq<Event>, n: nat, i: nat)
    requires IsRun(env, ss, es) && n < |ss| && i < |ss[n].t.aux|
    ensures AuxInsertedBefore(env, ss, es, n, i)
    ensures !LiveAux(ss[n].t, i) ==> AuxRevokedBefore(env, ss, es, n, i)
  {
    hide Next, InsertsAuxAt, RevokesAuxAt;
    assert n > 0;
    StepChangesAux(env, ss, es, n - 1, i);
    if i < |ss[n - 1].t.aux| {
      EveryAuxRowWasLogged(env, ss, es, n - 1, i);
    } else {
      InsertedAuxIsLive(env, ss, es, n - 1, i);
    }
  }

  lemma InsertedAuxIsLive(env: Env, ss: seq<State>, es: seq<Event>, r: nat, i: nat)
    requires InsertsAuxAt(env, ss, es, r, i)
    ensures r + 1 < |ss| && LiveAux(ss[r + 1].t, i)
  {
  }
}
