// The whole effect of each transaction of the domain service (internal/domain/service.go) when
// no repository call fails, and what every such effect keeps.
module Transactions {
  import opened Wrappers
  import opened Tables

  function AddKeyTx(t: Tables, actor: string, publicKey: string, root: string, keyId: string,
                    disclosed: map<string, Bytes>): Result<Tables, Error>
  {
    var (t1, a) := GetOrCreateActor(t, actor);
    match InsertPublicKey(t1, a, keyId, publicKey, root)
    case Failure(e) => Failure(e)
    case Success(t2) => if |disclosed| == 0 then Success(t2) else StoreSymmetricKeys(t2, root, disclosed)
  }

  function RevokeKeyTx(t: Tables, actor: string, publicKey: string, root: string,
                       disclosed: map<string, Bytes>, now: nat, pick: nat): Result<Tables, Error>
  {
    match FindKeyToRevoke(t, actor, publicKey, pick)
    case None => Failure(KeyNotFound)
    case Some(i) =>
      var t1 := RevokeKeyById(t, t.keys[i].id, root, now);
      if |disclosed| == 0 then Success(t1) else StoreSymmetricKeys(t1, root, disclosed)
  }

  function MoveIdentityTx(t: Tables, oldActor: string, newActor: string): Result<Tables, Error> {
    if ActorId(t, newActor).Some? then Failure(ActorExists)
    else
      match UpdateActorId(t, oldActor, newActor)
      case Failure(e) => Failure(e)
      case Success((t1, rows)) => if rows == 0 then Failure(ActorNotFound) else Success(t1)
  }

  function BurnDownTx(t: Tables, actor: string, root: string, now: nat): Result<Tables, Error> {
    match ActorId(t, actor)
    case None => Failure(ActorNotFound)
    case Some(a) =>
      Success(RevokeAllKeysForActor(DeleteSymmetricKeys(t, MessageHashes(t, a)), a, root, now))
  }

  function AddAuxDataTx(t: Tables, actor: string, auxType: string, auxData: string, root: string,
                        auxId: string): Result<Tables, Error>
  {
    var (t1, a) := GetOrCreateActor(t, actor);
    InsertAuxData(t1, a, auxId, auxType, auxData, root)
  }

  function RevokeAuxDataTx(t: Tables, actor: string, auxId: string, root: string, now: nat): Result<Tables, Error> {
    var (t1, rows) := RevokeAuxData(t, actor, auxId, root, now);
    if rows == 0 then Failure(AuxNotFound) else Success(t1)
  }

  // ---------- Append-only history ----------

  // A key row keeps everything but an empty pair of revocation columns.
  ghost predicate KeyKept(k: KeyRow, k': KeyRow) {
    k' == k || (k.revokedAt.None? && k'.revokedAt.Some? && k'.revokeRoot.Some?
                && k' == k.(revokedAt := k'.revokedAt, revokeRoot := k'.revokeRoot))
  }

  ghost predicate AuxKept(x: AuxRow, x': AuxRow) {
    x' == x || (x.revokedAt.None? && x'.revokedAt.Some? && x'.revokeRoot.Some?
                && x' == x.(revokedAt := x'.revokedAt, revokeRoot := x'.revokeRoot))
  }

  // `t'` is a later state of `t`: no row is gone, moved, given another owner or content, and
  // none is un-revoked or re-revoked.
  ghost predicate Extends(t: Tables, t': Tables) {
    && |t.actors| <= |t'.actors| && |t.keys| <= |t'.keys| && |t.aux| <= |t'.aux|
    && (forall i | 0 <= i < |t.actors| :: t'.actors[i].id == t.actors[i].id)
    && (forall i | 0 <= i < |t.keys| :: KeyKept(t.keys[i], t'.keys[i]))
    && (forall i | 0 <= i < |t.aux| :: AuxKept(t.aux[i], t'.aux[i]))
  }

  lemma ExtendsItself(t: Tables)
    ensures Extends(t, t)
  {
  }

  lemma ExtendsTransitive(t: Tables, u: Tables, v: Tables)
    requires Extends(t, u) && Extends(u, v)
    ensures Extends(t, v)
  {
  }

  // ---------- Disclosed keys stay reachable ----------

  ghost predicate RecordedSomewhere(t: Tables, h: string) {
    exists i :: 0 <= i < |t.keys| && (t.keys[i].merkleRoot == h || t.keys[i].revokeRoot == Some(h))
  }

  // Every stored symmetric key hangs on a root that some key row carries.
  ghost predicate NoOrphans(t: Tables) {
    forall p | p in t.symmetricKeys :: RecordedSomewhere(t, p.0)
  }

  lemma RecordsKept(t: Tables, t': Tables, a: nat, h: string)
    requires Valid(t) && Extends(t, t') && Records(t, a, h)
    ensures Records(t', a, h)
  {
  }

  // ---------- What each statement keeps ----------

  ghost predicate ActorsKept(t: Tables, t': Tables) {
    |t.actors| <= |t'.actors| && forall i | 0 <= i < |t.actors| :: t'.actors[i].id == t.actors[i].id
  }

  lemma IsActorKept(t: Tables, t': Tables, a: nat)
    requires ActorsKept(t, t') && IsActor(t, a)
    ensures IsActor(t', a)
  {
  }

  lemma KeysOkKept(t: Tables, t': Tables)
    requires KeysOk(t) && ActorsKept(t, t') && t'.keys == t.keys && t'.nextKey == t.nextKey
    ensures KeysOk(t')
  {
  }

  lemma AuxOkKept(t: Tables, t': Tables)
    requires AuxOk(t) && ActorsKept(t, t') && t'.aux == t.aux && t'.nextAux == t.nextAux
    ensures AuxOk(t')
  {
  }

  lemma ActorIndexIs(actors: seq<ActorRow>, name: string, i: nat)
    requires i <= |actors| && (i < |actors| ==> actors[i].actorId == name)
    requires forall j | 0 <= j < i :: actors[j].actorId != name
    ensures ActorIndex(actors, name) == i
  {
  }

  lemma AppendedActor(actors: seq<ActorRow>, r: ActorRow, name: string)
    requires ActorIndex(actors, name) == |actors|
    ensures ActorIndex(actors + [r], name) == if r.actorId == name then |actors| else |actors| + 1
  {
    ActorIndexIs(actors + [r], name, if r.actorId == name then |actors| else |actors| + 1);
  }

  lemma AppendedActorHidden(actors: seq<ActorRow>, r: ActorRow, name: string)
    requires ActorIndex(actors, name) < |actors|
    ensures ActorIndex(actors + [r], name) == ActorIndex(actors, name)
  {
    ActorIndexIs(actors + [r], name, ActorIndex(actors, name));
  }

  lemma ActorRowExistsMeans(t: Tables, a: nat)
    ensures ActorRowExists(t, a) <==> IsActor(t, a)
  {
  }

  lemma AppendedActorOk(t: Tables, name: string)
    requires ActorsOk(t) && ActorId(t, name).None?
    ensures var (t', a) := GetOrCreateActor(t, name);
            ActorsOk(t') && ActorsKept(t, t') && IsActor(t', a) && !IsActor(t, a)
  {
    var (t', a) := GetOrCreateActor(t, name);
    assert t'.actors[|t.actors|].id == a;
  }

  // GetOrCreateActor leaves every other name alone and adds at most one row, under a new id.
  lemma GetOrCreateActorKeeps(t: Tables, name: string)
    requires Valid(t)
    ensures var (t', a) := GetOrCreateActor(t, name);
            && Valid(t') && Extends(t, t') && ActorId(t', name) == Some(a) && IsActor(t', a)
            && t'.keys == t.keys && t'.aux == t.aux && t'.symmetricKeys == t.symmetricKeys
            && (ActorId(t, name).None? ==> !IsActor(t, a))
  {
    var (t', a) := GetOrCreateActor(t, name);
    if ActorId(t, name).None? {
      AppendedActor(t.actors, ActorRow(a, name, false), name);
      AppendedActorOk(t, name);
      KeysOkKept(t, t');
      AuxOkKept(t, t');
    }
  }

  lemma InsertPublicKeyKeeps(t: Tables, a: nat, keyId: string, publicKey: string, root: string)
    requires Valid(t) && InsertPublicKey(t, a, keyId, publicKey, root).Success?
    ensures var t' := InsertPublicKey(t, a, keyId, publicKey, root).value;
            Valid(t') && Extends(t, t')
  {
    var t' := InsertPublicKey(t, a, keyId, publicKey, root).value;
    ActorRowExistsMeans(t, a);
    forall i | 0 <= i < |t'.keys| ensures IsActor(t', t'.keys[i].actor) {
      IsActorKept(t, t', t'.keys[i].actor);
    }
    forall i | 0 <= i < |t.keys| ensures t.keys[i].keyId != keyId {
      assert t.keys[i] in t.keys;
    }
    AuxOkKept(t, t');
  }

  lemma InsertAuxDataKeeps(t: Tables, a: nat, auxId: string, auxType: string, auxData: string, root: string)
    requires Valid(t) && InsertAuxData(t, a, auxId, auxType, auxData, root).Success?
    ensures var t' := InsertAuxData(t, a, auxId, auxType, auxData, root).value;
            Valid(t') && Extends(t, t')
  {
    var t' := InsertAuxData(t, a, auxId, auxType, auxData, root).value;
    ActorRowExistsMeans(t, a);
    forall i | 0 <= i < |t'.aux| ensures IsActor(t', t'.aux[i].actor) {
      IsActorKept(t, t', t'.aux[i].actor);
    }
    forall i | 0 <= i < |t.aux| ensures t.aux[i].auxId != auxId {
      assert t.aux[i] in t.aux;
    }
    KeysOkKept(t, t');
  }

  // Marking rows keeps the schema whichever rows are marked.
  lemma MarkedKeysOk(t: Tables, t': Tables)
    requires Valid(t) && t' == t.(keys := t'.keys) && |t'.keys| == |t.keys|
    requires forall i | 0 <= i < |t.keys| :: KeyKept(t.keys[i], t'.keys[i])
    ensures Valid(t') && Extends(t, t')
  {
    forall i | 0 <= i < |t'.keys| ensures IsActor(t', t'.keys[i].actor) {
      assert KeyKept(t.keys[i], t'.keys[i]);
      IsActorKept(t, t', t.keys[i].actor);
    }
    forall i, j | 0 <= i < j < |t'.keys|
      ensures t'.keys[i].id < t'.keys[j].id && t'.keys[i].keyId != t'.keys[j].keyId
    {
      assert KeyKept(t.keys[i], t'.keys[i]) && KeyKept(t.keys[j], t'.keys[j]);
    }
    AuxOkKept(t, t');
  }

  lemma MarkedAuxOk(t: Tables, t': Tables)
    requires Valid(t) && t' == t.(aux := t'.aux) && |t'.aux| == |t.aux|
    requires forall i | 0 <= i < |t.aux| :: AuxKept(t.aux[i], t'.aux[i])
    ensures Valid(t') && Extends(t, t')
  {
    forall i | 0 <= i < |t'.aux| ensures IsActor(t', t'.aux[i].actor) {
      assert AuxKept(t.aux[i], t'.aux[i]);
      IsActorKept(t, t', t.aux[i].actor);
    }
    forall i, j | 0 <= i < j < |t'.aux|
      ensures t'.aux[i].id < t'.aux[j].id && t'.aux[i].auxId != t'.aux[j].auxId
    {
      assert AuxKept(t.aux[i], t'.aux[i]) && AuxKept(t.aux[j], t'.aux[j]);
    }
    KeysOkKept(t, t');
  }

  // The id of one row selects that row alone.
  lemma RevokeKeyRow(t: Tables, i: nat, root: string, now: nat)
    requires Valid(t) && i < |t.keys|
    ensures RevokeKeyById(t, t.keys[i].id, root, now)
         == t.(keys := t.keys[i := MarkKey(t.keys[i], root, now)])
  {
  }

  lemma SymmetricKeysIrrelevant(t: Tables, t': Tables)
    requires Valid(t) && t' == t.(symmetricKeys := t'.symmetricKeys)
    ensures Valid(t') && Extends(t, t')
  {
    KeysOkKept(t, t');
    AuxOkKept(t, t');
  }

  lemma DisclosureKeeps(t: Tables, t': Tables, root: string, disclosed: map<string, Bytes>)
    requires Valid(t)
    requires (if |disclosed| == 0 then Success(t) else StoreSymmetricKeys(t, root, disclosed)) == Success(t')
    ensures Valid(t') && Extends(t, t')
    ensures t' == t.(symmetricKeys := t.symmetricKeys + Disclosed(root, disclosed))
    ensures forall attribute | attribute in disclosed :: (root, attribute) !in t.symmetricKeys
  {
    if |disclosed| == 0 {
      assert t.symmetricKeys + Disclosed(root, disclosed) == t.symmetricKeys;
    }
    SymmetricKeysIrrelevant(t, t');
  }

  // ---------- What each transaction does and keeps ----------

  // A successful AddKey appends exactly one live key row, owned by the row the actor's name now
  // resolves to, and stores exactly the disclosed keys under the new root.
  lemma AddKeyTxEffect(t: Tables, actor: string, publicKey: string, root: string, keyId: string,
                       disclosed: map<string, Bytes>)
    requires Valid(t)
    requires AddKeyTx(t, actor, publicKey, root, keyId, disclosed).Success?
    ensures var t' := AddKeyTx(t, actor, publicKey, root, keyId, disclosed).value;
            var a := GetOrCreateActor(t, actor).1;
            && Valid(t') && Extends(t, t') && ActorId(t', actor) == Some(a)
            && t'.keys == t.keys + [KeyRow(t.nextKey, a, keyId, publicKey, root, None, None)]
            && t'.aux == t.aux
            && t'.actors == GetOrCreateActor(t, actor).0.actors
            && t'.symmetricKeys == t.symmetricKeys + Disclosed(root, disclosed)
            && (forall attribute | attribute in disclosed :: (root, attribute) !in t.symmetricKeys)
  {
    hide Valid, Extends;
    var (t1, a) := GetOrCreateActor(t, actor);
    GetOrCreateActorKeeps(t, actor);
    InsertPublicKeyKeeps(t1, a, keyId, publicKey, root);
    var t2 := InsertPublicKey(t1, a, keyId, publicKey, root).value;
    var t' := AddKeyTx(t, actor, publicKey, root, keyId, disclosed).value;
    DisclosureKeeps(t2, t', root, disclosed);
    ExtendsTransitive(t, t1, t2);
    ExtendsTransitive(t, t2, t');
  }

  // A successful RevokeKey marks exactly one row, which was live, owned by the named actor and
  // spelled the given key text.
  lemma RevokeKeyTxEffect(t: Tables, actor: string, publicKey: string, root: string,
                          disclosed: map<string, Bytes>, now: nat, pick: nat)
    requires Valid(t)
    requires RevokeKeyTx(t, actor, publicKey, root, disclosed, now, pick).Success?
    ensures var t' := RevokeKeyTx(t, actor, publicKey, root, disclosed, now, pick).value;
            var i := FindKeyToRevoke(t, actor, publicKey, pick);
            && i.Some? && Valid(t') && Extends(t, t')
            && t'.keys == t.keys[i.value := MarkKey(t.keys[i.value], root, now)]
            && t'.actors == t.actors && t'.aux == t.aux
            && t'.symmetricKeys == t.symmetricKeys + Disclosed(root, disclosed)
            && (forall attribute | attribute in disclosed :: (root, attribute) !in t.symmetricKeys)
  {
    var i := FindKeyToRevoke(t, actor, publicKey, pick).value;
    RevokeKeyRow(t, i, root, now);
    var t1 := RevokeKeyById(t, t.keys[i].id, root, now);
    MarkedKeysOk(t, t1);
    var t' := RevokeKeyTx(t, actor, publicKey, root, disclosed, now, pick).value;
    DisclosureKeeps(t1, t', root, disclosed);
    ExtendsTransitive(t, t1, t');
  }

  // A successful BurnDown marks exactly the actor's live rows and removes exactly the symmetric
  // keys stored under a root its rows carried.
  lemma BurnDownTxEffect(t: Tables, actor: string, root: string, now: nat)
    requires Valid(t) && BurnDownTx(t, actor, root, now).Success?
    ensures var t' := BurnDownTx(t, actor, root, now).value;
            && ActorId(t, actor).Some?
            && var a := ActorId(t, actor).value;
            && Valid(t') && Extends(t, t') && !HasLive(t', a)
            && |t'.keys| == |t.keys| && t'.actors == t.actors && t'.aux == t.aux
            && (forall i | 0 <= i < |t.keys| ::
                  t'.keys[i] == if LiveOf(t.keys[i], a) then MarkKey(t.keys[i], root, now) else t.keys[i])
            && (forall p :: p in t'.symmetricKeys <==> p in t.symmetricKeys && !Records(t, a, p.0))
            && (forall p | p in t'.symmetricKeys :: t'.symmetricKeys[p] == t.symmetricKeys[p])
  {
    var a := ActorId(t, actor).value;
    var t1 := DeleteSymmetricKeys(t, MessageHashes(t, a));
    var t' := BurnDownTx(t, actor, root, now).value;
    BurnDownKeeps(t, t1, t');
    forall p ensures p in t'.symmetricKeys <==> p in t.symmetricKeys && !Records(t, a, p.0) {
      MessageHashesMeans(t, a, p.0);
    }
  }

  lemma BurnDownKeeps(t: Tables, t1: Tables, t': Tables)
    requires Valid(t) && t1 == t.(symmetricKeys := t1.symmetricKeys)
    requires t' == t1.(keys := t'.keys) && |t'.keys| == |t1.keys|
    requires forall i | 0 <= i < |t1.keys| :: KeyKept(t1.keys[i], t'.keys[i])
    ensures Valid(t') && Extends(t, t')
  {
    SymmetricKeysIrrelevant(t, t1);
    MarkedKeysOk(t1, t');
    ExtendsTransitive(t, t1, t');
  }

  // A successful MoveIdentity renames one actor row, to a name nobody had, and touches nothing else.
  lemma MoveIdentityTxEffect(t: Tables, oldActor: string, newActor: string)
    requires Valid(t)
    ensures var r := MoveIdentityTx(t, oldActor, newActor);
            r.Success? <==> ActorId(t, oldActor).Some? && ActorId(t, newActor).None?
    ensures var r := MoveIdentityTx(t, oldActor, newActor);
            r.Success? ==>
              && Valid(r.value) && Extends(t, r.value)
              && r.value == t.(actors := r.value.actors)
              && ActorId(r.value, newActor) == ActorId(t, oldActor)
              && ActorId(r.value, oldActor).None?
    ensures var r := MoveIdentityTx(t, oldActor, newActor);
            r.Success? ==>
              forall n | n != oldActor && n != newActor :: ActorId(r.value, n) == ActorId(t, n)
  {
    var r := MoveIdentityTx(t, oldActor, newActor);
    if r.Success? {
      var t', i := r.value, ActorIndex(t.actors, oldActor);
      RenamedActor(t, t', i, newActor);
    }
  }

  lemma RenamedActor(t: Tables, t': Tables, i: nat, newActor: string)
    requires Valid(t) && i < |t.actors| && ActorId(t, newActor).None?
    requires t' == t.(actors := t.actors[i := t.actors[i].(actorId := newActor)])
    ensures Valid(t') && Extends(t, t')
    ensures ActorId(t', newActor) == Some(t.actors[i].id)
    ensures ActorId(t', t.actors[i].actorId).None?
    ensures forall n | n != t.actors[i].actorId && n != newActor :: ActorId(t', n) == ActorId(t, n)
  {
    hide KeysOk, AuxOk, IsActor;
    KeysOkKept(t, t');
    AuxOkKept(t, t');
    ActorIndexIs(t'.actors, newActor, i);
    ActorIndexIs(t'.actors, t.actors[i].actorId, |t.actors|);
    forall n | n != t.actors[i].actorId && n != newActor ensures ActorId(t', n) == ActorId(t, n) {
      var k := ActorIndex(t.actors, n);
      assert k < |t.actors| ==> t'.actors[k] == t.actors[k];
      ActorIndexIs(t'.actors, n, k);
    }
  }

  lemma SetFireproofEffect(t: Tables, name: string, on: bool)
    requires Valid(t) && SetFireproof(t, name, on).Success?
    ensures var t' := SetFireproof(t, name, on).value;
            && Valid(t') && Extends(t, t') && t' == t.(actors := t'.actors)
            && forall n :: ActorId(t', n) == ActorId(t, n)
  {
    var t' := SetFireproof(t, name, on).value;
    KeysOkKept(t, t');
    AuxOkKept(t, t');
    forall n ensures ActorId(t', n) == ActorId(t, n) {
      var k := ActorIndex(t.actors, n);
      ActorIndexIs(t'.actors, n, k);
    }
  }

  lemma AddAuxDataTxEffect(t: Tables, actor: string, auxType: string, auxData: string, root: string, auxId: string)
    requires Valid(t) && AddAuxDataTx(t, actor, auxType, auxData, root, auxId).Success?
    ensures var t' := AddAuxDataTx(t, actor, auxType, auxData, root, auxId).value;
            var a := GetOrCreateActor(t, actor).1;
            && Valid(t') && Extends(t, t') && ActorId(t', actor) == Some(a)
            && t'.keys == t.keys && t'.symmetricKeys == t.symmetricKeys
            && t'.aux == t.aux + [AuxRow(t.nextAux, a, auxId, auxType, auxData, root, None, None)]
            && t'.actors == GetOrCreateActor(t, actor).0.actors
  {
    var (t1, a) := GetOrCreateActor(t, actor);
    GetOrCreateActorKeeps(t, actor);
    InsertAuxDataKeeps(t1, a, auxId, auxType, auxData, root);
    ExtendsTransitive(t, t1, InsertAuxData(t1, a, auxId, auxType, auxData, root).value);
  }

  // A successful RevokeAuxData marks exactly one row, live and owned by the named actor.
  lemma RevokeAuxDataTxEffect(t: Tables, actor: string, auxId: string, root: string, now: nat)
    requires Valid(t) && RevokeAuxDataTx(t, actor, auxId, root, now).Success?
    ensures var t' := RevokeAuxDataTx(t, actor, auxId, root, now).value;
            && ActorId(t, actor).Some?
            && var i := AuxIndex(t.aux, ActorId(t, actor).value, auxId);
            && i < |t.aux| && Valid(t') && Extends(t, t')
            && t' == t.(aux := t.aux[i := MarkAux(t.aux[i], root, now)])
  {
    var t' := RevokeAuxDataTx(t, actor, auxId, root, now).value;
    MarkedAuxOk(t, t');
  }
}
