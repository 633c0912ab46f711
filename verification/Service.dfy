// The transactional methods of the domain service (internal/domain/service.go). Each begins a
// transaction, changes a working copy step by step, and commits or rolls back. Whatever calls
// fail, the committed tables end up with the whole effect or untouched.
module Service {
  import opened Wrappers
  import opened T = Tables
  import opened Transactions
  import opened Repository
  import A = Actions

  datatype Validator = Validator(kind: string, accepts: string -> bool)

  // The last validator of a kind, if there is one, decides; data of other kinds is accepted unseen.
  predicate Accepted(validators: seq<Validator>, auxType: string, auxData: string) {
    forall i | 0 <= i < |validators| && validators[i].kind == auxType
      && (forall j | i < j < |validators| :: validators[j].kind != auxType) ::
      validators[i].accepts(auxData)
  }

  // Some validator of the kind is the last one.
  lemma {:induction false} LastOfKind(validators: seq<Validator>, kind: string, n: nat) returns (i: nat)
    requires n < |validators| && validators[n].kind == kind
    ensures i < |validators| && validators[i].kind == kind
    ensures forall j | i < j < |validators| :: validators[j].kind != kind
    decreases |validators| - n
  {
    i := n;
    if j :| n < j < |validators| && validators[j].kind == kind {
      i := LastOfKind(validators, kind, j);
    }
  }

  class PKDService {
    const db: Database
    const registry: map<string, string -> bool>

    // Validators are registered by kind; a later one replaces an earlier one of the same kind.
    constructor (db: Database, validators: seq<Validator>)
      ensures this.db == db
      ensures forall k | k in registry :: exists i :: 0 <= i < |validators| && validators[i].kind == k
      ensures forall i | 0 <= i < |validators| :: validators[i].kind in registry
      ensures forall i | 0 <= i < |validators| &&
                (forall j | i < j < |validators| :: validators[j].kind != validators[i].kind) ::
                registry[validators[i].kind] == validators[i].accepts
      ensures forall auxType, auxData :: AcceptsAux(auxType, auxData) <==> Accepted(validators, auxType, auxData)
    {
      var m: map<string, string -> bool> := map[];
      var n := 0;
      while n < |validators|
        invariant n <= |validators|
        invariant forall k | k in m :: exists i :: 0 <= i < n && validators[i].kind == k
        invariant forall i | 0 <= i < n :: validators[i].kind in m
        invariant forall i | 0 <= i < n && (forall j | i < j < n :: validators[j].kind != validators[i].kind) ::
                    m[validators[i].kind] == validators[i].accepts
      {
        m := m[validators[n].kind := validators[n].accepts];
        n := n + 1;
      }
      this.db := db;
      this.registry := m;
      new;
      forall auxType, auxData ensures AcceptsAux(auxType, auxData) <==> Accepted(validators, auxType, auxData) {
        if auxType in registry {
          var k :| 0 <= k < |validators| && validators[k].kind == auxType;
          var i := LastOfKind(validators, auxType, k);
        }
      }
    }

    // Data of an unregistered type is accepted unseen.
    predicate AcceptsAux(auxType: string, auxData: string) {
      auxType in registry ==> registry[auxType](auxData)
    }

    // ---------- AddKey ----------

    method AddKeySteps(tx: Transaction, actor: string, publicKey: string, root: string, newId: Option<string>,
                       disclosed: map<string, Bytes>) returns (r: Result<KeyRow, Error>)
      requires tx.db == db && tx.work == db.tables
      modifies tx`work, db`calls, db`tables
      ensures db.calls >= old(db.calls)
      ensures r.Success? ==> newId.Some?
      ensures r.Success? ==> AddKeyTx(old(db.tables), actor, publicKey, root, newId.value, disclosed) == Success(db.tables)
      ensures r.Success? ==> |db.tables.keys| > 0 && r.value == db.tables.keys[|db.tables.keys| - 1]
      ensures r.Failure? ==> db.tables == old(db.tables)
      ensures db.HealthySince(old(db.calls)) && newId.Some? ==>
                (r.Success? <==> AddKeyTx(old(db.tables), actor, publicKey, root, newId.value, disclosed).Success?)
      ensures r.Success? ==> db.HealthySince(old(db.calls))
    {
      var a := tx.GetOrCreateActor(actor);
      if a.Failure? {
        return Failure(a.error);
      }
      if newId.None? {
        return Failure(Fault);
      }
      var key := tx.InsertPublicKey(a.value, newId.value, publicKey, root);
      if key.Failure? {
        return Failure(key.error);
      }
      if |disclosed| > 0 {
        var stored := tx.StoreSymmetricKeys(root, disclosed);
        if stored.Failure? {
          return Failure(stored.error);
        }
      }
      var committed := tx.Commit();
      if committed.Failure? {
        return Failure(committed.error);
      }
      r := Success(key.value);
    }

    // `newId` is the random key identifier, None when the generator fails.
    method ProcessAddKey(actor: string, publicKey: string, root: string, newId: Option<string>,
                         disclosed: map<string, Bytes>) returns (r: Result<KeyRow, Error>)
      modifies db`calls, db`tables
      ensures db.calls >= old(db.calls)
      ensures r.Success? ==> newId.Some?
      ensures r.Success? ==> AddKeyTx(old(db.tables), actor, publicKey, root, newId.value, disclosed) == Success(db.tables)
      ensures r.Success? ==> |db.tables.keys| > 0 && r.value == db.tables.keys[|db.tables.keys| - 1]
      ensures r.Failure? ==> db.tables == old(db.tables)
      ensures db.HealthySince(old(db.calls)) && newId.Some? ==>
                (r.Success? <==> AddKeyTx(old(db.tables), actor, publicKey, root, newId.value, disclosed).Success?)
      ensures r.Success? ==> db.HealthySince(old(db.calls))
    {
      var tx := Transaction.Begin(db);
      if tx.Failure? {
        return Failure(tx.error);
      }
      r := AddKeySteps(tx.value, actor, publicKey, root, newId, disclosed);
      tx.value.Rollback();
    }

    // ---------- RevokeKey ----------

    method RevokeKeySteps(tx: Transaction, actor: string, publicKey: string, root: string,
                          disclosed: map<string, Bytes>, now: nat) returns (r: Result<(), Error>, ghost pick: nat)
      requires tx.db == db && tx.work == db.tables
      modifies tx`work, db`calls, db`tables
      ensures db.calls >= old(db.calls)
      ensures r.Success? ==> RevokeKeyTx(old(db.tables), actor, publicKey, root, disclosed, now, pick) == Success(db.tables)
      ensures r.Failure? ==> db.tables == old(db.tables)
      ensures db.HealthySince(old(db.calls)) ==>
                (r.Success? <==> RevokeKeyTx(old(db.tables), actor, publicKey, root, disclosed, now, pick).Success?)
      ensures r.Success? ==> db.HealthySince(old(db.calls))
    {
      var found, choice := tx.FindKeyToRevoke(actor, publicKey);
      pick := choice;
      if found.Failure? {
        return Failure(found.error), pick;
      }
      if found.value.None? {
        return Failure(KeyNotFound), pick;
      }
      var revoked := tx.RevokeKey(found.value.value, root, now);
      if revoked.Failure? {
        return Failure(revoked.error), pick;
      }
      if |disclosed| > 0 {
        var stored := tx.StoreSymmetricKeys(root, disclosed);
        if stored.Failure? {
          return Failure(stored.error), pick;
        }
      }
      r := tx.Commit();
    }

    method ProcessRevokeKey(actor: string, publicKey: string, root: string, disclosed: map<string, Bytes>, now: nat)
      returns (r: Result<(), Error>, ghost pick: nat)
      modifies db`calls, db`tables
      ensures db.calls >= old(db.calls)
      ensures r.Success? ==> RevokeKeyTx(old(db.tables), actor, publicKey, root, disclosed, now, pick) == Success(db.tables)
      ensures r.Failure? ==> db.tables == old(db.tables)
      ensures db.HealthySince(old(db.calls)) ==>
                (r.Success? <==> RevokeKeyTx(old(db.tables), actor, publicKey, root, disclosed, now, pick).Success?)
      ensures r.Success? ==> db.HealthySince(old(db.calls))
    {
      var tx := Transaction.Begin(db);
      pick := 0;
      if tx.Failure? {
        return Failure(tx.error), pick;
      }
      r, pick := RevokeKeySteps(tx.value, actor, publicKey, root, disclosed, now);
      tx.value.Rollback();
    }

    // ---------- MoveIdentity ----------

    method MoveIdentitySteps(tx: Transaction, oldActor: string, newActor: string) returns (r: Result<(), Error>)
      requires tx.db == db && tx.work == db.tables
      modifies tx`work, db`calls, db`tables
      ensures db.calls >= old(db.calls)
      ensures r.Success? ==> MoveIdentityTx(old(db.tables), oldActor, newActor) == Success(db.tables)
      ensures r.Failure? ==> db.tables == old(db.tables)
      ensures db.HealthySince(old(db.calls)) ==>
                (r.Success? <==> MoveIdentityTx(old(db.tables), oldActor, newActor).Success?)
      ensures r.Success? ==> db.HealthySince(old(db.calls))
    {
      var exists_ := tx.ActorExists(newActor);
      if exists_.Failure? {
        return Failure(exists_.error);
      }
      if exists_.value {
        return Failure(ActorExists);
      }
      var rows := tx.UpdateActorId(oldActor, newActor);
      if rows.Failure? {
        return Failure(rows.error);
      }
      if rows.value == 0 {
        return Failure(ActorNotFound);
      }
      r := tx.Commit();
    }

    method ProcessMoveIdentity(oldActor: string, newActor: string) returns (r: Result<(), Error>)
      modifies db`calls, db`tables
      ensures db.calls >= old(db.calls)
      ensures r.Success? ==> MoveIdentityTx(old(db.tables), oldActor, newActor) == Success(db.tables)
      ensures r.Failure? ==> db.tables == old(db.tables)
      ensures db.HealthySince(old(db.calls)) ==>
                (r.Success? <==> MoveIdentityTx(old(db.tables), oldActor, newActor).Success?)
      ensures r.Success? ==> db.HealthySince(old(db.calls))
    {
      var tx := Transaction.Begin(db);
      if tx.Failure? {
        return Failure(tx.error);
      }
      r := MoveIdentitySteps(tx.value, oldActor, newActor);
      tx.value.Rollback();
    }

    // ---------- BurnDown ----------

    method BurnDownSteps(tx: Transaction, actor: string, root: string, now: nat) returns (r: Result<(), Error>)
      requires tx.db == db && tx.work == db.tables
      modifies tx`work, db`calls, db`tables
      ensures db.calls >= old(db.calls)
      ensures r.Success? ==> BurnDownTx(old(db.tables), actor, root, now) == Success(db.tables)
      ensures r.Failure? ==> db.tables == old(db.tables)
      ensures db.HealthySince(old(db.calls)) ==>
                (r.Success? <==> BurnDownTx(old(db.tables), actor, root, now).Success?)
      ensures r.Success? ==> db.HealthySince(old(db.calls))
      ensures r.Failure? && r.error == ActorNotFound ==> ActorId(db.tables, actor).None?
      ensures r.Failure? && db.HealthySince(old(db.calls)) ==> r.error == ActorNotFound
    {
      var found := tx.FindActorByActorId(actor);
      if found.Failure? {
        return Failure(found.error);
      }
      if found.value.None? {
        return Failure(ActorNotFound);
      }
      var a := found.value.value;
      var hashes := tx.GetMessageHashesForActor(a);
      if hashes.Failure? {
        return Failure(hashes.error);
      }
      if |hashes.value| > 0 {
        var deleted := tx.DeleteSymmetricKeysByHashes(hashes.value);
        if deleted.Failure? {
          return Failure(deleted.error);
        }
      }
      assert tx.work.symmetricKeys == DeleteSymmetricKeys(old(db.tables), hashes.value).symmetricKeys;
      var revoked := tx.RevokeAllKeysForActor(a, root, now);
      if revoked.Failure? {
        return Failure(revoked.error);
      }
      r := tx.Commit();
    }

    method ProcessBurnDown(actor: string, root: string, now: nat) returns (r: Result<(), Error>)
      modifies db`calls, db`tables
      ensures db.calls >= old(db.calls)
      ensures r.Success? ==> BurnDownTx(old(db.tables), actor, root, now) == Success(db.tables)
      ensures r.Failure? ==> db.tables == old(db.tables)
      ensures db.HealthySince(old(db.calls)) ==>
                (r.Success? <==> BurnDownTx(old(db.tables), actor, root, now).Success?)
      ensures r.Success? ==> db.HealthySince(old(db.calls))
      ensures r.Failure? && r.error == ActorNotFound ==> ActorId(db.tables, actor).None?
      ensures r.Failure? && db.HealthySince(old(db.calls)) ==> r.error == ActorNotFound
    {
      var tx := Transaction.Begin(db);
      if tx.Failure? {
        return Failure(tx.error);
      }
      r := BurnDownSteps(tx.value, actor, root, now);
      tx.value.Rollback();
    }

    // An administrator's burn-down under a root made from the actor's name and the clock.
    method CryptoShred(actor: string, nanos: int, now: nat) returns (r: Result<(), Error>)
      modifies db`calls, db`tables
      ensures r.Success? ==> BurnDownTx(old(db.tables), actor, A.AdminRoot(actor, nanos), now) == Success(db.tables)
      ensures r.Failure? ==> db.tables == old(db.tables)
      ensures db.calls >= old(db.calls)
      ensures db.HealthySince(old(db.calls)) ==>
                (r.Success? <==> BurnDownTx(old(db.tables), actor, A.AdminRoot(actor, nanos), now).Success?)
      ensures r.Failure? && r.error == ActorNotFound ==> ActorId(db.tables, actor).None?
      ensures r.Failure? && db.HealthySince(old(db.calls)) ==> r.error == ActorNotFound
    {
      r := ProcessBurnDown(actor, A.AdminRoot(actor, nanos), now);
    }

    // ---------- Auxiliary data ----------

    method AddAuxDataSteps(tx: Transaction, actor: string, auxType: string, auxData: string, root: string,
                           newId: Option<string>) returns (r: Result<AuxRow, Error>)
      requires tx.db == db && tx.work == db.tables
      modifies tx`work, db`calls, db`tables
      ensures db.calls >= old(db.calls)
      ensures r.Success? ==> newId.Some?
      ensures r.Success? ==> AddAuxDataTx(old(db.tables), actor, auxType, auxData, root, newId.value) == Success(db.tables)
      ensures r.Failure? ==> db.tables == old(db.tables)
      ensures db.HealthySince(old(db.calls)) && newId.Some? ==>
                (r.Success? <==> AddAuxDataTx(old(db.tables), actor, auxType, auxData, root, newId.value).Success?)
      ensures r.Success? ==> db.HealthySince(old(db.calls))
    {
      var a := tx.GetOrCreateActor(actor);
      if a.Failure? {
        return Failure(a.error);
      }
      if newId.None? {
        return Failure(Fault);
      }
      var row := tx.InsertAuxData(a.value, newId.value, auxType, auxData, root);
      if row.Failure? {
        return Failure(row.error);
      }
      var committed := tx.Commit();
      r := if committed.Success? then Success(row.value) else Failure(committed.error);
    }

    method ProcessAddAuxData(actor: string, auxType: string, auxData: string, root: string, newId: Option<string>)
      returns (r: Result<AuxRow, Error>)
      modifies db`calls, db`tables
      ensures db.calls >= old(db.calls)
      ensures r.Success? ==> newId.Some? && AcceptsAux(auxType, auxData)
      ensures r.Success? ==> AddAuxDataTx(old(db.tables), actor, auxType, auxData, root, newId.value) == Success(db.tables)
      ensures r.Failure? ==> db.tables == old(db.tables)
      ensures db.HealthySince(old(db.calls)) && newId.Some? ==>
                (r.Success? <==> (AcceptsAux(auxType, auxData)
                   && AddAuxDataTx(old(db.tables), actor, auxType, auxData, root, newId.value).Success?))
      ensures r.Success? ==> db.HealthySince(old(db.calls))
    {
      if auxType in registry {
        if !registry[auxType](auxData) {
          return Failure(AuxInvalid);
        }
      }
      var tx := Transaction.Begin(db);
      if tx.Failure? {
        return Failure(tx.error);
      }
      r := AddAuxDataSteps(tx.value, actor, auxType, auxData, root, newId);
      tx.value.Rollback();
    }

    method ProcessRevokeAuxData(actor: string, auxId: string, root: string, now: nat) returns (r: Result<(), Error>)
      modifies db`calls, db`tables
      ensures db.calls >= old(db.calls)
      ensures r.Success? ==> RevokeAuxDataTx(old(db.tables), actor, auxId, root, now) == Success(db.tables)
      ensures r.Failure? ==> db.tables == old(db.tables)
      ensures db.HealthySince(old(db.calls)) ==>
                (r.Success? <==> RevokeAuxDataTx(old(db.tables), actor, auxId, root, now).Success?)
      ensures r.Success? ==> db.HealthySince(old(db.calls))
    {
      var tx := Transaction.Begin(db);
      if tx.Failure? {
        return Failure(tx.error);
      }
      var rows := tx.value.RevokeAuxData(actor, auxId, root, now);
      if rows.Failure? {
        tx.value.Rollback();
        return Failure(rows.error);
      }
      if rows.value == 0 {
        tx.value.Rollback();
        return Failure(AuxNotFound);
      }
      r := tx.value.Commit();
      tx.value.Rollback();
    }
  }
}
