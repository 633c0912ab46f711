// A database and its transactions, any call to which may fail (internal/db/sqlite.go,
// internal/db/postgres.go).
module Repository {
  import opened Wrappers
  import opened T = Tables

  // `after` holds `before` and, under `hash`, the keys of the attributes not `left`, none of which
  // was there before.
  ghost predicate Stored(before: map<(string, string), Bytes>, after: map<(string, string), Bytes>, hash: string,
                         keys: map<string, Bytes>, left: set<string>)
  {
    && (forall p :: p in after <==> p in before || (p.0 == hash && p.1 in keys && p.1 !in left))
    && (forall p | p in after :: after[p] == if p in before then before[p] else keys[p.1])
    && (forall a | a in keys && a !in left :: (hash, a) !in before)
  }

  lemma StoredOne(before: map<(string, string), Bytes>, after: map<(string, string), Bytes>, hash: string,
                  keys: map<string, Bytes>, left: set<string>, a: string)
    requires Stored(before, after, hash, keys, left) && a in keys && a in left
    ensures (hash, a) in after ==> (hash, a) in before
    ensures (hash, a) !in after ==> Stored(before, after[(hash, a) := keys[a]], hash, keys, left - {a})
  {
  }

  lemma StoredAll(before: map<(string, string), Bytes>, after: map<(string, string), Bytes>, hash: string,
                  keys: map<string, Bytes>)
    requires Stored(before, after, hash, keys, {})
    ensures after == before + Disclosed(hash, keys)
    ensures forall a | a in keys :: (hash, a) !in before
  {
    forall p | p in after ensures p in before + Disclosed(hash, keys) && after[p] == (before + Disclosed(hash, keys))[p] {
      if p in Disclosed(hash, keys) {
        assert p == (hash, p.1);
      }
    }
  }

  class Database {
    // What has been committed.
    var tables: T.Tables
    // Calls made so far, and which calls fail.
    var calls: nat
    const faulty: nat -> bool

    constructor (faulty: nat -> bool)
      ensures tables == EMPTY && calls == 0 && this.faulty == faulty
    {
      this.tables := EMPTY;
      this.calls := 0;
      this.faulty := faulty;
    }

    // No call numbered from `from` on, up to now, has failed.
    ghost predicate HealthySince(from: nat)
      reads this`calls
    {
      forall n | from <= n < calls :: !faulty(n)
    }

    method Call() returns (ok: bool)
      modifies this`calls
      ensures calls == old(calls) + 1 && ok == !faulty(old(calls))
    {
      ok := !faulty(calls);
      calls := calls + 1;
    }

    method ListKeysForActor(name: string) returns (r: Result<seq<KeyRow>, Error>)
      modifies this`calls
      ensures calls >= old(calls)
      ensures r == if HealthySince(old(calls)) then Success(T.ListKeysForActor(tables, name)) else Failure(Fault)
    {
      var ok := Call();
      r := if ok then Success(T.ListKeysForActor(tables, name)) else Failure(Fault);
    }

    // One statement outside any transaction.
    method SetFireproof(name: string, on: bool) returns (r: Result<(), Error>)
      modifies this`calls, this`tables
      ensures calls >= old(calls)
      ensures r.Success? ==> T.SetFireproof(old(tables), name, on) == Success(tables)
      ensures r.Failure? ==> tables == old(tables)
      ensures HealthySince(old(calls)) ==> (r.Success? <==> T.SetFireproof(old(tables), name, on).Success?)
    {
      var ok := Call();
      if !ok {
        return Failure(Fault);
      }
      match T.SetFireproof(tables, name, on) {
        case Failure(e) => r := Failure(e);
        case Success(t) =>
          tables := t;
          r := Success(());
      }
    }
  }

  // A transaction works on its own copy of the tables until it commits.
  class Transaction {
    const db: Database
    var work: T.Tables

    constructor (db: Database)
      ensures this.db == db && work == db.tables
    {
      this.db := db;
      this.work := db.tables;
    }

    static method Begin(db: Database) returns (r: Result<Transaction, Error>)
      modifies db`calls
      ensures db.calls >= old(db.calls)
      ensures r.Success? <==> db.HealthySince(old(db.calls))
      ensures r.Failure? ==> r.error == Fault
      ensures r.Success? ==> fresh(r.value) && r.value.db == db && r.value.work == db.tables
    {
      var ok := db.Call();
      if ok {
        var tx := new Transaction(db);
        r := Success(tx);
      } else {
        r := Failure(Fault);
      }
    }

    method Commit() returns (r: Result<(), Error>)
      modifies db`calls, db`tables
      ensures db.calls >= old(db.calls) && work == old(work)
      ensures r.Success? <==> db.HealthySince(old(db.calls))
      ensures r.Failure? ==> r.error == Fault
      ensures db.tables == if r.Success? then work else old(db.tables)
    {
      var ok := db.Call();
      if ok {
        db.tables := work;
        r := Success(());
      } else {
        r := Failure(Fault);
      }
    }

    // Deferred in every service method: after a commit there is nothing left to undo.
    method Rollback()
      modifies this`work
      ensures work == db.tables
    {
      work := db.tables;
    }

    method GetOrCreateActor(name: string) returns (r: Result<nat, Error>)
      modifies this`work, db`calls
      ensures db.calls >= old(db.calls)
      ensures r.Success? <==> db.HealthySince(old(db.calls))
      ensures r.Failure? ==> r.error == Fault
      ensures r.Success? ==> (work, r.value) == T.GetOrCreateActor(old(work), name)
    {
      var ok := db.Call();
      if !ok {
        return Failure(Fault);
      }
      var found := ActorId(work, name);
      if found.Some? {
        return Success(found.value);
      }
      ok := db.Call();
      if !ok {
        return Failure(Fault);
      }
      r := Success(work.nextActor);
      work := work.(actors := work.actors + [ActorRow(work.nextActor, name, false)],
                    nextActor := work.nextActor + 1);
    }

    method FindActorByActorId(name: string) returns (r: Result<Option<nat>, Error>)
      modifies db`calls
      ensures db.calls >= old(db.calls)
      ensures r == if db.HealthySince(old(db.calls)) then Success(ActorId(work, name)) else Failure(Fault)
    {
      var ok := db.Call();
      r := if ok then Success(ActorId(work, name)) else Failure(Fault);
    }

    method ActorExists(name: string) returns (r: Result<bool, Error>)
      modifies db`calls
      ensures db.calls >= old(db.calls)
      ensures r == if db.HealthySince(old(db.calls)) then Success(ActorId(work, name).Some?) else Failure(Fault)
    {
      var ok := db.Call();
      r := if ok then Success(ActorId(work, name).Some?) else Failure(Fault);
    }

    method UpdateActorId(oldActor: string, newActor: string) returns (r: Result<nat, Error>)
      modifies this`work, db`calls
      ensures db.calls >= old(db.calls)
      ensures !db.HealthySince(old(db.calls)) ==> r == Failure(Fault)
      ensures db.HealthySince(old(db.calls)) ==>
                match T.UpdateActorId(old(work), oldActor, newActor)
                case Failure(e) => r == Failure(e)
                case Success((t, rows)) => r == Success(rows) && work == t
    {
      var ok := db.Call();
      if !ok {
        return Failure(Fault);
      }
      match T.UpdateActorId(work, oldActor, newActor) {
        case Failure(e) => r := Failure(e);
        case Success((t, rows)) =>
          work := t;
          r := Success(rows);
      }
    }

    method InsertPublicKey(a: nat, keyId: string, publicKey: string, root: string) returns (r: Result<KeyRow, Error>)
      modifies this`work, db`calls
      ensures db.calls >= old(db.calls)
      ensures !db.HealthySince(old(db.calls)) ==> r == Failure(Fault)
      ensures db.HealthySince(old(db.calls)) ==>
                match T.InsertPublicKey(old(work), a, keyId, publicKey, root)
                case Failure(e) => r == Failure(e)
                case Success(t) => work == t && r == Success(t.keys[|t.keys| - 1])
    {
      var ok := db.Call();
      if !ok {
        return Failure(Fault);
      }
      match T.InsertPublicKey(work, a, keyId, publicKey, root) {
        case Failure(e) => r := Failure(e);
        case Success(t) =>
          work := t;
          r := Success(t.keys[|t.keys| - 1]);
      }
    }

    // Returns the id of some live row of the actor with this text. Which one is up to the database;
    // here it is the first in table order, and callers may only rely on there being one.
    method FindKeyToRevoke(name: string, publicKey: string) returns (r: Result<Option<nat>, Error>, ghost pick: nat)
      modifies db`calls
      ensures db.calls >= old(db.calls)
      ensures !db.HealthySince(old(db.calls)) ==> r == Failure(Fault)
      ensures db.HealthySince(old(db.calls)) ==>
                match T.FindKeyToRevoke(work, name, publicKey, pick)
                case None => r == Success(None)
                case Some(i) => r == Success(Some(work.keys[i].id))
    {
      var ok := db.Call();
      pick := 0;
      if !ok {
        return Failure(Fault), 0;
      }
      var found := ActorId(work, name);
      if found.None? {
        return Success(None), 0;
      }
      var i := 0;
      while i < |work.keys|
        invariant i <= |work.keys|
        invariant forall j | 0 <= j < i :: !Revocable(work, found.value, publicKey, j)
      {
        if Revocable(work, found.value, publicKey, i) {
          return Success(Some(work.keys[i].id)), i;
        }
        i := i + 1;
      }
      r, pick := Success(None), i;
    }

    method RevokeKey(id: nat, root: string, now: nat) returns (r: Result<(), Error>)
      modifies this`work, db`calls
      ensures db.calls >= old(db.calls)
      ensures r.Success? <==> db.HealthySince(old(db.calls))
      ensures r.Failure? ==> r.error == Fault
      ensures r.Success? ==> work == RevokeKeyById(old(work), id, root, now)
    {
      var ok := db.Call();
      if !ok {
        return Failure(Fault);
      }
      work := RevokeKeyById(work, id, root, now);
      r := Success(());
    }

    method GetMessageHashesForActor(a: nat) returns (r: Result<set<string>, Error>)
      modifies db`calls
      ensures db.calls >= old(db.calls)
      ensures r == if db.HealthySince(old(db.calls)) then Success(MessageHashes(work, a)) else Failure(Fault)
    {
      var ok := db.Call();
      r := if ok then Success(MessageHashes(work, a)) else Failure(Fault);
    }

    method RevokeAllKeysForActor(a: nat, root: string, now: nat) returns (r: Result<(), Error>)
      modifies this`work, db`calls
      ensures db.calls >= old(db.calls)
      ensures r.Success? <==> db.HealthySince(old(db.calls))
      ensures r.Failure? ==> r.error == Fault
      ensures r.Success? ==> work == T.RevokeAllKeysForActor(old(work), a, root, now)
    {
      var ok := db.Call();
      if !ok {
        return Failure(Fault);
      }
      work := T.RevokeAllKeysForActor(work, a, root, now);
      r := Success(());
    }

    method InsertAuxData(a: nat, auxId: string, auxType: string, auxData: string, root: string)
      returns (r: Result<AuxRow, Error>)
      modifies this`work, db`calls
      ensures db.calls >= old(db.calls)
      ensures !db.HealthySince(old(db.calls)) ==> r == Failure(Fault)
      ensures db.HealthySince(old(db.calls)) ==>
                match T.InsertAuxData(old(work), a, auxId, auxType, auxData, root)
                case Failure(e) => r == Failure(e)
                case Success(t) => work == t && r == Success(t.aux[|t.aux| - 1])
    {
      var ok := db.Call();
      if !ok {
        return Failure(Fault);
      }
      match T.InsertAuxData(work, a, auxId, auxType, auxData, root) {
        case Failure(e) => r := Failure(e);
        case Success(t) =>
          work := t;
          r := Success(t.aux[|t.aux| - 1]);
      }
    }

    method RevokeAuxData(name: string, auxId: string, root: string, now: nat) returns (r: Result<nat, Error>)
      modifies this`work, db`calls
      ensures db.calls >= old(db.calls)
      ensures r.Success? <==> db.HealthySince(old(db.calls))
      ensures r.Success? ==> (work, r.value) == T.RevokeAuxData(old(work), name, auxId, root, now)
    {
      var ok := db.Call();
      if !ok {
        return Failure(Fault);
      }
      var (t, rows) := T.RevokeAuxData(work, name, auxId, root, now);
      work := t;
      r := Success(rows);
    }

    // Prepare, one INSERT per attribute in no particular order, and close; each may fail, and an
    // INSERT may clash. The attributes already inserted then stay in the working copy until it is
    // rolled back.
    method StoreSymmetricKeys(hash: string, keys: map<string, Bytes>) returns (r: Result<(), Error>)
      modifies this`work, db`calls
      ensures db.calls >= old(db.calls)
      ensures r.Success? ==> T.StoreSymmetricKeys(old(work), hash, keys) == Success(work)
      ensures db.HealthySince(old(db.calls)) ==> (r.Success? <==> T.StoreSymmetricKeys(old(work), hash, keys).Success?)
      ensures r.Success? ==> db.HealthySince(old(db.calls))
    {
      var ok := db.Call();
      if !ok {
        return Failure(Fault);
      }
      var before := work;
      var left := keys.Keys;
      assert Stored(before.symmetricKeys, work.symmetricKeys, hash, keys, left);
      hide Stored;
      while left != {}
        invariant left <= keys.Keys && db.calls >= old(db.calls) && db.HealthySince(old(db.calls))
        invariant work == before.(symmetricKeys := work.symmetricKeys)
        invariant Stored(before.symmetricKeys, work.symmetricKeys, hash, keys, left)
        decreases left
      {
        var attribute :| attribute in left;
        ok := db.Call();
        if !ok {
          return Failure(Fault);
        }
        StoredOne(before.symmetricKeys, work.symmetricKeys, hash, keys, left, attribute);
        if (hash, attribute) in work.symmetricKeys {
          return Failure(UniqueViolation);
        }
        work := work.(symmetricKeys := work.symmetricKeys[(hash, attribute) := keys[attribute]]);
        left := left - {attribute};
      }
      StoredAll(before.symmetricKeys, work.symmetricKeys, hash, keys);
      ok := db.Call();
      r := if ok then Success(()) else Failure(Fault);
    }

    method DeleteSymmetricKeysByHashes(hashes: set<string>) returns (r: Result<(), Error>)
      modifies this`work, db`calls
      ensures db.calls >= old(db.calls)
      ensures r.Success? <==> db.HealthySince(old(db.calls))
      ensures r.Failure? ==> r.error == Fault
      ensures r.Success? ==> work == DeleteSymmetricKeys(old(work), hashes)
    {
      if hashes == {} {
        assert DeleteSymmetricKeys(work, hashes).symmetricKeys == work.symmetricKeys;
        return Success(());
      }
      var ok := db.Call();
      if !ok {
        return Failure(Fault);
      }
      work := DeleteSymmetricKeys(work, hashes);
      r := Success(());
    }
  }
}
