// The directory's tables (sql/sqlite/sqlite_schema.sql) and the meaning of each SQL statement
// the repositories run on them.
module Tables {
  import opened Wrappers

  datatype ActorRow = ActorRow(id: nat, actorId: string, isFireproof: bool)

  datatype KeyRow = KeyRow(
    id: nat,
    actor: nat,
    keyId: string,
    publicKey: string,
    merkleRoot: string,
    revokedAt: Option<nat>,
    revokeRoot: Option<string>)

  datatype AuxRow = AuxRow(
    id: nat,
    actor: nat,
    auxId: string,
    auxType: string,
    auxData: string,
    merkleRoot: string,
    revokedAt: Option<nat>,
    revokeRoot: Option<string>)

  // Rows in insertion order. `symmetricKeys` is keyed by its UNIQUE pair
  // (message_hash, attribute). The three counters are the AUTOINCREMENT sequences.
  datatype Tables = Tables(
    actors: seq<ActorRow>,
    keys: seq<KeyRow>,
    aux: seq<AuxRow>,
    symmetricKeys: map<(string, string), Bytes>,
    nextActor: nat,
    nextKey: nat,
    nextAux: nat)

  const EMPTY := Tables([], [], [], map[], 1, 1, 1)

  datatype Error =
    | Fault
    | UniqueViolation
    | ForeignKeyViolation
    | ActorNotFound
    | ActorExists
    | KeyNotFound
    | AuxNotFound
    | AuxInvalid
    | BadSymmetricKey

  // ---------- Schema constraints ----------

  ghost predicate ActorsOk(t: Tables) {
    && (forall i | 0 <= i < |t.actors| :: t.actors[i].id < t.nextActor)
    && (forall i, j | 0 <= i < j < |t.actors| :: t.actors[i].id < t.actors[j].id)
    && (forall i, j | 0 <= i < j < |t.actors| :: t.actors[i].actorId != t.actors[j].actorId)
  }

  ghost predicate IsActor(t: Tables, a: nat) {
    exists i | 0 <= i < |t.actors| :: t.actors[i].id == a
  }

  ghost predicate KeysOk(t: Tables) {
    && (forall i | 0 <= i < |t.keys| :: t.keys[i].id < t.nextKey)
    && (forall i, j | 0 <= i < j < |t.keys| :: t.keys[i].id < t.keys[j].id)
    && (forall i, j | 0 <= i < j < |t.keys| :: t.keys[i].keyId != t.keys[j].keyId)
    && (forall i | 0 <= i < |t.keys| :: IsActor(t, t.keys[i].actor))
    && (forall i | 0 <= i < |t.keys| :: t.keys[i].revokedAt.Some? <==> t.keys[i].revokeRoot.Some?)
  }

  ghost predicate AuxOk(t: Tables) {
    && (forall i | 0 <= i < |t.aux| :: t.aux[i].id < t.nextAux)
    && (forall i, j | 0 <= i < j < |t.aux| :: t.aux[i].id < t.aux[j].id)
    && (forall i, j | 0 <= i < j < |t.aux| :: t.aux[i].auxId != t.aux[j].auxId)
    && (forall i | 0 <= i < |t.aux| :: IsActor(t, t.aux[i].actor))
    && (forall i | 0 <= i < |t.aux| :: t.aux[i].revokedAt.Some? <==> t.aux[i].revokeRoot.Some?)
  }

  ghost predicate Valid(t: Tables) {
    ActorsOk(t) && KeysOk(t) && AuxOk(t)
  }

  // ---------- Queries ----------

  // Position of the row with this actor_id, or the row count.
  function ActorIndex(actors: seq<ActorRow>, name: string): (i: nat)
    ensures i <= |actors|
    ensures i < |actors| ==> actors[i].actorId == name
    ensures forall j | 0 <= j < i :: actors[j].actorId != name
  {
    if actors == [] then 0
    else if actors[0].actorId == name then 0
    else 1 + ActorIndex(actors[1..], name)
  }

  function ActorId(t: Tables, name: string): Option<nat> {
    var i := ActorIndex(t.actors, name);
    if i == |t.actors| then None else Some(t.actors[i].id)
  }

  // The actor row found under a name is the only one with that name.
  lemma ActorIdMeans(t: Tables, name: string, a: nat)
    requires Valid(t)
    ensures ActorId(t, name) == Some(a)
        <==> exists i :: 0 <= i < |t.actors| && t.actors[i].id == a && t.actors[i].actorId == name
  {
  }

  predicate LiveOf(k: KeyRow, a: nat) {
    k.actor == a && k.revokedAt.None?
  }

  function LiveKeys(keys: seq<KeyRow>, a: nat): seq<KeyRow> {
    if keys == [] then []
    else
      var n := |keys| - 1;
      LiveKeys(keys[..n], a) + if LiveOf(keys[n], a) then [keys[n]] else []
  }

  // SELECT ... FROM public_keys pk JOIN actors a ... WHERE a.actor_id = ? AND revoked_at IS NULL
  function ListKeysForActor(t: Tables, name: string): seq<KeyRow> {
    match ActorId(t, name)
    case None => []
    case Some(a) => LiveKeys(t.keys, a)
  }

  lemma {:induction false} LiveKeysMember(keys: seq<KeyRow>, a: nat, k: KeyRow)
    ensures k in LiveKeys(keys, a) <==> k in keys && LiveOf(k, a)
  {
    if keys != [] {
      var n := |keys| - 1;
      LiveKeysMember(keys[..n], a, k);
      assert keys == keys[..n] + [keys[n]];
    }
  }

  // The listing is the join of the two tables: nothing missing, nothing foreign.
  lemma ListKeysIsJoin(t: Tables, name: string, k: KeyRow)
    requires Valid(t)
    ensures k in ListKeysForActor(t, name)
        <==> k in t.keys && k.revokedAt.None?
             && exists i :: 0 <= i < |t.actors| && t.actors[i].id == k.actor && t.actors[i].actorId == name
  {
    ActorIdMeans(t, name, k.actor);
    match ActorId(t, name)
    case None =>
    case Some(a) =>
      LiveKeysMember(t.keys, a, k);
      ActorIdMeans(t, name, a);
  }

  ghost predicate Live(t: Tables, i: nat) {
    i < |t.keys| && t.keys[i].revokedAt.None?
  }

  ghost predicate HasLive(t: Tables, a: nat) {
    exists i: nat :: Live(t, i) && t.keys[i].actor == a
  }

  lemma {:induction false} LiveKeysEmpty(keys: seq<KeyRow>, a: nat)
    ensures LiveKeys(keys, a) == [] <==> forall i | 0 <= i < |keys| :: !LiveOf(keys[i], a)
  {
    if keys != [] {
      var n := |keys| - 1;
      LiveKeysEmpty(keys[..n], a);
      assert forall i | 0 <= i < n :: keys[..n][i] == keys[i];
    }
  }

  lemma HasLiveMeans(t: Tables, a: nat)
    ensures HasLive(t, a) <==> LiveKeys(t.keys, a) != []
  {
    LiveKeysEmpty(t.keys, a);
    if LiveKeys(t.keys, a) != [] {
      var i :| 0 <= i < |t.keys| && LiveOf(t.keys[i], a);
      assert Live(t, i);
    }
  }

  // Every root a key row of actor `a` carries.
  function MessageHashes(t: Tables, a: nat): set<string> {
    (set k | k in t.keys && k.actor == a :: k.merkleRoot)
    + (set k | k in t.keys && k.actor == a && k.revokeRoot.Some? :: k.revokeRoot.value)
  }

  ghost predicate Records(t: Tables, a: nat, h: string) {
    exists i :: 0 <= i < |t.keys| && t.keys[i].actor == a
      && (t.keys[i].merkleRoot == h || t.keys[i].revokeRoot == Some(h))
  }

  lemma MessageHashesMeans(t: Tables, a: nat, h: string)
    ensures h in MessageHashes(t, a) <==> Records(t, a, h)
  {
  }

  // ---------- Statements ----------

  function GetOrCreateActor(t: Tables, name: string): (Tables, nat) {
    match ActorId(t, name)
    case Some(a) => (t, a)
    case None =>
      (t.(actors := t.actors + [ActorRow(t.nextActor, name, false)], nextActor := t.nextActor + 1),
       t.nextActor)
  }

  // UPDATE actors SET actor_id = new WHERE actor_id = old, with the number of rows changed.
  function UpdateActorId(t: Tables, old_: string, new_: string): Result<(Tables, nat), Error> {
    var i := ActorIndex(t.actors, old_);
    if i == |t.actors| then Success((t, 0))
    else if new_ != old_ && ActorId(t, new_).Some? then Failure(UniqueViolation)
    else Success((t.(actors := t.actors[i := t.actors[i].(actorId := new_)]), 1))
  }

  function SetFireproof(t: Tables, name: string, on: bool): Result<Tables, Error> {
    var i := ActorIndex(t.actors, name);
    if i == |t.actors| then Failure(ActorNotFound)
    else Success(t.(actors := t.actors[i := t.actors[i].(isFireproof := on)]))
  }

  predicate ActorRowExists(t: Tables, a: nat) {
    exists r | r in t.actors :: r.id == a
  }

  function InsertPublicKey(t: Tables, a: nat, keyId: string, publicKey: string, root: string)
    : Result<Tables, Error>
  {
    if !ActorRowExists(t, a) then Failure(ForeignKeyViolation)
    else if exists k | k in t.keys :: k.keyId == keyId then Failure(UniqueViolation)
    else Success(t.(keys := t.keys + [KeyRow(t.nextKey, a, keyId, publicKey, root, None, None)],
                    nextKey := t.nextKey + 1))
  }

  predicate Revocable(t: Tables, a: nat, publicKey: string, i: nat) {
    i < |t.keys| && LiveOf(t.keys[i], a) && t.keys[i].publicKey == publicKey
  }

  // The first row from `i` on that FindKeyToRevoke may return.
  function FirstRevocable(t: Tables, a: nat, publicKey: string, i: nat): (r: Option<nat>)
    requires i <= |t.keys|
    ensures r.Some? ==> Revocable(t, a, publicKey, r.value)
    ensures r.None? ==> forall j | i <= j < |t.keys| :: !Revocable(t, a, publicKey, j)
    decreases |t.keys| - i
  {
    if i == |t.keys| then None
    else if Revocable(t, a, publicKey, i) then Some(i)
    else FirstRevocable(t, a, publicKey, i + 1)
  }

  // The query has no ORDER BY: the database may return any matching row. `pick` is its choice,
  // replaced by the first match when it does not match.
  function FindKeyToRevoke(t: Tables, name: string, publicKey: string, pick: nat): (r: Option<nat>)
    ensures r.Some? ==> ActorId(t, name).Some? && Revocable(t, ActorId(t, name).value, publicKey, r.value)
    ensures r.None? && ActorId(t, name).Some? ==>
              forall i: nat | i < |t.keys| :: !Revocable(t, ActorId(t, name).value, publicKey, i)
  {
    match ActorId(t, name)
    case None => None
    case Some(a) =>
      if Revocable(t, a, publicKey, pick) then Some(pick) else FirstRevocable(t, a, publicKey, 0)
  }

  function MarkKey(k: KeyRow, root: string, now: nat): KeyRow {
    k.(revokedAt := Some(now), revokeRoot := Some(root))
  }

  function MarkAux(x: AuxRow, root: string, now: nat): AuxRow {
    x.(revokedAt := Some(now), revokeRoot := Some(root))
  }

  // UPDATE public_keys SET revoked_at, revoke_root WHERE id = ?: no test of revoked_at.
  function RevokeKeyById(t: Tables, id: nat, root: string, now: nat): Tables {
    t.(keys := seq(|t.keys|, i requires 0 <= i < |t.keys| =>
                     if t.keys[i].id == id then MarkKey(t.keys[i], root, now) else t.keys[i]))
  }

  // UPDATE public_keys ... WHERE actor_id = ? AND revoked_at IS NULL
  function RevokeAllKeysForActor(t: Tables, a: nat, root: string, now: nat): Tables {
    t.(keys := seq(|t.keys|, i requires 0 <= i < |t.keys| =>
                     if LiveOf(t.keys[i], a) then MarkKey(t.keys[i], root, now) else t.keys[i]))
  }

  function InsertAuxData(t: Tables, a: nat, auxId: string, auxType: string, auxData: string, root: string)
    : Result<Tables, Error>
  {
    if !ActorRowExists(t, a) then Failure(ForeignKeyViolation)
    else if exists x | x in t.aux :: x.auxId == auxId then Failure(UniqueViolation)
    else Success(t.(aux := t.aux + [AuxRow(t.nextAux, a, auxId, auxType, auxData, root, None, None)],
                    nextAux := t.nextAux + 1))
  }

  // Position of the live aux row with this aux_id owned by actor `a`, or the row count.
  function AuxIndex(aux: seq<AuxRow>, a: nat, auxId: string): (i: nat)
    ensures i <= |aux|
    ensures i < |aux| ==> aux[i].actor == a && aux[i].auxId == auxId && aux[i].revokedAt.None?
    ensures forall j | 0 <= j < i :: !(aux[j].actor == a && aux[j].auxId == auxId && aux[j].revokedAt.None?)
  {
    if aux == [] then 0
    else if aux[0].actor == a && aux[0].auxId == auxId && aux[0].revokedAt.None? then 0
    else 1 + AuxIndex(aux[1..], a, auxId)
  }

  // Revokes the one live row with this aux_id if the named actor owns it; the row count is 0 or 1.
  function RevokeAuxData(t: Tables, name: string, auxId: string, root: string, now: nat): (Tables, nat) {
    match ActorId(t, name)
    case None => (t, 0)
    case Some(a) =>
      var i := AuxIndex(t.aux, a, auxId);
      if i == |t.aux| then (t, 0)
      else (t.(aux := t.aux[i := MarkAux(t.aux[i], root, now)]), 1)
  }

  // One INSERT per attribute, all under the same message hash.
  function StoreSymmetricKeys(t: Tables, hash: string, keys: map<string, Bytes>): Result<Tables, Error> {
    if exists attribute | attribute in keys :: (hash, attribute) in t.symmetricKeys then Failure(UniqueViolation)
    else Success(t.(symmetricKeys := t.symmetricKeys + Disclosed(hash, keys)))
  }

  function Disclosed(hash: string, keys: map<string, Bytes>): (m: map<(string, string), Bytes>)
    ensures forall p :: p in m <==> p.0 == hash && p.1 in keys
    ensures forall p | p in m :: m[p] == keys[p.1]
  {
    map attribute | attribute in keys :: (hash, attribute) := keys[attribute]
  }

  function DeleteSymmetricKeys(t: Tables, hashes: set<string>): Tables {
    t.(symmetricKeys := map p | p in t.symmetricKeys && p.0 !in hashes :: t.symmetricKeys[p])
  }
}
