// The directory as its users see it: a map from actor name to profile. The tables, joined by
// numeric ids, refine it.
module Directory {
  import opened Wrappers
  import opened Tables
  import opened Transactions

  datatype Key = Key(keyId: string, publicKey: string, merkleRoot: string,
                     revokedAt: Option<nat>, revokeRoot: Option<string>)

  datatype Aux = Aux(auxId: string, auxType: string, auxData: string, merkleRoot: string,
                     revokedAt: Option<nat>, revokeRoot: Option<string>)

  datatype Profile = Profile(fireproof: bool, keys: seq<Key>, aux: seq<Aux>)

  datatype Directory = Directory(profiles: map<string, Profile>, symmetricKeys: map<(string, string), Bytes>)

  const NEW_PROFILE := Profile(false, [], [])

  // ---------- The abstract operations ----------

  function ProfileOrNew(d: Directory, actor: string): Profile {
    if actor in d.profiles then d.profiles[actor] else NEW_PROFILE
  }

  predicate KeyIdTaken(d: Directory, keyId: string) {
    exists n | n in d.profiles :: exists k | k in d.profiles[n].keys :: k.keyId == keyId
  }

  predicate AuxIdTaken(d: Directory, auxId: string) {
    exists n | n in d.profiles :: exists x | x in d.profiles[n].aux :: x.auxId == auxId
  }

  function Disclose(d: Directory, hash: string, keys: map<string, Bytes>): Option<Directory> {
    if exists attribute | attribute in keys :: (hash, attribute) in d.symmetricKeys then None
    else Some(d.(symmetricKeys := d.symmetricKeys + Disclosed(hash, keys)))
  }

  function AddKeyTo(d: Directory, actor: string, publicKey: string, root: string, keyId: string,
                    disclosed: map<string, Bytes>): Option<Directory>
  {
    if KeyIdTaken(d, keyId) then None
    else
      var p := ProfileOrNew(d, actor);
      var p' := p.(keys := p.keys + [Key(keyId, publicKey, root, None, None)]);
      Disclose(d.(profiles := d.profiles[actor := p']), root, disclosed)
  }

  predicate RevocableIn(p: Profile, publicKey: string, j: nat) {
    j < |p.keys| && p.keys[j].publicKey == publicKey && p.keys[j].revokedAt.None?
  }

  // `j` is the position, within the profile, of the key the database chooses to retire.
  function RevokeKeyOf(d: Directory, actor: string, publicKey: string, root: string,
                       disclosed: map<string, Bytes>, now: nat, j: nat): Option<Directory>
  {
    if actor !in d.profiles || !RevocableIn(d.profiles[actor], publicKey, j) then None
    else
      var p := d.profiles[actor];
      var k' := p.keys[j].(revokedAt := Some(now), revokeRoot := Some(root));
      Disclose(d.(profiles := d.profiles[actor := p.(keys := p.keys[j := k'])]), root, disclosed)
  }

  // MoveIdentity is a key rename of the map.
  function Rename(d: Directory, oldActor: string, newActor: string): Option<Directory> {
    if newActor in d.profiles || oldActor !in d.profiles then None
    else Some(d.(profiles := (d.profiles - {oldActor})[newActor := d.profiles[oldActor]]))
  }

  function Roots(keys: seq<Key>): set<string> {
    (set k | k in keys :: k.merkleRoot) + (set k | k in keys && k.revokeRoot.Some? :: k.revokeRoot.value)
  }

  function Retired(keys: seq<Key>, root: string, now: nat): seq<Key> {
    seq(|keys|, i requires 0 <= i < |keys| =>
      if keys[i].revokedAt.None? then keys[i].(revokedAt := Some(now), revokeRoot := Some(root)) else keys[i])
  }

  function Burn(d: Directory, actor: string, root: string, now: nat): Option<Directory> {
    if actor !in d.profiles then None
    else
      var p := d.profiles[actor];
      Some(Directory(
        d.profiles[actor := p.(keys := Retired(p.keys, root, now))],
        map q | q in d.symmetricKeys && q.0 !in Roots(p.keys) :: d.symmetricKeys[q]))
  }

  function SetFireproofOf(d: Directory, actor: string, on: bool): Option<Directory> {
    if actor !in d.profiles then None
    else Some(d.(profiles := d.profiles[actor := d.profiles[actor].(fireproof := on)]))
  }

  function AddAuxTo(d: Directory, actor: string, auxType: string, auxData: string, root: string,
                    auxId: string): Option<Directory>
  {
    if AuxIdTaken(d, auxId) then None
    else
      var p := ProfileOrNew(d, actor);
      var p' := p.(aux := p.aux + [Aux(auxId, auxType, auxData, root, None, None)]);
      Some(d.(profiles := d.profiles[actor := p']))
  }

  predicate AuxRevocableIn(p: Profile, auxId: string, j: nat) {
    j < |p.aux| && p.aux[j].auxId == auxId && p.aux[j].revokedAt.None?
  }

  ghost predicate RevokesAuxOf(d: Directory, actor: string, auxId: string, root: string, now: nat, d': Directory) {
    && actor in d.profiles
    && exists j: nat :: AuxRevocableIn(d.profiles[actor], auxId, j)
         && var p := d.profiles[actor];
            var x' := p.aux[j].(revokedAt := Some(now), revokeRoot := Some(root));
            d' == d.(profiles := d.profiles[actor := p.(aux := p.aux[j := x'])])
  }

  // ---------- The abstraction ----------

  function KeyOf(k: KeyRow): Key {
    Key(k.keyId, k.publicKey, k.merkleRoot, k.revokedAt, k.revokeRoot)
  }

  function AuxOf(x: AuxRow): Aux {
    Aux(x.auxId, x.auxType, x.auxData, x.merkleRoot, x.revokedAt, x.revokeRoot)
  }

  function KeysOf(keys: seq<KeyRow>, a: nat): seq<Key> {
    if keys == [] then []
    else
      var n := |keys| - 1;
      KeysOf(keys[..n], a) + if keys[n].actor == a then [KeyOf(keys[n])] else []
  }

  function AuxsOf(aux: seq<AuxRow>, a: nat): seq<Aux> {
    if aux == [] then []
    else
      var n := |aux| - 1;
      AuxsOf(aux[..n], a) + if aux[n].actor == a then [AuxOf(aux[n])] else []
  }

  function Names(t: Tables): set<string> {
    set r | r in t.actors :: r.actorId
  }

  function ProfileOf(t: Tables, r: ActorRow): Profile {
    Profile(r.isFireproof, KeysOf(t.keys, r.id), AuxsOf(t.aux, r.id))
  }

  function Lookup(t: Tables, name: string): Option<Profile> {
    var i := ActorIndex(t.actors, name);
    if i == |t.actors| then None else Some(ProfileOf(t, t.actors[i]))
  }

  function Profiles(t: Tables): map<string, Profile> {
    map n | n in Names(t) && Lookup(t, n).Some? :: Lookup(t, n).value
  }

  lemma ProfilesMean(t: Tables, name: string)
    ensures name in Profiles(t) <==> Lookup(t, name).Some?
    ensures name in Profiles(t) ==> Lookup(t, name) == Some(Profiles(t)[name])
    ensures name in Profiles(t) <==> ActorId(t, name).Some?
  {
  }

  function Abs(t: Tables): Directory {
    Directory(Profiles(t), t.symmetricKeys)
  }

  // ---------- Rows and profile positions ----------

  lemma {:induction false} ForeignRowsInvisible(keys: seq<KeyRow>, a: nat)
    requires forall i | 0 <= i < |keys| :: keys[i].actor != a
    ensures KeysOf(keys, a) == []
  {
    if keys != [] {
      ForeignRowsInvisible(keys[..|keys| - 1], a);
    }
  }

  lemma {:induction false} ForeignAuxInvisible(aux: seq<AuxRow>, a: nat)
    requires forall i | 0 <= i < |aux| :: aux[i].actor != a
    ensures AuxsOf(aux, a) == []
  {
    if aux != [] {
      ForeignAuxInvisible(aux[..|aux| - 1], a);
    }
  }

  // Row `i` sits in its owner's profile after the owner's earlier rows.
  lemma {:induction false} KeyPosition(keys: seq<KeyRow>, i: nat, k': KeyRow, a: nat)
    requires i < |keys| && k'.actor == keys[i].actor
    ensures keys[i].actor != a ==> KeysOf(keys[i := k'], a) == KeysOf(keys, a)
    ensures keys[i].actor == a ==>
              var j := |KeysOf(keys[..i], a)|;
              && j < |KeysOf(keys, a)| && KeysOf(keys, a)[j] == KeyOf(keys[i])
              && KeysOf(keys[i := k'], a) == KeysOf(keys, a)[j := KeyOf(k')]
  {
    var n := |keys| - 1;
    if i < n {
      KeyPosition(keys[..n], i, k', a);
      assert keys[i := k'][..n] == keys[..n][i := k'];
      assert keys[..n][..i] == keys[..i];
    } else {
      assert keys[i := k'][..n] == keys[..n];
    }
  }

  lemma {:induction false} AuxPosition(aux: seq<AuxRow>, i: nat, x': AuxRow, a: nat)
    requires i < |aux| && x'.actor == aux[i].actor
    ensures aux[i].actor != a ==> AuxsOf(aux[i := x'], a) == AuxsOf(aux, a)
    ensures aux[i].actor == a ==>
              var j := |AuxsOf(aux[..i], a)|;
              && j < |AuxsOf(aux, a)| && AuxsOf(aux, a)[j] == AuxOf(aux[i])
              && AuxsOf(aux[i := x'], a) == AuxsOf(aux, a)[j := AuxOf(x')]
  {
    var n := |aux| - 1;
    if i < n {
      AuxPosition(aux[..n], i, x', a);
      assert aux[i := x'][..n] == aux[..n][i := x'];
      assert aux[..n][..i] == aux[..i];
    } else {
      assert aux[i := x'][..n] == aux[..n];
    }
  }

  // A profile holds exactly the owner's rows.
  lemma {:induction false} KeysOfMember(keys: seq<KeyRow>, a: nat, k: Key)
    ensures k in KeysOf(keys, a) <==> exists i :: 0 <= i < |keys| && keys[i].actor == a && KeyOf(keys[i]) == k
  {
    if keys != [] {
      var n := |keys| - 1;
      KeysOfMember(keys[..n], a, k);
      assert forall i | 0 <= i < n :: keys[..n][i] == keys[i];
    }
  }

  lemma {:induction false} AuxsOfMember(aux: seq<AuxRow>, a: nat, x: Aux)
    ensures x in AuxsOf(aux, a) <==> exists i :: 0 <= i < |aux| && aux[i].actor == a && AuxOf(aux[i]) == x
  {
    if aux != [] {
      var n := |aux| - 1;
      AuxsOfMember(aux[..n], a, x);
      assert forall i | 0 <= i < n :: aux[..n][i] == aux[i];
    }
  }

  // ---------- Reads commute ----------

  function LiveIn(keys: seq<Key>): seq<Key> {
    if keys == [] then []
    else
      var n := |keys| - 1;
      LiveIn(keys[..n]) + if keys[n].revokedAt.None? then [keys[n]] else []
  }

  lemma {:induction false} LiveKeysCommute(keys: seq<KeyRow>, a: nat)
    ensures |LiveKeys(keys, a)| == |LiveIn(KeysOf(keys, a))|
    ensures forall i | 0 <= i < |LiveKeys(keys, a)| :: LiveIn(KeysOf(keys, a))[i] == KeyOf(LiveKeys(keys, a)[i])
  {
    if keys != [] {
      var n := |keys| - 1;
      LiveKeysCommute(keys[..n], a);
      if keys[n].actor == a {
        var ks := KeysOf(keys, a);
        assert ks[..|ks| - 1] == KeysOf(keys[..n], a);
      } else {
        assert KeysOf(keys, a) == KeysOf(keys[..n], a);
      }
    }
  }

  // Listing an actor's keys reads the live keys of its profile, in order; a missing actor has none.
  lemma ListKeysReads(t: Tables, name: string)
    ensures var rows, keys := ListKeysForActor(t, name), LiveIn(ProfileOrNew(Abs(t), name).keys);
            |rows| == |keys| && forall i | 0 <= i < |rows| :: keys[i] == KeyOf(rows[i])
  {
    ProfilesMean(t, name);
    var i := ActorIndex(t.actors, name);
    if i < |t.actors| {
      LiveKeysCommute(t.keys, t.actors[i].id);
    }
  }

  // The hashes gathered for a shredding are the roots of the profile.
  lemma MessageHashesRead(t: Tables, a: nat)
    ensures MessageHashes(t, a) == Roots(KeysOf(t.keys, a))
  {
    forall h ensures h in MessageHashes(t, a) <==> h in Roots(KeysOf(t.keys, a)) {
      if h in MessageHashes(t, a) {
        var k :| k in t.keys && k.actor == a && (k.merkleRoot == h || k.revokeRoot == Some(h));
        KeysOfMember(t.keys, a, KeyOf(k));
      }
      if h in Roots(KeysOf(t.keys, a)) {
        var k :| k in KeysOf(t.keys, a) && (k.merkleRoot == h || k.revokeRoot == Some(h));
        KeysOfMember(t.keys, a, k);
        var i :| 0 <= i < |t.keys| && t.keys[i].actor == a && KeyOf(t.keys[i]) == k;
        assert t.keys[i] in t.keys;
      }
    }
  }

  // A row's owner has a name, and under that name a profile with the row in it.
  lemma OwnerHasProfile(t: Tables, a: nat) returns (n: string)
    requires Valid(t) && IsActor(t, a)
    ensures n in Profiles(t) && Profiles(t)[n].keys == KeysOf(t.keys, a) && Profiles(t)[n].aux == AuxsOf(t.aux, a)
  {
    var j :| 0 <= j < |t.actors| && t.actors[j].id == a;
    n := t.actors[j].actorId;
    ActorIndexIs(t.actors, n, j);
    ProfilesMean(t, n);
  }

  lemma ProfileHasOwner(t: Tables, n: string) returns (a: nat)
    requires n in Profiles(t)
    ensures Profiles(t)[n].keys == KeysOf(t.keys, a) && Profiles(t)[n].aux == AuxsOf(t.aux, a)
  {
    ProfilesMean(t, n);
    a := ActorId(t, n).value;
  }

  lemma KeyIdTakenReads(t: Tables, keyId: string)
    requires Valid(t)
    ensures KeyIdTaken(Abs(t), keyId) <==> exists k | k in t.keys :: k.keyId == keyId
  {
    if exists k | k in t.keys :: k.keyId == keyId {
      var k :| k in t.keys && k.keyId == keyId;
      var i :| 0 <= i < |t.keys| && t.keys[i] == k;
      assert IsActor(t, k.actor);
      var n := OwnerHasProfile(t, k.actor);
      KeysOfMember(t.keys, k.actor, KeyOf(k));
      assert KeyOf(k) in Profiles(t)[n].keys;
    }
    if KeyIdTaken(Abs(t), keyId) {
      var n :| n in Profiles(t) && exists k | k in Profiles(t)[n].keys :: k.keyId == keyId;
      var k :| k in Profiles(t)[n].keys && k.keyId == keyId;
      var a := ProfileHasOwner(t, n);
      KeysOfMember(t.keys, a, k);
      var i :| 0 <= i < |t.keys| && t.keys[i].actor == a && KeyOf(t.keys[i]) == k;
      assert t.keys[i] in t.keys;
    }
  }

  lemma AuxIdTakenReads(t: Tables, auxId: string)
    requires Valid(t)
    ensures AuxIdTaken(Abs(t), auxId) <==> exists x | x in t.aux :: x.auxId == auxId
  {
    if exists x | x in t.aux :: x.auxId == auxId {
      var x :| x in t.aux && x.auxId == auxId;
      var i :| 0 <= i < |t.aux| && t.aux[i] == x;
      assert IsActor(t, x.actor);
      var n := OwnerHasProfile(t, x.actor);
      AuxsOfMember(t.aux, x.actor, AuxOf(x));
      assert AuxOf(x) in Profiles(t)[n].aux;
    }
    if AuxIdTaken(Abs(t), auxId) {
      var n :| n in Profiles(t) && exists x | x in Profiles(t)[n].aux :: x.auxId == auxId;
      var x :| x in Profiles(t)[n].aux && x.auxId == auxId;
      var a := ProfileHasOwner(t, n);
      AuxsOfMember(t.aux, a, x);
      var i :| 0 <= i < |t.aux| && t.aux[i].actor == a && AuxOf(t.aux[i]) == x;
      assert t.aux[i] in t.aux;
    }
  }

  // ---------- Writes commute ----------

  // The concrete result and the abstract one: both fail, or both succeed on matching states.
  predicate Matches(r: Result<Tables, Error>, d: Option<Directory>) {
    d == if r.Success? then Some(Abs(r.value)) else None
  }

  // A map changed at one name, given name by name.
  lemma ProfilesUpdated(t: Tables, t': Tables, name: string, p: Profile)
    requires forall n :: Lookup(t', n) == if n == name then Some(p) else Lookup(t, n)
    ensures Profiles(t') == Profiles(t)[name := p]
  {
    forall n ensures n in Profiles(t') <==> n in Profiles(t)[name := p]
             ensures n in Profiles(t') ==> Profiles(t')[n] == Profiles(t)[name := p][n]
    {
      ProfilesMean(t, n);
      ProfilesMean(t', n);
    }
  }

  // Two names never share an actor row.
  lemma OtherNameOtherId(t: Tables, n: string, m: string)
    requires Valid(t) && ActorId(t, n).Some? && ActorId(t, m).Some? && n != m
    ensures ActorId(t, n) != ActorId(t, m)
  {
  }

  lemma NewActorLookup(t: Tables, name: string, n: string)
    requires Valid(t)
    ensures Lookup(GetOrCreateActor(t, name).0, n)
         == if n == name then Some(ProfileOrNew(Abs(t), name)) else Lookup(t, n)
  {
    ProfilesMean(t, name);
    if ActorId(t, name).None? {
      var r := ActorRow(t.nextActor, name, false);
      if ActorIndex(t.actors, n) < |t.actors| {
        AppendedActorHidden(t.actors, r, n);
      } else {
        AppendedActor(t.actors, r, n);
        NewActorOwnsNothing(t);
      }
    }
  }

  lemma NewActorOwnsNothing(t: Tables)
    requires Valid(t)
    ensures KeysOf(t.keys, t.nextActor) == [] && AuxsOf(t.aux, t.nextActor) == []
  {
    forall i | 0 <= i < |t.keys| ensures t.keys[i].actor != t.nextActor {
      assert IsActor(t, t.keys[i].actor);
    }
    forall i | 0 <= i < |t.aux| ensures t.aux[i].actor != t.nextActor {
      assert IsActor(t, t.aux[i].actor);
    }
    ForeignRowsInvisible(t.keys, t.nextActor);
    ForeignAuxInvisible(t.aux, t.nextActor);
  }

  lemma AppendedKeyLookup(t: Tables, t': Tables, name: string, k: KeyRow, n: string)
    requires Valid(t) && ActorId(t, name) == Some(k.actor)
    requires t'.actors == t.actors && t'.aux == t.aux && t'.keys == t.keys + [k]
    ensures var p := Lookup(t, name).value;
            Lookup(t', n) == if n == name then Some(p.(keys := p.keys + [KeyOf(k)])) else Lookup(t, n)
  {
    assert t'.keys[..|t.keys|] == t.keys;
    if n != name && ActorId(t, n).Some? {
      OtherNameOtherId(t, n, name);
      var b := ActorId(t, n).value;
      assert KeysOf(t'.keys, b) == KeysOf(t.keys, b);
    }
  }

  lemma DiscloseRefines(t: Tables, root: string, disclosed: map<string, Bytes>)
    ensures Matches(if |disclosed| == 0 then Success(t) else StoreSymmetricKeys(t, root, disclosed),
                    Disclose(Abs(t), root, disclosed))
  {
    if |disclosed| == 0 {
      assert disclosed == map[];
      assert t.symmetricKeys + Disclosed(root, disclosed) == t.symmetricKeys;
    } else if StoreSymmetricKeys(t, root, disclosed).Success? {
      SameProfiles(t, StoreSymmetricKeys(t, root, disclosed).value);
    }
  }

  lemma SameProfiles(t: Tables, t': Tables)
    requires t'.actors == t.actors && t'.keys == t.keys && t'.aux == t.aux
    ensures Profiles(t') == Profiles(t)
  {
  }

  lemma AddKeyRefines(t: Tables, actor: string, publicKey: string, root: string, keyId: string,
                      disclosed: map<string, Bytes>)
    requires Valid(t)
    ensures Matches(AddKeyTx(t, actor, publicKey, root, keyId, disclosed),
                    AddKeyTo(Abs(t), actor, publicKey, root, keyId, disclosed))
  {
    var (t1, a) := GetOrCreateActor(t, actor);
    GetOrCreateActorKeeps(t, actor);
    KeyIdTakenReads(t, keyId);
    ActorRowExistsMeans(t1, a);
    if !KeyIdTaken(Abs(t), keyId) {
      var t2 := InsertPublicKey(t1, a, keyId, publicKey, root).value;
      var p := ProfileOrNew(Abs(t), actor);
      var p' := p.(keys := p.keys + [Key(keyId, publicKey, root, None, None)]);
      forall n ensures Lookup(t2, n) == if n == actor then Some(p') else Lookup(t, n) {
        NewActorLookup(t, actor, n);
        NewActorLookup(t, actor, actor);
        AppendedKeyLookup(t1, t2, actor, t2.keys[|t1.keys|], n);
      }
      ProfilesUpdated(t, t2, actor, p');
      DiscloseRefines(t2, root, disclosed);
    }
  }

  lemma MarkedKeyLookup(t: Tables, t': Tables, name: string, i: nat, k': KeyRow, n: string)
    requires Valid(t) && i < |t.keys| && k'.actor == t.keys[i].actor && ActorId(t, name) == Some(k'.actor)
    requires t'.actors == t.actors && t'.aux == t.aux && t'.keys == t.keys[i := k']
    ensures var p, j := Lookup(t, name).value, |KeysOf(t.keys[..i], k'.actor)|;
            && j < |p.keys| && p.keys[j] == KeyOf(t.keys[i])
            && Lookup(t', n) == if n == name then Some(p.(keys := p.keys[j := KeyOf(k')])) else Lookup(t, n)
  {
    KeyPosition(t.keys, i, k', k'.actor);
    if n != name && ActorId(t, n).Some? {
      OtherNameOtherId(t, n, name);
      KeyPosition(t.keys, i, k', ActorId(t, n).value);
    }
  }

  lemma RevocableRefines(t: Tables, actor: string, publicKey: string, j: nat)
    requires actor in Profiles(t) && RevocableIn(Profiles(t)[actor], publicKey, j)
    ensures ActorId(t, actor).Some? && exists i: nat :: Revocable(t, ActorId(t, actor).value, publicKey, i)
  {
    ProfilesMean(t, actor);
    var a := ActorId(t, actor).value;
    KeysOfMember(t.keys, a, Profiles(t)[actor].keys[j]);
    var i: nat :| i < |t.keys| && t.keys[i].actor == a && KeyOf(t.keys[i]) == Profiles(t)[actor].keys[j];
    assert Revocable(t, a, publicKey, i);
  }

  // Retiring row `i` retires the key at its position in the owner's profile.
  lemma RetireRefines(t: Tables, actor: string, publicKey: string, root: string, now: nat, i: nat) returns (j: nat)
    requires Valid(t) && ActorId(t, actor).Some? && Revocable(t, ActorId(t, actor).value, publicKey, i)
    ensures actor in Profiles(t) && RevocableIn(Profiles(t)[actor], publicKey, j)
    ensures var p := Profiles(t)[actor];
            var k' := p.keys[j].(revokedAt := Some(now), revokeRoot := Some(root));
            Abs(RevokeKeyById(t, t.keys[i].id, root, now))
            == Abs(t).(profiles := Profiles(t)[actor := p.(keys := p.keys[j := k'])])
  {
    RevokeKeyRow(t, i, root, now);
    ProfilesMean(t, actor);
    var k', t' := MarkKey(t.keys[i], root, now), RevokeKeyById(t, t.keys[i].id, root, now);
    var p := Profiles(t)[actor];
    j := |KeysOf(t.keys[..i], k'.actor)|;
    MarkedKeyLookup(t, t', actor, i, k', actor);
    forall n ensures Lookup(t', n) == if n == actor then Some(p.(keys := p.keys[j := KeyOf(k')])) else Lookup(t, n) {
      MarkedKeyLookup(t, t', actor, i, k', n);
    }
    ProfilesUpdated(t, t', actor, p.(keys := p.keys[j := KeyOf(k')]));
  }

  // RevokeKey retires one matching key of the profile, whichever the database picks, and fails
  // when the profile has none.
  lemma RevokeKeyRefines(t: Tables, actor: string, publicKey: string, root: string,
                         disclosed: map<string, Bytes>, now: nat, pick: nat)
    requires Valid(t)
    ensures var r := RevokeKeyTx(t, actor, publicKey, root, disclosed, now, pick);
            && (r.Success? ==> exists j: nat ::
                  RevokeKeyOf(Abs(t), actor, publicKey, root, disclosed, now, j) == Some(Abs(r.value)))
            && (r.Failure? ==> forall j: nat ::
                  RevokeKeyOf(Abs(t), actor, publicKey, root, disclosed, now, j) == None)
  {
    match FindKeyToRevoke(t, actor, publicKey, pick)
    case None =>
      forall j: nat ensures RevokeKeyOf(Abs(t), actor, publicKey, root, disclosed, now, j) == None {
        if actor in Profiles(t) && RevocableIn(Profiles(t)[actor], publicKey, j) {
          RevocableRefines(t, actor, publicKey, j);
        }
      }
    case Some(i) =>
      var t1 := RevokeKeyById(t, t.keys[i].id, root, now);
      var j := RetireRefines(t, actor, publicKey, root, now, i);
      DiscloseRefines(t1, root, disclosed);
      assert RevokeKeyOf(Abs(t), actor, publicKey, root, disclosed, now, j) == Disclose(Abs(t1), root, disclosed);
  }

  lemma RenamedLookup(t: Tables, oldActor: string, newActor: string, n: string)
    requires Valid(t) && MoveIdentityTx(t, oldActor, newActor).Success?
    ensures Lookup(MoveIdentityTx(t, oldActor, newActor).value, n)
         == if n == newActor then Lookup(t, oldActor) else if n == oldActor then None else Lookup(t, n)
  {
    var t', i := MoveIdentityTx(t, oldActor, newActor).value, ActorIndex(t.actors, oldActor);
    if n == newActor {
      ActorIndexIs(t'.actors, newActor, i);
    } else if n == oldActor {
      ActorIndexIs(t'.actors, oldActor, |t.actors|);
    } else {
      var k := ActorIndex(t.actors, n);
      assert k < |t.actors| ==> t'.actors[k] == t.actors[k];
      ActorIndexIs(t'.actors, n, k);
    }
  }

  // MoveIdentity is exactly a key rename of the map: it fails when the target exists or the
  // source is absent, and otherwise moves the profile and touches no other.
  lemma MoveIdentityRefines(t: Tables, oldActor: string, newActor: string)
    requires Valid(t)
    ensures Matches(MoveIdentityTx(t, oldActor, newActor), Rename(Abs(t), oldActor, newActor))
  {
    var r := MoveIdentityTx(t, oldActor, newActor);
    ProfilesMean(t, oldActor);
    ProfilesMean(t, newActor);
    if r.Success? {
      forall n ensures Lookup(r.value, n)
                       == if n == newActor then Lookup(t, oldActor) else if n == oldActor then None else Lookup(t, n)
      {
        RenamedLookup(t, oldActor, newActor, n);
      }
      ProfilesRenamed(t, r.value, oldActor, newActor);
    }
  }

  lemma ProfilesRenamed(t: Tables, t': Tables, oldActor: string, newActor: string)
    requires oldActor in Profiles(t)
    requires forall n :: Lookup(t', n)
               == if n == newActor then Lookup(t, oldActor) else if n == oldActor then None else Lookup(t, n)
    ensures Profiles(t') == (Profiles(t) - {oldActor})[newActor := Profiles(t)[oldActor]]
  {
    ProfilesMean(t, oldActor);
    var m := (Profiles(t) - {oldActor})[newActor := Profiles(t)[oldActor]];
    forall n ensures n in Profiles(t') <==> n in m
             ensures n in Profiles(t') ==> Profiles(t')[n] == m[n]
    {
      ProfilesMean(t, n);
      ProfilesMean(t', n);
    }
  }

  lemma {:induction false} RetiredRows(keys: seq<KeyRow>, keys': seq<KeyRow>, a: nat, b: nat, root: string, now: nat)
    requires |keys'| == |keys|
    requires forall i | 0 <= i < |keys| ::
               keys'[i] == if LiveOf(keys[i], a) then MarkKey(keys[i], root, now) else keys[i]
    ensures KeysOf(keys', b) == if b == a then Retired(KeysOf(keys, b), root, now) else KeysOf(keys, b)
  {
    if keys != [] {
      var n := |keys| - 1;
      RetiredRows(keys[..n], keys'[..n], a, b, root, now);
    }
  }

  lemma BurntLookup(t: Tables, actor: string, root: string, now: nat, n: string)
    requires Valid(t) && BurnDownTx(t, actor, root, now).Success?
    ensures ActorId(t, actor).Some?
    ensures var p := Lookup(t, actor).value;
            Lookup(BurnDownTx(t, actor, root, now).value, n)
            == if n == actor then Some(p.(keys := Retired(p.keys, root, now))) else Lookup(t, n)
  {
    BurnDownTxEffect(t, actor, root, now);
    var a, t' := ActorId(t, actor).value, BurnDownTx(t, actor, root, now).value;
    if ActorId(t, n).Some? {
      RetiredRows(t.keys, t'.keys, a, ActorId(t, n).value, root, now);
      if n != actor {
        OtherNameOtherId(t, n, actor);
      }
    }
  }

  lemma BurnDownRefines(t: Tables, actor: string, root: string, now: nat)
    requires Valid(t)
    ensures Matches(BurnDownTx(t, actor, root, now), Burn(Abs(t), actor, root, now))
  {
    ProfilesMean(t, actor);
    if actor in Profiles(t) {
      var t', p := BurnDownTx(t, actor, root, now).value, Profiles(t)[actor];
      var p' := p.(keys := Retired(p.keys, root, now));
      forall n ensures Lookup(t', n) == if n == actor then Some(p') else Lookup(t, n) {
        BurntLookup(t, actor, root, now, n);
      }
      ProfilesUpdated(t, t', actor, p');
      MessageHashesRead(t, ActorId(t, actor).value);
      assert p.keys == KeysOf(t.keys, ActorId(t, actor).value);
    }
  }

  lemma FireproofLookup(t: Tables, actor: string, on: bool, n: string)
    requires SetFireproof(t, actor, on).Success?
    ensures ActorId(t, actor).Some?
    ensures Lookup(SetFireproof(t, actor, on).value, n)
         == if n == actor then Some(Lookup(t, actor).value.(fireproof := on)) else Lookup(t, n)
  {
    var t' := SetFireproof(t, actor, on).value;
    ActorIndexIs(t'.actors, n, ActorIndex(t.actors, n));
  }

  lemma SetFireproofRefines(t: Tables, actor: string, on: bool)
    requires Valid(t)
    ensures Matches(SetFireproof(t, actor, on), SetFireproofOf(Abs(t), actor, on))
  {
    ProfilesMean(t, actor);
    if actor in Profiles(t) {
      var t', p' := SetFireproof(t, actor, on).value, Profiles(t)[actor].(fireproof := on);
      forall n ensures Lookup(t', n) == if n == actor then Some(p') else Lookup(t, n) {
        FireproofLookup(t, actor, on, n);
      }
      ProfilesUpdated(t, t', actor, p');
    }
  }

  lemma AppendedAuxLookup(t: Tables, t': Tables, name: string, x: AuxRow, n: string)
    requires Valid(t) && ActorId(t, name) == Some(x.actor)
    requires t'.actors == t.actors && t'.keys == t.keys && t'.aux == t.aux + [x]
    ensures var p := Lookup(t, name).value;
            Lookup(t', n) == if n == name then Some(p.(aux := p.aux + [AuxOf(x)])) else Lookup(t, n)
  {
    assert t'.aux[..|t.aux|] == t.aux;
    if n != name && ActorId(t, n).Some? {
      OtherNameOtherId(t, n, name);
      var b := ActorId(t, n).value;
      assert AuxsOf(t'.aux, b) == AuxsOf(t.aux, b);
    }
  }

  lemma AddAuxDataRefines(t: Tables, actor: string, auxType: string, auxData: string, root: string, auxId: string)
    requires Valid(t)
    ensures Matches(AddAuxDataTx(t, actor, auxType, auxData, root, auxId),
                    AddAuxTo(Abs(t), actor, auxType, auxData, root, auxId))
  {
    var (t1, a) := GetOrCreateActor(t, actor);
    GetOrCreateActorKeeps(t, actor);
    AuxIdTakenReads(t, auxId);
    ActorRowExistsMeans(t1, a);
    if !AuxIdTaken(Abs(t), auxId) {
      var t2 := InsertAuxData(t1, a, auxId, auxType, auxData, root).value;
      var p := ProfileOrNew(Abs(t), actor);
      var p' := p.(aux := p.aux + [Aux(auxId, auxType, auxData, root, None, None)]);
      forall n ensures Lookup(t2, n) == if n == actor then Some(p') else Lookup(t, n) {
        NewActorLookup(t, actor, n);
        NewActorLookup(t, actor, actor);
        AppendedAuxLookup(t1, t2, actor, t2.aux[|t1.aux|], n);
      }
      ProfilesUpdated(t, t2, actor, p');
    }
  }

  lemma MarkedAuxLookup(t: Tables, t': Tables, name: string, i: nat, x': AuxRow, n: string)
    requires Valid(t) && i < |t.aux| && x'.actor == t.aux[i].actor && ActorId(t, name) == Some(x'.actor)
    requires t'.actors == t.actors && t'.keys == t.keys && t'.aux == t.aux[i := x']
    ensures var p, j := Lookup(t, name).value, |AuxsOf(t.aux[..i], x'.actor)|;
            && j < |p.aux| && p.aux[j] == AuxOf(t.aux[i])
            && Lookup(t', n) == if n == name then Some(p.(aux := p.aux[j := AuxOf(x')])) else Lookup(t, n)
  {
    AuxPosition(t.aux, i, x', x'.actor);
    if n != name && ActorId(t, n).Some? {
      OtherNameOtherId(t, n, name);
      AuxPosition(t.aux, i, x', ActorId(t, n).value);
    }
  }

  // RevokeAuxData retires one live record with this identifier in the actor's own profile, and
  // fails exactly when there is none.
  lemma RevokeAuxDataRefines(t: Tables, actor: string, auxId: string, root: string, now: nat)
    requires Valid(t)
    ensures var r := RevokeAuxDataTx(t, actor, auxId, root, now);
            && (r.Success? ==> RevokesAuxOf(Abs(t), actor, auxId, root, now, Abs(r.value)))
            && (r.Failure? ==> forall j: nat ::
                  !(actor in Profiles(t) && AuxRevocableIn(Profiles(t)[actor], auxId, j)))
  {
    ProfilesMean(t, actor);
    var r := RevokeAuxDataTx(t, actor, auxId, root, now);
    if r.Success? {
      var a, t', p := ActorId(t, actor).value, r.value, Profiles(t)[actor];
      var i := AuxIndex(t.aux, a, auxId);
      var x', j := MarkAux(t.aux[i], root, now), |AuxsOf(t.aux[..i], a)|;
      MarkedAuxLookup(t, t', actor, i, x', actor);
      forall n ensures Lookup(t', n) == if n == actor then Some(p.(aux := p.aux[j := AuxOf(x')])) else Lookup(t, n) {
        MarkedAuxLookup(t, t', actor, i, x', n);
      }
      ProfilesUpdated(t, t', actor, p.(aux := p.aux[j := AuxOf(x')]));
      assert AuxRevocableIn(p, auxId, j);
    } else {
      forall j: nat ensures !(actor in Profiles(t) && AuxRevocableIn(Profiles(t)[actor], auxId, j)) {
        if actor in Profiles(t) && AuxRevocableIn(Profiles(t)[actor], auxId, j) {
          AuxsOfMember(t.aux, ActorId(t, actor).value, Profiles(t)[actor].aux[j]);
        }
      }
    }
  }
}
