// What handling requests one at a time buys: with steps interleaved an actor can lose its last key
// to RevokeKey, and an epoch can get two self-signed roots.
module Races {
  import opened Wrappers
  import opened Protocol
  import opened Signing
  import opened Tables
  import opened Transactions
  import opened Actions
  import opened Interleaved
  import LockOut
  import Base64Url

  // At the moment of the transaction a RevokeKey empties its actor exactly when one key is live.
  // The check made earlier, outside the transaction, cannot rule that out.
  lemma RevokeKeyEmptiesIff(t: Tables, actor: string, publicKey: string, root: string,
                            disclosed: map<string, Bytes>, now: nat, pick: nat)
    requires Valid(t) && RevokeKeyTx(t, actor, publicKey, root, disclosed, now, pick).Success?
    ensures ActorId(t, actor).Some?
    ensures var a := ActorId(t, actor).value;
            !HasLive(RevokeKeyTx(t, actor, publicKey, root, disclosed, now, pick).value, a)
            <==> |LiveKeys(t.keys, a)| == 1
  {
    RevokeKeyTxEffect(t, actor, publicKey, root, disclosed, now, pick);
    var a, i := ActorId(t, actor).value, FindKeyToRevoke(t, actor, publicKey, pick).value;
    LockOut.LiveKeysAfterUpdate(t.keys, i, MarkKey(t.keys[i], root, now), a);
    HasLiveMeans(RevokeKeyTx(t, actor, publicKey, root, disclosed, now, pick).value, a);
  }

  // ---------- A run ----------

  // Any two keys with different first octets will do.
  predicate Distinct(pk1: PublicKey, pk2: PublicKey) {
    pk1[0] != pk2[0]
  }

  function Msg(action: string, body: string): ProtocolMessage {
    ProtocolMessage(PKD_CONTEXT_V1, action, "", body, "", "", map[], "")
  }

  const ADD1 := Msg("AddKey", "1")
  const ADD2 := Msg("AddKey", "2")
  const REVOKE1 := Msg("RevokeKey", "3")
  const REVOKE2 := Msg("RevokeKey", "4")
  const ADD3 := Msg("AddKey", "5")

  const GARBAGE := "garbage"

  function Parse(body: string, k1: string, k2: string): Option<Payload> {
    if body == "1" then Some(AddKey("alice", k1))
    else if body == "2" then Some(AddKey("alice", k2))
    else if body == "3" then Some(RevokeKey("alice", k1))
    else if body == "4" then Some(RevokeKey("alice", k2))
    else if body == "5" then Some(AddKey("alice", GARBAGE))
    else None
  }

  // Each key signs its own AddKey and the revocation of the other key; the first also signs an
  // AddKey of a text that is no key.
  function SignerOf(body: string, pk1: PublicKey, pk2: PublicKey): PublicKey {
    if body == "1" || body == "4" || body == "5" then pk1 else pk2
  }

  function TwoKeys(pk1: PublicKey, pk2: PublicKey): Env {
    Env((action: string, body: string) => Parse(body, EncodePublicKey(pk1), EncodePublicKey(pk2)),
        (m: SignedMessage) => Some(SignerOf(m.message, pk1, pk2)),
        (pk: Bytes, m: Bytes, sig: Bytes) => m == pk,
        (auxType: string, auxData: string) => true,
        (operator: string) => NotEnrolled,
        (secret: Bytes, otp: string, now: nat) => true)
  }

  const NO_CHOICE := Oracle("", 0, 0, true)
  const ID1 := NO_CHOICE.(newId := "k1")
  const ID2 := NO_CHOICE.(newId := "k2")

  function Row1(k1: string): KeyRow { KeyRow(1, 1, "k1", k1, "r1", None, None) }
  function Row2(k2: string): KeyRow { KeyRow(2, 1, "k2", k2, "r2", None, None) }
  const ALICE := ActorRow(1, "alice", false)

  function T1(k1: string): Tables { Tables([ALICE], [Row1(k1)], [], map[], 2, 2, 1) }
  function T2(k1: string, k2: string): Tables { Tables([ALICE], [Row1(k1), Row2(k2)], [], map[], 2, 3, 1) }
  function T3(k1: string, k2: string): Tables {
    T2(k1, k2).(keys := [MarkKey(Row1(k1), "r3", 0), Row2(k2)])
  }
  function T4(k1: string, k2: string): Tables {
    T2(k1, k2).(keys := [MarkKey(Row1(k1), "r3", 0), MarkKey(Row2(k2), "r4", 0)])
  }

  lemma WhoSigns(pk1: PublicKey, pk2: PublicKey, msg: ProtocolMessage, pk: PublicKey)
    requires msg.signature == ""
    ensures DecodePublicKey(EncodePublicKey(pk)) == Some(pk)
    ensures Signs(TwoKeys(pk1, pk2), msg, EncodePublicKey(pk)) <==> SignerOf(msg.message, pk1, pk2) == pk
  {
    DecodeEncodePublicKey(pk);
    assert Base64Url.Decode("") == Some([]);
  }

  lemma PayloadIs(pk1: PublicKey, pk2: PublicKey, msg: ProtocolMessage, p: Payload)
    requires msg.pkdContext == PKD_CONTEXT_V1 && ActionName(p) == msg.action
    requires Parse(msg.message, EncodePublicKey(pk1), EncodePublicKey(pk2)) == Some(p)
    ensures PayloadOf(TwoKeys(pk1, pk2), SignedPart(msg)) == Some(p)
  {
  }

  lemma AliceAt(t: Tables)
    requires t.actors == [ALICE]
    ensures ActorId(t, "alice") == Some(1) && ActorRowExists(t, 1)
  {
  }

  lemma AddAdmitted(pk1: PublicKey, pk2: PublicKey, msg: ProtocolMessage, pk: PublicKey)
    requires (msg == ADD1 && pk == pk1) || (msg == ADD2 && pk == pk2)
    ensures Admitted(TwoKeys(pk1, pk2), EMPTY, msg, 0)
  {
    PayloadIs(pk1, pk2, msg, AddKey("alice", EncodePublicKey(pk)));
    WhoSigns(pk1, pk2, msg, pk);
  }

  lemma RevokeIsAllowed(env: Env, t: Tables, msg: ProtocolMessage, pk: PublicKey, signer: PublicKey, r: KeyRow, q: KeyRow)
    requires r in ListKeysForActor(t, "alice") && q in ListKeysForActor(t, "alice") && r != q
    requires r.publicKey == EncodePublicKey(signer) && signer != pk && Signs(env, msg, EncodePublicKey(signer))
    ensures RevokeKeyAllowed(env, t, msg, "alice", EncodePublicKey(pk))
  {
    DecodeEncodePublicKey(pk);
    DecodeEncodePublicKey(signer);
    hide ListKeysForActor, Signs, EncodePublicKey, DecodePublicKey;
    var rows := ListKeysForActor(t, "alice");
    var i :| 0 <= i < |rows| && rows[i] == r;
    var j :| 0 <= j < |rows| && rows[j] == q;
    assert SignedByOther(env, msg, rows, pk);
  }

  lemma LiveRow(t: Tables, row: KeyRow)
    requires t.actors == [ALICE] && row in t.keys && LiveOf(row, 1)
    ensures row in ListKeysForActor(t, "alice")
  {
    AliceAt(t);
    LiveKeysMember(t.keys, 1, row);
  }

  // Whatever other rows there are, each key may have the other revoked.
  lemma RevokeAdmitted(pk1: PublicKey, pk2: PublicKey, t: Tables, msg: ProtocolMessage)
    requires Distinct(pk1, pk2) && (msg == REVOKE1 || msg == REVOKE2) && t.actors == [ALICE]
    requires Row1(EncodePublicKey(pk1)) in t.keys && Row2(EncodePublicKey(pk2)) in t.keys
    ensures Admitted(TwoKeys(pk1, pk2), t, msg, 0)
  {
    var r1, r2 := Row1(EncodePublicKey(pk1)), Row2(EncodePublicKey(pk2));
    var pk, signer := if msg == REVOKE1 then pk1 else pk2, if msg == REVOKE1 then pk2 else pk1;
    PayloadIs(pk1, pk2, msg, RevokeKey("alice", EncodePublicKey(pk)));
    WhoSigns(pk1, pk2, msg, signer);
    LiveRow(t, r1);
    LiveRow(t, r2);
    hide PayloadOf, TwoKeys, EncodePublicKey, Signs, ListKeysForActor, DecodePublicKey, RevokeKeyAllowed;
    if msg == REVOKE1 {
      RevokeIsAllowed(TwoKeys(pk1, pk2), t, msg, pk1, pk2, r2, r1);
    } else {
      RevokeIsAllowed(TwoKeys(pk1, pk2), t, msg, pk2, pk1, r1, r2);
    }
  }

  lemma NothingDisclosed()
    ensures DecodeDisclosed(map[]) == Some(map[])
  {
  }

  lemma FirstAdd(pk1: PublicKey, pk2: PublicKey)
    ensures After(TwoKeys(pk1, pk2), EMPTY, ADD1, "r1", ID1) == T1(EncodePublicKey(pk1))
  {
    PayloadIs(pk1, pk2, ADD1, AddKey("alice", EncodePublicKey(pk1)));
    NothingDisclosed();
    var t := GetOrCreateActor(EMPTY, "alice").0;
    assert t.actors == [ALICE];
    AliceAt(t);
    hide EncodePublicKey, PayloadOf, TwoKeys, DecodeDisclosed;
    assert t.keys + [Row1(EncodePublicKey(pk1))] == [Row1(EncodePublicKey(pk1))];
  }

  lemma SecondAdd(pk1: PublicKey, pk2: PublicKey)
    ensures After(TwoKeys(pk1, pk2), T1(EncodePublicKey(pk1)), ADD2, "r2", ID2)
         == T2(EncodePublicKey(pk1), EncodePublicKey(pk2))
  {
    PayloadIs(pk1, pk2, ADD2, AddKey("alice", EncodePublicKey(pk2)));
    NothingDisclosed();
    var t := T1(EncodePublicKey(pk1));
    AliceAt(t);
    assert t.keys + [Row2(EncodePublicKey(pk2))] == T2(EncodePublicKey(pk1), EncodePublicKey(pk2)).keys;
  }

  lemma FirstRevocation(pk1: PublicKey, pk2: PublicKey)
    ensures var k1, k2 := EncodePublicKey(pk1), EncodePublicKey(pk2);
            After(TwoKeys(pk1, pk2), T2(k1, k2), REVOKE1, "r3", NO_CHOICE) == T3(k1, k2)
  {
    var k1, k2 := EncodePublicKey(pk1), EncodePublicKey(pk2);
    PayloadIs(pk1, pk2, REVOKE1, RevokeKey("alice", k1));
    NothingDisclosed();
    AliceAt(T2(k1, k2));
    assert Revocable(T2(k1, k2), 1, k1, 0);
    assert RevokeKeyById(T2(k1, k2), 1, "r3", 0).keys == T3(k1, k2).keys;
  }

  lemma SecondRevocation(pk1: PublicKey, pk2: PublicKey)
    ensures var k1, k2 := EncodePublicKey(pk1), EncodePublicKey(pk2);
            After(TwoKeys(pk1, pk2), T3(k1, k2), REVOKE2, "r4", NO_CHOICE.(pick := 1)) == T4(k1, k2)
  {
    var k1, k2 := EncodePublicKey(pk1), EncodePublicKey(pk2);
    PayloadIs(pk1, pk2, REVOKE2, RevokeKey("alice", k2));
    NothingDisclosed();
    AliceAt(T3(k1, k2));
    assert Revocable(T3(k1, k2), 1, k2, 1);
    assert RevokeKeyById(T3(k1, k2), 2, "r4", 0).keys == T4(k1, k2).keys;
  }

  // Two requests checked, then both logged, then both applied.
  lemma ReachesPair(env: Env, s: State, m1: ProtocolMessage, m2: ProtocolMessage, r1: string, r2: string,
                    o1: Oracle, o2: Oracle, t1: Tables, t2: Tables)
    requires Reaches(env, s) && s.flights == map[]
    requires Admitted(env, s.t, m1, 0) && Admitted(env, s.t, m2, 0)
    requires After(env, s.t, m1, r1, o1) == t1 && After(env, t1, m2, r2, o2) == t2
    ensures Reaches(env, State(t2, s.log + [Entry(SignedPart(m1), r1), Entry(SignedPart(m2), r2)], map[]))
  {
    hide Admitted, After, Reaches, AfterShred;
    var log1 := s.log + [Entry(SignedPart(m1), r1)];
    var log2 := s.log + [Entry(SignedPart(m1), r1), Entry(SignedPart(m2), r2)];
    assert log1 + [Entry(SignedPart(m2), r2)] == log2;
    var s1 := s.(flights := map[1 := Checked(m1)]);
    var s2 := s.(flights := map[1 := Checked(m1), 2 := Checked(m2)]);
    var s3 := State(s.t, log1, map[1 := Submitted(m1, r1), 2 := Checked(m2)]);
    var s4 := State(s.t, log2, map[1 := Submitted(m1, r1), 2 := Submitted(m2, r2)]);
    var s5 := State(t1, log2, map[2 := Submitted(m2, r2)]);
    ReachesNext(env, s, Check(1, m1, 0));
    assert Next(env, s, Check(1, m1, 0)) == s1;
    ReachesNext(env, s1, Check(2, m2, 0));
    assert Next(env, s1, Check(2, m2, 0)) == s2;
    ReachesNext(env, s2, Submit(1, Some(r1)));
    assert Next(env, s2, Submit(1, Some(r1))) == s3;
    ReachesNext(env, s3, Submit(2, Some(r2)));
    assert Next(env, s3, Submit(2, Some(r2))) == s4;
    ReachesNext(env, s4, Transact(1, o1));
    assert s4.flights - {1} == s5.flights;
    ReachesNext(env, s5, Transact(2, o2));
    assert s5.flights - {2} == map[];
  }

  lemma ReachesInitial(env: Env)
    ensures Reaches(env, INITIAL)
  {
    var ss, es: seq<Event> := [INITIAL], [];
    assert IsRun(env, ss, es) && ss[|es|] == INITIAL;
  }

  const LOG2 := [Entry(SignedPart(ADD1), "r1"), Entry(SignedPart(ADD2), "r2")]
  const LOG4 := LOG2 + [Entry(SignedPart(REVOKE1), "r3"), Entry(SignedPart(REVOKE2), "r4")]

  lemma ReachesPairFromStart(env: Env, m1: ProtocolMessage, m2: ProtocolMessage, r1: string, r2: string,
                             o1: Oracle, o2: Oracle, t1: Tables, t2: Tables)
    requires Admitted(env, EMPTY, m1, 0) && Admitted(env, EMPTY, m2, 0)
    requires After(env, EMPTY, m1, r1, o1) == t1 && After(env, t1, m2, r2, o2) == t2
    ensures Reaches(env, State(t2, [Entry(SignedPart(m1), r1), Entry(SignedPart(m2), r2)], map[]))
  {
    ReachesInitial(env);
    hide Admitted, After, Reaches, SignedPart;
    ReachesPair(env, INITIAL, m1, m2, r1, r2, o1, o2, t1, t2);
    assert INITIAL.log + [Entry(SignedPart(m1), r1), Entry(SignedPart(m2), r2)]
        == [Entry(SignedPart(m1), r1), Entry(SignedPart(m2), r2)];
  }

  lemma ReachesTwoRoots(pk1: PublicKey, pk2: PublicKey)
    ensures var k1, k2 := EncodePublicKey(pk1), EncodePublicKey(pk2);
            Reaches(TwoKeys(pk1, pk2), State(T2(k1, k2), LOG2, map[]))
  {
    hide Admitted, After, Reaches, TwoKeys, T1, T2, EncodePublicKey, Msg, SignedPart;
    var env, k1, k2 := TwoKeys(pk1, pk2), EncodePublicKey(pk1), EncodePublicKey(pk2);
    AddAdmitted(pk1, pk2, ADD1, pk1);
    AddAdmitted(pk1, pk2, ADD2, pk2);
    FirstAdd(pk1, pk2);
    SecondAdd(pk1, pk2);
    ReachesPairFromStart(env, ADD1, ADD2, "r1", "r2", ID1, ID2, T1(k1), T2(k1, k2));
  }

  // Interleaved, an epoch can have two roots. Two AddKeys of one new actor are both checked before
  // either is stored; both keys are then live though neither signed the other's message.
  lemma InterleavingAllowsTwoRoots(pk1: PublicKey, pk2: PublicKey)
    requires Distinct(pk1, pk2)
    ensures var env, k1, k2 := TwoKeys(pk1, pk2), EncodePublicKey(pk1), EncodePublicKey(pk2);
            && Reaches(env, State(T2(k1, k2), LOG2, map[]))
            && Live(T2(k1, k2), 0) && Live(T2(k1, k2), 1)
            && T2(k1, k2).keys[0].actor == T2(k1, k2).keys[1].actor
            && !Signs(env, ADD1, k2) && !Signs(env, ADD2, k1)
  {
    hide Signs, Reaches;
    ReachesTwoRoots(pk1, pk2);
    WhoSigns(pk1, pk2, ADD1, pk2);
    WhoSigns(pk1, pk2, ADD2, pk1);
  }

  // Interleaved, RevokeKey alone can take an actor's last live key. Two RevokeKeys, each signed by
  // the key the other names, are both checked before either is applied; no BurnDown is involved.
  lemma InterleavingAllowsLockOut(pk1: PublicKey, pk2: PublicKey)
    requires Distinct(pk1, pk2)
    ensures var env, k1, k2 := TwoKeys(pk1, pk2), EncodePublicKey(pk1), EncodePublicKey(pk2);
            && Reaches(env, State(T4(k1, k2), LOG4, map[]))
            && HasLive(T2(k1, k2), 1) && !HasLive(T4(k1, k2), 1)
  {
    hide Admitted, After, Reaches, TwoKeys, EncodePublicKey, Msg, SignedPart, HasLive;
    var env, k1, k2 := TwoKeys(pk1, pk2), EncodePublicKey(pk1), EncodePublicKey(pk2);
    AllRevoked(k1, k2);
    hide T3, T4;
    ReachesTwoRoots(pk1, pk2);
    RevokeAdmitted(pk1, pk2, T2(k1, k2), REVOKE1);
    RevokeAdmitted(pk1, pk2, T2(k1, k2), REVOKE2);
    FirstRevocation(pk1, pk2);
    SecondRevocation(pk1, pk2);
    ReachesPair(env, State(T2(k1, k2), LOG2, map[]), REVOKE1, REVOKE2, "r3", "r4",
                NO_CHOICE, NO_CHOICE.(pick := 1), T3(k1, k2), T4(k1, k2));
  }

  lemma AllRevoked(k1: string, k2: string)
    ensures HasLive(T2(k1, k2), 1) && !HasLive(T4(k1, k2), 1)
  {
    assert Live(T2(k1, k2), 0);
  }

  // ---------- Locked out with a live row left ----------

  const ID3 := NO_CHOICE.(newId := "k3")
  const ROW3 := KeyRow(3, 1, "k3", GARBAGE, "r5", None, None)

  function G2(k1: string, k2: string): Tables {
    T2(k1, k2).(keys := [Row1(k1), Row2(k2), ROW3], nextKey := 4)
  }
  function G3(k1: string, k2: string): Tables {
    G2(k1, k2).(keys := [MarkKey(Row1(k1), "r3", 0), Row2(k2), ROW3])
  }
  function G4(k1: string, k2: string): Tables {
    G2(k1, k2).(keys := [MarkKey(Row1(k1), "r3", 0), MarkKey(Row2(k2), "r4", 0), ROW3])
  }

  lemma GarbageIsNoKey()
    ensures DecodePublicKey(GARBAGE) == None
  {
    assert GARBAGE[0] != ED25519_PREFIX[0];
  }

  // A text that is no key gets in, signed by a live key: it is never decoded.
  lemma GarbageAdmitted(pk1: PublicKey, pk2: PublicKey)
    ensures Admitted(TwoKeys(pk1, pk2), T2(EncodePublicKey(pk1), EncodePublicKey(pk2)), ADD3, 0)
  {
    var env, k1, k2 := TwoKeys(pk1, pk2), EncodePublicKey(pk1), EncodePublicKey(pk2);
    PayloadIs(pk1, pk2, ADD3, AddKey("alice", GARBAGE));
    WhoSigns(pk1, pk2, ADD3, pk1);
    LiveRow(T2(k1, k2), Row1(k1));
    hide PayloadOf, TwoKeys, EncodePublicKey, Signs, ListKeysForActor;
    var rows := ListKeysForActor(T2(k1, k2), "alice");
    var i :| 0 <= i < |rows| && rows[i] == Row1(k1);
    assert SignedByAny(env, ADD3, rows);
  }

  lemma GarbageAdded(pk1: PublicKey, pk2: PublicKey)
    ensures var k1, k2 := EncodePublicKey(pk1), EncodePublicKey(pk2);
            After(TwoKeys(pk1, pk2), T2(k1, k2), ADD3, "r5", ID3) == G2(k1, k2)
  {
    var k1, k2 := EncodePublicKey(pk1), EncodePublicKey(pk2);
    PayloadIs(pk1, pk2, ADD3, AddKey("alice", GARBAGE));
    NothingDisclosed();
    AliceAt(T2(k1, k2));
    hide PayloadOf, TwoKeys, EncodePublicKey, DecodeDisclosed, ActorId;
    assert T2(k1, k2).keys + [ROW3] == G2(k1, k2).keys;
  }

  lemma FirstRevocationBesideGarbage(pk1: PublicKey, pk2: PublicKey)
    ensures var k1, k2 := EncodePublicKey(pk1), EncodePublicKey(pk2);
            After(TwoKeys(pk1, pk2), G2(k1, k2), REVOKE1, "r3", NO_CHOICE) == G3(k1, k2)
  {
    var k1, k2 := EncodePublicKey(pk1), EncodePublicKey(pk2);
    PayloadIs(pk1, pk2, REVOKE1, RevokeKey("alice", k1));
    NothingDisclosed();
    AliceAt(G2(k1, k2));
    hide PayloadOf, TwoKeys, EncodePublicKey, DecodeDisclosed, ActorId;
    assert Revocable(G2(k1, k2), 1, k1, 0);
    assert RevokeKeyById(G2(k1, k2), 1, "r3", 0).keys == G3(k1, k2).keys;
  }

  lemma SecondRevocationBesideGarbage(pk1: PublicKey, pk2: PublicKey)
    ensures var k1, k2 := EncodePublicKey(pk1), EncodePublicKey(pk2);
            After(TwoKeys(pk1, pk2), G3(k1, k2), REVOKE2, "r4", NO_CHOICE.(pick := 1)) == G4(k1, k2)
  {
    var k1, k2 := EncodePublicKey(pk1), EncodePublicKey(pk2);
    PayloadIs(pk1, pk2, REVOKE2, RevokeKey("alice", k2));
    NothingDisclosed();
    AliceAt(G3(k1, k2));
    hide PayloadOf, TwoKeys, EncodePublicKey, DecodeDisclosed, ActorId;
    assert Revocable(G3(k1, k2), 1, k2, 1);
    assert RevokeKeyById(G3(k1, k2), 2, "r4", 0).keys == G4(k1, k2).keys;
  }

  lemma ReachesRequest(env: Env, s: State, msg: ProtocolMessage, root: string, o: Oracle, t: Tables)
    requires Reaches(env, s) && s.flights == map[]
    requires Admitted(env, s.t, msg, 0) && After(env, s.t, msg, root, o) == t
    ensures Reaches(env, State(t, s.log + [Entry(SignedPart(msg), root)], map[]))
  {
    hide Admitted, After, Reaches, SignedPart;
    var s1 := Next(env, s, Check(1, msg, 0));
    var s2 := Next(env, s1, Submit(1, Some(root)));
    ReachesNext(env, s, Check(1, msg, 0));
    ReachesNext(env, s1, Submit(1, Some(root)));
    ReachesNext(env, s2, Transact(1, o));
    assert s2.flights == map[1 := Submitted(msg, root)];
    assert s2.flights - {1} == map[];
  }

  const LOG3 := LOG2 + [Entry(SignedPart(ADD3), "r5")]

  lemma ReachesGarbage(pk1: PublicKey, pk2: PublicKey)
    ensures var k1, k2 := EncodePublicKey(pk1), EncodePublicKey(pk2);
            Reaches(TwoKeys(pk1, pk2), State(G2(k1, k2), LOG3, map[]))
  {
    hide Admitted, After, Reaches, TwoKeys, T2, G2, EncodePublicKey, Msg, SignedPart;
    var k1, k2 := EncodePublicKey(pk1), EncodePublicKey(pk2);
    ReachesTwoRoots(pk1, pk2);
    GarbageAdmitted(pk1, pk2);
    GarbageAdded(pk1, pk2);
    ReachesRequest(TwoKeys(pk1, pk2), State(T2(k1, k2), LOG2, map[]), ADD3, "r5", ID3, G2(k1, k2));
  }

  lemma OnlyGarbageIsLive(k1: string, k2: string)
    ensures HasLive(G4(k1, k2), 1) && !LockOut.Usable(G4(k1, k2), 1)
    ensures Live(G3(k1, k2), 1) && Live(G3(k1, k2), 2)
  {
    GarbageIsNoKey();
    hide DecodePublicKey;
    assert Live(G4(k1, k2), 2);
  }

  // Counting live rows would not help. Three rows are live, one of them no key; two RevokeKeys, both
  // checked then, retire the other two. At the second transaction two rows are live, and one stays
  // live after it, but nobody can sign for the actor any more.
  lemma InterleavingAllowsLockOutWithLiveRow(pk1: PublicKey, pk2: PublicKey)
    requires Distinct(pk1, pk2)
    ensures var env, k1, k2 := TwoKeys(pk1, pk2), EncodePublicKey(pk1), EncodePublicKey(pk2);
            && Reaches(env, State(G4(k1, k2), LOG3 + [Entry(SignedPart(REVOKE1), "r3"), Entry(SignedPart(REVOKE2), "r4")], map[]))
            && Live(G3(k1, k2), 1) && Live(G3(k1, k2), 2)
            && HasLive(G4(k1, k2), 1) && !LockOut.Usable(G4(k1, k2), 1)
  {
    hide Admitted, After, Reaches, TwoKeys, EncodePublicKey, Msg, SignedPart, HasLive, LockOut.Usable;
    var env, k1, k2 := TwoKeys(pk1, pk2), EncodePublicKey(pk1), EncodePublicKey(pk2);
    OnlyGarbageIsLive(k1, k2);
    hide G3, G4;
    ReachesGarbage(pk1, pk2);
    RevokeAdmitted(pk1, pk2, G2(k1, k2), REVOKE1);
    RevokeAdmitted(pk1, pk2, G2(k1, k2), REVOKE2);
    FirstRevocationBesideGarbage(pk1, pk2);
    SecondRevocationBesideGarbage(pk1, pk2);
    ReachesPair(env, State(G2(k1, k2), LOG3, map[]), REVOKE1, REVOKE2, "r3", "r4",
                NO_CHOICE, NO_CHOICE.(pick := 1), G3(k1, k2), G4(k1, k2));
  }
}
