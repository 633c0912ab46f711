// One concrete run: an actor discloses a symmetric key with its first AddKey, moves to a second name
// and is crypto-shredded; a move to a third name, checked before that, comes through after it, and
// the actor is shredded again. The premises of the theorems on shredding are met.
module Scenario {
  import opened Wrappers
  import opened Protocol
  import opened Signing
  import opened Tables
  import opened Transactions
  import opened Actions
  import opened Interleaved
  import Base64Url
  import Isolation

  const ADD := ProtocolMessage(PKD_CONTEXT_V1, "AddKey", "", "add", "", "", map["name" := ""], "")
  const MOVE := ProtocolMessage(PKD_CONTEXT_V1, "MoveIdentity", "", "move", "", "", map[], "")

  const MOVE_ON := MOVE.(message := "move on")

  function Parse(body: string, k: string): Option<Payload> {
    if body == "add" then Some(AddKey("alice", k))
    else if body == "move" then Some(MoveIdentity("alice", "bob"))
    else if body == "move on" then Some(MoveIdentity("bob", "carol"))
    else None
  }

  // The one key signs everything.
  function OneKey(pk: PublicKey): Env {
    Env((action: string, body: string) => Parse(body, EncodePublicKey(pk)),
        (m: SignedMessage) => Some([]),
        (key: Bytes, m: Bytes, sig: Bytes) => key == pk,
        (auxType: string, auxData: string) => true,
        (operator: string) => NotEnrolled,
        (secret: Bytes, otp: string, now: nat) => true)
  }

  const DONE := Oracle("k1", 0, 0, true)
  const ROW_ID: nat := 1

  function Row(k: string): KeyRow { KeyRow(1, ROW_ID, "k1", k, "r1", None, None) }
  function Added(k: string): Tables {
    Tables([ActorRow(ROW_ID, "alice", false)], [Row(k)], [], map[("r1", "name") := []], 2, 2, 1)
  }
  function Moved(k: string): Tables { Added(k).(actors := [ActorRow(ROW_ID, "bob", false)]) }
  function Shredded(k: string): Tables {
    Moved(k).(keys := [MarkKey(Row(k), AdminRoot("bob", 0), 0)], symmetricKeys := map[])
  }

  function MovedOn(k: string): Tables { Shredded(k).(actors := [ActorRow(ROW_ID, "carol", false)]) }

  function RunEvents(m1: ProtocolMessage, m2: ProtocolMessage, m3: ProtocolMessage): seq<Event> {
    [Check(0, m1, 0), Submit(0, Some("r1")), Transact(0, DONE),
     Check(0, m2, 0), Submit(0, Some("r2")), Transact(0, DONE),
     Check(0, m3, 0), Submit(0, Some("r3")), Shred("bob", 0, DONE), Transact(0, DONE),
     Shred("carol", 0, DONE)]
  }

  function RunStates(m1: ProtocolMessage, m2: ProtocolMessage, m3: ProtocolMessage,
                     t1: Tables, t2: Tables, t3: Tables, t4: Tables): seq<State>
  {
    var e1, e2, e3 := Entry(SignedPart(m1), "r1"), Entry(SignedPart(m2), "r2"), Entry(SignedPart(m3), "r3");
    [INITIAL, State(EMPTY, [], map[0 := Checked(m1)]), State(EMPTY, [e1], map[0 := Submitted(m1, "r1")]),
     State(t1, [e1], map[]), State(t1, [e1], map[0 := Checked(m2)]), State(t1, [e1, e2], map[0 := Submitted(m2, "r2")]),
     State(t2, [e1, e2], map[]), State(t2, [e1, e2], map[0 := Checked(m3)]),
     State(t2, [e1, e2, e3], map[0 := Submitted(m3, "r3")]), State(t3, [e1, e2, e3], map[0 := Submitted(m3, "r3")]),
     State(t4, [e1, e2, e3], map[]), State(t4, [e1, e2, e3], map[])]
  }

  const EVENTS := RunEvents(ADD, MOVE, MOVE_ON)

  function States(k: string): seq<State> {
    RunStates(ADD, MOVE, MOVE_ON, Added(k), Moved(k), Shredded(k), MovedOn(k))
  }

  lemma KeySigns(pk: PublicKey, msg: ProtocolMessage)
    requires msg.signature == ""
    ensures Signs(OneKey(pk), msg, EncodePublicKey(pk))
  {
    DecodeEncodePublicKey(pk);
  }

  lemma NameIs(t: Tables, name: string)
    requires t.actors == [ActorRow(ROW_ID, name, false)]
    ensures ActorId(t, name) == Some(ROW_ID) && ActorRowExists(t, ROW_ID)
    ensures forall n | n != name :: ActorId(t, n) == None
  {
    assert ActorRow(ROW_ID, name, false) in t.actors;
  }

  lemma AddIsAdmitted(pk: PublicKey)
    ensures PayloadOf(OneKey(pk), SignedPart(ADD)) == Some(AddKey("alice", EncodePublicKey(pk)))
    ensures Admitted(OneKey(pk), EMPTY, ADD, 0)
  {
    KeySigns(pk, ADD);
  }

  lemma NameDecodes(texts: map<string, string>)
    requires texts == map["name" := ""]
    ensures DecodeDisclosed(texts) == Some(map["name" := []])
  {
    assert Base64Url.Decode("") == Some([]);
    assert texts["name"] == "";
    assert DecodeDisclosed(texts).value == map["name" := []];
  }

  lemma AddTakesEffect(pk: PublicKey)
    ensures Effect(OneKey(pk), EMPTY, ADD, AddKey("alice", EncodePublicKey(pk)), "r1", DONE)
         == Success(Added(EncodePublicKey(pk)))
  {
    hide DecodeDisclosed, EncodePublicKey;
    var t := GetOrCreateActor(EMPTY, "alice").0;
    assert t.actors == [ActorRow(ROW_ID, "alice", false)];
    NameIs(t, "alice");
    assert t.keys + [Row(EncodePublicKey(pk))] == [Row(EncodePublicKey(pk))];
    NameDecodes(ADD.symmetricKeys);
    assert map[] + Disclosed("r1", map["name" := []]) == map[("r1", "name") := []];
  }

  lemma MoveIsAdmitted(pk: PublicKey, t: Tables, msg: ProtocolMessage, from: string, to: string)
    requires msg.signature == "" && PayloadOf(OneKey(pk), SignedPart(msg)) == Some(MoveIdentity(from, to))
    requires t.actors == [ActorRow(ROW_ID, from, false)] && Row(EncodePublicKey(pk)) in t.keys
    ensures Admitted(OneKey(pk), t, msg, 0)
  {
    NameIs(t, from);
    KeySigns(pk, msg);
    LiveKeysMember(t.keys, ROW_ID, Row(EncodePublicKey(pk)));
    hide PayloadOf, OneKey, Signs, EncodePublicKey;
    var rows := ListKeysForActor(t, from);
    var i :| 0 <= i < |rows| && rows[i] == Row(EncodePublicKey(pk));
    assert SignedByAny(OneKey(pk), msg, rows);
  }

  lemma MoveTakesEffect(env: Env, t: Tables, msg: ProtocolMessage, root: string, from: string, to: string)
    requires PayloadOf(env, SignedPart(msg)) == Some(MoveIdentity(from, to)) && from != to
    requires t.actors == [ActorRow(ROW_ID, from, false)]
    ensures After(env, t, msg, root, DONE) == t.(actors := [ActorRow(ROW_ID, to, false)])
  {
    hide PayloadOf;
    NameIs(t, from);
    assert MoveIdentityTx(t, from, to).Success?;
  }

  lemma ShredTakesEffect(k: string)
    ensures AfterShred(Moved(k), "bob", 0, DONE) == Shredded(k)
    ensures AfterShred(MovedOn(k), "carol", 0, DONE) == MovedOn(k)
  {
    NameIs(Moved(k), "bob");
    NameIs(MovedOn(k), "carol");
    assert Row(k) in Moved(k).keys;
    assert "r1" in MessageHashes(Moved(k), ROW_ID);
    assert DeleteSymmetricKeys(Moved(k), MessageHashes(Moved(k), ROW_ID)).symmetricKeys == map[];
    assert AfterShred(Moved(k), "bob", 0, DONE).keys == Shredded(k).keys;
    assert AfterShred(MovedOn(k), "carol", 0, DONE).keys == MovedOn(k).keys;
    assert AfterShred(MovedOn(k), "carol", 0, DONE).symmetricKeys == map[];
  }

  // One request, started and finished with nothing else in flight.
  lemma RequestSteps(env: Env, t: Tables, log: seq<Entry>, msg: ProtocolMessage, root: string, o: Oracle)
    requires Admitted(env, t, msg, 0)
    ensures var checked := State(t, log, map[0 := Checked(msg)]);
            var submitted := State(t, log + [Entry(SignedPart(msg), root)], map[0 := Submitted(msg, root)]);
            && Next(env, State(t, log, map[]), Check(0, msg, 0)) == checked
            && Next(env, checked, Submit(0, Some(root))) == submitted
            && Next(env, submitted, Transact(0, o)) == State(After(env, t, msg, root, o), submitted.log, map[])
  {
    hide Admitted, After, SignedPart;
    assert map[0 := Submitted(msg, root)] - {0} == map[];
  }

  lemma ShredSteps(env: Env, t: Tables, log: seq<Entry>, flights: map<nat, Flight>, actor: string, o: Oracle)
    requires actor != ""
    ensures Next(env, State(t, log, flights), Shred(actor, 0, o)) == State(AfterShred(t, actor, 0, o), log, flights)
  {
  }

  lemma IsRunOf(env: Env, m1: ProtocolMessage, m2: ProtocolMessage, m3: ProtocolMessage,
                t1: Tables, t2: Tables, t3: Tables, t4: Tables)
    requires Admitted(env, EMPTY, m1, 0) && After(env, EMPTY, m1, "r1", DONE) == t1
    requires Admitted(env, t1, m2, 0) && After(env, t1, m2, "r2", DONE) == t2
    requires Admitted(env, t2, m3, 0) && AfterShred(t2, "bob", 0, DONE) == t3
    requires After(env, t3, m3, "r3", DONE) == t4 && AfterShred(t4, "carol", 0, DONE) == t4
    ensures IsRun(env, RunStates(m1, m2, m3, t1, t2, t3, t4), RunEvents(m1, m2, m3))
  {
    hide Admitted, After, AfterShred, SignedPart, Next;
    var e1, e2, e3 := Entry(SignedPart(m1), "r1"), Entry(SignedPart(m2), "r2"), Entry(SignedPart(m3), "r3");
    RequestSteps(env, EMPTY, [], m1, "r1", DONE);
    RequestSteps(env, t1, [e1], m2, "r2", DONE);
    RequestSteps(env, t2, [e1, e2], m3, "r3", DONE);
    assert [] + [e1] == [e1] && [e1] + [e2] == [e1, e2] && [e1, e2] + [e3] == [e1, e2, e3];
    ShredSteps(env, t2, [e1, e2, e3], map[0 := Submitted(m3, "r3")], "bob", DONE);
    LateTransaction(env, t3, [e1, e2, e3], m3, "r3", DONE);
    ShredSteps(env, t4, [e1, e2, e3], map[], "carol", DONE);
  }

  lemma LateTransaction(env: Env, t: Tables, log: seq<Entry>, msg: ProtocolMessage, root: string, o: Oracle)
    ensures Next(env, State(t, log, map[0 := Submitted(msg, root)]), Transact(0, o))
         == State(After(env, t, msg, root, o), log, map[])
  {
    assert map[0 := Submitted(msg, root)] - {0} == map[];
  }

  lemma MovesMean(pk: PublicKey)
    ensures PayloadOf(OneKey(pk), SignedPart(MOVE)) == Some(MoveIdentity("alice", "bob"))
    ensures PayloadOf(OneKey(pk), SignedPart(MOVE_ON)) == Some(MoveIdentity("bob", "carol"))
  {
  }

  lemma ScenarioIsRun(pk: PublicKey)
    ensures IsRun(OneKey(pk), States(EncodePublicKey(pk)), EVENTS)
  {
    var env, k := OneKey(pk), EncodePublicKey(pk);
    AddIsAdmitted(pk);
    AddTakesEffect(pk);
    MovesMean(pk);
    MoveIsAdmitted(pk, Added(k), MOVE, "alice", "bob");
    MoveTakesEffect(env, Added(k), MOVE, "r2", "alice", "bob");
    MoveIsAdmitted(pk, Moved(k), MOVE_ON, "bob", "carol");
    MoveTakesEffect(env, Shredded(k), MOVE_ON, "r3", "bob", "carol");
    ShredTakesEffect(k);
    assert After(env, EMPTY, ADD, "r1", DONE) == Added(k);
    hide Admitted, After, AfterShred, OneKey, EncodePublicKey, Effect, PayloadOf, IsRun, RunStates, RunEvents, AdminRoot;
    IsRunOf(env, ADD, MOVE, MOVE_ON, Added(k), Moved(k), Shredded(k), MovedOn(k));
  }

  lemma LogIsFresh()
    ensures Isolation.FreshLog([Entry(SignedPart(ADD), "r1"), Entry(SignedPart(MOVE), "r2"), Entry(SignedPart(MOVE_ON), "r3")])
  {
    assert "r1"[0] != 'a' && "r2"[0] != 'a' && "r3"[0] != 'a';
  }

  // The disclosed key is there until the first shred, which the row meets under its second name;
  // the log is fresh; the second shred, under the third name, burns the same row, and it got no
  // key in between.
  lemma ShreddingHasWork(pk: PublicKey)
    ensures var env, ss := OneKey(pk), States(EncodePublicKey(pk));
            && IsRun(env, ss, EVENTS) && Isolation.FreshLog(ss[|EVENTS|].log)
            && StoresFor(env, ss, EVENTS, 2, ROW_ID, "r1")
            && Burns(env, ss, EVENTS, 8, ROW_ID) && Burns(env, ss, EVENTS, 10, ROW_ID)
            && ss[10].t.keys == ss[9].t.keys && ss[10].t != ss[9].t
            && ("r1", "name") in ss[8].t.symmetricKeys
  {
    var env, k := OneKey(pk), EncodePublicKey(pk);
    var ss := States(k);
    LogIsFresh();
    hide Next, OneKey, EncodePublicKey, Effect, After, PayloadOf, TransactsAt, ActorId, Isolation.FreshLog;
    ScenarioIsRun(pk);
    StepTransacts(env, ss, EVENTS, 2);
    AddIsAdmitted(pk);
    AddTakesEffect(pk);
    NameIs(Added(k), "alice");
    NameIs(Moved(k), "bob");
    NameIs(MovedOn(k), "carol");
    assert ss[10].t.actors[0] != ss[9].t.actors[0];
  }
}
