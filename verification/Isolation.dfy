// When the log answers every submission with a fresh root, each recorded root belongs to one actor
// row, and what is done to one actor leaves all others alone. Holds under any interleaving.
module Isolation {
  import opened Wrappers
  import opened Protocol
  import opened Tables
  import opened Transactions
  import opened Actions
  import opened Interleaved

  predicate IsAdminRoot(h: string) {
    ADMIN_PREFIX <= h
  }

  ghost predicate LogHas(log: seq<Entry>, h: string) {
    exists i :: 0 <= i < |log| && log[i].root == h
  }

  // The premise: the log never repeats a root and never answers with an administrator's root.
  ghost predicate FreshLog(log: seq<Entry>) {
    && (forall i, j | 0 <= i < j < |log| :: log[i].root != log[j].root)
    && (forall i | 0 <= i < |log| :: !IsAdminRoot(log[i].root))
  }

  predicate Carries(k: KeyRow, h: string) {
    k.merkleRoot == h || k.revokeRoot == Some(h)
  }

  // ---------- What one effect may touch ----------

  ghost predicate TouchesActors(t: Tables, t': Tables, a: nat) {
    && |t.actors| <= |t'.actors|
    && (forall i | 0 <= i < |t.actors| && t.actors[i].id != a :: t'.actors[i] == t.actors[i])
    && (forall i | |t.actors| <= i < |t'.actors| :: t'.actors[i].id == a)
  }

  ghost predicate TouchesKeys(t: Tables, t': Tables, a: nat, root: string) {
    && |t.keys| <= |t'.keys|
    && (forall i | 0 <= i < |t.keys| :: t'.keys[i] == t.keys[i] ||
          (t.keys[i].actor == a
           && t'.keys[i] == t.keys[i].(revokedAt := t'.keys[i].revokedAt, revokeRoot := Some(root))))
    && (forall i | |t.keys| <= i < |t'.keys| ::
          t'.keys[i].actor == a && t'.keys[i].merkleRoot == root && t'.keys[i].revokeRoot == None)
  }

  ghost predicate TouchesAux(t: Tables, t': Tables, a: nat) {
    && |t.aux| <= |t'.aux|
    && (forall i | 0 <= i < |t.aux| && t.aux[i].actor != a :: t'.aux[i] == t.aux[i])
    && (forall i | 0 <= i < |t.aux| :: t'.aux[i].actor == t.aux[i].actor)
    && (forall i | |t.aux| <= i < |t'.aux| :: t'.aux[i].actor == a)
  }

  // Symmetric keys appear only under the new root and vanish only under roots of `a`.
  ghost predicate TouchesSymmetric(t: Tables, t': Tables, a: nat, root: string) {
    && (forall p | p in t'.symmetricKeys && p !in t.symmetricKeys :: p.0 == root)
    && (forall p | p in t.symmetricKeys && p !in t'.symmetricKeys :: Records(t, a, p.0))
    && (forall p | p in t.symmetricKeys && p in t'.symmetricKeys && p.0 != root ::
          t'.symmetricKeys[p] == t.symmetricKeys[p])
  }

  ghost predicate Touches(t: Tables, t': Tables, a: nat, root: string) {
    TouchesActors(t, t', a) && TouchesKeys(t, t', a, root) && TouchesAux(t, t', a)
    && TouchesSymmetric(t, t', a, root)
  }

  // The actor row that a payload is about.
  function Target(t: Tables, p: Payload): Option<nat> {
    match p
    case AddKey(actor, _) => Some(GetOrCreateActor(t, actor).1)
    case AddAuxData(actor, _, _) => Some(GetOrCreateActor(t, actor).1)
    case RevokeKey(actor, _) => ActorId(t, actor)
    case MoveIdentity(oldActor, _) => ActorId(t, oldActor)
    case BurnDown(actor, _) => ActorId(t, actor)
    case Fireproof(actor) => ActorId(t, actor)
    case UndoFireproof(actor) => ActorId(t, actor)
    case RevokeAuxData(actor, _) => ActorId(t, actor)
  }

  lemma AddKeyTouches(t: Tables, actor: string, publicKey: string, root: string, keyId: string,
                      disclosed: map<string, Bytes>)
    requires Valid(t) && AddKeyTx(t, actor, publicKey, root, keyId, disclosed).Success?
    ensures Touches(t, AddKeyTx(t, actor, publicKey, root, keyId, disclosed).value, GetOrCreateActor(t, actor).1, root)
  {
    AddKeyTxEffect(t, actor, publicKey, root, keyId, disclosed);
  }

  lemma RevokeKeyTouches(t: Tables, actor: string, publicKey: string, root: string,
                         disclosed: map<string, Bytes>, now: nat, pick: nat)
    requires Valid(t) && RevokeKeyTx(t, actor, publicKey, root, disclosed, now, pick).Success?
    ensures ActorId(t, actor).Some?
    ensures Touches(t, RevokeKeyTx(t, actor, publicKey, root, disclosed, now, pick).value, ActorId(t, actor).value, root)
  {
    RevokeKeyTxEffect(t, actor, publicKey, root, disclosed, now, pick);
  }

  lemma BurnDownTouches(t: Tables, actor: string, root: string, now: nat)
    requires Valid(t) && BurnDownTx(t, actor, root, now).Success?
    ensures ActorId(t, actor).Some?
    ensures Touches(t, BurnDownTx(t, actor, root, now).value, ActorId(t, actor).value, root)
  {
    BurnDownTxEffect(t, actor, root, now);
  }

  lemma RenameTouches(t: Tables, t': Tables, i: nat, root: string)
    requires Valid(t) && i < |t.actors| && t' == t.(actors := t'.actors) && |t'.actors| == |t.actors|
    requires forall j | 0 <= j < |t.actors| && j != i :: t'.actors[j] == t.actors[j]
    ensures Touches(t, t', t.actors[i].id, root)
  {
  }

  lemma AddAuxDataTouches(t: Tables, actor: string, auxType: string, auxData: string, root: string, auxId: string)
    requires Valid(t) && AddAuxDataTx(t, actor, auxType, auxData, root, auxId).Success?
    ensures Touches(t, AddAuxDataTx(t, actor, auxType, auxData, root, auxId).value, GetOrCreateActor(t, actor).1, root)
  {
    AddAuxDataTxEffect(t, actor, auxType, auxData, root, auxId);
  }

  lemma RevokeAuxDataTouches(t: Tables, actor: string, auxId: string, root: string, now: nat)
    requires Valid(t) && RevokeAuxDataTx(t, actor, auxId, root, now).Success?
    ensures ActorId(t, actor).Some?
    ensures Touches(t, RevokeAuxDataTx(t, actor, auxId, root, now).value, ActorId(t, actor).value, root)
  {
  }

  lemma EffectTouches(env: Env, t: Tables, msg: ProtocolMessage, p: Payload, root: string, o: Oracle)
    requires Valid(t) && Effect(env, t, msg, p, root, o).Success?
    ensures Target(t, p).Some?
    ensures Touches(t, Effect(env, t, msg, p, root, o).value, Target(t, p).value, root)
  {
    var t' := Effect(env, t, msg, p, root, o).value;
    match p {
      case AddKey(actor, publicKey) =>
        AddKeyTouches(t, actor, publicKey, root, o.newId, DecodeDisclosed(msg.symmetricKeys).value);
      case RevokeKey(actor, publicKey) =>
        RevokeKeyTouches(t, actor, publicKey, root, DecodeDisclosed(msg.symmetricKeys).value, o.now, o.pick);
      case BurnDown(actor, _) => BurnDownTouches(t, actor, root, o.now);
      case MoveIdentity(oldActor, newActor) => RenameTouches(t, t', ActorIndex(t.actors, oldActor), root);
      case Fireproof(actor) => RenameTouches(t, t', ActorIndex(t.actors, actor), root);
      case UndoFireproof(actor) => RenameTouches(t, t', ActorIndex(t.actors, actor), root);
      case AddAuxData(actor, auxType, auxData) => AddAuxDataTouches(t, actor, auxType, auxData, root, o.newId);
      case RevokeAuxData(actor, auxId) => RevokeAuxDataTouches(t, actor, auxId, root, o.now);
    }
  }

  // ---------- Ownership of roots ----------

  ghost predicate FlightRootsOk(s: State) {
    && (forall id | id in s.flights && s.flights[id].Submitted? :: LogHas(s.log, s.flights[id].root))
    && (forall id, id' | id in s.flights && id' in s.flights && id != id'
          && s.flights[id].Submitted? && s.flights[id'].Submitted? ::
          s.flights[id].root != s.flights[id'].root)
    && (forall id | id in s.flights && s.flights[id].Submitted? ::
          !RecordedSomewhere(s.t, s.flights[id].root))
  }

  ghost predicate KeyRootsLogged(t: Tables, log: seq<Entry>) {
    && (forall i | 0 <= i < |t.keys| :: LogHas(log, t.keys[i].merkleRoot))
    && (forall i | 0 <= i < |t.keys| && t.keys[i].revokeRoot.Some? ::
          LogHas(log, t.keys[i].revokeRoot.value) || IsAdminRoot(t.keys[i].revokeRoot.value))
    && (forall p | p in t.symmetricKeys :: LogHas(log, p.0))
  }

  ghost predicate OneOwner(t: Tables) {
    forall i, j, h | 0 <= i < |t.keys| && 0 <= j < |t.keys|
      && Carries(t.keys[i], h) && Carries(t.keys[j], h) && !IsAdminRoot(h) ::
      t.keys[i].actor == t.keys[j].actor
  }

  ghost predicate RootsOk(s: State) {
    FlightRootsOk(s) && KeyRootsLogged(s.t, s.log) && OneOwner(s.t)
  }

  lemma TouchKeepsOneOwner(t: Tables, t': Tables, a: nat, root: string)
    requires OneOwner(t) && TouchesKeys(t, t', a, root)
    requires IsAdminRoot(root) || !RecordedSomewhere(t, root)
    ensures OneOwner(t')
  {
  }

  lemma TouchKeepsUnrecorded(t: Tables, t': Tables, a: nat, root: string, h: string)
    requires TouchesKeys(t, t', a, root) && h != root && !RecordedSomewhere(t, h)
    ensures !RecordedSomewhere(t', h)
  {
  }

  lemma TouchKeepsLogged(t: Tables, t': Tables, a: nat, root: string, log: seq<Entry>)
    requires Touches(t, t', a, root) && KeyRootsLogged(t, log)
    requires LogHas(log, root) || (IsAdminRoot(root) && |t'.keys| == |t.keys| && t'.symmetricKeys.Keys <= t.symmetricKeys.Keys)
    ensures KeyRootsLogged(t', log)
  {
  }

  lemma LogHasGrows(log: seq<Entry>, e: Entry, h: string)
    requires LogHas(log, h)
    ensures LogHas(log + [e], h)
  {
    var i :| 0 <= i < |log| && log[i].root == h;
    assert (log + [e])[i].root == h;
  }

  lemma SubmitKeepsRootsOk(env: Env, s: State, id: nat, root: string)
    requires RootsOk(s) && id in s.flights && s.flights[id].Checked?
    requires FreshLog(Next(env, s, Submit(id, Some(root))).log)
    ensures RootsOk(Next(env, s, Submit(id, Some(root))))
  {
    var s' := Next(env, s, Submit(id, Some(root)));
    var e := Entry(SignedPart(s.flights[id].msg), root);
    assert s'.log[|s.log|] == e;
    forall h | LogHas(s.log, h) ensures LogHas(s'.log, h) && h != root {
      LogHasGrows(s.log, e, h);
      var i :| 0 <= i < |s.log| && s.log[i].root == h;
      assert s'.log[i].root == h;
    }
    assert LogHas(s'.log, root);
    assert !IsAdminRoot(root);
    assert !RecordedSomewhere(s.t, root);
  }

  lemma TransactKeepsRootsOk(env: Env, s: State, id: nat, o: Oracle)
    requires Valid(s.t) && RootsOk(s) && id in s.flights && s.flights[id].Submitted? && FreshLog(s.log)
    ensures RootsOk(Next(env, s, Transact(id, o)))
  {
    var s', f := Next(env, s, Transact(id, o)), s.flights[id];
    var p := PayloadOf(env, SignedPart(f.msg));
    if p.Some? && o.healthy && Effect(env, s.t, f.msg, p.value, f.root, o).Success? {
      EffectTouches(env, s.t, f.msg, p.value, f.root, o);
      var a := Target(s.t, p.value).value;
      TouchKeepsOneOwner(s.t, s'.t, a, f.root);
      TouchKeepsLogged(s.t, s'.t, a, f.root, s.log);
      forall id' | id' in s'.flights && s'.flights[id'].Submitted?
        ensures !RecordedSomewhere(s'.t, s'.flights[id'].root)
      {
        TouchKeepsUnrecorded(s.t, s'.t, a, f.root, s.flights[id'].root);
      }
    }
  }

  lemma AdminRootIsAdmin(actor: string, nanos: int)
    ensures IsAdminRoot(AdminRoot(actor, nanos))
  {
  }

  lemma ShredKeepsRootsOk(env: Env, s: State, actor: string, nanos: int, o: Oracle)
    requires Valid(s.t) && RootsOk(s) && FreshLog(s.log)
    ensures RootsOk(Next(env, s, Shred(actor, nanos, o)))
  {
    var s', root := Next(env, s, Shred(actor, nanos, o)), AdminRoot(actor, nanos);
    if actor != "" && o.healthy && BurnDownTx(s.t, actor, root, o.now).Success? {
      AdminRootIsAdmin(actor, nanos);
      BurnDownTouches(s.t, actor, root, o.now);
      var a := ActorId(s.t, actor).value;
      TouchKeepsOneOwner(s.t, s'.t, a, root);
      TouchKeepsLogged(s.t, s'.t, a, root, s.log);
      forall id | id in s.flights && s.flights[id].Submitted?
        ensures !RecordedSomewhere(s'.t, s.flights[id].root)
      {
        TouchKeepsUnrecorded(s.t, s'.t, a, root, s.flights[id].root);
      }
    }
  }

  lemma NextKeepsRootsOk(env: Env, s: State, e: Event)
    requires Valid(s.t) && RootsOk(s) && FreshLog(Next(env, s, e).log) && FreshLog(s.log)
    ensures RootsOk(Next(env, s, e))
  {
    match e {
      case Submit(id, root) =>
        if id in s.flights && s.flights[id].Checked? && root.Some? {
          SubmitKeepsRootsOk(env, s, id, root.value);
        }
      case Transact(id, o) =>
        if id in s.flights && s.flights[id].Submitted? {
          TransactKeepsRootsOk(env, s, id, o);
        }
      case Shred(actor, nanos, o) => ShredKeepsRootsOk(env, s, actor, nanos, o);
      case Check(_, _, _) =>
    }
  }

  lemma {:induction false} LogOnlyGrows(env: Env, ss: seq<State>, es: seq<Event>, m: nat, n: nat)
    requires IsRun(env, ss, es) && m <= n < |ss|
    ensures ss[m].log <= ss[n].log
    decreases n - m
  {
    hide After, AfterShred, Admitted;
    if m < n {
      LogOnlyGrows(env, ss, es, m, n - 1);
      assert ss[n] == Next(env, ss[n - 1], es[n - 1]);
    }
  }

  lemma EarlierLogIsFresh(env: Env, ss: seq<State>, es: seq<Event>, n: nat)
    requires IsRun(env, ss, es) && n < |ss| && FreshLog(ss[|es|].log)
    ensures FreshLog(ss[n].log)
  {
    LogOnlyGrows(env, ss, es, n, |es|);
    assert forall i | 0 <= i < |ss[n].log| :: ss[n].log[i] == ss[|es|].log[i];
  }

  lemma {:induction false} RunKeepsRootsOk(env: Env, ss: seq<State>, es: seq<Event>, n: nat)
    requires IsRun(env, ss, es) && n < |ss| && FreshLog(ss[|es|].log)
    ensures RootsOk(ss[n])
  {
    if n > 0 {
      RunKeepsRootsOk(env, ss, es, n - 1);
      RunKeepsInvariant(env, ss, es, n - 1);
      EarlierLogIsFresh(env, ss, es, n - 1);
      EarlierLogIsFresh(env, ss, es, n);
      assert ss[n] == Next(env, ss[n - 1], es[n - 1]);
      NextKeepsRootsOk(env, ss[n - 1], es[n - 1]);
    }
  }

  // Every root the log gave out is recorded for at most one actor row.
  lemma EachRootHasOneOwner(env: Env, ss: seq<State>, es: seq<Event>, n: nat, a: nat, b: nat, h: string)
    requires IsRun(env, ss, es) && n < |ss| && FreshLog(ss[|es|].log)
    requires Records(ss[n].t, a, h) && Records(ss[n].t, b, h) && !IsAdminRoot(h)
    ensures a == b
  {
    RunKeepsRootsOk(env, ss, es, n);
    var t := ss[n].t;
    var i :| 0 <= i < |t.keys| && t.keys[i].actor == a && Carries(t.keys[i], h);
    var j :| 0 <= j < |t.keys| && t.keys[j].actor == b && Carries(t.keys[j], h);
  }

  // ---------- Isolation ----------

  // The actor row a step is about, if it changes the tables at all.
  function StepTarget(env: Env, s: State, e: Event): Option<nat> {
    match e
    case Transact(id, _) =>
      if id !in s.flights || !s.flights[id].Submitted? then None
      else
        (match PayloadOf(env, SignedPart(s.flights[id].msg))
         case None => None
         case Some(p) => Target(s.t, p))
    case Shred(actor, _, _) => ActorId(s.t, actor)
    case _ => None
  }

  ghost predicate SameSymmetricKeysOf(t: Tables, t': Tables, b: nat) {
    forall p: (string, string) | Records(t, b, p.0) ::
      && (p in t.symmetricKeys <==> p in t'.symmetricKeys)
      && (p in t.symmetricKeys ==> t'.symmetricKeys[p] == t.symmetricKeys[p])
  }

  // Everything that belongs to actor row `b` is the same in `t'` as in `t`, and nothing was added.
  ghost predicate Undisturbed(t: Tables, t': Tables, b: nat) {
    && |t.keys| <= |t'.keys| && |t.aux| <= |t'.aux| && |t.actors| <= |t'.actors|
    && (forall i | 0 <= i < |t.actors| && t.actors[i].id == b :: t'.actors[i] == t.actors[i])
    && (forall i | 0 <= i < |t.keys| && t.keys[i].actor == b :: t'.keys[i] == t.keys[i])
    && (forall i | |t.keys| <= i < |t'.keys| :: t'.keys[i].actor != b)
    && (forall i | 0 <= i < |t.aux| && t.aux[i].actor == b :: t'.aux[i] == t.aux[i])
    && (forall i | |t.aux| <= i < |t'.aux| :: t'.aux[i].actor != b)
    && SameSymmetricKeysOf(t, t', b)
  }

  lemma TouchLeavesSymmetricKey(t: Tables, t': Tables, log: seq<Entry>, a: nat, root: string, b: nat, p: (string, string))
    requires TouchesSymmetric(t, t', a, root) && OneOwner(t) && KeyRootsLogged(t, log) && FreshLog(log) && b != a
    requires IsAdminRoot(root) || !RecordedSomewhere(t, root)
    requires IsAdminRoot(root) ==> t'.symmetricKeys.Keys <= t.symmetricKeys.Keys
    requires Records(t, b, p.0)
    ensures p in t.symmetricKeys <==> p in t'.symmetricKeys
    ensures p in t.symmetricKeys ==> t'.symmetricKeys[p] == t.symmetricKeys[p]
  {
  }

  lemma TouchLeavesOthers(t: Tables, t': Tables, log: seq<Entry>, a: nat, root: string, b: nat)
    requires Touches(t, t', a, root) && OneOwner(t) && KeyRootsLogged(t, log) && FreshLog(log) && b != a
    requires IsAdminRoot(root) || !RecordedSomewhere(t, root)
    requires IsAdminRoot(root) ==> t'.symmetricKeys.Keys <= t.symmetricKeys.Keys
    ensures Undisturbed(t, t', b)
  {
    forall p: (string, string) | Records(t, b, p.0)
      ensures p in t.symmetricKeys <==> p in t'.symmetricKeys
      ensures p in t.symmetricKeys ==> t'.symmetricKeys[p] == t.symmetricKeys[p]
    {
      TouchLeavesSymmetricKey(t, t', log, a, root, b, p);
    }
  }

  // Isolation: a step about one actor, BurnDown included, changes no row and no symmetric key of
  // any other actor.
  lemma OthersAreUndisturbed(env: Env, ss: seq<State>, es: seq<Event>, n: nat, b: nat)
    requires IsRun(env, ss, es) && n < |es| && FreshLog(ss[|es|].log)
    requires StepTarget(env, ss[n], es[n]) != Some(b)
    ensures Undisturbed(ss[n].t, ss[n + 1].t, b)
  {
    RunKeepsRootsOk(env, ss, es, n);
    RunKeepsInvariant(env, ss, es, n);
    EarlierLogIsFresh(env, ss, es, n);
    var s, t, t' := ss[n], ss[n].t, ss[n + 1].t;
    assert ss[n + 1] == Next(env, s, es[n]);
    if t' != t {
      match es[n] {
        case Transact(id, o) =>
          var f := s.flights[id];
          var p := PayloadOf(env, SignedPart(f.msg)).value;
          EffectTouches(env, t, f.msg, p, f.root, o);
          assert LogHas(s.log, f.root);
          TouchLeavesOthers(t, t', s.log, Target(t, p).value, f.root, b);
        case Shred(actor, nanos, o) =>
          BurnDownTouches(t, actor, AdminRoot(actor, nanos), o.now);
          BurnDownTxEffect(t, actor, AdminRoot(actor, nanos), o.now);
          AdminRootIsAdmin(actor, nanos);
          TouchLeavesOthers(t, t', s.log, ActorId(t, actor).value, AdminRoot(actor, nanos), b);
      }
    }
  }
}
