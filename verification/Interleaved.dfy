// Any number of requests in flight. A handler's check, its submission to the log and its
// database transaction are separate steps; steps of different requests interleave freely.
module Interleaved {
  import opened Wrappers
  import opened Protocol
  import opened Signing
  import opened Tables
  import opened Transactions
  import opened Actions

  // One successful submission: what the log was given and the root it answered with.
  datatype Entry = Entry(signed: SignedMessage, root: string)

  datatype Flight =
    | Checked(msg: ProtocolMessage)
    | Submitted(msg: ProtocolMessage, root: string)

  datatype State = State(t: Tables, log: seq<Entry>, flights: map<nat, Flight>)

  const INITIAL := State(EMPTY, [], map[])

  datatype Event =
    | Check(id: nat, msg: ProtocolMessage, now: nat)
    | Submit(id: nat, root: Option<string>)
    | Transact(id: nat, oracle: Oracle)
    | Shred(actor: string, nanos: int, oracle: Oracle)

  function Next(env: Env, s: State, e: Event): State {
    match e
    case Check(id, msg, now) =>
      if id !in s.flights && Admitted(env, s.t, msg, now)
      then s.(flights := s.flights[id := Checked(msg)]) else s
    case Submit(id, root) =>
      if id !in s.flights || !s.flights[id].Checked? then s
      else if root.None? then s.(flights := s.flights - {id})
      else
        var msg := s.flights[id].msg;
        s.(log := s.log + [Entry(SignedPart(msg), root.value)],
           flights := s.flights[id := Submitted(msg, root.value)])
    case Transact(id, o) =>
      if id !in s.flights || !s.flights[id].Submitted? then s
      else
        var f := s.flights[id];
        s.(t := After(env, s.t, f.msg, f.root, o), flights := s.flights - {id})
    case Shred(actor, nanos, o) =>
      if actor == "" then s else s.(t := AfterShred(s.t, actor, nanos, o))
  }

  ghost predicate IsRun(env: Env, ss: seq<State>, es: seq<Event>) {
    && |ss| == |es| + 1
    && ss[0] == INITIAL
    && forall i | 0 <= i < |es| :: ss[i + 1] == Next(env, ss[i], es[i])
  }

  // ---------- Reachable states ----------

  ghost predicate Reaches(env: Env, s: State) {
    exists ss, es :: IsRun(env, ss, es) && ss[|es|] == s
  }

  lemma RunGrows(env: Env, ss: seq<State>, es: seq<Event>, e: Event)
    requires IsRun(env, ss, es)
    ensures IsRun(env, ss + [Next(env, ss[|es|], e)], es + [e])
  {
    var ss', es' := ss + [Next(env, ss[|es|], e)], es + [e];
    forall i | 0 <= i < |es'| ensures ss'[i + 1] == Next(env, ss'[i], es'[i]) {
      if i < |es| {
        assert ss'[i] == ss[i] && ss'[i + 1] == ss[i + 1] && es'[i] == es[i];
      }
    }
  }

  lemma ReachesNext(env: Env, s: State, e: Event)
    requires Reaches(env, s)
    ensures Reaches(env, Next(env, s, e))
  {
    var ss, es :| IsRun(env, ss, es) && ss[|es|] == s;
    RunGrows(env, ss, es, e);
    assert (ss + [Next(env, s, e)])[|es + [e]|] == Next(env, s, e);
  }

  // ---------- Invariant and history ----------

  ghost predicate Inv(s: State) {
    Valid(s.t) && NoOrphans(s.t)
  }

  lemma NextKeeps(env: Env, s: State, e: Event)
    requires Inv(s)
    ensures Inv(Next(env, s, e)) && Extends(s.t, Next(env, s, e).t)
  {
    ExtendsItself(s.t);
    hide After, AfterShred, Admitted, Valid, NoOrphans, Extends;
    match e {
      case Transact(id, o) =>
        if id in s.flights && s.flights[id].Submitted? {
          AfterKeeps(env, s.t, s.flights[id].msg, s.flights[id].root, o);
        }
      case Shred(actor, nanos, o) => AfterShredKeeps(s.t, actor, nanos, o);
      case _ =>
    }
  }

  // In every reachable state the schema holds and no disclosed symmetric key has lost the key
  // row that leads a shredding to it.
  lemma {:induction false} RunKeepsInvariant(env: Env, ss: seq<State>, es: seq<Event>, n: nat)
    requires IsRun(env, ss, es) && n < |ss|
    ensures Inv(ss[n])
  {
    if n > 0 {
      RunKeepsInvariant(env, ss, es, n - 1);
      NextKeeps(env, ss[n - 1], es[n - 1]);
    }
  }

  // History is append-only: between any two moments of any run no row disappears, moves or
  // changes its owner or content, and a revocation, once written, is final.
  lemma {:induction false} HistoryIsAppendOnly(env: Env, ss: seq<State>, es: seq<Event>, m: nat, n: nat)
    requires IsRun(env, ss, es) && m <= n < |ss|
    ensures Extends(ss[m].t, ss[n].t)
    decreases n - m
  {
    if m < n {
      HistoryIsAppendOnly(env, ss, es, m, n - 1);
      RunKeepsInvariant(env, ss, es, n - 1);
      NextKeeps(env, ss[n - 1], es[n - 1]);
      ExtendsTransitive(ss[m].t, ss[n - 1].t, ss[n].t);
    }
  }

  // ---------- Authorisation ----------

  // Step `c` is a check that lets request `id` with message `msg` in.
  ghost predicate CheckedAt(env: Env, ss: seq<State>, es: seq<Event>, c: nat, id: nat, msg: ProtocolMessage) {
    c < |es| < |ss| && es[c].Check? && es[c].id == id && es[c].msg == msg
    && id !in ss[c].flights && Admitted(env, ss[c].t, msg, es[c].now)
  }

  ghost predicate InFlight(s: State, id: nat, msg: ProtocolMessage) {
    id in s.flights && s.flights[id].msg == msg
  }

  // Step `c` is the check of the very request `id` that is in flight at `n`: it has been in flight
  // at every moment since.
  ghost predicate OwnCheck(env: Env, ss: seq<State>, es: seq<Event>, c: nat, n: nat, id: nat, msg: ProtocolMessage) {
    c < n < |ss| && CheckedAt(env, ss, es, c, id, msg)
    && forall m | c < m <= n :: InFlight(ss[m], id, msg)
  }

  ghost predicate CheckedBefore(env: Env, ss: seq<State>, es: seq<Event>, n: nat, id: nat, msg: ProtocolMessage) {
    exists c: nat :: OwnCheck(env, ss, es, c, n, id, msg)
  }

  lemma {:induction false} FlightWasChecked(env: Env, ss: seq<State>, es: seq<Event>, n: nat, id: nat)
    requires IsRun(env, ss, es) && n < |ss| && id in ss[n].flights
    ensures CheckedBefore(env, ss, es, n, id, ss[n].flights[id].msg)
  {
    hide After, AfterShred, Admitted;
    if n > 0 {
      var s, e, msg := ss[n - 1], es[n - 1], ss[n].flights[id].msg;
      assert ss[n] == Next(env, s, e);
      if id in s.flights {
        FlightWasChecked(env, ss, es, n - 1, id);
        var c: nat :| OwnCheck(env, ss, es, c, n - 1, id, msg);
        assert OwnCheck(env, ss, es, c, n, id, msg);
      } else {
        assert OwnCheck(env, ss, es, n - 1, n, id, msg);
      }
    }
  }

  lemma {:induction false} FlightWasLogged(env: Env, ss: seq<State>, es: seq<Event>, n: nat, id: nat)
    requires IsRun(env, ss, es) && n < |ss| && id in ss[n].flights && ss[n].flights[id].Submitted?
    ensures Entry(SignedPart(ss[n].flights[id].msg), ss[n].flights[id].root) in ss[n].log
  {
    if n > 0 {
      var s, e := ss[n - 1], es[n - 1];
      assert ss[n] == Next(env, s, e);
      if id in s.flights && s.flights[id] == ss[n].flights[id] {
        FlightWasLogged(env, ss, es, n - 1, id);
        assert s.log <= ss[n].log;
      } else {
        assert ss[n].log[|s.log|] == Entry(SignedPart(ss[n].flights[id].msg), ss[n].flights[id].root);
      }
    }
  }

  // Step `r` is the transaction of a request that was checked and that the log has.
  ghost predicate TransactsAt(env: Env, ss: seq<State>, es: seq<Event>, r: nat) {
    && r < |es| && |es| < |ss| && es[r].Transact?
    && es[r].id in ss[r].flights && ss[r].flights[es[r].id].Submitted?
    && var f := ss[r].flights[es[r].id];
       Entry(SignedPart(f.msg), f.root) in ss[r].log && CheckedBefore(env, ss, es, r, es[r].id, f.msg)
  }

  lemma StepTransacts(env: Env, ss: seq<State>, es: seq<Event>, r: nat)
    requires IsRun(env, ss, es) && r < |es| && es[r].Transact?
    requires es[r].id in ss[r].flights && ss[r].flights[es[r].id].Submitted?
    ensures TransactsAt(env, ss, es, r)
  {
    FlightWasChecked(env, ss, es, r, es[r].id);
    FlightWasLogged(env, ss, es, r, es[r].id);
  }

  // Step `r` inserts key row `i`: a logged AddKey, authorised when it was checked, asked for
  // this very text under a name that now resolves to the row's owner.
  ghost predicate InsertsKeyAt(env: Env, ss: seq<State>, es: seq<Event>, r: nat, i: nat) {
    && TransactsAt(env, ss, es, r)
    && |ss[r].t.keys| == i < |ss[r + 1].t.keys|
    && var f, k := ss[r].flights[es[r].id], ss[r + 1].t.keys[i];
    && k.merkleRoot == f.root
    && var p := PayloadOf(env, SignedPart(f.msg));
    && p.Some? && p.value.AddKey? && p.value.publicKey == k.publicKey
    && ActorId(ss[r + 1].t, p.value.actor) == Some(k.actor)
    && AuthorisedAtCheck(env, ss, es, r, es[r].id, f.msg, p.value.actor, k.publicKey)
  }

  // The request was authorised at its own check.
  ghost predicate AuthorisedAtCheck(env: Env, ss: seq<State>, es: seq<Event>, r: nat, id: nat, msg: ProtocolMessage,
                                    actor: string, publicKey: string)
  {
    exists c: nat :: OwnCheck(env, ss, es, c, r, id, msg) && Authorised(env, ss[c].t, msg, actor, publicKey)
  }

  ghost predicate InsertedBefore(env: Env, ss: seq<State>, es: seq<Event>, n: nat, i: nat) {
    exists r: nat :: r < n && InsertsKeyAt(env, ss, es, r, i)
  }

  // Only an AddKey lengthens the key table, and by one live row.
  lemma GrowthIsAddKey(env: Env, t: Tables, msg: ProtocolMessage, root: string, o: Oracle)
    requires Valid(t) && |After(env, t, msg, root, o).keys| > |t.keys|
    ensures var t', p := After(env, t, msg, root, o), PayloadOf(env, SignedPart(msg));
            && p.Some? && p.value.AddKey? && |t'.keys| == |t.keys| + 1
            && t'.keys[..|t.keys|] == t.keys
            && var k := t'.keys[|t.keys|];
               k.revokedAt.None? && k.publicKey == p.value.publicKey && k.merkleRoot == root
               && ActorId(t', p.value.actor) == Some(k.actor)
               && k.actor == GetOrCreateActor(t, p.value.actor).1
  {
    hide AddKeyTx, RevokeKeyTx, MoveIdentityTx, BurnDownTx, AddAuxDataTx, RevokeAuxDataTx, SetFireproof;
    var p := PayloadOf(env, SignedPart(msg)).value;
    match p {
      case AddKey(actor, publicKey) =>
        AddKeyTxEffect(t, actor, publicKey, root, o.newId, DecodeDisclosed(msg.symmetricKeys).value);
      case RevokeKey(actor, publicKey) =>
        RevokeKeyTxEffect(t, actor, publicKey, root, DecodeDisclosed(msg.symmetricKeys).value, o.now, o.pick);
      case MoveIdentity(oldActor, newActor) => MoveIdentityTxEffect(t, oldActor, newActor);
      case BurnDown(actor, _) => BurnDownTxEffect(t, actor, root, o.now);
      case Fireproof(actor) => SetFireproofEffect(t, actor, true);
      case UndoFireproof(actor) => SetFireproofEffect(t, actor, false);
      case AddAuxData(actor, auxType, auxData) => AddAuxDataTxEffect(t, actor, auxType, auxData, root, o.newId);
      case RevokeAuxData(actor, auxId) => RevokeAuxDataTxEffect(t, actor, auxId, root, o.now);
    }
  }

  lemma CheckedAddKeyWasAuthorised(env: Env, ss: seq<State>, es: seq<Event>, r: nat, id: nat, msg: ProtocolMessage)
    requires r < |ss| && CheckedBefore(env, ss, es, r, id, msg)
    requires var p := PayloadOf(env, SignedPart(msg)); p.Some? && p.value.AddKey?
    ensures var p := PayloadOf(env, SignedPart(msg)).value;
            AuthorisedAtCheck(env, ss, es, r, id, msg, p.actor, p.publicKey)
  {
    var p := PayloadOf(env, SignedPart(msg)).value;
    var c: nat :| OwnCheck(env, ss, es, c, r, id, msg);
    AddKeyAllowedMeans(env, ss[c].t, msg, p.actor, p.publicKey);
  }

  // Every key row of every run was inserted by a checked and logged AddKey for it.
  lemma {:induction false} EveryKeyWasAuthorised(env: Env, ss: seq<State>, es: seq<Event>, n: nat, i: nat)
    requires IsRun(env, ss, es) && n < |ss| && i < |ss[n].t.keys|
    ensures InsertedBefore(env, ss, es, n, i)
  {
    hide After, Admitted;
    assert n > 0;
    var s, e := ss[n - 1], es[n - 1];
    assert ss[n] == Next(env, s, e);
    RunKeepsInvariant(env, ss, es, n - 1);
    if i < |s.t.keys| {
      EveryKeyWasAuthorised(env, ss, es, n - 1, i);
    } else {
      var f := s.flights[e.id];
      GrowthIsAddKey(env, s.t, f.msg, f.root, e.oracle);
      StepTransacts(env, ss, es, n - 1);
      CheckedAddKeyWasAuthorised(env, ss, es, n - 1, e.id, f.msg);
      assert InsertsKeyAt(env, ss, es, n - 1, i);
    }
  }

  // ---------- The log leads every revocation ----------

  // Step `r` revokes key row `i`: a logged RevokeKey of this very text or a logged BurnDown, for
  // a name that resolved to the row's owner, or an administrator's crypto-shred of that name.
  ghost predicate RevokesKeyAt(env: Env, ss: seq<State>, es: seq<Event>, r: nat, i: nat) {
    && r < |es| && |es| < |ss| && Live(ss[r].t, i) && i < |ss[r + 1].t.keys|
    && var k, k' := ss[r].t.keys[i], ss[r + 1].t.keys[i];
    && if es[r].Shred? then
         && ActorId(ss[r].t, es[r].actor) == Some(k.actor)
         && k' == MarkKey(k, AdminRoot(es[r].actor, es[r].nanos), es[r].oracle.now)
       else
         && TransactsAt(env, ss, es, r)
         && var f := ss[r].flights[es[r].id];
         && k' == MarkKey(k, f.root, es[r].oracle.now)
         && var p := PayloadOf(env, SignedPart(f.msg));
         && p.Some?
         && (p.value.RevokeKey? || p.value.BurnDown?)
         && (p.value.RevokeKey? ==> p.value.publicKey == k.publicKey)
         && ActorId(ss[r].t, p.value.actor) == Some(k.actor)
  }

  ghost predicate RevokedBefore(env: Env, ss: seq<State>, es: seq<Event>, n: nat, i: nat) {
    exists r: nat :: r < n && RevokesKeyAt(env, ss, es, r, i)
  }

  // What a transaction may do to one live key row.
  lemma LossIsRevocation(env: Env, t: Tables, msg: ProtocolMessage, root: string, o: Oracle, i: nat)
    requires Valid(t) && Live(t, i) && !Live(After(env, t, msg, root, o), i)
    ensures var t', p := After(env, t, msg, root, o), PayloadOf(env, SignedPart(msg));
            && p.Some? && (p.value.RevokeKey? || p.value.BurnDown?)
            && i < |t'.keys| && t'.keys[i] == MarkKey(t.keys[i], root, o.now)
            && (p.value.RevokeKey? ==> p.value.publicKey == t.keys[i].publicKey)
            && ActorId(t, p.value.actor) == Some(t.keys[i].actor)
  {
    hide AddKeyTx, RevokeKeyTx, MoveIdentityTx, BurnDownTx, AddAuxDataTx, RevokeAuxDataTx, SetFireproof;
    var p := PayloadOf(env, SignedPart(msg)).value;
    match p {
      case AddKey(actor, publicKey) =>
        AddKeyTxEffect(t, actor, publicKey, root, o.newId, DecodeDisclosed(msg.symmetricKeys).value);
      case RevokeKey(actor, publicKey) =>
        RevokeKeyTxEffect(t, actor, publicKey, root, DecodeDisclosed(msg.symmetricKeys).value, o.now, o.pick);
      case MoveIdentity(oldActor, newActor) => MoveIdentityTxEffect(t, oldActor, newActor);
      case BurnDown(actor, _) => BurnDownTxEffect(t, actor, root, o.now);
      case Fireproof(actor) => SetFireproofEffect(t, actor, true);
      case UndoFireproof(actor) => SetFireproofEffect(t, actor, false);
      case AddAuxData(actor, auxType, auxData) => AddAuxDataTxEffect(t, actor, auxType, auxData, root, o.newId);
      case RevokeAuxData(actor, auxId) => RevokeAuxDataTxEffect(t, actor, auxId, root, o.now);
    }
  }

  lemma ShredLossIsRevocation(t: Tables, actor: string, nanos: int, o: Oracle, i: nat)
    requires Valid(t) && Live(t, i) && !Live(AfterShred(t, actor, nanos, o), i)
    ensures var t' := AfterShred(t, actor, nanos, o);
            && i < |t'.keys| && t'.keys[i] == MarkKey(t.keys[i], AdminRoot(actor, nanos), o.now)
            && ActorId(t, actor) == Some(t.keys[i].actor)
  {
  }

  lemma StepRevokes(env: Env, ss: seq<State>, es: seq<Event>, r: nat, i: nat)
    requires IsRun(env, ss, es) && r < |es| && Live(ss[r].t, i) && !Live(ss[r + 1].t, i)
    ensures RevokesKeyAt(env, ss, es, r, i)
  {
    RunKeepsInvariant(env, ss, es, r);
    var s, e := ss[r], es[r];
    assert ss[r + 1] == Next(env, s, e);
    if e.Shred? {
      ShredLossIsRevocation(s.t, e.actor, e.nanos, e.oracle, i);
    } else {
      assert e.Transact?;
      var f := s.flights[e.id];
      LossIsRevocation(env, s.t, f.msg, f.root, e.oracle, i);
      StepTransacts(env, ss, es, r);
    }
  }

  // Every revocation of every run was asked of the log first, or was an administrator's.
  lemma {:induction false} EveryRevocationWasLogged(env: Env, ss: seq<State>, es: seq<Event>, n: nat, i: nat)
    requires IsRun(env, ss, es) && n < |ss| && i < |ss[n].t.keys| && !Live(ss[n].t, i)
    ensures RevokedBefore(env, ss, es, n, i)
  {
    assert n > 0;
    if i >= |ss[n - 1].t.keys| {
      NewKeyIsLive(env, ss, es, n - 1, i);
    } else if Live(ss[n - 1].t, i) {
      StepRevokes(env, ss, es, n - 1, i);
    } else {
      EveryRevocationWasLogged(env, ss, es, n - 1, i);
    }
  }

  lemma NewKeyIsLive(env: Env, ss: seq<State>, es: seq<Event>, r: nat, i: nat)
    requires IsRun(env, ss, es) && r < |es| && |ss[r].t.keys| <= i < |ss[r + 1].t.keys|
    ensures Live(ss[r + 1].t, i)
  {
    hide After, Admitted;
    RunKeepsInvariant(env, ss, es, r);
    var s, e := ss[r], es[r];
    assert ss[r + 1] == Next(env, s, e);
    var f := s.flights[e.id];
    GrowthIsAddKey(env, s.t, f.msg, f.root, e.oracle);
  }

  // ---------- Crypto-shredding is complete ----------

  // Step `r` stores symmetric keys under `root` on behalf of actor row `a`: a successful AddKey or
  // RevokeKey for a name that then belongs to the row.
  ghost predicate StoresFor(env: Env, ss: seq<State>, es: seq<Event>, r: nat, a: nat, root: string) {
    && TransactsAt(env, ss, es, r) && es[r].oracle.healthy
    && var f := ss[r].flights[es[r].id];
    && f.root == root
    && var p := PayloadOf(env, SignedPart(f.msg));
    && p.Some? && (p.value.AddKey? || p.value.RevokeKey?)
    && Effect(env, ss[r].t, f.msg, p.value, root, es[r].oracle).Success?
    && ActorId(ss[r + 1].t, p.value.actor) == Some(a)
  }

  // Step `n` burns actor row `a` down, under whatever name the row then has.
  ghost predicate Burns(env: Env, ss: seq<State>, es: seq<Event>, n: nat, a: nat) {
    && n < |es| && |es| < |ss|
    && if es[n].Shred? then
         es[n].actor != "" && es[n].oracle.healthy && ActorId(ss[n].t, es[n].actor) == Some(a)
       else
         && TransactsAt(env, ss, es, n) && es[n].oracle.healthy
         && var p := PayloadOf(env, SignedPart(ss[n].flights[es[n].id].msg));
         && p.Some? && p.value.BurnDown? && ActorId(ss[n].t, p.value.actor) == Some(a)
  }

  lemma BurnEffect(env: Env, ss: seq<State>, es: seq<Event>, n: nat, a: nat)
    requires IsRun(env, ss, es) && Burns(env, ss, es, n, a)
    ensures !HasLive(ss[n + 1].t, a)
    ensures forall p :: p in ss[n + 1].t.symmetricKeys
              <==> p in ss[n].t.symmetricKeys && !Records(ss[n].t, a, p.0)
  {
    RunKeepsInvariant(env, ss, es, n);
    assert ss[n + 1] == Next(env, ss[n], es[n]);
    if es[n].Shred? {
      BurnDownTxEffect(ss[n].t, es[n].actor, AdminRoot(es[n].actor, es[n].nanos), es[n].oracle.now);
    } else {
      var f := ss[n].flights[es[n].id];
      BurnDownTxEffect(ss[n].t, PayloadOf(env, SignedPart(f.msg)).value.actor, f.root, es[n].oracle.now);
    }
  }

  lemma EffectRecordsRoot(env: Env, t: Tables, msg: ProtocolMessage, p: Payload, root: string, o: Oracle, a: nat)
    requires Valid(t) && (p.AddKey? || p.RevokeKey?) && Effect(env, t, msg, p, root, o).Success?
    requires ActorId(Effect(env, t, msg, p, root, o).value, p.actor) == Some(a)
    ensures Records(Effect(env, t, msg, p, root, o).value, a, root)
  {
    var t' := Effect(env, t, msg, p, root, o).value;
    var disclosed := DecodeDisclosed(msg.symmetricKeys).value;
    match p {
      case AddKey(actor, publicKey) =>
        AddKeyTxEffect(t, actor, publicKey, root, o.newId, disclosed);
        assert t'.keys[|t.keys|].merkleRoot == root && t'.keys[|t.keys|].actor == a;
      case RevokeKey(actor, publicKey) =>
        RevokeKeyTxEffect(t, actor, publicKey, root, disclosed, o.now, o.pick);
        var i := FindKeyToRevoke(t, actor, publicKey, o.pick).value;
        assert t'.keys[i].revokeRoot == Some(root) && t'.keys[i].actor == a;
    }
  }

  lemma StoredRootIsRecorded(env: Env, ss: seq<State>, es: seq<Event>, r: nat, a: nat, root: string)
    requires IsRun(env, ss, es) && StoresFor(env, ss, es, r, a, root)
    ensures Records(ss[r + 1].t, a, root)
  {
    RunKeepsInvariant(env, ss, es, r);
    assert ss[r + 1] == Next(env, ss[r], es[r]);
    var msg := ss[r].flights[es[r].id].msg;
    EffectRecordsRoot(env, ss[r].t, msg, PayloadOf(env, SignedPart(msg)).value, root, es[r].oracle, a);
  }

  // After a BurnDown or CryptoShred of an actor row, nothing is left of any symmetric key that any
  // earlier AddKey or RevokeKey of that row disclosed, however often the row was renamed since.
  lemma ShreddingIsComplete(env: Env, ss: seq<State>, es: seq<Event>, r: nat, n: nat, a: nat, root: string)
    requires IsRun(env, ss, es) && r < n
    requires StoresFor(env, ss, es, r, a, root) && Burns(env, ss, es, n, a)
    ensures forall attribute: string :: (root, attribute) !in ss[n + 1].t.symmetricKeys
  {
    StoredRootIsRecorded(env, ss, es, r, a, root);
    RunKeepsInvariant(env, ss, es, r + 1);
    HistoryIsAppendOnly(env, ss, es, r + 1, n);
    RecordsKept(ss[r + 1].t, ss[n].t, a, root);
    BurnEffect(env, ss, es, n, a);
    forall attribute: string ensures (root, attribute) !in ss[n + 1].t.symmetricKeys {
      assert (root, attribute).0 == root;
    }
  }
}
