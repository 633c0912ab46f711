// Overlapping requests. A handler's checks are made before, and outside, the transaction that relies
// on them; here is exactly when an AddKey or RevokeKey still does no harm at its transaction.
module Overlap {
  import opened Wrappers
  import opened Protocol
  import opened Signing
  import opened Tables
  import opened Transactions
  import opened Actions
  import opened Interleaved
  import L = LockOut
  import P = Provenance

  // ---------- Lock-outs, one transaction at a time ----------

  // Actor row `a` has a live key other than row `i` whose text is an Ed25519 public key.
  ghost predicate OtherUsable(t: Tables, a: nat, i: nat) {
    exists k: nat :: Live(t, k) && k != i && t.keys[k].actor == a && DecodePublicKey(t.keys[k].publicKey).Some?
  }

  // A RevokeKey leaves its actor usable exactly when another live row than the one found decodes.
  lemma RevokeKeyLeavesUsableIff(t: Tables, actor: string, publicKey: string, root: string,
                                 disclosed: map<string, Bytes>, now: nat, pick: nat)
    requires Valid(t) && RevokeKeyTx(t, actor, publicKey, root, disclosed, now, pick).Success?
    ensures ActorId(t, actor).Some? && FindKeyToRevoke(t, actor, publicKey, pick).Some?
    ensures var a, i := ActorId(t, actor).value, FindKeyToRevoke(t, actor, publicKey, pick).value;
            L.Usable(RevokeKeyTx(t, actor, publicKey, root, disclosed, now, pick).value, a) <==> OtherUsable(t, a, i)
  {
    var t' := RevokeKeyTx(t, actor, publicKey, root, disclosed, now, pick).value;
    RevokeKeyTxEffect(t, actor, publicKey, root, disclosed, now, pick);
    var i := FindKeyToRevoke(t, actor, publicKey, pick).value;
    hide RevokeKeyTx, Valid, Extends, FindKeyToRevoke, DecodePublicKey;
    MarkedRowUsable(t, t', ActorId(t, actor).value, i, MarkKey(t.keys[i], root, now));
  }

  lemma MarkedRowUsable(t: Tables, t': Tables, a: nat, i: nat, k: KeyRow)
    requires i < |t.keys| && t'.keys == t.keys[i := k] && k.revokedAt.Some?
    ensures L.Usable(t', a) <==> OtherUsable(t, a, i)
  {
    hide DecodePublicKey;
    if L.Usable(t', a) {
      var j: nat :| Live(t', j) && t'.keys[j].actor == a && DecodePublicKey(t'.keys[j].publicKey).Some?;
      assert Live(t, j) && j != i;
    }
    if OtherUsable(t, a, i) {
      var j: nat :| Live(t, j) && j != i && t.keys[j].actor == a && DecodePublicKey(t.keys[j].publicKey).Some?;
      assert Live(t', j);
    }
  }

  // An AddKey leaves its owner usable exactly when the owner was usable or the new text decodes.
  lemma AddKeyLeavesUsableIff(t: Tables, actor: string, publicKey: string, root: string, keyId: string,
                              disclosed: map<string, Bytes>)
    requires Valid(t) && AddKeyTx(t, actor, publicKey, root, keyId, disclosed).Success?
    ensures var a := GetOrCreateActor(t, actor).1;
            L.Usable(AddKeyTx(t, actor, publicKey, root, keyId, disclosed).value, a)
            <==> L.Usable(t, a) || DecodePublicKey(publicKey).Some?
  {
    var t' := AddKeyTx(t, actor, publicKey, root, keyId, disclosed).value;
    AddKeyTxEffect(t, actor, publicKey, root, keyId, disclosed);
    hide AddKeyTx, Valid, Extends, GetOrCreateActor, DecodePublicKey;
    AppendedRowUsable(t, t', t'.keys[|t.keys|]);
  }

  lemma AppendedRowUsable(t: Tables, t': Tables, k: KeyRow)
    requires t'.keys == t.keys + [k] && k.revokedAt.None?
    ensures L.Usable(t', k.actor) <==> L.Usable(t, k.actor) || DecodePublicKey(k.publicKey).Some?
  {
    hide DecodePublicKey;
    assert Live(t', |t.keys|);
    if L.Usable(t', k.actor) {
      var j: nat :| Live(t', j) && t'.keys[j].actor == k.actor && DecodePublicKey(t'.keys[j].publicKey).Some?;
      assert j < |t.keys| ==> Live(t, j);
    }
    if L.Usable(t, k.actor) {
      var j: nat :| Live(t, j) && t.keys[j].actor == k.actor && DecodePublicKey(t.keys[j].publicKey).Some?;
      assert Live(t', j);
    }
  }

  // ---------- Lock-outs over whole runs ----------

  // What an AddKey or RevokeKey would have to look at again inside its transaction.
  ghost predicate LeavesUsable(env: Env, t: Tables, msg: ProtocolMessage, root: string, o: Oracle) {
    match PayloadOf(env, SignedPart(msg))
    case Some(AddKey(actor, publicKey)) =>
      o.healthy && Effect(env, t, msg, AddKey(actor, publicKey), root, o).Success? ==>
        L.Usable(t, GetOrCreateActor(t, actor).1) || DecodePublicKey(publicKey).Some?
    case Some(RevokeKey(actor, publicKey)) =>
      o.healthy && Effect(env, t, msg, RevokeKey(actor, publicKey), root, o).Success? ==>
        ActorId(t, actor).Some? && FindKeyToRevoke(t, actor, publicKey, o.pick).Some?
        && OtherUsable(t, ActorId(t, actor).value, FindKeyToRevoke(t, actor, publicKey, o.pick).value)
    case _ => true
  }

  ghost predicate Transacts(ss: seq<State>, es: seq<Event>, r: nat) {
    r < |es| && |es| < |ss| && es[r].Transact? && es[r].id in ss[r].flights && ss[r].flights[es[r].id].Submitted?
  }

  ghost predicate GuardedAt(env: Env, ss: seq<State>, es: seq<Event>, r: nat) {
    Transacts(ss, es, r) ==>
      LeavesUsable(env, ss[r].t, ss[r].flights[es[r].id].msg, ss[r].flights[es[r].id].root, es[r].oracle)
  }

  ghost predicate Guarded(env: Env, ss: seq<State>, es: seq<Event>) {
    forall r: nat | r < |es| :: GuardedAt(env, ss, es, r)
  }

  // Step `r` takes the last usable key of `a` without burning `a` down.
  ghost predicate LocksOutAt(env: Env, ss: seq<State>, es: seq<Event>, r: nat, a: nat) {
    r < |es| && |es| < |ss| && L.Usable(ss[r].t, a) && !L.Usable(ss[r + 1].t, a) && !Burns(env, ss, es, r, a)
  }

  // Whoever has a live key has a usable one, at every moment, and loses the last only by burning.
  ghost predicate LocksNobodyOut(env: Env, ss: seq<State>, es: seq<Event>) {
    && (forall n: nat | n < |ss| :: L.NobodyLockedOut(ss[n].t))
    && (forall r: nat, a: nat :: !LocksOutAt(env, ss, es, r, a))
  }

  // The payload burns actor row `a` down.
  ghost predicate BurnsActor(env: Env, t: Tables, msg: ProtocolMessage, o: Oracle, a: nat) {
    var p := PayloadOf(env, SignedPart(msg));
    o.healthy && p.Some? && p.value.BurnDown? && ActorId(t, p.value.actor) == Some(a)
  }

  lemma UsableKept(t: Tables, t': Tables, a: nat)
    requires L.SameKeysOf(t, t', a) && L.Usable(t, a)
    ensures L.Usable(t', a)
  {
    hide DecodePublicKey;
    var i: nat :| Live(t, i) && t.keys[i].actor == a && DecodePublicKey(t.keys[i].publicKey).Some?;
    assert Live(t', i);
  }

  lemma AddKeyLocksNobodyOut(env: Env, t: Tables, msg: ProtocolMessage, root: string, o: Oracle)
    requires Valid(t) && L.NobodyLockedOut(t) && LeavesUsable(env, t, msg, root, o)
    requires var p := PayloadOf(env, SignedPart(msg));
             o.healthy && p.Some? && p.value.AddKey? && Effect(env, t, msg, p.value, root, o).Success?
    ensures L.NobodyLockedOut(After(env, t, msg, root, o))
    ensures forall a: nat | L.Usable(t, a) :: L.Usable(After(env, t, msg, root, o), a)
  {
    var p := PayloadOf(env, SignedPart(msg)).value;
    var t' := After(env, t, msg, root, o);
    AddKeyTxEffect(t, p.actor, p.publicKey, root, o.newId, DecodeDisclosed(msg.symmetricKeys).value);
    var k := t'.keys[|t.keys|];
    UsableIsLive(t, k.actor);
    hide After, Effect, AddKeyTx, DecodePublicKey, GetOrCreateActor, Valid, Extends, PayloadOf, L.NobodyLockedOut, L.Usable;
    L.AppendedKeyKeeps(t, t', k);
    forall a: nat | L.Usable(t, a) ensures L.Usable(t', a) {
      UsableGrows(t, t', k, a);
    }
  }

  lemma UsableGrows(t: Tables, t': Tables, k: KeyRow, a: nat)
    requires t'.keys == t.keys + [k] && L.Usable(t, a)
    ensures L.Usable(t', a)
  {
    hide DecodePublicKey;
    var j: nat :| Live(t, j) && t.keys[j].actor == a && DecodePublicKey(t.keys[j].publicKey).Some?;
    assert Live(t', j);
  }

  lemma UsableIsLive(t: Tables, a: nat)
    ensures L.Usable(t, a) ==> HasLive(t, a)
  {
  }

  lemma RevokeKeyLocksNobodyOut(env: Env, t: Tables, msg: ProtocolMessage, root: string, o: Oracle)
    requires Valid(t) && L.NobodyLockedOut(t) && LeavesUsable(env, t, msg, root, o)
    requires var p := PayloadOf(env, SignedPart(msg));
             o.healthy && p.Some? && p.value.RevokeKey? && Effect(env, t, msg, p.value, root, o).Success?
    ensures L.NobodyLockedOut(After(env, t, msg, root, o))
    ensures forall a: nat | L.Usable(t, a) :: L.Usable(After(env, t, msg, root, o), a)
  {
    var p := PayloadOf(env, SignedPart(msg)).value;
    var t' := After(env, t, msg, root, o);
    RevokeKeyTxEffect(t, p.actor, p.publicKey, root, DecodeDisclosed(msg.symmetricKeys).value, o.now, o.pick);
    var i := FindKeyToRevoke(t, p.actor, p.publicKey, o.pick).value;
    hide After, Effect, RevokeKeyTx, DecodePublicKey, Valid, Extends, PayloadOf, L.NobodyLockedOut, L.Usable;
    MarkedRowLocksNobodyOut(t, t', i, MarkKey(t.keys[i], root, o.now));
  }

  lemma MarkedRowLocksNobodyOut(t: Tables, t': Tables, i: nat, row: KeyRow)
    requires L.NobodyLockedOut(t) && Live(t, i) && OtherUsable(t, t.keys[i].actor, i)
    requires t'.keys == t.keys[i := row] && row.actor == t.keys[i].actor
    ensures L.NobodyLockedOut(t') && forall a: nat | L.Usable(t, a) :: L.Usable(t', a)
  {
    hide DecodePublicKey;
    var k: nat :| Live(t, k) && k != i && t.keys[k].actor == row.actor && DecodePublicKey(t.keys[k].publicKey).Some?;
    L.MarkedKeyKeeps(t, t', i, k);
    forall b: nat | L.Usable(t, b) ensures L.Usable(t', b) {
      if b == row.actor {
        assert Live(t', k);
      } else {
        UsableKept(t, t', b);
      }
    }
  }

  lemma BurnDownLocksOthersNotOut(t: Tables, actor: string, root: string, now: nat)
    requires Valid(t) && L.NobodyLockedOut(t) && BurnDownTx(t, actor, root, now).Success?
    ensures L.NobodyLockedOut(BurnDownTx(t, actor, root, now).value)
    ensures forall a: nat | L.Usable(t, a) && ActorId(t, actor) != Some(a) :: L.Usable(BurnDownTx(t, actor, root, now).value, a)
  {
    L.BurnDownKeeps(t, actor, root, now);
    BurnDownTxEffect(t, actor, root, now);
    var t' := BurnDownTx(t, actor, root, now).value;
    hide BurnDownTx, L.NobodyLockedOut, Valid, Extends;
    forall a: nat | L.Usable(t, a) && ActorId(t, actor) != Some(a) ensures L.Usable(t', a) {
      UsableKept(t, t', a);
    }
  }

  lemma GuardedTransactionLocksNobodyOut(env: Env, t: Tables, msg: ProtocolMessage, root: string, o: Oracle)
    requires Valid(t) && L.NobodyLockedOut(t) && LeavesUsable(env, t, msg, root, o)
    ensures L.NobodyLockedOut(After(env, t, msg, root, o))
    ensures forall a: nat | L.Usable(t, a) && !BurnsActor(env, t, msg, o, a) :: L.Usable(After(env, t, msg, root, o), a)
  {
    hide AddKeyTx, RevokeKeyTx, BurnDownTx, MoveIdentityTx, AddAuxDataTx, RevokeAuxDataTx, SetFireproof;
    hide LeavesUsable, L.NobodyLockedOut, L.Usable, Valid;
    var q := PayloadOf(env, SignedPart(msg));
    if q.Some? && o.healthy && Effect(env, t, msg, q.value, root, o).Success? {
      match q.value {
        case AddKey(_, _) => AddKeyLocksNobodyOut(env, t, msg, root, o);
        case RevokeKey(_, _) => RevokeKeyLocksNobodyOut(env, t, msg, root, o);
        case BurnDown(actor, _) => BurnDownLocksOthersNotOut(t, actor, root, o.now);
        case p =>
          L.OtherEffectsKeepKeys(env, t, msg, p, root, o);
          L.SameKeysEverywhere(t, After(env, t, msg, root, o));
          forall a: nat | L.Usable(t, a) ensures L.Usable(After(env, t, msg, root, o), a) {
            UsableKept(t, After(env, t, msg, root, o), a);
          }
      }
    }
  }

  lemma GuardedStepLocksNobodyOut(env: Env, ss: seq<State>, es: seq<Event>, r: nat)
    requires IsRun(env, ss, es) && r < |es| && GuardedAt(env, ss, es, r) && L.NobodyLockedOut(ss[r].t)
    ensures L.NobodyLockedOut(ss[r + 1].t) && forall a: nat :: !LocksOutAt(env, ss, es, r, a)
  {
    hide After, LeavesUsable, L.NobodyLockedOut, L.Usable, BurnDownTx, Admitted;
    RunKeepsInvariant(env, ss, es, r);
    var s, e := ss[r], es[r];
    assert ss[r + 1] == Next(env, s, e);
    if Transacts(ss, es, r) {
      var f := s.flights[e.id];
      GuardedTransactionLocksNobodyOut(env, s.t, f.msg, f.root, e.oracle);
      StepTransacts(env, ss, es, r);
    } else if e.Shred? && e.actor != "" && e.oracle.healthy {
      if BurnDownTx(s.t, e.actor, AdminRoot(e.actor, e.nanos), e.oracle.now).Success? {
        BurnDownLocksOthersNotOut(s.t, e.actor, AdminRoot(e.actor, e.nanos), e.oracle.now);
      }
    }
  }

  lemma {:induction false} GuardedRunLocksNobodyOut(env: Env, ss: seq<State>, es: seq<Event>, n: nat)
    requires IsRun(env, ss, es) && Guarded(env, ss, es) && n < |ss|
    ensures L.NobodyLockedOut(ss[n].t)
  {
    hide GuardedAt, Next;
    if n == 0 {
      L.EmptyLocksNobodyOut();
    } else {
      GuardedRunLocksNobodyOut(env, ss, es, n - 1);
      assert GuardedAt(env, ss, es, n - 1);
      GuardedStepLocksNobodyOut(env, ss, es, n - 1);
    }
  }

  // A transaction that fails its guard locks its actor out.
  lemma UnguardedStepLocksOut(env: Env, ss: seq<State>, es: seq<Event>, r: nat) returns (a: nat)
    requires IsRun(env, ss, es) && r < |es| && !GuardedAt(env, ss, es, r) && L.NobodyLockedOut(ss[r].t)
    ensures !L.NobodyLockedOut(ss[r + 1].t) || LocksOutAt(env, ss, es, r, a)
  {
    RunKeepsInvariant(env, ss, es, r);
    assert ss[r + 1] == Next(env, ss[r], es[r]);
    a := UnguardedTransactionLocksOut(env, ss[r].t, ss[r].flights[es[r].id].msg, ss[r].flights[es[r].id].root, es[r].oracle);
  }

  lemma UnguardedTransactionLocksOut(env: Env, t: Tables, msg: ProtocolMessage, root: string, o: Oracle) returns (a: nat)
    requires Valid(t) && L.NobodyLockedOut(t) && !LeavesUsable(env, t, msg, root, o)
    ensures var t' := After(env, t, msg, root, o);
            !L.Usable(t', a) && (HasLive(t', a) || L.Usable(t, a))
    ensures var p := PayloadOf(env, SignedPart(msg)); p.Some? && !p.value.BurnDown?
  {
    var p := PayloadOf(env, SignedPart(msg)).value;
    var t' := After(env, t, msg, root, o);
    var disclosed := DecodeDisclosed(msg.symmetricKeys).value;
    match p {
      case AddKey(actor, publicKey) =>
        a := GetOrCreateActor(t, actor).1;
        AddKeyLeavesUsableIff(t, actor, publicKey, root, o.newId, disclosed);
        AddKeyTxEffect(t, actor, publicKey, root, o.newId, disclosed);
        assert Live(t', |t.keys|);
      case RevokeKey(actor, publicKey) =>
        RevokeKeyLeavesUsableIff(t, actor, publicKey, root, disclosed, o.now, o.pick);
        a := ActorId(t, actor).value;
        assert Live(t, FindKeyToRevoke(t, actor, publicKey, o.pick).value);
        assert HasLive(t, a);
    }
  }

  // The exact condition: an interleaved run locks nobody out if and only if each of its AddKey and
  // RevokeKey transactions leaves its actor a usable key.
  lemma LocksNobodyOutIff(env: Env, ss: seq<State>, es: seq<Event>)
    requires IsRun(env, ss, es)
    ensures LocksNobodyOut(env, ss, es) <==> Guarded(env, ss, es)
  {
    hide GuardedAt, Next, L.NobodyLockedOut, LocksOutAt;
    if Guarded(env, ss, es) {
      forall n: nat | n < |ss| ensures L.NobodyLockedOut(ss[n].t) {
        GuardedRunLocksNobodyOut(env, ss, es, n);
      }
      forall r: nat, a: nat ensures !LocksOutAt(env, ss, es, r, a) {
        OutOfRangeLocksNobodyOut(env, ss, es, r, a);
        if r < |es| {
          GuardedStepLocksNobodyOut(env, ss, es, r);
        }
      }
    }
    if LocksNobodyOut(env, ss, es) {
      forall r: nat | r < |es| ensures GuardedAt(env, ss, es, r) {
        if !GuardedAt(env, ss, es, r) {
          var a := UnguardedStepLocksOut(env, ss, es, r);
        }
      }
    }
  }

  lemma OutOfRangeLocksNobodyOut(env: Env, ss: seq<State>, es: seq<Event>, r: nat, a: nat)
    ensures r >= |es| ==> !LocksOutAt(env, ss, es, r, a)
  {
  }

  // ---------- Sound insertions ----------

  function MessageOf(s: State, e: Event): Option<ProtocolMessage> {
    if e.Transact? && e.id in s.flights && s.flights[e.id].Submitted? then Some(s.flights[e.id].msg) else None
  }

  ghost function HistoryOf(ss: seq<State>, es: seq<Event>): P.History
    requires |ss| == |es| + 1
  {
    P.History(seq(|ss|, i requires 0 <= i < |ss| => ss[i].t),
              seq(|es|, i requires 0 <= i < |es| => MessageOf(ss[i], es[i])))
  }

  // Every run of overlapping requests is a history: key rows are appended one at a time.
  lemma RunIsHistory(env: Env, ss: seq<State>, es: seq<Event>)
    requires IsRun(env, ss, es)
    ensures P.IsHistory(HistoryOf(ss, es))
  {
    hide Next, Extends;
    var h := HistoryOf(ss, es);
    forall j: nat | j < |es|
      ensures Extends(h.ts[j], h.ts[j + 1]) && |h.ts[j + 1].keys| <= |h.ts[j].keys| + 1
      ensures |h.ts[j].keys| < |h.ts[j + 1].keys| ==> h.ms[j].Some?
    {
      RunKeepsInvariant(env, ss, es, j);
      NextKeeps(env, ss[j], es[j]);
      if |ss[j].t.keys| < |ss[j + 1].t.keys| {
        InsertionIsAddKey(env, ss, es, j);
      }
    }
  }

  ghost predicate InsertsKey(ss: seq<State>, es: seq<Event>, r: nat) {
    r < |es| && |ss| == |es| + 1 && |ss[r].t.keys| < |ss[r + 1].t.keys|
  }

  lemma InsertionIsAddKey(env: Env, ss: seq<State>, es: seq<Event>, r: nat)
    requires IsRun(env, ss, es) && InsertsKey(ss, es, r)
    ensures Transacts(ss, es, r)
    ensures var msg := ss[r].flights[es[r].id].msg;
            var t, t', p := ss[r].t, ss[r + 1].t, PayloadOf(env, SignedPart(msg));
            && p.Some? && p.value.AddKey? && |t'.keys| == |t.keys| + 1
            && var k := t'.keys[|t.keys|];
               k.publicKey == p.value.publicKey && k.actor == GetOrCreateActor(t, p.value.actor).1
  {
    hide After, Admitted;
    RunKeepsInvariant(env, ss, es, r);
    assert ss[r + 1] == Next(env, ss[r], es[r]);
    var f := ss[r].flights[es[r].id];
    GrowthIsAddKey(env, ss[r].t, f.msg, f.root, es[r].oracle);
  }

  // The AddKey rule, asked again of the tables the insertion is made in.
  ghost predicate RecheckedAt(env: Env, ss: seq<State>, es: seq<Event>, r: nat) {
    InsertsKey(ss, es, r) && Transacts(ss, es, r) ==>
      var msg := ss[r].flights[es[r].id].msg;
      var p := PayloadOf(env, SignedPart(msg));
      p.Some? && p.value.AddKey? && AddKeyAllowed(env, ss[r].t, msg, p.value.actor, p.value.publicKey)
  }

  ghost predicate Rechecked(env: Env, ss: seq<State>, es: seq<Event>) {
    forall r: nat | r < |es| :: RecheckedAt(env, ss, es, r)
  }

  // The rule for an actor's name is the rule for the row it resolves to.
  lemma AllowedForOwner(env: Env, t: Tables, msg: ProtocolMessage, actor: string, publicKey: string)
    requires Valid(t)
    ensures var a := GetOrCreateActor(t, actor).1;
            AddKeyAllowed(env, t, msg, actor, publicKey)
            <==> if HasLive(t, a) then SignedByLive(env, t, msg, a) else Signs(env, msg, publicKey)
  {
    AddKeyAllowedMeans(env, t, msg, actor, publicKey);
    GetOrCreateActorKeeps(t, actor);
    var a := GetOrCreateActor(t, actor).1;
    assert ActorId(t, actor).None? ==> !HasLive(t, a);
  }

  // At its transaction an inserted key is self-signed with no key of its owner live, or signed by
  // a row of its owner live then, exactly when the AddKey rule still holds.
  lemma SoundInsertionIff(env: Env, ss: seq<State>, es: seq<Event>, r: nat)
    requires IsRun(env, ss, es) && InsertsKey(ss, es, r)
    ensures var h, i := HistoryOf(ss, es), |ss[r].t.keys|;
            var a := ss[r + 1].t.keys[i].actor;
            P.InsertsAt(h, r, i, a) && (P.SoundAt(env, h, r, i, a) <==> RecheckedAt(env, ss, es, r))
  {
    hide Next, AddKeyAllowed, Signs;
    InsertionIsAddKey(env, ss, es, r);
    RunKeepsInvariant(env, ss, es, r);
    var msg := ss[r].flights[es[r].id].msg;
    var p := PayloadOf(env, SignedPart(msg)).value;
    AllowedForOwner(env, ss[r].t, msg, p.actor, p.publicKey);
    var h, i := HistoryOf(ss, es), |ss[r].t.keys|;
    SignedByLiveMeans(env, h, r, i, ss[r + 1].t.keys[i].actor);
  }

  lemma SignedByLiveMeans(env: Env, h: P.History, r: nat, i: nat, a: nat)
    requires P.InsertsAt(h, r, i, a)
    ensures P.SignedByEarlierAt(env, h, r, i, a) <==> SignedByLive(env, h.ts[r], h.ms[r].value, a)
    ensures SignedByLive(env, h.ts[r], h.ms[r].value, a) ==> HasLive(h.ts[r], a)
  {
    hide Signs;
    if SignedByLive(env, h.ts[r], h.ms[r].value, a) {
      var s: nat :| Live(h.ts[r], s) && h.ts[r].keys[s].actor == a && Signs(env, h.ms[r].value, h.ts[r].keys[s].publicKey);
      assert P.SignedByAt(env, h, r, i, a, s);
    }
  }

  ghost predicate OwnedLive(t: Tables, k: nat, a: nat) {
    Live(t, k) && t.keys[k].actor == a
  }

  // A live row of `a` besides row `i`.
  ghost predicate HasOther(t: Tables, a: nat, i: nat) {
    exists k: nat :: OwnedLive(t, k, a) && k != i
  }

  // Two roots: a key that no live key of its owner signed, beside a live key of its owner.
  ghost predicate SecondRootAt(env: Env, h: P.History, r: nat, i: nat, a: nat) {
    P.InsertsAt(h, r, i, a) && !P.SignedByEarlierAt(env, h, r, i, a)
    && HasOther(h.ts[r + 1], a, i)
  }

  // An AddKey that no live key of its owner signed opens a second root exactly when its owner has a
  // live key at the transaction.
  lemma SecondRootIff(env: Env, ss: seq<State>, es: seq<Event>, r: nat)
    requires IsRun(env, ss, es) && InsertsKey(ss, es, r)
    requires var i := |ss[r].t.keys|;
             !P.SignedByEarlierAt(env, HistoryOf(ss, es), r, i, ss[r + 1].t.keys[i].actor)
    ensures var i := |ss[r].t.keys|; var a := ss[r + 1].t.keys[i].actor;
            SecondRootAt(env, HistoryOf(ss, es), r, i, a) <==> HasLive(ss[r].t, a)
  {
    var h, t, t', i := HistoryOf(ss, es), ss[r].t, ss[r + 1].t, |ss[r].t.keys|;
    var a := t'.keys[i].actor;
    InsertionIsAddKey(env, ss, es, r);
    RunKeepsInvariant(env, ss, es, r);
    OldRowsStay(env, ss, es, r);
    hide Next, P.SignedByEarlierAt, IsRun, HasLive, OwnedLive;
    OthersAfterAppend(t, t', a);
  }

  lemma OthersAfterAppend(t: Tables, t': Tables, a: nat)
    requires |t'.keys| == |t.keys| + 1 && t'.keys[..|t.keys|] == t.keys
    ensures HasOther(t', a, |t.keys|) <==> HasLive(t, a)
  {
    assert forall k | 0 <= k < |t.keys| :: t'.keys[k] == t.keys[k];
    if HasLive(t, a) {
      var k: nat :| Live(t, k) && t.keys[k].actor == a;
      assert OwnedLive(t', k, a);
    }
    forall k: nat | OwnedLive(t', k, a) && k != |t.keys| ensures HasLive(t, a) {
      assert Live(t, k);
    }
  }

  lemma OldRowsStay(env: Env, ss: seq<State>, es: seq<Event>, r: nat)
    requires IsRun(env, ss, es) && InsertsKey(ss, es, r)
    ensures ss[r + 1].t.keys[..|ss[r].t.keys|] == ss[r].t.keys
  {
    hide After, Admitted;
    InsertionIsAddKey(env, ss, es, r);
    RunKeepsInvariant(env, ss, es, r);
    assert ss[r + 1] == Next(env, ss[r], es[r]);
    var f := ss[r].flights[es[r].id];
    GrowthIsAddKey(env, ss[r].t, f.msg, f.root, es[r].oracle);
  }

  // The exact condition for provenance: in an interleaved run every key has a chain of live signers
  // back to a self-signed root if and only if the AddKey rule held again at every insertion.
  lemma ProvenanceIffRechecked(env: Env, ss: seq<State>, es: seq<Event>)
    requires IsRun(env, ss, es)
    ensures P.Sound(env, HistoryOf(ss, es)) <==> Rechecked(env, ss, es)
    ensures P.AllHaveChains(env, HistoryOf(ss, es)) <==> Rechecked(env, ss, es)
  {
    hide Next, P.IsHistory, P.SoundAt, RecheckedAt, P.AllHaveChains;
    var h := HistoryOf(ss, es);
    RunIsHistory(env, ss, es);
    P.ChainsIffSound(env, h);
    if P.Sound(env, h) {
      forall r: nat | r < |es| ensures RecheckedAt(env, ss, es, r) {
        if InsertsKey(ss, es, r) {
          SoundInsertionIff(env, ss, es, r);
        } else {
          NothingToRecheck(env, ss, es, r);
        }
      }
    }
    if Rechecked(env, ss, es) {
      forall j: nat, i: nat, a: nat | P.InsertsAt(h, j, i, a) ensures P.SoundAt(env, h, j, i, a) {
        SoundInsertionIff(env, ss, es, j);
      }
    }
  }

  lemma NothingToRecheck(env: Env, ss: seq<State>, es: seq<Event>, r: nat)
    requires !InsertsKey(ss, es, r)
    ensures RecheckedAt(env, ss, es, r)
  {
  }

  // One root per epoch, carried over: in a run whose AddKeys all pass the rule again, every key
  // inserted while `a` has had a live key since step `b` descends from the row that step inserted.
  lemma OneRootPerEpoch(env: Env, ss: seq<State>, es: seq<Event>, a: nat, b: nat, j: nat, i: nat)
    returns (c: seq<P.Link>)
    requires IsRun(env, ss, es) && Rechecked(env, ss, es)
    requires P.InsertsAt(HistoryOf(ss, es), j, i, a) && P.InEpoch(HistoryOf(ss, es), a, b, j + 1)
    ensures P.IsChain(env, HistoryOf(ss, es), a, c)
    ensures c[0] == P.Link(i, j) && c[|c| - 1] == P.Link(|ss[b].t.keys|, b)
    ensures P.RootAt(env, HistoryOf(ss, es), j, i, a) <==> j == b
  {
    ProvenanceIffRechecked(env, ss, es);
    hide Next, P.Sound, Rechecked;
    c := P.EpochDescent(env, HistoryOf(ss, es), a, b, j, i);
  }
}
