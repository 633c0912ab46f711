// With requests handled one at a time, nobody is locked out by AddKey or RevokeKey.
module LockOut {
  import opened Wrappers
  import opened Protocol
  import opened Signing
  import opened Tables
  import opened Transactions
  import opened Actions
  import I = Interleaved
  import opened Sequential

  // Actor row `a` has a live key whose text really is an Ed25519 public key.
  ghost predicate Usable(t: Tables, a: nat) {
    exists i: nat :: Live(t, i) && t.keys[i].actor == a && DecodePublicKey(t.keys[i].publicKey).Some?
  }

  ghost predicate NobodyLockedOut(t: Tables) {
    forall a: nat :: HasLive(t, a) ==> Usable(t, a)
  }

  // Rows of `a` are untouched in `t'`, and `t'` has no new ones.
  ghost predicate SameKeysOf(t: Tables, t': Tables, a: nat) {
    && |t.keys| <= |t'.keys|
    && (forall i | 0 <= i < |t.keys| && t.keys[i].actor == a :: t'.keys[i] == t.keys[i])
    && (forall i | 0 <= i < |t'.keys| && t'.keys[i].actor == a :: i < |t.keys| && t.keys[i].actor == a)
  }

  lemma SameKeysKeep(t: Tables, t': Tables, a: nat)
    requires SameKeysOf(t, t', a) && (HasLive(t, a) ==> Usable(t, a)) && HasLive(t', a)
    ensures Usable(t', a)
  {
  }

  lemma AppendedKeyKeeps(t: Tables, t': Tables, k: KeyRow)
    requires NobodyLockedOut(t) && t'.keys == t.keys + [k] && k.revokedAt.None?
    requires HasLive(t, k.actor) || DecodePublicKey(k.publicKey).Some?
    ensures NobodyLockedOut(t')
  {
    forall b: nat | HasLive(t', b) ensures Usable(t', b) {
      if HasLive(t, b) {
        var i: nat :| Live(t, i) && t.keys[i].actor == b && DecodePublicKey(t.keys[i].publicKey).Some?;
        assert Live(t', i);
      } else {
        var i: nat :| Live(t', i) && t'.keys[i].actor == b;
        assert i < |t.keys| ==> Live(t, i);
      }
    }
  }

  lemma AddKeyKeeps(env: Env, t: Tables, msg: ProtocolMessage, actor: string, publicKey: string, root: string, o: Oracle)
    requires Valid(t) && NobodyLockedOut(t) && AddKeyAllowed(env, t, msg, actor, publicKey)
    requires Effect(env, t, msg, AddKey(actor, publicKey), root, o).Success?
    ensures NobodyLockedOut(Effect(env, t, msg, AddKey(actor, publicKey), root, o).value)
  {
    var t' := Effect(env, t, msg, AddKey(actor, publicKey), root, o).value;
    AddKeyTxEffect(t, actor, publicKey, root, o.newId, DecodeDisclosed(msg.symmetricKeys).value);
    AddKeyAllowedMeans(env, t, msg, actor, publicKey);
    AppendedKeyKeeps(t, t', t'.keys[|t.keys|]);
  }

  lemma MarkedKeyKeeps(t: Tables, t': Tables, i: nat, k: nat)
    requires NobodyLockedOut(t) && Live(t, i) && Live(t, k) && k != i && t.keys[k].actor == t.keys[i].actor
    requires DecodePublicKey(t.keys[k].publicKey).Some?
    requires |t'.keys| == |t.keys| && t'.keys[i].actor == t.keys[i].actor
    requires forall j | 0 <= j < |t.keys| && j != i :: t'.keys[j] == t.keys[j]
    ensures NobodyLockedOut(t')
  {
    forall b: nat | HasLive(t', b) ensures Usable(t', b) {
      if b != t.keys[i].actor {
        SameKeysKeep(t, t', b);
      } else {
        assert Live(t', k);
      }
    }
  }

  // The signer of a RevokeKey is live, decodes, and is not the row that the revocation retires:
  // its text decodes to another key, so it is another text.
  lemma RevokeKeyKeeps(env: Env, t: Tables, msg: ProtocolMessage, actor: string, publicKey: string, root: string, o: Oracle)
    requires Valid(t) && NobodyLockedOut(t) && RevokeKeyAllowed(env, t, msg, actor, publicKey)
    requires Effect(env, t, msg, RevokeKey(actor, publicKey), root, o).Success?
    ensures NobodyLockedOut(Effect(env, t, msg, RevokeKey(actor, publicKey), root, o).value)
  {
    hide RevokeKeyTx, NobodyLockedOut, Valid;
    var t' := Effect(env, t, msg, RevokeKey(actor, publicKey), root, o).value;
    RevokeKeyTxEffect(t, actor, publicKey, root, DecodeDisclosed(msg.symmetricKeys).value, o.now, o.pick);
    var a, i := ActorId(t, actor).value, FindKeyToRevoke(t, actor, publicKey, o.pick).value;
    SignerStays(env, t, msg, actor, publicKey, i);
    var k: nat :| Live(t, k) && t.keys[k].actor == a && k != i && DecodePublicKey(t.keys[k].publicKey).Some?;
    MarkedKeyKeeps(t, t', i, k);
  }

  lemma SignerStays(env: Env, t: Tables, msg: ProtocolMessage, actor: string, publicKey: string, i: nat)
    requires RevokeKeyAllowed(env, t, msg, actor, publicKey) && ActorId(t, actor).Some?
    requires Revocable(t, ActorId(t, actor).value, publicKey, i)
    ensures exists k: nat :: Live(t, k) && t.keys[k].actor == ActorId(t, actor).value && k != i
              && DecodePublicKey(t.keys[k].publicKey).Some?
  {
    var a := ActorId(t, actor).value;
    var rows, revoked := LiveKeys(t.keys, a), DecodePublicKey(publicKey).value;
    var j :| 0 <= j < |rows| && Signs(env, msg, rows[j].publicKey)
             && DecodePublicKey(rows[j].publicKey) != Some(revoked);
    LiveKeysMember(t.keys, a, rows[j]);
    var k: nat :| k < |t.keys| && t.keys[k] == rows[j];
    assert Live(t, k) && k != i;
  }

  lemma OtherEffectsKeepKeys(env: Env, t: Tables, msg: ProtocolMessage, p: Payload, root: string, o: Oracle)
    requires Valid(t) && Effect(env, t, msg, p, root, o).Success?
    requires !p.AddKey? && !p.RevokeKey? && !p.BurnDown?
    ensures Effect(env, t, msg, p, root, o).value.keys == t.keys
  {
  }

  lemma AfterKeepsNobodyLockedOut(env: Env, t: Tables, msg: ProtocolMessage, root: string, o: Oracle)
    requires Valid(t) && NobodyLockedOut(t) && Admitted(env, t, msg, o.now)
    ensures NobodyLockedOut(After(env, t, msg, root, o))
  {
    hide AddKeyTx, RevokeKeyTx, BurnDownTx, AddKeyAllowed, RevokeKeyAllowed, NobodyLockedOut, Valid;
    var p := PayloadOf(env, SignedPart(msg)).value;
    if o.healthy && Effect(env, t, msg, p, root, o).Success? {
      match p {
        case AddKey(actor, publicKey) => AddKeyKeeps(env, t, msg, actor, publicKey, root, o);
        case RevokeKey(actor, publicKey) => RevokeKeyKeeps(env, t, msg, actor, publicKey, root, o);
        case BurnDown(actor, _) => BurnDownKeeps(t, actor, root, o.now);
        case _ =>
          OtherEffectsKeepKeys(env, t, msg, p, root, o);
          SameKeysEverywhere(t, Effect(env, t, msg, p, root, o).value);
      }
    }
  }

  lemma SameKeysEverywhere(t: Tables, t': Tables)
    requires NobodyLockedOut(t) && t'.keys == t.keys
    ensures NobodyLockedOut(t')
  {
    forall a: nat | HasLive(t', a) ensures Usable(t', a) {
      SameKeysKeep(t, t', a);
    }
  }

  lemma BurnDownKeeps(t: Tables, actor: string, root: string, now: nat)
    requires Valid(t) && NobodyLockedOut(t) && BurnDownTx(t, actor, root, now).Success?
    ensures NobodyLockedOut(BurnDownTx(t, actor, root, now).value)
  {
    var t' := BurnDownTx(t, actor, root, now).value;
    BurnDownTxEffect(t, actor, root, now);
    forall b: nat | HasLive(t', b) ensures Usable(t', b) {
      SameKeysKeep(t, t', b);
    }
  }

  lemma EmptyLocksNobodyOut()
    ensures NobodyLockedOut(EMPTY)
  {
  }

  // In every reachable state an actor with any live key has a live key that decodes.
  lemma {:induction false} NobodyIsLockedOut(env: Env, ss: seq<State>, es: seq<Event>, n: nat)
    requires IsRun(env, ss, es) && n < |ss|
    ensures NobodyLockedOut(ss[n].t)
  {
    hide Admitted, After, BurnDownTx, NobodyLockedOut;
    if n == 0 {
      EmptyLocksNobodyOut();
    } else {
      NobodyIsLockedOut(env, ss, es, n - 1);
      RunKeepsInvariant(env, ss, es, n - 1);
      assert ss[n] == Next(env, ss[n - 1], es[n - 1]);
      var t := ss[n - 1].t;
      match es[n - 1] {
        case Message(msg, root, o) =>
          if root.Some? && Admitted(env, t, msg, o.now) {
            AfterKeepsNobodyLockedOut(env, t, msg, root.value, o);
          }
        case Shred(actor, nanos, o) =>
          if o.healthy && BurnDownTx(t, actor, AdminRoot(actor, nanos), o.now).Success? {
            BurnDownKeeps(t, actor, AdminRoot(actor, nanos), o.now);
          }
      }
    }
  }

  // ---------- Counting live keys ----------

  lemma {:induction false} LiveKeysAfterUpdate(keys: seq<KeyRow>, i: nat, k: KeyRow, a: nat)
    requires i < |keys| && !LiveOf(k, a)
    ensures LiveOf(keys[i], a) ==> |LiveKeys(keys[i := k], a)| == |LiveKeys(keys, a)| - 1
    ensures !LiveOf(keys[i], a) ==> LiveKeys(keys[i := k], a) == LiveKeys(keys, a)
  {
    var n := |keys| - 1;
    if i < n {
      LiveKeysAfterUpdate(keys[..n], i, k, a);
      assert keys[i := k][..n] == keys[..n][i := k];
    } else {
      assert keys[i := k][..n] == keys[..n];
    }
  }

  // A RevokeKey that changes the tables retires exactly one live key of its actor, leaves at
  // least one, and leaves every other actor's live keys as they were.
  lemma RevokeKeyRetiresOne(env: Env, ss: seq<State>, es: seq<Event>, n: nat, actor: string, publicKey: string)
    requires IsRun(env, ss, es) && n < |es| && es[n].Message? && ss[n + 1].t != ss[n].t
    requires PayloadOf(env, SignedPart(es[n].msg)) == Some(RevokeKey(actor, publicKey))
    ensures ActorId(ss[n].t, actor).Some?
    ensures var a := ActorId(ss[n].t, actor).value;
            && |LiveKeys(ss[n + 1].t.keys, a)| == |LiveKeys(ss[n].t.keys, a)| - 1
            && |LiveKeys(ss[n + 1].t.keys, a)| >= 1
            && forall b | b != a :: LiveKeys(ss[n + 1].t.keys, b) == LiveKeys(ss[n].t.keys, b)
  {
    RunKeepsInvariant(env, ss, es, n);
    assert ss[n + 1] == Next(env, ss[n], es[n]);
    var t, o := ss[n].t, es[n].oracle;
    RevokeKeyTxEffect(t, actor, publicKey, es[n].root.value, DecodeDisclosed(es[n].msg.symmetricKeys).value, o.now, o.pick);
    var a, i := ActorId(t, actor).value, FindKeyToRevoke(t, actor, publicKey, o.pick).value;
    var k := MarkKey(t.keys[i], es[n].root.value, o.now);
    LiveKeysAfterUpdate(t.keys, i, k, a);
    forall b | b != a ensures LiveKeys(ss[n + 1].t.keys, b) == LiveKeys(t.keys, b) {
      LiveKeysAfterUpdate(t.keys, i, k, b);
    }
  }

  // Only a BurnDown or a crypto-shred of the actor takes its last live key.
  lemma OnlyBurningEmpties(env: Env, ss: seq<State>, es: seq<Event>, n: nat, a: nat)
    requires IsRun(env, ss, es) && n < |es| && HasLive(ss[n].t, a) && !HasLive(ss[n + 1].t, a)
    ensures if es[n].Shred? then ActorId(ss[n].t, es[n].actor) == Some(a)
            else var p := PayloadOf(env, SignedPart(es[n].msg));
                 p.Some? && p.value.BurnDown? && ActorId(ss[n].t, p.value.actor) == Some(a)
  {
    RunKeepsInvariant(env, ss, es, n);
    StepExtends(env, ss, es, n);
    assert ss[n + 1] == Next(env, ss[n], es[n]);
    var i: nat :| Live(ss[n].t, i) && ss[n].t.keys[i].actor == a;
    assert KeyKept(ss[n].t.keys[i], ss[n + 1].t.keys[i]);
    match es[n] {
      case Message(msg, root, o) =>
        I.LossIsRevocation(env, ss[n].t, msg, root.value, o, i);
        var p := PayloadOf(env, SignedPart(msg)).value;
        if p.RevokeKey? {
          RevokeKeyRetiresOne(env, ss, es, n, p.actor, p.publicKey);
          HasLiveMeans(ss[n + 1].t, a);
          assert false;
        }
      case Shred(actor, nanos, o) =>
        I.ShredLossIsRevocation(ss[n].t, actor, nanos, o, i);
    }
  }
}
