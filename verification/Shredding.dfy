// Burning the same actor down again.
module Shredding {
  import opened Wrappers
  import opened Protocol
  import opened Tables
  import opened Transactions
  import opened Actions
  import opened Interleaved
  import opened Isolation

  // The first burn leaves no symmetric key under an older root of the actor.
  lemma RecordedAfterBurn(t: Tables, actor: string, root: string, now: nat, p: (string, string))
    requires Valid(t) && BurnDownTx(t, actor, root, now).Success?
    ensures ActorId(t, actor).Some?
    ensures var a, t1 := ActorId(t, actor).value, BurnDownTx(t, actor, root, now).value;
            p in t1.symmetricKeys ==> (Records(t1, a, p.0) <==> p.0 == root && HasLive(t, a))
  {
    BurnDownTxEffect(t, actor, root, now);
    RootsAfterBurn(t, BurnDownTx(t, actor, root, now).value, ActorId(t, actor).value, root, now, p.0);
  }

  // Nothing is left to burn of `a`: no live key, and no symmetric key under any of its roots.
  ghost predicate Quiet(t: Tables, a: nat) {
    !HasLive(t, a) && forall p | p in t.symmetricKeys :: !Records(t, a, p.0)
  }

  // A BurnDown changes nothing at all exactly when nothing is left to burn.
  lemma BurnChangesNothingIff(t: Tables, actor: string, root: string, now: nat)
    requires Valid(t) && BurnDownTx(t, actor, root, now).Success?
    ensures ActorId(t, actor).Some?
    ensures BurnDownTx(t, actor, root, now).value == t <==> Quiet(t, ActorId(t, actor).value)
    ensures !HasLive(t, ActorId(t, actor).value) ==> BurnDownTx(t, actor, root, now).value.keys == t.keys
  {
    var a, t' := ActorId(t, actor).value, BurnDownTx(t, actor, root, now).value;
    assert t' == t.(keys := t'.keys, symmetricKeys := t'.symmetricKeys);
    BurnDownTxEffect(t, actor, root, now);
    hide BurnDownTx, Valid, Extends, ActorId, Records;
    if !HasLive(t, a) {
      NothingLeftToMark(t, t', a);
    }
    if Quiet(t, a) {
      assert t'.symmetricKeys == t.symmetricKeys;
    }
  }

  // The second BurnDown always keeps the first revocations. It changes nothing at all exactly when
  // the first had no live key to mark or no symmetric key is stored under the first's root.
  lemma SecondBurnDown(t: Tables, actor: string, root: string, now: nat, root': string, now': nat)
    requires Valid(t) && BurnDownTx(t, actor, root, now).Success?
    ensures ActorId(t, actor).Some?
    ensures var t1 := BurnDownTx(t, actor, root, now).value;
            var r := BurnDownTx(t1, actor, root', now');
            && r.Success? && r.value.keys == t1.keys
            && (r.value == t1 <==> !HasLive(t, ActorId(t, actor).value)
                                   || forall attribute: string :: (root, attribute) !in t1.symmetricKeys)
  {
    BurnDownTxEffect(t, actor, root, now);
    var a, t1 := ActorId(t, actor).value, BurnDownTx(t, actor, root, now).value;
    assert ActorId(t1, actor) == Some(a) && BurnDownTx(t1, actor, root', now').Success?;
    BurnChangesNothingIff(t1, actor, root', now');
    forall p | p in t1.symmetricKeys ensures Records(t1, a, p.0) <==> p.0 == root && HasLive(t, a) {
      RecordedAfterBurn(t, actor, root, now, p);
    }
    hide BurnDownTx, Valid, Extends, ActorId, Records;
    if forall attribute: string :: (root, attribute) !in t1.symmetricKeys {
      forall p | p in t1.symmetricKeys ensures p.0 != root {
        assert p == (p.0, p.1);
      }
    }
  }

  lemma NothingLeftToMark(t1: Tables, t2: Tables, a: nat)
    requires !HasLive(t1, a) && |t2.keys| == |t1.keys|
    requires forall i | 0 <= i < |t1.keys| && !LiveOf(t1.keys[i], a) :: t2.keys[i] == t1.keys[i]
    ensures t2.keys == t1.keys
  {
  }

  // A root recorded after a burn was recorded before, or is the burn's own.
  lemma RootsAfterBurn(t: Tables, t1: Tables, a: nat, root: string, now: nat, h: string)
    requires Valid(t) && |t1.keys| == |t.keys|
    requires forall i | 0 <= i < |t.keys| ::
               t1.keys[i] == if LiveOf(t.keys[i], a) then MarkKey(t.keys[i], root, now) else t.keys[i]
    ensures Records(t1, a, h) <==> Records(t, a, h) || (h == root && HasLive(t, a))
  {
  }

  // The arguments of the BurnDown transaction that a burning step runs.
  datatype Burn = Burn(actor: string, root: string, now: nat)

  function BurnOf(env: Env, s: State, e: Event): Option<Burn> {
    match e
    case Shred(actor, nanos, o) => Some(Burn(actor, AdminRoot(actor, nanos), o.now))
    case Transact(id, o) =>
      if id !in s.flights || !s.flights[id].Submitted? then None
      else
        (match PayloadOf(env, SignedPart(s.flights[id].msg))
         case Some(BurnDown(actor, _)) => Some(Burn(actor, s.flights[id].root, o.now))
         case _ => None)
    case _ => None
  }

  lemma BurnStep(env: Env, ss: seq<State>, es: seq<Event>, n: nat, a: nat)
    requires IsRun(env, ss, es) && Burns(env, ss, es, n, a)
    ensures var b := BurnOf(env, ss[n], es[n]);
            && b.Some? && ActorId(ss[n].t, b.value.actor) == Some(a)
            && BurnDownTx(ss[n].t, b.value.actor, b.value.root, b.value.now) == Success(ss[n + 1].t)
  {
    assert ss[n + 1] == Next(env, ss[n], es[n]);
  }

  // Under a fresh log no symmetric key is stored under the root a burning step records.
  lemma BurnRootIsFresh(env: Env, ss: seq<State>, es: seq<Event>, n: nat, a: nat, attribute: string)
    requires IsRun(env, ss, es) && FreshLog(ss[|es|].log) && Burns(env, ss, es, n, a)
    ensures BurnOf(env, ss[n], es[n]).Some?
    ensures (BurnOf(env, ss[n], es[n]).value.root, attribute) !in ss[n].t.symmetricKeys
  {
    hide Next, BurnDownTx;
    RunKeepsInvariant(env, ss, es, n);
    RunKeepsRootsOk(env, ss, es, n);
    EarlierLogIsFresh(env, ss, es, n);
    BurnStep(env, ss, es, n, a);
    var p := (BurnOf(env, ss[n], es[n]).value.root, attribute);
    if p in ss[n].t.symmetricKeys {
      assert LogHas(ss[n].log, p.0) && RecordedSomewhere(ss[n].t, p.0);
      if es[n].Shred? {
        AdminRootIsAdmin(es[n].actor, es[n].nanos);
      }
    }
  }

  lemma FreshBurn(env: Env, ss: seq<State>, es: seq<Event>, n: nat, a: nat) returns (b: Burn)
    requires IsRun(env, ss, es) && FreshLog(ss[|es|].log) && Burns(env, ss, es, n, a)
    ensures Valid(ss[n].t) && ActorId(ss[n].t, b.actor) == Some(a)
    ensures BurnDownTx(ss[n].t, b.actor, b.root, b.now) == Success(ss[n + 1].t)
    ensures forall attribute: string :: (b.root, attribute) !in ss[n].t.symmetricKeys
  {
    RunKeepsInvariant(env, ss, es, n);
    BurnStep(env, ss, es, n, a);
    b := BurnOf(env, ss[n], es[n]).value;
    forall attribute: string ensures (b.root, attribute) !in ss[n].t.symmetricKeys {
      BurnRootIsFresh(env, ss, es, n, a, attribute);
    }
  }

  lemma QuietAfterBurn(env: Env, ss: seq<State>, es: seq<Event>, n: nat, a: nat)
    requires IsRun(env, ss, es) && FreshLog(ss[|es|].log) && Burns(env, ss, es, n, a)
    ensures Quiet(ss[n + 1].t, a)
  {
    hide Next, FreshLog, IsRun, BurnDownTx, Valid, Extends;
    var b := FreshBurn(env, ss, es, n, a);
    var t, t1 := ss[n].t, ss[n + 1].t;
    BurnDownTxEffect(t, b.actor, b.root, b.now);
    forall p | p in t1.symmetricKeys ensures !Records(t1, a, p.0) {
      RecordedAfterBurn(t, b.actor, b.root, b.now, p);
      assert p == (p.0, p.1);
    }
  }

  // No key row is inserted for `a`.
  ghost predicate NoNewKey(t: Tables, t': Tables, a: nat) {
    forall i | |t.keys| <= i < |t'.keys| :: t'.keys[i].actor != a
  }

  lemma QuietKept(t: Tables, t': Tables, a: nat)
    requires Extends(t, t') && NoNewKey(t, t', a) && Quiet(t, a)
    requires forall p | p in t'.symmetricKeys && p !in t.symmetricKeys :: !Records(t, a, p.0)
    ensures Quiet(t', a)
  {
    forall i | 0 <= i < |t'.keys| && t'.keys[i].actor == a
      ensures i < |t.keys| && t'.keys[i] == t.keys[i] && !Live(t', i)
    {
      assert KeyKept(t.keys[i], t'.keys[i]);
      assert !Live(t, i);
    }
    assert forall h | Records(t', a, h) :: Records(t, a, h);
  }

  // Under a fresh log nothing but a new key of `a` leaves something to burn of `a`: no rename, no
  // RevokeKey, no other actor's message.
  lemma QuietStep(env: Env, ss: seq<State>, es: seq<Event>, n: nat, a: nat)
    requires IsRun(env, ss, es) && FreshLog(ss[|es|].log) && n < |es|
    requires Quiet(ss[n].t, a) && NoNewKey(ss[n].t, ss[n + 1].t, a)
    ensures Quiet(ss[n + 1].t, a)
  {
    hide After, AfterShred, Admitted, FreshLog, Valid, NoOrphans, Extends, Quiet, KeyRootsLogged, OneOwner;
    RunKeepsInvariant(env, ss, es, n);
    RunKeepsRootsOk(env, ss, es, n);
    NextKeeps(env, ss[n], es[n]);
    var s, t, t', e := ss[n], ss[n].t, ss[n + 1].t, es[n];
    assert ss[n + 1] == Next(env, s, e);
    if t' != t {
      if e.Shred? {
        ShredStoresNothing(t, e.actor, e.nanos, e.oracle);
      } else {
        var f := s.flights[e.id];
        TransactionStoresUnderRoot(env, t, f.msg, f.root, e.oracle);
        UnrecordedIsForeign(t, a, f.root);
      }
      QuietKept(t, t', a);
    }
  }

  lemma UnrecordedIsForeign(t: Tables, a: nat, h: string)
    requires !RecordedSomewhere(t, h)
    ensures !Records(t, a, h)
  {
  }

  lemma ShredStoresNothing(t: Tables, actor: string, nanos: int, o: Oracle)
    requires Valid(t)
    ensures AfterShred(t, actor, nanos, o).symmetricKeys.Keys <= t.symmetricKeys.Keys
  {
    if o.healthy && BurnDownTx(t, actor, AdminRoot(actor, nanos), o.now).Success? {
      BurnDownTxEffect(t, actor, AdminRoot(actor, nanos), o.now);
    }
  }

  lemma TransactionStoresUnderRoot(env: Env, t: Tables, msg: ProtocolMessage, root: string, o: Oracle)
    requires Valid(t)
    ensures forall p | p in After(env, t, msg, root, o).symmetricKeys && p !in t.symmetricKeys :: p.0 == root
  {
    hide Effect, Valid, TouchesKeys, TouchesAux, TouchesActors;
    var p := PayloadOf(env, SignedPart(msg));
    if p.Some? && o.healthy && Effect(env, t, msg, p.value, root, o).Success? {
      EffectTouches(env, t, msg, p.value, root, o);
    }
  }

  lemma {:induction false} QuietUntil(env: Env, ss: seq<State>, es: seq<Event>, n: nat, m: nat, a: nat)
    requires IsRun(env, ss, es) && FreshLog(ss[|es|].log) && n <= m < |ss| && Quiet(ss[n].t, a)
    requires forall k | n <= k < m :: NoNewKey(ss[k].t, ss[k + 1].t, a)
    ensures Quiet(ss[m].t, a)
    decreases m - n
  {
    hide Next, FreshLog, Quiet, NoNewKey;
    if n < m {
      QuietUntil(env, ss, es, n, m - 1, a);
      QuietStep(env, ss, es, m - 1, a);
    }
  }

  lemma BurnsInRange(env: Env, ss: seq<State>, es: seq<Event>, n: nat, a: nat)
    requires Burns(env, ss, es, n, a)
    ensures n < |es| < |ss|
  {
  }

  lemma QuietBurn(env: Env, ss: seq<State>, es: seq<Event>, n: nat, a: nat)
    requires IsRun(env, ss, es) && Burns(env, ss, es, n, a) && Quiet(ss[n].t, a)
    ensures ss[n + 1].t == ss[n].t
  {
    hide Next, Quiet, BurnDownTx;
    RunKeepsInvariant(env, ss, es, n);
    BurnStep(env, ss, es, n, a);
    var b := BurnOf(env, ss[n], es[n]).value;
    BurnChangesNothingIff(ss[n].t, b.actor, b.root, b.now);
  }

  // Burning down again is a no-op, in any run under a fresh log: whatever happens between two
  // BurnDowns or CryptoShreds of an actor row, renames of the row included, the second changes
  // nothing unless the row got a new key in between.
  lemma BurnDownIsIdempotent(env: Env, ss: seq<State>, es: seq<Event>, n: nat, m: nat, a: nat)
    requires IsRun(env, ss, es) && FreshLog(ss[|es|].log) && n < m
    requires Burns(env, ss, es, n, a) && Burns(env, ss, es, m, a)
    requires forall k | n < k < m && k + 1 < |ss| :: NoNewKey(ss[k].t, ss[k + 1].t, a)
    ensures m < |es| < |ss| && ss[m + 1].t == ss[m].t
  {
    hide Next, Burns, FreshLog, Quiet, NoNewKey;
    BurnsInRange(env, ss, es, m, a);
    BurnsInRange(env, ss, es, n, a);
    QuietAfterBurn(env, ss, es, n, a);
    QuietUntil(env, ss, es, n + 1, m, a);
    QuietBurn(env, ss, es, m, a);
  }

  // ---------- The fireproof mark ----------

  // Marking any actor fireproof, or taking the mark away, changes neither who may burn an actor
  // down nor what that does to keys and symmetric keys.
  lemma BurnDownIgnoresFireproof(env: Env, t: Tables, name: string, on: bool, msg: ProtocolMessage, actor: string,
                                 operator: string, root: string, now: nat)
    requires Valid(t) && SetFireproof(t, name, on).Success?
    ensures var t' := SetFireproof(t, name, on).value;
            Allowed(env, t', msg, BurnDown(actor, operator), now) <==> Allowed(env, t, msg, BurnDown(actor, operator), now)
    ensures var r, r' := BurnDownTx(t, actor, root, now), BurnDownTx(SetFireproof(t, name, on).value, actor, root, now);
            && (r.Success? <==> r'.Success?)
            && (r.Success? ==> r'.value.keys == r.value.keys && r'.value.symmetricKeys == r.value.symmetricKeys)
  {
    SetFireproofEffect(t, name, on);
    var t' := SetFireproof(t, name, on).value;
    hide SetFireproof, ActorId, Valid;
    assert ListKeysForActor(t', operator) == ListKeysForActor(t, operator);
    assert ActorId(t', actor) == ActorId(t, actor);
    if ActorId(t, actor).Some? {
      assert MessageHashes(t', ActorId(t, actor).value) == MessageHashes(t, ActorId(t, actor).value);
    }
  }
}
