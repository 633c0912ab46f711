// Where the keys of a directory come from. A history is sound when every inserted key was, at the
// moment it was inserted, signed by itself or by a live key of its owner; then all signers form
// chains, and each period in which an actor has a live key goes back to one self-signed key.
module Provenance {
  import opened Wrappers
  import opened Protocol
  import opened Tables
  import opened Transactions
  import opened Actions

  // The tables between steps and, for each step, the message it applied, if any.
  datatype History = History(ts: seq<Tables>, ms: seq<Option<ProtocolMessage>>)

  // Key rows start from none, are only appended, at most one in a step and only by a message.
  ghost predicate IsHistory(h: History) {
    && |h.ts| == |h.ms| + 1
    && h.ts[0].keys == []
    && (forall j | 0 <= j < |h.ms| :: Extends(h.ts[j], h.ts[j + 1]) && |h.ts[j + 1].keys| <= |h.ts[j].keys| + 1)
    && (forall j | 0 <= j < |h.ms| && |h.ts[j].keys| < |h.ts[j + 1].keys| :: h.ms[j].Some?)
  }

  // Step `j` inserts key row `i`, owned by actor row `a`.
  ghost predicate InsertsAt(h: History, j: nat, i: nat, a: nat) {
    && j < |h.ms| < |h.ts| && h.ms[j].Some?
    && |h.ts[j].keys| == i < |h.ts[j + 1].keys| && h.ts[j + 1].keys[i].actor == a
  }

  // Key row `i` opens an epoch of `a`: no key of `a` was live and the new key signed itself.
  ghost predicate RootAt(env: Env, h: History, j: nat, i: nat, a: nat) {
    && InsertsAt(h, j, i, a)
    && !HasLive(h.ts[j], a)
    && Signs(env, h.ms[j].value, h.ts[j + 1].keys[i].publicKey)
  }

  // Key row `i` was signed by the earlier key row `s` of the same actor, live at that moment.
  ghost predicate SignedByAt(env: Env, h: History, j: nat, i: nat, a: nat, s: nat) {
    && InsertsAt(h, j, i, a)
    && s < i && Live(h.ts[j], s) && h.ts[j].keys[s].actor == a
    && Signs(env, h.ms[j].value, h.ts[j].keys[s].publicKey)
  }

  ghost predicate SignedByEarlierAt(env: Env, h: History, j: nat, i: nat, a: nat) {
    exists s: nat :: SignedByAt(env, h, j, i, a, s)
  }

  ghost predicate SoundAt(env: Env, h: History, j: nat, i: nat, a: nat) {
    RootAt(env, h, j, i, a) || SignedByEarlierAt(env, h, j, i, a)
  }

  ghost predicate Sound(env: Env, h: History) {
    && IsHistory(h)
    && forall j: nat, i: nat, a: nat | InsertsAt(h, j, i, a) :: SoundAt(env, h, j, i, a)
  }

  // ---------- Histories only grow ----------

  lemma {:induction false} Grows(h: History, m: nat, n: nat)
    requires IsHistory(h) && m <= n < |h.ts|
    ensures Extends(h.ts[m], h.ts[n])
    decreases n - m
  {
    if m < n {
      Grows(h, m, n - 1);
      ExtendsTransitive(h.ts[m], h.ts[n - 1], h.ts[n]);
    }
  }

  ghost predicate InsertedBefore(h: History, n: nat, i: nat, a: nat) {
    exists j: nat :: j < n && InsertsAt(h, j, i, a)
  }

  lemma {:induction false} KeyWasInserted(h: History, n: nat, i: nat)
    requires IsHistory(h) && n < |h.ts| && i < |h.ts[n].keys|
    ensures InsertedBefore(h, n, i, h.ts[n].keys[i].actor)
  {
    assert n > 0;
    if i < |h.ts[n - 1].keys| {
      KeyWasInserted(h, n - 1, i);
      assert KeyKept(h.ts[n - 1].keys[i], h.ts[n].keys[i]);
    } else {
      assert InsertsAt(h, n - 1, i, h.ts[n].keys[i].actor);
    }
  }

  lemma InsertedOnce(h: History, j: nat, k: nat, i: nat, a: nat, b: nat)
    requires IsHistory(h) && InsertsAt(h, j, i, a) && InsertsAt(h, k, i, b)
    ensures j == k
  {
    if j < k {
      Grows(h, j + 1, k);
    } else if k < j {
      Grows(h, k + 1, j);
    }
  }

  lemma InsertedStays(h: History, j: nat, i: nat, a: nat)
    requires IsHistory(h) && InsertsAt(h, j, i, a)
    ensures var t := h.ts[|h.ms|]; i < |t.keys| && t.keys[i].actor == a
  {
    Grows(h, j + 1, |h.ms|);
    assert KeyKept(h.ts[j + 1].keys[i], h.ts[|h.ms|].keys[i]);
  }

  // A key that is live now was live at every moment since it was inserted.
  lemma LiveSinceInserted(h: History, j: nat, m: nat, n: nat, s: nat, a: nat)
    requires IsHistory(h) && InsertsAt(h, j, s, a)
    requires j < m <= n < |h.ts| && Live(h.ts[n], s)
    ensures Live(h.ts[m], s) && h.ts[m].keys[s].actor == a && HasLive(h.ts[m], a)
  {
    Grows(h, j + 1, m);
    Grows(h, m, n);
    assert KeyKept(h.ts[j + 1].keys[s], h.ts[m].keys[s]);
    assert KeyKept(h.ts[m].keys[s], h.ts[n].keys[s]);
  }

  // ---------- Chains ----------

  // A key and the step that inserted it.
  datatype Link = Link(key: nat, step: nat)

  // A chain of signers of `a`, newest first: each link was signed by the next one while that was
  // live, the last link opened an epoch of `a`, and `a` had a live key ever since.
  ghost predicate IsChain(env: Env, h: History, a: nat, c: seq<Link>) {
    && |c| > 0 && |h.ms| < |h.ts|
    && (forall x | 0 <= x < |c| :: InsertsAt(h, c[x].step, c[x].key, a))
    && (forall x | 0 <= x < |c| - 1 :: SignedByAt(env, h, c[x].step, c[x].key, a, c[x + 1].key))
    && RootAt(env, h, c[|c| - 1].step, c[|c| - 1].key, a)
    && (forall m | c[|c| - 1].step < m <= c[0].step :: HasLive(h.ts[m], a))
  }

  ghost predicate HasChain(env: Env, h: History, n: nat, i: nat, a: nat) {
    exists c: seq<Link> :: IsChain(env, h, a, c) && c[0].key == i && c[0].step < n
  }

  lemma RootHasChain(env: Env, h: History, n: nat, j: nat, i: nat, a: nat)
    requires |h.ms| < |h.ts| && RootAt(env, h, j, i, a) && j < n
    ensures HasChain(env, h, n, i, a)
  {
    var c := [Link(i, j)];
    assert IsChain(env, h, a, c) && c[0] == Link(i, j);
  }

  lemma ChainGrows(env: Env, h: History, a: nat, c: seq<Link>, i: nat, j: nat)
    requires IsHistory(h) && IsChain(env, h, a, c) && c[0].step < j
    requires SignedByAt(env, h, j, i, a, c[0].key)
    ensures IsChain(env, h, a, [Link(i, j)] + c)
  {
    var d := [Link(i, j)] + c;
    assert forall x | 0 < x < |d| :: d[x] == c[x - 1];
    forall m | c[|c| - 1].step < m <= j ensures HasLive(h.ts[m], a) {
      if m > c[0].step {
        LiveSinceInserted(h, c[0].step, m, j, c[0].key, a);
      }
    }
  }

  lemma SignedHasChain(env: Env, h: History, n: nat, j: nat, i: nat, a: nat, s: nat)
    requires IsHistory(h) && SignedByAt(env, h, j, i, a, s) && j < n
    requires HasChain(env, h, j, s, a)
    ensures HasChain(env, h, n, i, a)
  {
    hide IsHistory, SignedByAt, RootAt, HasLive;
    var c: seq<Link> :| IsChain(env, h, a, c) && c[0].key == s && c[0].step < j;
    ChainGrows(env, h, a, c, i, j);
    var d := [Link(i, j)] + c;
    assert IsChain(env, h, a, d) && d[0] == Link(i, j);
  }

  // In a sound history the signers of every key form a chain back to a self-signed root, inside
  // one unbroken period in which the actor row had a live key.
  lemma {:induction false} EveryKeyHasAChain(env: Env, h: History, n: nat, i: nat)
    requires Sound(env, h) && n < |h.ts| && i < |h.ts[n].keys|
    ensures HasChain(env, h, n, i, h.ts[n].keys[i].actor)
    decreases i
  {
    var a := h.ts[n].keys[i].actor;
    KeyWasInserted(h, n, i);
    var j: nat :| j < n && InsertsAt(h, j, i, a);
    assert SoundAt(env, h, j, i, a);
    if RootAt(env, h, j, i, a) {
      RootHasChain(env, h, n, j, i, a);
    } else {
      var s: nat :| SignedByAt(env, h, j, i, a, s);
      EveryKeyHasAChain(env, h, j, s);
      SignedHasChain(env, h, n, j, i, a, s);
    }
  }

  // Key row `i`, if there is one at moment `n`, has a chain.
  ghost predicate Chained(env: Env, h: History, n: nat, i: nat) {
    n < |h.ts| && i < |h.ts[n].keys| ==> HasChain(env, h, n, i, h.ts[n].keys[i].actor)
  }

  ghost predicate AllHaveChains(env: Env, h: History) {
    forall i: nat :: Chained(env, h, |h.ms|, i)
  }

  lemma ChainedInsertionIsSound(env: Env, h: History, n: nat, j: nat, i: nat, a: nat)
    requires IsHistory(h) && InsertsAt(h, j, i, a) && HasChain(env, h, n, i, a)
    ensures SoundAt(env, h, j, i, a)
  {
    var c: seq<Link> :| IsChain(env, h, a, c) && c[0].key == i && c[0].step < n;
    InsertedOnce(h, j, c[0].step, i, a, a);
    if |c| > 1 {
      assert SignedByAt(env, h, c[0].step, c[0].key, a, c[1].key);
    }
  }

  // And only there: every key has a chain exactly when every insertion was sound when it was made.
  lemma ChainsIffSound(env: Env, h: History)
    requires IsHistory(h)
    ensures AllHaveChains(env, h) <==> Sound(env, h)
  {
    hide HasChain, InsertsAt, SoundAt, Extends;
    var n := |h.ms|;
    if Sound(env, h) {
      forall i: nat ensures Chained(env, h, n, i) {
        if i < |h.ts[n].keys| {
          EveryKeyHasAChain(env, h, n, i);
        }
      }
    }
    if AllHaveChains(env, h) {
      forall j: nat, i: nat, a: nat | InsertsAt(h, j, i, a) ensures SoundAt(env, h, j, i, a) {
        InsertedStays(h, j, i, a);
        assert Chained(env, h, n, i);
        ChainedInsertionIsSound(env, h, n, j, i, a);
      }
    }
  }

  // ---------- Epochs ----------

  // Moment `m` belongs to the epoch of `a` that step `b` opens: `a` has had a live key at every
  // moment since, and had none before.
  ghost predicate InEpoch(h: History, a: nat, b: nat, m: nat) {
    && b < m < |h.ts|
    && !HasLive(h.ts[b], a)
    && forall x | b < x <= m :: HasLive(h.ts[x], a)
  }

  // Every moment with a live key belongs to an epoch.
  lemma {:induction false} LiveMomentHasEpoch(h: History, a: nat, m: nat) returns (b: nat)
    requires IsHistory(h) && m < |h.ts| && HasLive(h.ts[m], a)
    ensures InEpoch(h, a, b, m)
  {
    assert m > 0;
    hide HasLive, Extends, IsHistory;
    b := m - 1;
    if HasLive(h.ts[b], a) {
      b := LiveMomentHasEpoch(h, a, m - 1);
    }
  }

  // Each epoch has one root, the row its first step inserted: whatever key is inserted while the
  // epoch lasts, revoked since or not, all its chains end there, and it is itself a root only if
  // it is that row.
  lemma EpochHasOneRoot(env: Env, h: History, a: nat, b: nat, j: nat, c: seq<Link>)
    requires IsHistory(h) && j < |h.ms| && InEpoch(h, a, b, j + 1)
    requires IsChain(env, h, a, c) && c[0].step == j
    ensures c[|c| - 1] == Link(|h.ts[b].keys|, b)
    ensures RootAt(env, h, j, c[0].key, a) <==> j == b
  {
    var r := c[|c| - 1].step;
    ChainEndsFirst(env, h, a, c);
  }

  // A signer was inserted before what it signed.
  lemma SignerIsOlder(env: Env, h: History, j: nat, i: nat, s: nat, a: nat, k: nat)
    requires IsHistory(h) && SignedByAt(env, h, j, i, a, s) && InsertsAt(h, k, s, a)
    ensures k < j
  {
    if j <= k {
      Grows(h, j, k);
    }
  }

  lemma ChainEndsFirst(env: Env, h: History, a: nat, c: seq<Link>)
    requires IsHistory(h) && IsChain(env, h, a, c)
    ensures c[|c| - 1].step <= c[0].step
  {
    var x := |c| - 1;
    while x > 0
      invariant 0 <= x < |c| && c[|c| - 1].step <= c[x].step
    {
      x := x - 1;
      SignerIsOlder(env, h, c[x].step, c[x].key, c[x + 1].key, a, c[x + 1].step);
    }
  }

  // So in a sound history every key inserted in an epoch descends from the epoch's first row.
  lemma EpochDescent(env: Env, h: History, a: nat, b: nat, j: nat, i: nat) returns (c: seq<Link>)
    requires Sound(env, h) && InsertsAt(h, j, i, a) && InEpoch(h, a, b, j + 1)
    ensures IsChain(env, h, a, c) && c[0] == Link(i, j) && c[|c| - 1] == Link(|h.ts[b].keys|, b)
    ensures RootAt(env, h, j, i, a) <==> j == b
  {
    EveryKeyHasAChain(env, h, j + 1, i);
    c :| IsChain(env, h, a, c) && c[0].key == i && c[0].step < j + 1;
    InsertedOnce(h, j, c[0].step, i, a, a);
    EpochHasOneRoot(env, h, a, b, j, c);
  }

  // In particular two keys of an actor that are live together descend from the same self-signed key.
  lemma LiveKeysShareTheirRoot(env: Env, h: History, n: nat, a: nat, c: seq<Link>, d: seq<Link>)
    requires IsHistory(h) && n < |h.ts|
    requires IsChain(env, h, a, c) && c[0].step < n && Live(h.ts[n], c[0].key)
    requires IsChain(env, h, a, d) && d[0].step < n && Live(h.ts[n], d[0].key)
    ensures c[|c| - 1] == d[|d| - 1]
  {
    LiveSinceInserted(h, c[0].step, n, n, c[0].key, a);
    var b := LiveMomentHasEpoch(h, a, n);
    StillInEpoch(env, h, a, b, n, c);
    StillInEpoch(env, h, a, b, n, d);
    EpochHasOneRoot(env, h, a, b, c[0].step, c);
    EpochHasOneRoot(env, h, a, b, d[0].step, d);
  }

  lemma StillInEpoch(env: Env, h: History, a: nat, b: nat, n: nat, c: seq<Link>)
    requires IsHistory(h) && InEpoch(h, a, b, n)
    requires IsChain(env, h, a, c) && c[0].step < n && Live(h.ts[n], c[0].key)
    ensures InEpoch(h, a, b, c[0].step + 1)
  {
    var j := c[0].step;
    if j < b {
      LiveSinceInserted(h, j, b, n, c[0].key, a);
    }
  }
}
