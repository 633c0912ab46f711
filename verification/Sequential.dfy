// Requests handled one at a time: check, submission and transaction form one step. Key provenance
// and the absence of lock-outs need this premise, because a handler lists the actor's keys
// outside the transaction that changes them.
module Sequential {
  import opened Wrappers
  import opened Protocol
  import opened Signing
  import opened Tables
  import opened Transactions
  import opened Actions
  import I = Interleaved
  import P = Provenance

  datatype State = State(t: Tables, log: seq<I.Entry>)

  const INITIAL := State(EMPTY, [])

  // `root` is the log's answer; None stands for any failure up to and including the submission.
  datatype Event =
    | Message(msg: ProtocolMessage, root: Option<string>, oracle: Oracle)
    | Shred(actor: string, nanos: int, oracle: Oracle)

  function Next(env: Env, s: State, e: Event): State {
    match e
    case Message(msg, root, o) =>
      if root.None? || !Admitted(env, s.t, msg, o.now) then s
      else State(After(env, s.t, msg, root.value, o), s.log + [I.Entry(SignedPart(msg), root.value)])
    case Shred(actor, nanos, o) =>
      if actor == "" then s else s.(t := AfterShred(s.t, actor, nanos, o))
  }

  ghost predicate IsRun(env: Env, ss: seq<State>, es: seq<Event>) {
    && |ss| == |es| + 1
    && ss[0] == INITIAL
    && forall i | 0 <= i < |es| :: ss[i + 1] == Next(env, ss[i], es[i])
  }

  lemma RunGrows(env: Env, ss: seq<State>, es: seq<Event>, e: Event)
    requires IsRun(env, ss, es)
    ensures IsRun(env, ss + [Next(env, ss[|es|], e)], es + [e])
  {
    var ss', es' := ss + [Next(env, ss[|es|], e)], es + [e];
    forall i | 0 <= i < |es'| ensures ss'[i + 1] == Next(env, ss'[i], es'[i]) {
      if i < |es| {
        assert ss'[i] == ss[i] && ss'[i + 1] == ss[i + 1] && es'[i] == es[i];
      }
    }
  }

  // ---------- One request at a time is one way to interleave ----------

  function Embed(s: State): I.State {
    I.State(s.t, s.log, map[])
  }

  lemma MessageEmbeds(env: Env, s: State, msg: ProtocolMessage, root: Option<string>, o: Oracle)
    ensures var s1 := I.Next(env, Embed(s), I.Check(0, msg, o.now));
            var s2 := I.Next(env, s1, I.Submit(0, root));
            I.Next(env, s2, I.Transact(0, o)) == Embed(Next(env, s, Message(msg, root, o)))
  {
    var s1 := I.Next(env, Embed(s), I.Check(0, msg, o.now));
    var s2 := I.Next(env, s1, I.Submit(0, root));
    if Admitted(env, s.t, msg, o.now) {
      assert s1.flights == map[0 := I.Checked(msg)];
      if root.Some? {
        assert s2.flights == map[0 := I.Submitted(msg, root.value)];
        assert s2.flights - {0} == map[];
      } else {
        assert s2.flights == map[];
      }
    }
  }

  // Every state of a one-at-a-time run is reached by an interleaved run with nothing in flight,
  // so all that is proved of interleaved runs holds here too.
  lemma {:induction false} SequentialIsInterleaved(env: Env, ss: seq<State>, es: seq<Event>, n: nat)
    requires IsRun(env, ss, es) && n < |ss|
    ensures I.Reaches(env, Embed(ss[n]))
  {
    hide After, AfterShred, Admitted;
    if n == 0 {
      var fs, fe: seq<I.Event> := [I.INITIAL], [];
      assert I.IsRun(env, fs, fe) && fs[|fe|] == Embed(ss[0]);
    } else {
      SequentialIsInterleaved(env, ss, es, n - 1);
      var s := Embed(ss[n - 1]);
      assert ss[n] == Next(env, ss[n - 1], es[n - 1]);
      match es[n - 1] {
        case Message(msg, root, o) =>
          MessageEmbeds(env, ss[n - 1], msg, root, o);
          I.ReachesNext(env, s, I.Check(0, msg, o.now));
          var s1 := I.Next(env, s, I.Check(0, msg, o.now));
          I.ReachesNext(env, s1, I.Submit(0, root));
          I.ReachesNext(env, I.Next(env, s1, I.Submit(0, root)), I.Transact(0, o));
        case Shred(actor, nanos, o) =>
          I.ReachesNext(env, s, I.Shred(actor, nanos, o));
      }
    }
  }

  lemma RunKeepsInvariant(env: Env, ss: seq<State>, es: seq<Event>, n: nat)
    requires IsRun(env, ss, es) && n < |ss|
    ensures Valid(ss[n].t) && NoOrphans(ss[n].t)
  {
    SequentialIsInterleaved(env, ss, es, n);
    var fs, fe :| I.IsRun(env, fs, fe) && fs[|fe|] == Embed(ss[n]);
    I.RunKeepsInvariant(env, fs, fe, |fe|);
  }

  lemma StepExtends(env: Env, ss: seq<State>, es: seq<Event>, n: nat)
    requires IsRun(env, ss, es) && n < |es|
    ensures Extends(ss[n].t, ss[n + 1].t)
  {
    RunKeepsInvariant(env, ss, es, n);
    assert ss[n + 1] == Next(env, ss[n], es[n]);
    match es[n] {
      case Message(msg, root, o) => if root.Some? { AfterKeeps(env, ss[n].t, msg, root.value, o); }
      case Shred(actor, nanos, o) => AfterShredKeeps(ss[n].t, actor, nanos, o);
    }
  }

  // ---------- Provenance of keys ----------

  function MessageOf(e: Event): Option<ProtocolMessage> {
    match e
    case Message(msg, _, _) => Some(msg)
    case Shred(_, _, _) => None
  }

  ghost function HistoryOf(ss: seq<State>, es: seq<Event>): P.History {
    P.History(seq(|ss|, i requires 0 <= i < |ss| => ss[i].t), seq(|es|, i requires 0 <= i < |es| => MessageOf(es[i])))
  }

  lemma LiveOwnerExists(t: Tables, a: nat)
    requires Valid(t) && HasLive(t, a)
    ensures IsActor(t, a)
  {
  }

  // Every insertion is of one of the two kinds, and never of the first while a key is live.
  lemma InsertionIsRootOrSigned(env: Env, ss: seq<State>, es: seq<Event>, j: nat)
    requires IsRun(env, ss, es) && j < |es| && |ss[j].t.keys| < |ss[j + 1].t.keys|
    ensures |ss[j + 1].t.keys| == |ss[j].t.keys| + 1
    ensures var i := |ss[j].t.keys|; var a := ss[j + 1].t.keys[i].actor;
            && P.InsertsAt(HistoryOf(ss, es), j, i, a)
            && Live(ss[j + 1].t, i)
            && if HasLive(ss[j].t, a) then P.SignedByEarlierAt(env, HistoryOf(ss, es), j, i, a)
               else P.RootAt(env, HistoryOf(ss, es), j, i, a)
  {
    RunKeepsInvariant(env, ss, es, j);
    assert ss[j + 1] == Next(env, ss[j], es[j]);
    assert es[j].Message?;
    var t, t', msg, o := ss[j].t, ss[j + 1].t, es[j].msg, es[j].oracle;
    var i := |t.keys|;
    I.GrowthIsAddKey(env, t, msg, es[j].root.value, o);
    var p, a := PayloadOf(env, SignedPart(msg)).value, t'.keys[i].actor;
    AddKeyAllowedMeans(env, t, msg, p.actor, p.publicKey);
    GetOrCreateActorKeeps(t, p.actor);
    if HasLive(t, a) {
      LiveOwnerExists(t, a);
      var s: nat :| Live(t, s) && t.keys[s].actor == a && Signs(env, msg, t.keys[s].publicKey);
      assert P.SignedByAt(env, HistoryOf(ss, es), j, i, a, s);
    }
  }

  // Handled one at a time, messages make a sound history: all of Provenance applies to it.
  lemma RunIsSound(env: Env, ss: seq<State>, es: seq<Event>)
    requires IsRun(env, ss, es)
    ensures P.Sound(env, HistoryOf(ss, es))
  {
    hide Next, Extends;
    var h := HistoryOf(ss, es);
    forall j: nat | j < |es|
      ensures Extends(h.ts[j], h.ts[j + 1]) && |h.ts[j + 1].keys| <= |h.ts[j].keys| + 1
      ensures |h.ts[j].keys| < |h.ts[j + 1].keys| ==> h.ms[j].Some?
    {
      StepExtends(env, ss, es, j);
      if |ss[j].t.keys| < |ss[j + 1].t.keys| {
        InsertionIsRootOrSigned(env, ss, es, j);
      }
    }
    forall j: nat, i: nat, a: nat | P.InsertsAt(h, j, i, a) ensures P.SoundAt(env, h, j, i, a) {
      InsertionIsRootOrSigned(env, ss, es, j);
    }
  }

  // Provenance: the signers of every key of every run form a chain back to a self-signed root,
  // inside one unbroken period in which the actor row had a live key. Renaming the actor in
  // between (MoveIdentity) changes nothing.
  lemma Provenance(env: Env, ss: seq<State>, es: seq<Event>, n: nat, i: nat)
    requires IsRun(env, ss, es) && n < |ss| && i < |ss[n].t.keys|
    ensures P.HasChain(env, HistoryOf(ss, es), n, i, ss[n].t.keys[i].actor)
  {
    hide IsRun, P.Sound, P.HasChain;
    RunIsSound(env, ss, es);
    P.EveryKeyHasAChain(env, HistoryOf(ss, es), n, i);
  }

  // Each epoch has one root: every key inserted while `a` has had a live key since step `b`
  // descends from the row that step inserted, and no other row of the epoch is a root.
  lemma OneRootPerEpoch(env: Env, ss: seq<State>, es: seq<Event>, a: nat, b: nat, j: nat, i: nat)
    returns (c: seq<P.Link>)
    requires IsRun(env, ss, es)
    requires P.InsertsAt(HistoryOf(ss, es), j, i, a) && P.InEpoch(HistoryOf(ss, es), a, b, j + 1)
    ensures P.IsChain(env, HistoryOf(ss, es), a, c)
    ensures c[0] == P.Link(i, j) && c[|c| - 1] == P.Link(|ss[b].t.keys|, b)
    ensures P.RootAt(env, HistoryOf(ss, es), j, i, a) <==> j == b
  {
    RunIsSound(env, ss, es);
    hide IsRun, P.Sound;
    c := P.EpochDescent(env, HistoryOf(ss, es), a, b, j, i);
  }
}
