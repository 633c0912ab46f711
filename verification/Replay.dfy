// With requests handled one at a time the tables are the replay, in log order, of some of the
// logged messages, with the administrators' shreds in between.
module Replay {
  import opened Wrappers
  import opened Protocol
  import opened Tables
  import opened Transactions
  import opened Actions
  import I = Interleaved
  import opened Sequential

  datatype Applied =
    | FromLog(index: nat, msg: ProtocolMessage, root: string, oracle: Oracle)
    | FromAdmin(actor: string, nanos: int, oracle: Oracle)

  // An applied message really takes effect.
  ghost predicate Effective(env: Env, t: Tables, x: Applied) {
    match x
    case FromLog(_, msg, root, o) =>
      var p := PayloadOf(env, SignedPart(msg));
      o.healthy && p.Some? && Effect(env, t, msg, p.value, root, o).Success?
    case FromAdmin(actor, nanos, o) =>
      o.healthy && BurnDownTx(t, actor, AdminRoot(actor, nanos), o.now).Success?
  }

  function Apply(env: Env, t: Tables, x: Applied): Tables {
    match x
    case FromLog(_, msg, root, o) => After(env, t, msg, root, o)
    case FromAdmin(actor, nanos, o) => AfterShred(t, actor, nanos, o)
  }

  function Replayed(env: Env, xs: seq<Applied>): Tables {
    if xs == [] then EMPTY else Apply(env, Replayed(env, xs[..|xs| - 1]), xs[|xs| - 1])
  }

  // What one step of a run applies, if it takes effect.
  ghost function AppliedBy(env: Env, s: State, e: Event): Option<Applied> {
    match e
    case Message(msg, root, o) =>
      if root.Some? && Admitted(env, s.t, msg, o.now) && Effective(env, s.t, FromLog(|s.log|, msg, root.value, o))
      then Some(FromLog(|s.log|, msg, root.value, o)) else None
    case Shred(actor, nanos, o) =>
      if actor != "" && Effective(env, s.t, FromAdmin(actor, nanos, o)) then Some(FromAdmin(actor, nanos, o)) else None
  }

  // What the first `n` steps applied: the run's own messages, shreds and circumstances, in order.
  ghost function AppliedUpTo(env: Env, ss: seq<State>, es: seq<Event>, n: nat): seq<Applied>
    requires n <= |es| <= |ss|
  {
    if n == 0 then []
    else
      AppliedUpTo(env, ss, es, n - 1)
      + match AppliedBy(env, ss[n - 1], es[n - 1]) case None => [] case Some(x) => [x]
  }

  // The messages applied are entries of the log, in its order, none of them twice.
  ghost predicate InLogOrder(log: seq<I.Entry>, xs: seq<Applied>) {
    && (forall i | 0 <= i < |xs| && xs[i].FromLog? ::
          xs[i].index < |log| && log[xs[i].index] == I.Entry(SignedPart(xs[i].msg), xs[i].root))
    && (forall i, j | 0 <= i < j < |xs| && xs[i].FromLog? && xs[j].FromLog? :: xs[i].index < xs[j].index)
  }

  lemma ReplayGrows(env: Env, xs: seq<Applied>, x: Applied)
    ensures Replayed(env, xs + [x]) == Apply(env, Replayed(env, xs), x)
  {
    assert (xs + [x])[..|xs|] == xs;
  }

  lemma OrderGrows(log: seq<I.Entry>, log': seq<I.Entry>, xs: seq<Applied>, x: Applied)
    requires InLogOrder(log, xs) && log <= log'
    requires x.FromLog? ==> x.index == |log| < |log'| && log'[x.index] == I.Entry(SignedPart(x.msg), x.root)
    ensures InLogOrder(log', xs) && InLogOrder(log', xs + [x])
  {
  }

  // A step that applies nothing leaves the tables; one that applies something does what it says.
  lemma StepApplies(env: Env, s: State, e: Event)
    ensures var s', x := Next(env, s, e), AppliedBy(env, s, e);
            && s.log <= s'.log
            && s'.t == (if x.Some? then Apply(env, s.t, x.value) else s.t)
            && (x.Some? && x.value.FromLog? ==>
                  x.value.index == |s.log| < |s'.log|
                  && s'.log[x.value.index] == I.Entry(SignedPart(x.value.msg), x.value.root))
  {
    hide Effect, BurnDownTx, Admitted;
  }

  // The tables after any number of steps are the replay, from empty tables, of what those steps
  // applied, and the messages among that come in the order in which the log has them.
  lemma {:induction false} TablesAreReplayOfLog(env: Env, ss: seq<State>, es: seq<Event>, n: nat)
    requires IsRun(env, ss, es) && n <= |es|
    ensures Replayed(env, AppliedUpTo(env, ss, es, n)) == ss[n].t
    ensures InLogOrder(ss[n].log, AppliedUpTo(env, ss, es, n))
  {
    hide Next, Apply, AppliedBy, InLogOrder;
    if n == 0 {
      NothingIsInOrder(ss[0].log);
    } else {
      TablesAreReplayOfLog(env, ss, es, n - 1);
      var s, xs, x := ss[n - 1], AppliedUpTo(env, ss, es, n - 1), AppliedBy(env, ss[n - 1], es[n - 1]);
      assert ss[n] == Next(env, s, es[n - 1]);
      StepApplies(env, s, es[n - 1]);
      if x.Some? {
        ReplayGrows(env, xs, x.value);
        OrderGrows(s.log, ss[n].log, xs, x.value);
      } else {
        assert xs + [] == xs;
        OrderGrows(s.log, ss[n].log, xs, FromAdmin("", 0, Oracle("", 0, 0, true)));
      }
    }
  }

  lemma NothingIsInOrder(log: seq<I.Entry>)
    ensures InLogOrder(log, [])
  {
  }
}
