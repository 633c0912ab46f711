// The action handlers (internal/api/protocol_actions.go), the dispatch to them
// (internal/api/protocol_handler.go) and the administrator's crypto-shred
// (internal/api/admin_handler.go). Each handler, started alone, performs exactly one step of the
// one-at-a-time system.
module Handlers {
  import opened Wrappers
  import opened Protocol
  import opened Signing
  import opened T = Tables
  import opened Transactions
  import opened Actions
  import opened Repository
  import opened Service
  import I = Interleaved
  import S = Sequential
  import Base64Url

  const OK := 200
  const BAD_REQUEST := 400
  const UNAUTHORIZED := 401
  const SERVER_ERROR := 500

  // Actions that neither reach the log nor change these tables. Their handlers and answers are not
  // part of this model.
  const UNLOGGED := {"Query", "Checkpoint"}

  // ---------- Loops the handlers share ----------

  // Rows whose text does not decode are skipped; the first row that verifies ends the search.
  method FindSigner(env: Env, msg: ProtocolMessage, rows: seq<KeyRow>) returns (found: bool)
    ensures found <==> SignedByAny(env, msg, rows)
  {
    hide DecodePublicKey, VerifyMessageSignature;
    found := false;
    var i := 0;
    while i < |rows|
      invariant i <= |rows|
      invariant found <==> SignedByAny(env, msg, rows[..i])
    {
      var pk := DecodePublicKey(rows[i].publicKey);
      if pk.None? {
        i := i + 1;
        continue;
      }
      if VerifyMessageSignature(env, msg, pk.value) {
        found := true;
        break;
      }
      i := i + 1;
    }
    assert rows[..|rows|] == rows;
  }

  // As FindSigner, but no key equal to the one being revoked may sign, however it is spelled.
  method FindOtherSigner(env: Env, msg: ProtocolMessage, rows: seq<KeyRow>, revoked: PublicKey) returns (found: bool)
    ensures found <==> SignedByOther(env, msg, rows, revoked)
  {
    hide DecodePublicKey, VerifyMessageSignature;
    found := false;
    var i := 0;
    while i < |rows|
      invariant i <= |rows|
      invariant found <==> SignedByOther(env, msg, rows[..i], revoked)
    {
      var pk := DecodePublicKey(rows[i].publicKey);
      if pk.None? || pk.value == revoked {
        i := i + 1;
        continue;
      }
      if VerifyMessageSignature(env, msg, pk.value) {
        found := true;
        break;
      }
      i := i + 1;
    }
    assert rows[..|rows|] == rows;
  }

  // The attributes come in any order; one text that does not decode spoils the whole message.
  method DecodeSymmetricKeys(texts: map<string, string>) returns (r: Option<map<string, Bytes>>)
    ensures r == DecodeDisclosed(texts)
  {
    var decoded: map<string, Bytes> := map[];
    var left := texts.Keys;
    while left != {}
      invariant left <= texts.Keys
      invariant decoded.Keys == texts.Keys - left
      invariant forall a | a in decoded :: Base64Url.Decode(texts[a]) == Some(decoded[a])
      decreases left
    {
      var attribute :| attribute in left;
      var bytes := Base64Url.Decode(texts[attribute]);
      if bytes.None? {
        return None;
      }
      decoded := decoded[attribute := bytes.value];
      left := left - {attribute};
    }
    assert forall a | a in texts :: a in decoded;
    assert DecodeDisclosed(texts).Some?;
    assert decoded == DecodeDisclosed(texts).value;
    r := Some(decoded);
  }

  // ---------- The log ----------

  // The transparency log appends what it accepts and answers with a root.
  class Log {
    var entries: seq<I.Entry>
    var calls: nat
    const answers: nat -> Option<string>

    constructor (answers: nat -> Option<string>)
      ensures entries == [] && calls == 0 && this.answers == answers
    {
      this.entries := [];
      this.calls := 0;
      this.answers := answers;
    }

    method SubmitMessage(msg: ProtocolMessage) returns (root: Option<string>)
      modifies this`entries, this`calls
      ensures root == answers(old(calls))
      ensures entries == old(entries) + if root.Some? then [I.Entry(SignedPart(msg), root.value)] else []
    {
      root := answers(calls);
      calls := calls + 1;
      if root.Some? {
        entries := entries + [I.Entry(SignedPart(msg), root.value)];
      }
    }
  }

  // ---------- What a handled message amounts to ----------

  // Handling `msg` in state `s` is the step `e`, and 200 is answered exactly when the message was
  // admitted, logged and applied in full.
  ghost predicate Handled(env: Env, s: S.State, msg: ProtocolMessage, now: nat, e: S.Event, status: nat, s': S.State) {
    && e.Message? && e.msg == msg && e.oracle.now == now
    && s' == S.Next(env, s, e)
    && (status == OK <==>
          && e.root.Some? && e.oracle.healthy && Admitted(env, s.t, msg, now)
          && Effect(env, s.t, msg, PayloadOf(env, SignedPart(msg)).value, e.root.value, e.oracle).Success?)
  }

  // With no failing call the outcome is not the handler's to choose: an admitted message gets the
  // log's answer, and what the log accepts is applied if it can be.
  ghost predicate Prompt(env: Env, s: S.State, msg: ProtocolMessage, now: nat, e: S.Event, answer: Option<string>) {
    && e.Message?
    && (Admitted(env, s.t, msg, now) ==> e.root == answer)
    && (Admitted(env, s.t, msg, now) && answer.Some? ==> e.oracle.healthy)
  }

  class Server {
    const env: Env
    const db: Database
    const log: Log
    const service: PKDService
    // The run so far: every state between requests, and the requests as steps.
    ghost var states: seq<S.State>
    ghost var events: seq<S.Event>

    constructor (env: Env, db: Database, log: Log, service: PKDService)
      requires service.db == db && db.tables == EMPTY && log.entries == []
      requires forall auxType, auxData :: env.auxValid(auxType, auxData) <==> service.AcceptsAux(auxType, auxData)
      ensures this.env == env && this.db == db && this.log == log && this.service == service
      ensures Valid() && Recorded()
    {
      this.env := env;
      this.db := db;
      this.log := log;
      this.service := service;
      this.states := [S.INITIAL];
      this.events := [];
    }

    // The server is where its run has led: every theorem about runs speaks of it.
    ghost predicate Recorded()
      reads this, db`tables, log`entries
    {
      S.IsRun(env, states, events) && states[|events|] == State()
    }

    ghost method Record(e: S.Event)
      requires S.IsRun(env, states, events) && State() == S.Next(env, states[|events|], e)
      modifies this`states, this`events
      ensures states == old(states) + [State()] && events == old(events) + [e]
      ensures Recorded()
    {
      S.RunGrows(env, states, events, e);
      states := states + [State()];
      events := events + [e];
    }

    ghost predicate Valid() {
      && service.db == db
      && forall auxType, auxData :: env.auxValid(auxType, auxData) <==> service.AcceptsAux(auxType, auxData)
    }

    ghost function State(): S.State
      reads db`tables, log`entries
    {
      S.State(db.tables, log.entries)
    }

    // ---------- Guards ----------

    // The check of every action except AddKey and RevokeKey: some listed key of `name` signed.
    method CheckSigned(msg: ProtocolMessage, name: string) returns (status: nat)
      modifies db`calls
      ensures db.calls >= old(db.calls)
      ensures status == OK ==> SignedByAny(env, msg, T.ListKeysForActor(db.tables, name))
      ensures db.HealthySince(old(db.calls)) && SignedByAny(env, msg, T.ListKeysForActor(db.tables, name)) ==> status == OK
      ensures var rows := T.ListKeysForActor(db.tables, name);
              status == if !db.HealthySince(old(db.calls)) then 500 else if rows == [] then 400
                        else if SignedByAny(env, msg, rows) then 200 else 401
    {
      var rows := db.ListKeysForActor(name);
      if rows.Failure? {
        return SERVER_ERROR;
      }
      if |rows.value| == 0 {
        return BAD_REQUEST;
      }
      var found := FindSigner(env, msg, rows.value);
      status := if found then OK else UNAUTHORIZED;
    }

    method CheckAddKey(msg: ProtocolMessage, actor: string, publicKey: string) returns (status: nat)
      modifies db`calls
      ensures db.calls >= old(db.calls)
      ensures status == if !db.HealthySince(old(db.calls)) then 500
                        else if AddKeyAllowed(env, db.tables, msg, actor, publicKey) then 200
                        else if T.ListKeysForActor(db.tables, actor) == [] && DecodePublicKey(publicKey).None? then 400 else 401
    {
      var rows := db.ListKeysForActor(actor);
      if rows.Failure? {
        return SERVER_ERROR;
      }
      if |rows.value| == 0 {
        var pk := DecodePublicKey(publicKey);
        if pk.None? {
          return BAD_REQUEST;
        }
        if !VerifyMessageSignature(env, msg, pk.value) {
          return UNAUTHORIZED;
        }
        return OK;
      }
      var found := FindSigner(env, msg, rows.value);
      status := if found then OK else UNAUTHORIZED;
    }

    method CheckRevokeKey(msg: ProtocolMessage, actor: string, publicKey: string) returns (status: nat)
      modifies db`calls
      ensures db.calls >= old(db.calls)
      ensures status == if !db.HealthySince(old(db.calls)) then 500
                        else if RevokeKeyAllowed(env, db.tables, msg, actor, publicKey) then 200
                        else if |T.ListKeysForActor(db.tables, actor)| < 2 || DecodePublicKey(publicKey).None? then 400 else 401
    {
      var rows := db.ListKeysForActor(actor);
      if rows.Failure? {
        return SERVER_ERROR;
      }
      if |rows.value| < 2 {
        return BAD_REQUEST;
      }
      var revoked := DecodePublicKey(publicKey);
      if revoked.None? {
        return BAD_REQUEST;
      }
      var found := FindOtherSigner(env, msg, rows.value, revoked.value);
      status := if found then OK else UNAUTHORIZED;
    }

    // The operator's one-time password, asked for only when the operator has enrolled a secret.
    method CheckTotp(msg: ProtocolMessage, operator: string, now: nat) returns (status: nat)
      modifies db`calls
      ensures db.calls >= old(db.calls)
      ensures status == if !db.HealthySince(old(db.calls)) then 500
                        else if TotpAllowed(env, msg, operator, now) then 200
                        else if msg.otp == "" then 400
                        else if env.totpSecret(operator).Undecryptable? then 500 else 401
    {
      var ok := db.Call();
      if !ok {
        return SERVER_ERROR;
      }
      var enrolment := env.totpSecret(operator);
      if !enrolment.NotEnrolled? {
        if msg.otp == "" {
          return BAD_REQUEST;
        }
        if enrolment.Undecryptable? {
          return SERVER_ERROR;
        }
        if !env.totpValid(enrolment.secret, msg.otp, now) {
          return UNAUTHORIZED;
        }
      }
      status := OK;
    }

    // ---------- Handlers ----------

    // `newId` is the next random key identifier, None when the generator fails.
    method ProcessAddKeyAction(msg: ProtocolMessage, newId: Option<string>, now: nat)
      returns (status: nat, ghost e: S.Event)
      requires Valid() && msg.pkdContext == PKD_CONTEXT_V1 && msg.action == "AddKey"
      modifies db`calls, db`tables, log`entries, log`calls
      ensures Handled(env, old(State()), msg, now, e, status, State())
      ensures newId.Some? ==> e.Message? && e.oracle.newId == newId.value
      ensures newId.Some? && db.HealthySince(old(db.calls)) ==>
                Prompt(env, old(State()), msg, now, e, log.answers(old(log.calls)))
    {
      hide AddKeyTx, RevokeKeyTx, MoveIdentityTx, BurnDownTx, AddAuxDataTx, RevokeAuxDataTx;
      hide SignedByAny, TotpAllowed, RevokeKeyAllowed, AddKeyAllowed, DecodeDisclosed, T.ListKeysForActor;
      var o := Oracle(newId.UnwrapOr(""), 0, now, false);
      e := S.Message(msg, None, o);
      var parsed := env.parse(msg.action, msg.message);
      if parsed.None? || !parsed.value.AddKey? {
        return BAD_REQUEST, e;
      }
      var actor, publicKey := parsed.value.actor, parsed.value.publicKey;
      status := CheckAddKey(msg, actor, publicKey);
      if status != OK {
        return status, e;
      }
      var root := log.SubmitMessage(msg);
      if root.None? {
        return SERVER_ERROR, e;
      }
      e := S.Message(msg, root, o);
      var disclosed := DecodeSymmetricKeys(msg.symmetricKeys);
      if disclosed.None? {
        e := S.Message(msg, root, o.(healthy := true));
        return BAD_REQUEST, e;
      }
      var stored := service.ProcessAddKey(actor, publicKey, root.value, newId, disclosed.value);
      e := S.Message(msg, root, o.(healthy := newId.Some? && (stored.Success? || db.HealthySince(old(db.calls)))));
      status := if stored.Success? then OK else SERVER_ERROR;
    }

    method ProcessRevokeKeyAction(msg: ProtocolMessage, now: nat)
      returns (status: nat, ghost e: S.Event)
      requires Valid() && msg.pkdContext == PKD_CONTEXT_V1 && msg.action == "RevokeKey"
      modifies db`calls, db`tables, log`entries, log`calls
      ensures Handled(env, old(State()), msg, now, e, status, State())
      ensures db.HealthySince(old(db.calls)) ==>
                Prompt(env, old(State()), msg, now, e, log.answers(old(log.calls)))
    {
      hide AddKeyTx, RevokeKeyTx, MoveIdentityTx, BurnDownTx, AddAuxDataTx, RevokeAuxDataTx;
      hide SignedByAny, TotpAllowed, RevokeKeyAllowed, AddKeyAllowed, DecodeDisclosed, T.ListKeysForActor;
      var o := Oracle("", 0, now, false);
      e := S.Message(msg, None, o);
      var parsed := env.parse(msg.action, msg.message);
      if parsed.None? || !parsed.value.RevokeKey? {
        return BAD_REQUEST, e;
      }
      var actor, publicKey := parsed.value.actor, parsed.value.publicKey;
      status := CheckRevokeKey(msg, actor, publicKey);
      if status != OK {
        return status, e;
      }
      var root := log.SubmitMessage(msg);
      if root.None? {
        return SERVER_ERROR, e;
      }
      e := S.Message(msg, root, o.(healthy := true));
      var disclosed := DecodeSymmetricKeys(msg.symmetricKeys);
      if disclosed.None? {
        return BAD_REQUEST, e;
      }
      var done, pick := service.ProcessRevokeKey(actor, publicKey, root.value, disclosed.value, now);
      e := S.Message(msg, root, o.(pick := pick, healthy := done.Success? || db.HealthySince(old(db.calls))));
      status := if done.Success? then OK else SERVER_ERROR;
    }

    // Signed under the old name; the new name is not asked.
    method ProcessMoveIdentityAction(msg: ProtocolMessage, now: nat)
      returns (status: nat, ghost e: S.Event)
      requires Valid() && msg.pkdContext == PKD_CONTEXT_V1 && msg.action == "MoveIdentity"
      modifies db`calls, db`tables, log`entries, log`calls
      ensures Handled(env, old(State()), msg, now, e, status, State())
      ensures db.HealthySince(old(db.calls)) ==>
                Prompt(env, old(State()), msg, now, e, log.answers(old(log.calls)))
    {
      hide AddKeyTx, RevokeKeyTx, MoveIdentityTx, BurnDownTx, AddAuxDataTx, RevokeAuxDataTx;
      hide SignedByAny, TotpAllowed, RevokeKeyAllowed, AddKeyAllowed, DecodeDisclosed, T.ListKeysForActor;
      var o := Oracle("", 0, now, false);
      e := S.Message(msg, None, o);
      var parsed := env.parse(msg.action, msg.message);
      if parsed.None? || !parsed.value.MoveIdentity? {
        return BAD_REQUEST, e;
      }
      var oldActor, newActor := parsed.value.oldActor, parsed.value.newActor;
      status := CheckSigned(msg, oldActor);
      if status != OK {
        return status, e;
      }
      var root := log.SubmitMessage(msg);
      if root.None? {
        return SERVER_ERROR, e;
      }
      var done := service.ProcessMoveIdentity(oldActor, newActor);
      e := S.Message(msg, root, o.(healthy := done.Success? || db.HealthySince(old(db.calls))));
      status := if done.Success? then OK else SERVER_ERROR;
    }

    // Signed by the operator, with a one-time password if enrolled. The fireproof mark is not looked at.
    method ProcessBurnDownAction(msg: ProtocolMessage, now: nat)
      returns (status: nat, ghost e: S.Event)
      requires Valid() && msg.pkdContext == PKD_CONTEXT_V1 && msg.action == "BurnDown"
      modifies db`calls, db`tables, log`entries, log`calls
      ensures Handled(env, old(State()), msg, now, e, status, State())
      ensures db.HealthySince(old(db.calls)) ==>
                Prompt(env, old(State()), msg, now, e, log.answers(old(log.calls)))
    {
      hide AddKeyTx, RevokeKeyTx, MoveIdentityTx, BurnDownTx, AddAuxDataTx, RevokeAuxDataTx;
      hide SignedByAny, TotpAllowed, RevokeKeyAllowed, AddKeyAllowed, DecodeDisclosed, T.ListKeysForActor;
      var o := Oracle("", 0, now, false);
      e := S.Message(msg, None, o);
      var parsed := env.parse(msg.action, msg.message);
      if parsed.None? || !parsed.value.BurnDown? {
        return BAD_REQUEST, e;
      }
      var actor, operator := parsed.value.actor, parsed.value.operator;
      status := CheckSigned(msg, operator);
      if status != OK {
        return status, e;
      }
      status := CheckTotp(msg, operator, now);
      if status != OK {
        return status, e;
      }
      var root := log.SubmitMessage(msg);
      if root.None? {
        return SERVER_ERROR, e;
      }
      var done := service.ProcessBurnDown(actor, root.value, now);
      e := S.Message(msg, root, o.(healthy := done.Success? || db.HealthySince(old(db.calls))));
      status := if done.Success? then OK else SERVER_ERROR;
    }

    method ProcessFireproofAction(msg: ProtocolMessage, now: nat)
      returns (status: nat, ghost e: S.Event)
      requires Valid() && msg.pkdContext == PKD_CONTEXT_V1 && msg.action == "Fireproof"
      modifies db`calls, db`tables, log`entries, log`calls
      ensures Handled(env, old(State()), msg, now, e, status, State())
      ensures db.HealthySince(old(db.calls)) ==>
                Prompt(env, old(State()), msg, now, e, log.answers(old(log.calls)))
    {
      hide AddKeyTx, RevokeKeyTx, MoveIdentityTx, BurnDownTx, AddAuxDataTx, RevokeAuxDataTx;
      hide SignedByAny, TotpAllowed, RevokeKeyAllowed, AddKeyAllowed, DecodeDisclosed, T.ListKeysForActor;
      var o := Oracle("", 0, now, false);
      e := S.Message(msg, None, o);
      var parsed := env.parse(msg.action, msg.message);
      if parsed.None? || !parsed.value.Fireproof? {
        return BAD_REQUEST, e;
      }
      var actor := parsed.value.actor;
      status := CheckSigned(msg, actor);
      if status != OK {
        return status, e;
      }
      var root := log.SubmitMessage(msg);
      if root.None? {
        return SERVER_ERROR, e;
      }
      var done := db.SetFireproof(actor, true);
      e := S.Message(msg, root, o.(healthy := done.Success? || db.HealthySince(old(db.calls))));
      status := if done.Success? then OK else SERVER_ERROR;
    }

    method ProcessUndoFireproofAction(msg: ProtocolMessage, now: nat)
      returns (status: nat, ghost e: S.Event)
      requires Valid() && msg.pkdContext == PKD_CONTEXT_V1 && msg.action == "UndoFireproof"
      modifies db`calls, db`tables, log`entries, log`calls
      ensures Handled(env, old(State()), msg, now, e, status, State())
      ensures db.HealthySince(old(db.calls)) ==>
                Prompt(env, old(State()), msg, now, e, log.answers(old(log.calls)))
    {
      hide AddKeyTx, RevokeKeyTx, MoveIdentityTx, BurnDownTx, AddAuxDataTx, RevokeAuxDataTx;
      hide SignedByAny, TotpAllowed, RevokeKeyAllowed, AddKeyAllowed, DecodeDisclosed, T.ListKeysForActor;
      var o := Oracle("", 0, now, false);
      e := S.Message(msg, None, o);
      var parsed := env.parse(msg.action, msg.message);
      if parsed.None? || !parsed.value.UndoFireproof? {
        return BAD_REQUEST, e;
      }
      var actor := parsed.value.actor;
      status := CheckSigned(msg, actor);
      if status != OK {
        return status, e;
      }
      var root := log.SubmitMessage(msg);
      if root.None? {
        return SERVER_ERROR, e;
      }
      var done := db.SetFireproof(actor, false);
      e := S.Message(msg, root, o.(healthy := done.Success? || db.HealthySince(old(db.calls))));
      status := if done.Success? then OK else SERVER_ERROR;
    }

    method ProcessAddAuxDataAction(msg: ProtocolMessage, newId: Option<string>, now: nat)
      returns (status: nat, ghost e: S.Event)
      requires Valid() && msg.pkdContext == PKD_CONTEXT_V1 && msg.action == "AddAuxData"
      modifies db`calls, db`tables, log`entries, log`calls
      ensures Handled(env, old(State()), msg, now, e, status, State())
      ensures newId.Some? ==> e.Message? && e.oracle.newId == newId.value
      ensures newId.Some? && db.HealthySince(old(db.calls)) ==>
                Prompt(env, old(State()), msg, now, e, log.answers(old(log.calls)))
    {
      hide AddKeyTx, RevokeKeyTx, MoveIdentityTx, BurnDownTx, AddAuxDataTx, RevokeAuxDataTx;
      hide SignedByAny, TotpAllowed, RevokeKeyAllowed, AddKeyAllowed, DecodeDisclosed, T.ListKeysForActor;
      var o := Oracle(newId.UnwrapOr(""), 0, now, false);
      e := S.Message(msg, None, o);
      var parsed := env.parse(msg.action, msg.message);
      if parsed.None? || !parsed.value.AddAuxData? {
        return BAD_REQUEST, e;
      }
      var actor, auxType, auxData := parsed.value.actor, parsed.value.auxType, parsed.value.auxData;
      status := CheckSigned(msg, actor);
      if status != OK {
        return status, e;
      }
      var root := log.SubmitMessage(msg);
      if root.None? {
        return SERVER_ERROR, e;
      }
      var done := service.ProcessAddAuxData(actor, auxType, auxData, root.value, newId);
      e := S.Message(msg, root, o.(healthy := newId.Some? && (done.Success? || db.HealthySince(old(db.calls)))));
      status := if done.Success? then OK else SERVER_ERROR;
    }

    method ProcessRevokeAuxDataAction(msg: ProtocolMessage, now: nat)
      returns (status: nat, ghost e: S.Event)
      requires Valid() && msg.pkdContext == PKD_CONTEXT_V1 && msg.action == "RevokeAuxData"
      modifies db`calls, db`tables, log`entries, log`calls
      ensures Handled(env, old(State()), msg, now, e, status, State())
      ensures db.HealthySince(old(db.calls)) ==>
                Prompt(env, old(State()), msg, now, e, log.answers(old(log.calls)))
    {
      hide AddKeyTx, RevokeKeyTx, MoveIdentityTx, BurnDownTx, AddAuxDataTx, RevokeAuxDataTx;
      hide SignedByAny, TotpAllowed, RevokeKeyAllowed, AddKeyAllowed, DecodeDisclosed, T.ListKeysForActor;
      var o := Oracle("", 0, now, false);
      e := S.Message(msg, None, o);
      var parsed := env.parse(msg.action, msg.message);
      if parsed.None? || !parsed.value.RevokeAuxData? {
        return BAD_REQUEST, e;
      }
      var actor, auxId := parsed.value.actor, parsed.value.auxId;
      status := CheckSigned(msg, actor);
      if status != OK {
        return status, e;
      }
      var root := log.SubmitMessage(msg);
      if root.None? {
        return SERVER_ERROR, e;
      }
      var done := service.ProcessRevokeAuxData(actor, auxId, root.value, now);
      e := S.Message(msg, root, o.(healthy := done.Success? || db.HealthySince(old(db.calls))));
      status := if done.Success? then OK else SERVER_ERROR;
    }

    // ---------- Entry points ----------

    method HandleProtocolMessage(msg: ProtocolMessage, newId: Option<string>, now: nat)
      returns (status: nat, ghost e: S.Event)
      requires Valid() && Recorded()
      modifies this`states, this`events, db`calls, db`tables, log`entries, log`calls
      ensures Recorded() && events == old(events) + [e]
      ensures msg.action in UNLOGGED ==> State() == old(State())
      ensures msg.action !in UNLOGGED ==> Handled(env, old(State()), msg, now, e, status, State())
      ensures newId.Some? && db.HealthySince(old(db.calls)) && msg.action !in UNLOGGED ==>
                Prompt(env, old(State()), msg, now, e, log.answers(old(log.calls)))
    {
      e := S.Message(msg, None, Oracle("", 0, now, false));
      if msg.pkdContext != PKD_CONTEXT_V1 {
        Record(e);
        return BAD_REQUEST, e;
      }
      match msg.action {
        case "AddKey" => status, e := ProcessAddKeyAction(msg, newId, now);
        case "RevokeKey" => status, e := ProcessRevokeKeyAction(msg, now);
        case "MoveIdentity" => status, e := ProcessMoveIdentityAction(msg, now);
        case "BurnDown" => status, e := ProcessBurnDownAction(msg, now);
        case "Fireproof" => status, e := ProcessFireproofAction(msg, now);
        case "UndoFireproof" => status, e := ProcessUndoFireproofAction(msg, now);
        case "AddAuxData" => status, e := ProcessAddAuxDataAction(msg, newId, now);
        case "RevokeAuxData" => status, e := ProcessRevokeAuxDataAction(msg, now);
        case "Query" => status := OK;
        case "Checkpoint" => status := OK;
        case _ => status := BAD_REQUEST;
      }
      Record(e);
    }

    // An actor that does not exist counts as shredded.
    method HandleCryptoShred(actor: string, nanos: int, now: nat) returns (status: nat, ghost e: S.Event)
      requires Valid() && Recorded()
      modifies this`states, this`events, db`calls, db`tables
      ensures Recorded() && events == old(events) + [e]
      ensures e.Shred? && e.actor == actor && e.nanos == nanos && e.oracle.now == now
      ensures State() == S.Next(env, old(State()), e)
      ensures status == OK ==>
                actor != "" && (ActorId(old(db.tables), actor).Some? ==>
                  BurnDownTx(old(db.tables), actor, AdminRoot(actor, nanos), now) == Success(db.tables))
      ensures db.HealthySince(old(db.calls)) && actor != "" ==> status == OK
    {
      var o := Oracle("", 0, now, false);
      e := S.Shred(actor, nanos, o);
      if actor == "" {
        Record(e);
        return BAD_REQUEST, e;
      }
      var done := service.CryptoShred(actor, nanos, now);
      e := S.Shred(actor, nanos, o.(healthy := done.Success?));
      Record(e);
      if done.Failure? && done.error != ActorNotFound {
        return SERVER_ERROR, e;
      }
      status := OK;
    }
  }
}
