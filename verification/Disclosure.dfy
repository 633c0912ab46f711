// What an AddKey or RevokeKey stores of the symmetric keys its message discloses: the octets each
// text encodes, all of them or none.
module Disclosure {
  import opened Wrappers
  import opened Protocol
  import opened Tables
  import opened Transactions
  import opened Actions
  import opened Interleaved
  import Base64Url

  // Under `root`, and nowhere else, `t'` has what `texts` encode; none of it was there before.
  ghost predicate StoresDecoded(t: Tables, t': Tables, texts: map<string, string>, root: string) {
    && (forall q :: q in t'.symmetricKeys <==> q in t.symmetricKeys || (q.0 == root && q.1 in texts))
    && (forall q | q in t.symmetricKeys :: t'.symmetricKeys[q] == t.symmetricKeys[q] && !(q.0 == root && q.1 in texts))
    && (forall attribute | attribute in texts ::
          Base64Url.Decode(texts[attribute]) == Some(t'.symmetricKeys[(root, attribute)]))
  }

  // So a text that encodes some octets is stored as those octets.
  lemma EncodedTextIsStoredAsOctets(t: Tables, t': Tables, texts: map<string, string>, root: string, attribute: string, bs: Bytes)
    requires StoresDecoded(t, t', texts, root) && attribute in texts && texts[attribute] == Base64Url.Encode(bs)
    ensures (root, attribute) in t'.symmetricKeys && t'.symmetricKeys[(root, attribute)] == bs
  {
    Base64Url.DecodeEncode(bs);
    assert (root, attribute) in t'.symmetricKeys;
  }

  lemma DecodedOnes(texts: map<string, string>)
    ensures DecodeDisclosed(texts).None? <==> exists attribute | attribute in texts :: Base64Url.Decode(texts[attribute]).None?
    ensures DecodeDisclosed(texts).Some? ==>
              && DecodeDisclosed(texts).value.Keys == texts.Keys
              && forall attribute | attribute in texts ::
                   Base64Url.Decode(texts[attribute]) == Some(DecodeDisclosed(texts).value[attribute])
  {
  }

  lemma StoredIsDecoded(t: Tables, t': Tables, texts: map<string, string>, root: string)
    requires DecodeDisclosed(texts).Some?
    requires t'.symmetricKeys == t.symmetricKeys + Disclosed(root, DecodeDisclosed(texts).value)
    requires forall attribute | attribute in DecodeDisclosed(texts).value :: (root, attribute) !in t.symmetricKeys
    ensures StoresDecoded(t, t', texts, root)
  {
    DecodedOnes(texts);
    hide DecodeDisclosed, Base64Url.Decode;
    forall q | q in t.symmetricKeys
      ensures t'.symmetricKeys[q] == t.symmetricKeys[q] && !(q.0 == root && q.1 in texts)
    {
      assert q == (q.0, q.1);
    }
    forall attribute | attribute in texts
      ensures Base64Url.Decode(texts[attribute]) == Some(t'.symmetricKeys[(root, attribute)])
    {
      assert (root, attribute) in Disclosed(root, DecodeDisclosed(texts).value);
    }
  }

  // The transaction of an AddKey or RevokeKey fails as a whole when a text does not decode, and
  // otherwise, if it changes anything, stores every text decoded.
  lemma TransactionStoresDecoded(env: Env, t: Tables, msg: ProtocolMessage, p: Payload, root: string, o: Oracle)
    requires Valid(t) && PayloadOf(env, SignedPart(msg)) == Some(p) && (p.AddKey? || p.RevokeKey?)
    ensures var t' := After(env, t, msg, root, o); t' == t || StoresDecoded(t, t', msg.symmetricKeys, root)
    ensures (exists attribute | attribute in msg.symmetricKeys :: Base64Url.Decode(msg.symmetricKeys[attribute]).None?) ==>
              After(env, t, msg, root, o) == t && Effect(env, t, msg, p, root, o).Failure?
  {
    DecodedOnes(msg.symmetricKeys);
    hide DecodeDisclosed, Base64Url.Decode, PayloadOf, AddKeyTx, RevokeKeyTx, StoresDecoded, Valid;
    var t' := After(env, t, msg, root, o);
    if o.healthy && Effect(env, t, msg, p, root, o).Success? {
      var disclosed := DecodeDisclosed(msg.symmetricKeys).value;
      match p {
        case AddKey(actor, publicKey) => AddKeyTxEffect(t, actor, publicKey, root, o.newId, disclosed);
        case RevokeKey(actor, publicKey) => RevokeKeyTxEffect(t, actor, publicKey, root, disclosed, o.now, o.pick);
      }
      StoredIsDecoded(t, t', msg.symmetricKeys, root);
    }
  }

  // In every interleaved run: a transaction that inserts or revokes a key for an AddKey or RevokeKey
  // stores what the message discloses, decoded, and one whose message does not decode does nothing.
  lemma EveryDisclosureIsStoredDecoded(env: Env, ss: seq<State>, es: seq<Event>, r: nat)
    requires IsRun(env, ss, es) && TransactsAt(env, ss, es, r)
    requires var p := PayloadOf(env, SignedPart(ss[r].flights[es[r].id].msg)); p.Some? && (p.value.AddKey? || p.value.RevokeKey?)
    ensures var f, t, t' := ss[r].flights[es[r].id], ss[r].t, ss[r + 1].t;
            && (t' == t || StoresDecoded(t, t', f.msg.symmetricKeys, f.root))
            && ((exists attribute | attribute in f.msg.symmetricKeys ::
                   Base64Url.Decode(f.msg.symmetricKeys[attribute]).None?) ==> t' == t)
  {
    hide After, StoresDecoded, Base64Url.Decode;
    RunKeepsInvariant(env, ss, es, r);
    var f := ss[r].flights[es[r].id];
    assert ss[r + 1] == Next(env, ss[r], es[r]);
    TransactionStoresDecoded(env, ss[r].t, f.msg, PayloadOf(env, SignedPart(f.msg)).value, f.root, es[r].oracle);
  }

  // Symmetric keys come from nowhere else: no other step stores any.
  lemma OnlyDisclosuresStore(env: Env, ss: seq<State>, es: seq<Event>, r: nat)
    requires IsRun(env, ss, es) && r < |es|
    ensures (exists q | q in ss[r + 1].t.symmetricKeys :: q !in ss[r].t.symmetricKeys || ss[r + 1].t.symmetricKeys[q] != ss[r].t.symmetricKeys[q]) ==>
              && TransactsAt(env, ss, es, r)
              && var p := PayloadOf(env, SignedPart(ss[r].flights[es[r].id].msg)); p.Some? && (p.value.AddKey? || p.value.RevokeKey?)
  {
    hide After, AfterShred, Admitted;
    RunKeepsInvariant(env, ss, es, r);
    var s, e := ss[r], es[r];
    assert ss[r + 1] == Next(env, s, e);
    if e.Shred? && e.actor != "" {
      ShredKeepsValues(s.t, e.actor, e.nanos, e.oracle);
    } else if e.Transact? && e.id in s.flights && s.flights[e.id].Submitted? {
      StepTransacts(env, ss, es, r);
      OthersKeepValues(env, s.t, s.flights[e.id].msg, s.flights[e.id].root, e.oracle);
    }
  }

  ghost predicate NothingStored(t: Tables, t': Tables) {
    forall q | q in t'.symmetricKeys :: q in t.symmetricKeys && t'.symmetricKeys[q] == t.symmetricKeys[q]
  }

  lemma ShredKeepsValues(t: Tables, actor: string, nanos: int, o: Oracle)
    requires Valid(t)
    ensures NothingStored(t, AfterShred(t, actor, nanos, o))
  {
    if o.healthy && BurnDownTx(t, actor, AdminRoot(actor, nanos), o.now).Success? {
      BurnDownTxEffect(t, actor, AdminRoot(actor, nanos), o.now);
    }
  }

  lemma OthersKeepValues(env: Env, t: Tables, msg: ProtocolMessage, root: string, o: Oracle)
    requires Valid(t)
    ensures var p := PayloadOf(env, SignedPart(msg));
            (p.Some? && (p.value.AddKey? || p.value.RevokeKey?)) || NothingStored(t, After(env, t, msg, root, o))
  {
    hide BurnDownTx, MoveIdentityTx, AddAuxDataTx, RevokeAuxDataTx, SetFireproof;
    var q := PayloadOf(env, SignedPart(msg));
    if q.Some? && o.healthy && Effect(env, t, msg, q.value, root, o).Success? {
      match q.value {
        case AddKey(_, _) =>
        case RevokeKey(_, _) =>
        case MoveIdentity(oldActor, newActor) => MoveIdentityTxEffect(t, oldActor, newActor);
        case BurnDown(actor, _) => BurnDownTxEffect(t, actor, root, o.now);
        case Fireproof(actor) => SetFireproofEffect(t, actor, true);
        case UndoFireproof(actor) => SetFireproofEffect(t, actor, false);
        case AddAuxData(actor, auxType, auxData) => AddAuxDataTxEffect(t, actor, auxType, auxData, root, o.newId);
        case RevokeAuxData(actor, auxId) => RevokeAuxDataTxEffect(t, actor, auxId, root, o.now);
      }
    }
  }
}
