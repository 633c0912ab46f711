// The two database back ends phrase some statements differently. On tables that meet the schema
// they mean the same.
module Backends {
  import opened Wrappers
  import opened Tables

  // The condition both back ends put on a row of auxiliary_data joined with actors.
  predicate JoinSelects(t: Tables, name: string, auxId: string, x: AuxRow) {
    x.auxId == auxId && x.revokedAt.None?
    && exists r | r in t.actors :: r.id == x.actor && r.actorId == name
  }

  // PostgreSQL: UPDATE auxiliary_data ad ... FROM actors a WHERE <join condition>
  function PostgresRows(t: Tables, name: string, auxId: string): set<nat> {
    set i: nat | i < |t.aux| && JoinSelects(t, name, auxId, t.aux[i])
  }

  // SQLite: SELECT ad.id FROM auxiliary_data ad JOIN actors a ... WHERE <join condition>
  function SqliteIds(t: Tables, name: string, auxId: string): set<nat> {
    set x | x in t.aux && JoinSelects(t, name, auxId, x) :: x.id
  }

  // SQLite: UPDATE auxiliary_data ... WHERE id IN (<the select above>)
  function SqliteRows(t: Tables, name: string, auxId: string): set<nat> {
    set i: nat | i < |t.aux| && t.aux[i].id in SqliteIds(t, name, auxId)
  }

  function MarkAuxRows(t: Tables, rows: set<nat>, root: string, now: nat): Tables {
    t.(aux := seq(|t.aux|, i requires 0 <= i < |t.aux| =>
                    if i in rows then MarkAux(t.aux[i], root, now) else t.aux[i]))
  }

  // Both select the same rows, because ids are unique.
  lemma SameRows(t: Tables, name: string, auxId: string)
    requires Valid(t)
    ensures SqliteRows(t, name, auxId) == PostgresRows(t, name, auxId)
  {
  }

  // The rows selected are the one AuxIndex finds, if any.
  lemma PostgresRowsAre(t: Tables, name: string, auxId: string)
    requires Valid(t)
    ensures PostgresRows(t, name, auxId)
            == match ActorId(t, name)
               case None => {}
               case Some(a) => if AuxIndex(t.aux, a, auxId) == |t.aux| then {} else {AuxIndex(t.aux, a, auxId)}
  {
  }

  lemma MarkNone(t: Tables, root: string, now: nat)
    ensures MarkAuxRows(t, {}, root, now) == t
  {
    assert MarkAuxRows(t, {}, root, now).aux == t.aux;
  }

  lemma MarkOne(t: Tables, k: nat, root: string, now: nat)
    requires k < |t.aux|
    ensures MarkAuxRows(t, {k}, root, now) == t.(aux := t.aux[k := MarkAux(t.aux[k], root, now)])
  {
    assert MarkAuxRows(t, {k}, root, now).aux == t.aux[k := MarkAux(t.aux[k], root, now)];
  }

  // On every valid database the two RevokeAuxData statements change the same rows and report the
  // same count, 0 or 1, and that is what RevokeAuxData means here.
  lemma BackendsRevokeTheSameAux(t: Tables, name: string, auxId: string, root: string, now: nat)
    requires Valid(t)
    ensures var rows := PostgresRows(t, name, auxId);
            && SqliteRows(t, name, auxId) == rows
            && |rows| <= 1
            && (MarkAuxRows(t, rows, root, now), |rows|) == RevokeAuxData(t, name, auxId, root, now)
  {
    SameRows(t, name, auxId);
    PostgresRowsAre(t, name, auxId);
    hide Valid, PostgresRows, SqliteRows, ActorId, MarkAuxRows;
    var rows := PostgresRows(t, name, auxId);
    if rows == {} {
      MarkNone(t, root, now);
    } else {
      MarkOne(t, AuxIndex(t.aux, ActorId(t, name).value, auxId), root, now);
    }
  }
}
