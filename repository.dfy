/**
 * The repository contract over one entity kind: stored snapshots keyed by
 * entity id, point lookup, upsert (insert or overwrite) and a filtered
 * stream. Backends keep one such keyed collection per entity kind.
 */
module Repository {
  import opened Wrappers

  /** Every stored snapshot sits under its own id. */
  ghost predicate Keyed<K, E>(rows: map<K, E>, idOf: E -> K) {
    forall k :: k in rows ==> idOf(rows[k]) == k
  }

  /** `get(id)`: the stored snapshot, or nothing. */
  function Get<K, E>(rows: map<K, E>, id: K): Option<E> {
    if id in rows then Some(rows[id]) else None
  }

  /** `upsert(e)`: store `e` under `e.id()`, replacing what was there. */
  function Upsert<K, E>(rows: map<K, E>, idOf: E -> K, e: E): map<K, E> {
    rows[idOf(e) := e]
  }

  /** A stream filtered by `keep`; its order is unspecified, so it is a set. */
  function Stream<K, E(==)>(rows: map<K, E>, keep: E -> bool): set<E> {
    set e | e in rows.Values && keep(e)
  }

  /** Get after upsert returns the written snapshot; other ids read as before. */
  lemma GetAfterUpsert<K, E>(rows: map<K, E>, idOf: E -> K, e: E, id: K)
    ensures Get(Upsert(rows, idOf, e), id) == if id == idOf(e) then Some(e) else Get(rows, id)
  {
  }

  /** Applying the same upsert twice leaves the same state as applying it once. */
  lemma UpsertIdempotent<K, E>(rows: map<K, E>, idOf: E -> K, e: E)
    ensures Upsert(Upsert(rows, idOf, e), idOf, e) == Upsert(rows, idOf, e)
  {
  }

  lemma UpsertKeepsKeyed<K, E>(rows: map<K, E>, idOf: E -> K, e: E)
    requires Keyed(rows, idOf)
    ensures Keyed(Upsert(rows, idOf, e), idOf)
  {
  }

  /** A stream yields exactly the stored snapshots that pass the filter. */
  lemma StreamSpec<K, E>(rows: map<K, E>, idOf: E -> K, keep: E -> bool, e: E)
    requires Keyed(rows, idOf)
    ensures e in Stream(rows, keep) <==> Get(rows, idOf(e)) == Some(e) && keep(e)
  {
    if e in rows.Values {
      var k :| k in rows && rows[k] == e;
      assert k == idOf(e);
    }
  }

  /**
   * After an upsert the stream holds the old matches with the written id
   * removed, plus the written snapshot if it passes the filter.
   */
  lemma StreamAfterUpsert<K, E>(rows: map<K, E>, idOf: E -> K, keep: E -> bool, e: E)
    requires Keyed(rows, idOf)
    ensures Stream(Upsert(rows, idOf, e), keep) ==
              (set x | x in Stream(rows, keep) && idOf(x) != idOf(e)) + (if keep(e) then {e} else {})
  {
    var after := Upsert(rows, idOf, e);
    UpsertKeepsKeyed(rows, idOf, e);
    var lhs := Stream(after, keep);
    var rhs := (set x | x in Stream(rows, keep) && idOf(x) != idOf(e)) + (if keep(e) then {e} else {});
    forall x | x in lhs ensures x in rhs {
      StreamSpec(after, idOf, keep, x);
      if idOf(x) != idOf(e) {
        StreamSpec(rows, idOf, keep, x);
      }
    }
    forall x | x in rhs ensures x in lhs {
      StreamSpec(after, idOf, keep, x);
      if x != e || !keep(e) {
        StreamSpec(rows, idOf, keep, x);
      }
    }
  }
}
