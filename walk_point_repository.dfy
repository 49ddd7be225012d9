/** The `WalkPointRepository` of both backends as an abstract store: a
    sequence of point rows, the three queries their JPQL states, and the two
    writes the services use (`saveAll`, `deleteByWalkId`). */
module WalkPointRepository {
  import opened Common
  import StableSort

  /** A stored `WalkPoint`. Walk ids (`UUID` in one backend, `Long` in the
      other) are abstract naturals; `ts` is in nanoseconds. */
  datatype PointRow = PointRow(walkId: nat, lat: real, lon: real, ts: int, elev: Option<real>)

  function Ts(p: PointRow): int { p.ts }

  /** `wp.walkId = :walkId` */
  function OfWalk(walkId: nat): PointRow -> bool { (p: PointRow) => p.walkId == walkId }

  function NotOfWalk(walkId: nat): PointRow -> bool { (p: PointRow) => p.walkId != walkId }

  /** `SELECT wp FROM WalkPoint wp WHERE wp.walkId = :walkId ORDER BY wp.timestamp ASC`.
      The store's order among equal timestamps is not promised by the query;
      the model keeps insertion order there. */
  function FindByWalkIdOrderByTimestamp(rows: seq<PointRow>, walkId: nat): (r: seq<PointRow>)
    ensures forall p :: p in r <==> p in rows && p.walkId == walkId
    ensures multiset(r) == multiset(Keep(rows, OfWalk(walkId)))
    ensures forall i, j :: 0 <= i < j < |r| ==> r[i].ts <= r[j].ts
  {
    var selected := Keep(rows, OfWalk(walkId));
    KeepCount(rows, OfWalk(walkId));
    StableSort.SortByMembers(selected, Ts);
    StableSort.SortByIsPermutation(selected, Ts);
    StableSort.SortByIsSorted(selected, Ts);
    StableSort.SortBy(selected, Ts)
  }

  /** `SELECT COUNT(wp) FROM WalkPoint wp WHERE wp.walkId = :walkId` */
  function CountByWalkId(rows: seq<PointRow>, walkId: nat): (n: nat)
    ensures n == |FindByWalkIdOrderByTimestamp(rows, walkId)|
  {
    KeepCount(rows, OfWalk(walkId));
    CountWhere(rows, OfWalk(walkId))
  }

  lemma {:induction false} KeepOtherWalk(rows: seq<PointRow>, deleted: nat, other: nat)
    requires deleted != other
    ensures Keep(Keep(rows, NotOfWalk(deleted)), OfWalk(other)) == Keep(rows, OfWalk(other))
  {
    if rows != [] {
      var init := rows[..|rows| - 1];
      KeepOtherWalk(init, deleted, other);
      var last := rows[|rows| - 1];
      var kept := if NotOfWalk(deleted)(last) then [last] else [];
      KeepAppend(Keep(init, NotOfWalk(deleted)), kept, OfWalk(other));
    }
  }

  lemma {:induction false} KeepNoneOfWalk(rows: seq<PointRow>, walkId: nat)
    ensures Keep(Keep(rows, NotOfWalk(walkId)), OfWalk(walkId)) == []
  {
    if rows != [] {
      var init := rows[..|rows| - 1];
      KeepNoneOfWalk(init, walkId);
      var last := rows[|rows| - 1];
      var kept := if NotOfWalk(walkId)(last) then [last] else [];
      KeepAppend(Keep(init, NotOfWalk(walkId)), kept, OfWalk(walkId));
    }
  }

  /** After `deleteByWalkId(w)` the walk has no points, and every other walk's
      ordered points are exactly what they were. */
  lemma DeleteByWalkIdEffect(rows: seq<PointRow>, walkId: nat, other: nat)
    ensures FindByWalkIdOrderByTimestamp(Keep(rows, NotOfWalk(walkId)), walkId) == []
    ensures other != walkId ==>
      FindByWalkIdOrderByTimestamp(Keep(rows, NotOfWalk(walkId)), other)
        == FindByWalkIdOrderByTimestamp(rows, other)
  {
    KeepNoneOfWalk(rows, walkId);
    if other != walkId {
      KeepOtherWalk(rows, walkId, other);
    }
  }

  /** `saveAll` adds to each walk's count exactly the batch rows of that walk. */
  lemma SaveAllCount(rows: seq<PointRow>, batch: seq<PointRow>, walkId: nat)
    ensures CountByWalkId(rows + batch, walkId) == CountByWalkId(rows, walkId) + CountWhere(batch, OfWalk(walkId))
  {
    KeepAppend(rows, batch, OfWalk(walkId));
    KeepCount(rows + batch, OfWalk(walkId));
    KeepCount(rows, OfWalk(walkId));
    KeepCount(batch, OfWalk(walkId));
  }

  class PointTable {
    var rows: seq<PointRow>
    /** The lists passed to `saveAll`, in call order. */
    ghost var saveAllCalls: seq<seq<PointRow>>

    constructor ()
      ensures rows == [] && saveAllCalls == []
    {
      rows := [];
      saveAllCalls := [];
    }

    /** `saveAll`: the rows are stored after the existing ones, in order. */
    method SaveAll(batch: seq<PointRow>)
      modifies this
      ensures rows == old(rows) + batch
      ensures saveAllCalls == old(saveAllCalls) + [batch]
    {
      rows := rows + batch;
      saveAllCalls := saveAllCalls + [batch];
    }

    /** `DELETE FROM WalkPoint wp WHERE wp.walkId = :walkId` */
    method DeleteByWalkId(walkId: nat)
      modifies this
      ensures rows == Keep(old(rows), NotOfWalk(walkId)) && saveAllCalls == old(saveAllCalls)
      ensures FindByWalkIdOrderByTimestamp(rows, walkId) == []
      ensures forall other :: other != walkId ==>
        FindByWalkIdOrderByTimestamp(rows, other) == FindByWalkIdOrderByTimestamp(old(rows), other)
    {
      DeleteByWalkIdEffect(rows, walkId, walkId);
      forall other | other != walkId
        ensures FindByWalkIdOrderByTimestamp(Keep(rows, NotOfWalk(walkId)), other)
             == FindByWalkIdOrderByTimestamp(rows, other)
      {
        DeleteByWalkIdEffect(rows, walkId, other);
      }
      rows := Keep(rows, NotOfWalk(walkId));
    }
  }
}
