/** The second backend's `WalkRepository` as an abstract store: the walk
    rows, the four queries its JPQL states, and the `findById`/`save` it
    inherits from `JpaRepository`. */
module WalkRepository {
  import opened Common
  import StableSort
  import opened WalkModel

  /** `w.petId = :petId` */
  function OfPet(petId: nat): WalkRow -> bool
  {
    (w: WalkRow) => w.petId == petId
  }

  /** `w.petId = :petId AND w.finishedAt IS NULL` */
  function ActiveOfPet(petId: nat): WalkRow -> bool
  {
    (w: WalkRow) => w.petId == petId && RowActive(w)
  }

  function FinishedOfPet(petId: nat): WalkRow -> bool
  {
    (w: WalkRow) => w.petId == petId && !RowActive(w)
  }

  /** `SELECT COUNT(w) > 0 FROM Walk w WHERE w.petId = :petId AND w.finishedAt IS NULL` */
  function ExistsActiveWalkByPetId(rows: seq<WalkRow>, petId: nat): (b: bool)
    ensures b <==> exists w :: w in rows && w.petId == petId && w.finishedAt == None
  {
    CountPositive(rows, ActiveOfPet(petId));
    CountWhere(rows, ActiveOfPet(petId)) > 0
  }

  /** `SELECT w FROM Walk w WHERE w.petId = :petId AND w.finishedAt IS NULL`
      as an `Optional`: a matching walk, absent exactly when none exists.
      Which match is returned when several exist is the store's choice; the
      model takes the first. */
  function FindActiveWalkByPetId(rows: seq<WalkRow>, petId: nat): (r: Option<WalkRow>)
    ensures r.Some? ==> r.value in rows && r.value.petId == petId && r.value.finishedAt == None
    ensures r.None? <==> !ExistsActiveWalkByPetId(rows, petId)
  {
    var matches := Keep(rows, ActiveOfPet(petId));
    KeepCount(rows, ActiveOfPet(petId));
    CountPositive(rows, ActiveOfPet(petId));
    if matches == [] then None else Some(matches[0])
  }

  function NegStartedAt(w: WalkRow): int { -w.startedAt }

  /** `SELECT w FROM Walk w WHERE w.petId = :petId ORDER BY w.startedAt DESC`,
      before paging: every walk of the pet, newest first. */
  function FindByPetIdOrderByStartedAtDesc(rows: seq<WalkRow>, petId: nat): (r: seq<WalkRow>)
    ensures forall w :: w in r <==> w in rows && w.petId == petId
    ensures multiset(r) == multiset(Keep(rows, OfPet(petId)))
    ensures forall i, j :: 0 <= i < j < |r| ==> r[i].startedAt >= r[j].startedAt
  {
    var selected := Keep(rows, OfPet(petId));
    KeepCount(rows, OfPet(petId));
    StableSort.SortByMembers(selected, NegStartedAt);
    StableSort.SortByIsPermutation(selected, NegStartedAt);
    StableSort.SortByIsSorted(selected, NegStartedAt);
    StableSort.SortBy(selected, NegStartedAt)
  }

  /** `SELECT COUNT(w) FROM Walk w WHERE w.petId = :petId` */
  function CountByPetId(rows: seq<WalkRow>, petId: nat): (n: nat)
    ensures n == |FindByPetIdOrderByStartedAtDesc(rows, petId)|
  {
    KeepCount(rows, OfPet(petId));
    CountWhere(rows, OfPet(petId))
  }

  /** The count covers active and finished walks alike. */
  lemma {:induction false} CountByPetIdSplits(rows: seq<WalkRow>, petId: nat)
    ensures CountByPetId(rows, petId)
         == CountWhere(rows, ActiveOfPet(petId)) + CountWhere(rows, FinishedOfPet(petId))
  {
    if rows != [] {
      CountByPetIdSplits(rows[..|rows| - 1], petId);
    }
  }

  /** `findById` */
  function FindRow(rows: seq<WalkRow>, id: nat): (r: Option<WalkRow>)
    ensures r.Some? ==> r.value in rows && r.value.id == id
    ensures r.None? <==> forall w :: w in rows ==> w.id != id
  {
    if rows == [] then None
    else if rows[0].id == id then Some(rows[0])
    else FindRow(rows[1..], id)
  }

  /** `existsById` */
  function ExistsById(rows: seq<WalkRow>, id: nat): (b: bool)
    ensures b <==> exists w :: w in rows && w.id == id
  {
    FindRow(rows, id).Some?
  }

  /** `save` of an entity that is already stored: the row with its id is
      overwritten, every other row stays. */
  function Replace(rows: seq<WalkRow>, row: WalkRow): (r: seq<WalkRow>)
    ensures |r| == |rows|
    ensures forall i :: 0 <= i < |rows| ==> r[i] == if rows[i].id == row.id then row else rows[i]
  {
    if rows == [] then []
    else Replace(rows[..|rows| - 1], row) + [if rows[|rows| - 1].id == row.id then row else rows[|rows| - 1]]
  }

  /** At most one walk with each id. */
  ghost predicate UniqueIds(rows: seq<WalkRow>)
  {
    forall i, j :: 0 <= i < j < |rows| ==> rows[i].id != rows[j].id
  }

  /** At most one active walk per pet: what `startWalk`'s check guarantees
      when calls are taken one at a time. */
  ghost predicate OneActivePerPet(rows: seq<WalkRow>)
  {
    forall i, j :: 0 <= i < j < |rows| && RowActive(rows[i]) && RowActive(rows[j])
      ==> rows[i].petId != rows[j].petId
  }

  /** After a unique-id replace, `findById` sees the new row. */
  lemma ReplaceFound(rows: seq<WalkRow>, row: WalkRow)
    requires UniqueIds(rows) && ExistsById(rows, row.id)
    ensures FindRow(Replace(rows, row), row.id) == Some(row)
    ensures UniqueIds(Replace(rows, row))
  {
    var r := Replace(rows, row);
    var k :| 0 <= k < |rows| && rows[k].id == row.id;
    assert r[k] == row;
    assert row in r;
  }

  /** Finishing a walk never breaks the one-active-walk-per-pet invariant. */
  lemma FinishKeepsOneActive(rows: seq<WalkRow>, row: WalkRow)
    requires OneActivePerPet(rows) && !RowActive(row)
    ensures OneActivePerPet(Replace(rows, row))
  {
  }

  class WalkTable {
    var rows: seq<WalkRow>
    /** Stands for the generated `UUID`: a fresh id per insert. */
    var nextId: nat

    ghost predicate Valid()
      reads this
    {
      UniqueIds(rows) && forall i :: 0 <= i < |rows| ==> rows[i].id < nextId
    }

    constructor ()
      ensures Valid() && rows == []
    {
      rows := [];
      nextId := 0;
    }

    /** `findById`: the stored walk, loaded as a fresh entity. */
    method FindById(id: nat) returns (w: Option<Walk>)
      ensures FindRow(rows, id).None? ==> w.None?
      ensures FindRow(rows, id).Some? ==>
        w.Some? && fresh(w.value) && w.value.id == Some(id) && w.value.Row() == FindRow(rows, id).value
    {
      var found := FindRow(rows, id);
      if found.None? {
        return None;
      }
      var row := found.value;
      var walk := new Walk.WithFinish(row.petId, row.userId, row.startedAt, row.finishedAt);
      walk.SetId(Some(row.id));
      walk.SetDistanciaM(row.distanciaM);
      walk.SetDuracaoS(row.duracaoS);
      walk.SetVelMediaKmh(row.velMediaKmh);
      return Some(walk);
    }

    /** `save` of a new entity: it gets a fresh id, written back into it. */
    method SaveNew(w: Walk) returns (saved: WalkRow)
      requires Valid() && w.id == None
      modifies this, w`id
      ensures Valid()
      ensures saved.id == old(nextId) && !ExistsById(old(rows), saved.id)
      ensures w.id == Some(saved.id) && saved == w.Row()
      ensures rows == old(rows) + [saved]
    {
      w.SetId(Some(nextId));
      saved := w.Row();
      rows := rows + [saved];
      nextId := nextId + 1;
    }

    /** `save` of a loaded entity: its row is overwritten. */
    method SaveExisting(w: Walk) returns (saved: WalkRow)
      requires Valid() && w.id.Some? && ExistsById(rows, w.id.value)
      modifies this
      ensures Valid() && nextId == old(nextId)
      ensures saved == w.Row() && rows == Replace(old(rows), saved)
      ensures FindRow(rows, saved.id) == Some(saved)
    {
      saved := w.Row();
      ReplaceFound(rows, saved);
      rows := Replace(rows, saved);
    }
  }
}
