/** The `Walk` entity of the first backend (`Long` ids, no metrics) and the
    store its `WalkRepository` gives access to. */
module DemoWalkModel {
  import opened Common

  /** A stored demo walk: what `findById` hands back. */
  datatype WalkRecord = WalkRecord(id: nat, petId: nat, startedAt: int, finishedAt: Option<int>)

  /** `isActive()` of a loaded walk. */
  predicate Active(w: WalkRecord) { w.finishedAt == None }

  class Walk {
    var id: Option<nat>
    var petId: nat
    var startedAt: int
    var finishedAt: Option<int>

    /** `new Walk(petId, startedAt)`: an active walk not yet saved. */
    constructor (petId: nat, startedAt: int)
      ensures this.id == None && this.petId == petId && this.startedAt == startedAt
      ensures this.finishedAt == None && IsActive()
    {
      this.id := None;
      this.petId := petId;
      this.startedAt := startedAt;
      this.finishedAt := None;
    }

    /** `new Walk(petId, startedAt, finishedAt)` */
    constructor WithFinish(petId: nat, startedAt: int, finishedAt: Option<int>)
      ensures this.id == None && this.petId == petId && this.startedAt == startedAt
      ensures this.finishedAt == finishedAt
      ensures IsActive() <==> finishedAt == None
    {
      this.id := None;
      this.petId := petId;
      this.startedAt := startedAt;
      this.finishedAt := finishedAt;
    }

    method SetId(id: Option<nat>)
      modifies this`id
      ensures this.id == id
    {
      this.id := id;
    }

    method SetPetId(petId: nat)
      modifies this`petId
      ensures this.petId == petId
    {
      this.petId := petId;
    }

    method SetStartedAt(startedAt: int)
      modifies this`startedAt
      ensures this.startedAt == startedAt
    {
      this.startedAt := startedAt;
    }

    method SetFinishedAt(finishedAt: Option<int>)
      modifies this`finishedAt
      ensures this.finishedAt == finishedAt
      ensures IsActive() <==> finishedAt == None
    {
      this.finishedAt := finishedAt;
    }

    /** `isActive()`: a saved walk is active exactly when the record it
        is stored as is one `existsActiveWalkByPetId` counts. */
    predicate IsActive(): (b: bool)
      reads this
      ensures id.Some? ==> (b <==> Active(WalkRecord(id.value, petId, startedAt, finishedAt)))
    {
      finishedAt == None
    }
  }

  /** The demo walk table. `nextId` stands for the identity column. */
  class WalkStore {
    var rows: seq<WalkRecord>
    var nextId: nat

    ghost predicate Valid()
      reads this
    {
      forall i :: 0 <= i < |rows| ==> rows[i].id < nextId
    }

    constructor ()
      ensures Valid() && rows == []
    {
      rows := [];
      nextId := 0;
    }

    /** `findById`: the row with that id, if any. */
    function FindById(id: nat): (r: Option<WalkRecord>)
      reads this
      ensures r.Some? ==> r.value in rows && r.value.id == id
      ensures r.None? <==> forall w :: w in rows ==> w.id != id
    {
      FindIn(rows, id)
    }

    /** `existsActiveWalkByPetId`, with the same selection as the other
        backend's query: some row of the pet with no `finishedAt`. */
    function ExistsActiveWalkByPetId(petId: nat): (b: bool)
      reads this
      ensures b <==> exists w :: w in rows && w.petId == petId && Active(w)
    {
      CountPositive(rows, ActiveOf(petId));
      CountWhere(rows, ActiveOf(petId)) > 0
    }

    /** `save` of a new entity: the identity column gives it the next id,
        which is written back into the entity. */
    method SaveNew(w: Walk) returns (saved: WalkRecord)
      requires Valid() && w.id == None
      modifies this, w`id
      ensures Valid()
      ensures saved == WalkRecord(old(nextId), w.petId, w.startedAt, w.finishedAt)
      ensures rows == old(rows) + [saved] && w.id == Some(saved.id)
      ensures forall x :: x in old(rows) ==> x.id != saved.id
    {
      saved := WalkRecord(nextId, w.petId, w.startedAt, w.finishedAt);
      rows := rows + [saved];
      nextId := nextId + 1;
      w.SetId(Some(saved.id));
    }
  }

  function FindIn(rows: seq<WalkRecord>, id: nat): (r: Option<WalkRecord>)
    ensures r.Some? ==> r.value in rows && r.value.id == id
    ensures r.None? <==> forall w :: w in rows ==> w.id != id
  {
    if rows == [] then None
    else if rows[0].id == id then Some(rows[0])
    else FindIn(rows[1..], id)
  }

  /** `w.petId = :petId AND w.finishedAt IS NULL` */
  function ActiveOf(petId: nat): WalkRecord -> bool
  {
    (w: WalkRecord) => w.petId == petId && Active(w)
  }
}
