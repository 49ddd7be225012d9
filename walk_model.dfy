/** The `Walk` entity of the second backend: a walk of one pet by one user,
    ACTIVE while `finishedAt` is absent, and carrying its metrics once
    finished. */
module WalkModel {
  import opened Common

  /** A stored walk row (`UUID` ids are abstract naturals; instants are
      nanoseconds). */
  datatype WalkRow = WalkRow(
    id: nat,
    petId: nat,
    userId: nat,
    startedAt: int,
    finishedAt: Option<int>,
    distanciaM: Option<real>,
    duracaoS: Option<int>,
    velMediaKmh: Option<real>)

  predicate RowActive(w: WalkRow) { w.finishedAt == None }

  class Walk {
    var id: Option<nat>
    var petId: nat
    var userId: nat
    var startedAt: int
    var finishedAt: Option<int>
    var distanciaM: Option<real>
    var duracaoS: Option<int>
    var velMediaKmh: Option<real>

    /** `new Walk(petId, userId, startedAt)`: active, no metrics, not saved. */
    constructor (petId: nat, userId: nat, startedAt: int)
      ensures this.id == None && this.petId == petId && this.userId == userId
      ensures this.startedAt == startedAt && this.finishedAt == None && IsActive()
      ensures distanciaM == None && duracaoS == None && velMediaKmh == None
    {
      this.id := None;
      this.petId := petId;
      this.userId := userId;
      this.startedAt := startedAt;
      this.finishedAt := None;
      this.distanciaM := None;
      this.duracaoS := None;
      this.velMediaKmh := None;
    }

    /** `new Walk(petId, userId, startedAt, finishedAt)`: metrics still absent. */
    constructor WithFinish(petId: nat, userId: nat, startedAt: int, finishedAt: Option<int>)
      ensures this.id == None && this.petId == petId && this.userId == userId
      ensures this.startedAt == startedAt && this.finishedAt == finishedAt
      ensures IsActive() <==> finishedAt == None
      ensures distanciaM == None && duracaoS == None && velMediaKmh == None
    {
      this.id := None;
      this.petId := petId;
      this.userId := userId;
      this.startedAt := startedAt;
      this.finishedAt := finishedAt;
      this.distanciaM := None;
      this.duracaoS := None;
      this.velMediaKmh := None;
    }

    method SetId(id: Option<nat>)
      modifies this`id
      ensures this.id == id
    {
      this.id := id;
    }

    method SetPetId(petId: nat)
      modifies this`petId
      ensures this.petId == petId
    {
      this.petId := petId;
    }

    method SetUserId(userId: nat)
      modifies this`userId
      ensures this.userId == userId
    {
      this.userId := userId;
    }

    method SetStartedAt(startedAt: int)
      modifies this`startedAt
      ensures this.startedAt == startedAt
    {
      this.startedAt := startedAt;
    }

    method SetFinishedAt(finishedAt: Option<int>)
      modifies this`finishedAt
      ensures this.finishedAt == finishedAt
      ensures IsActive() <==> finishedAt == None
    {
      this.finishedAt := finishedAt;
    }

    method SetDistanciaM(distanciaM: Option<real>)
      modifies this`distanciaM
      ensures this.distanciaM == distanciaM
    {
      this.distanciaM := distanciaM;
    }

    method SetDuracaoS(duracaoS: Option<int>)
      modifies this`duracaoS
      ensures this.duracaoS == duracaoS
    {
      this.duracaoS := duracaoS;
    }

    method SetVelMediaKmh(velMediaKmh: Option<real>)
      modifies this`velMediaKmh
      ensures this.velMediaKmh == velMediaKmh
    {
      this.velMediaKmh := velMediaKmh;
    }

    /** `isActive()`: a saved walk is active exactly when its stored row
        is one the active-walk queries select. */
    predicate IsActive(): (b: bool)
      reads this
      ensures id.Some? ==> (b <==> RowActive(Row()))
    {
      finishedAt == None
    }

    /** The row this entity is persisted as, once it has an id. */
    function Row(): (r: WalkRow)
      reads this
      requires id.Some?
    {
      WalkRow(id.value, petId, userId, startedAt, finishedAt, distanciaM, duracaoS, velMediaKmh)
    }
  }
}
