/** The first backend's `WalkService.startWalk`: the pet must exist, must
    have no active walk, and then gets one new walk started at `now`. The
    pet table is the set of stored pet ids; the clock is a parameter. */
module DemoWalkService {
  import opened Common
  import opened DemoWalkModel

  datatype StartError = PetNotFound | ActiveWalkExists

  datatype StartWalkResponse = StartWalkResponse(walkId: nat, startedAt: int)

  class Service {
    const walkRepository: WalkStore

    constructor (walkRepository: WalkStore)
      ensures this.walkRepository == walkRepository
    {
      this.walkRepository := walkRepository;
    }

    method StartWalk(petId: nat, pets: set<nat>, now: int) returns (r: Result<StartWalkResponse, StartError>)
      requires walkRepository.Valid()
      modifies walkRepository
      ensures walkRepository.Valid()
      ensures petId !in pets ==> r == Err(PetNotFound) && walkRepository.rows == old(walkRepository.rows)
      ensures petId in pets && old(walkRepository.ExistsActiveWalkByPetId(petId)) ==>
        r == Err(ActiveWalkExists) && walkRepository.rows == old(walkRepository.rows)
      ensures petId in pets && !old(walkRepository.ExistsActiveWalkByPetId(petId)) ==>
        && r.Ok? && r.value.startedAt == now
        && walkRepository.rows == old(walkRepository.rows) + [WalkRecord(r.value.walkId, petId, now, None)]
        && (forall w :: w in old(walkRepository.rows) ==> w.id != r.value.walkId)
        && walkRepository.ExistsActiveWalkByPetId(petId)
    {
      if petId !in pets {
        return Err(PetNotFound);
      }
      if walkRepository.ExistsActiveWalkByPetId(petId) {
        return Err(ActiveWalkExists);
      }
      var walk := new Walk(petId, now);
      var saved := walkRepository.SaveNew(walk);
      assert saved in walkRepository.rows;
      return Ok(StartWalkResponse(walk.id.value, now));
    }
  }

  /** Without a stop in between, a second start for the same pet is refused
      and stores nothing. */
  method SecondStartRefused(s: Service, petId: nat, pets: set<nat>, t0: int, t1: int)
    returns (first: Result<StartWalkResponse, StartError>, second: Result<StartWalkResponse, StartError>)
    requires s.walkRepository.Valid() && petId in pets
    modifies s.walkRepository
    ensures second == Err(ActiveWalkExists)
    ensures first.Err? ==> s.walkRepository.rows == old(s.walkRepository.rows)
    ensures first.Ok? ==>
      |s.walkRepository.rows| == |old(s.walkRepository.rows)| + 1
      && s.walkRepository.rows[..|old(s.walkRepository.rows)|] == old(s.walkRepository.rows)
  {
    first := s.StartWalk(petId, pets, t0);
    second := s.StartWalk(petId, pets, t1);
  }
}
