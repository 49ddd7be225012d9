/** `PetController` of both backends (the two are the same four
    operations): lookup, creation, partial update and deletion of a pet. */
module PetController {
  import opened Common
  import opened PetModel

  /** `CriarPetRequest`: every field present. */
  datatype CreateRequest = CreateRequest(name: string, species: Species, age: int, race: string)

  /** `AtualizarPetRequest`: every field optional. */
  datatype UpdateRequest = UpdateRequest(name: Option<string>, species: Option<Species>, age: Option<int>, race: Option<string>)

  /** The answers the controller builds. */
  datatype Response =
    | Found(pet: PetRow)
    | Created(id: nat, pet: PetRow)
    | NoContent
    | NotFound

  function OrElse<T>(o: Option<T>, old_: T): T
  {
    if o.Some? then o.value else old_
  }

  /** The pet after a partial update: each field present in the request
      replaces the stored one, every other field is kept. */
  function Merge(p: PetRow, req: UpdateRequest): (m: PetRow)
    ensures m.name == OrElse(req.name, p.name) && m.species == OrElse(req.species, p.species)
    ensures m.age == OrElse(req.age, p.age) && m.race == OrElse(req.race, p.race)
    ensures m.pictureUrl == p.pictureUrl
  {
    PetRow(OrElse(req.name, p.name), OrElse(req.species, p.species), OrElse(req.age, p.age),
           OrElse(req.race, p.race), p.pictureUrl)
  }

  /** Sending the same update twice changes nothing the second time. */
  lemma MergeIdempotent(p: PetRow, req: UpdateRequest)
    ensures Merge(Merge(p, req), req) == Merge(p, req)
  {
  }

  /** An update with no fields leaves the pet as it was. */
  lemma EmptyUpdateKeepsPet(p: PetRow)
    ensures Merge(p, UpdateRequest(None, None, None, None)) == p
  {
  }

  /** An update with every field makes the pet what the request says,
      whatever it was before, picture aside. */
  lemma FullUpdateReplaces(p: PetRow, q: PetRow, name: string, species: Species, age: int, race: string)
    requires p.pictureUrl == q.pictureUrl
    ensures var req := UpdateRequest(Some(name), Some(species), Some(age), Some(race));
      Merge(p, req) == Merge(q, req) == PetRow(name, species, age, race, p.pictureUrl)
  {
  }

  class Controller {
    const petRepository: PetStore

    constructor (petRepository: PetStore)
      ensures this.petRepository == petRepository
    {
      this.petRepository := petRepository;
    }

    /** `getPetById` */
    function GetPetById(id: nat): (r: Response)
      reads this, petRepository
      ensures r == NotFound <==> id !in petRepository.pets
      ensures r != NotFound ==> r == Found(petRepository.pets[id])
    {
      if id in petRepository.pets then Found(petRepository.pets[id]) else NotFound
    }

    /** `createPet`: stores exactly the request's fields under a new id and
        answers 201. */
    method CreatePet(req: CreateRequest) returns (r: Response)
      requires petRepository.Valid()
      modifies petRepository
      ensures petRepository.Valid()
      ensures r.Created? && r.id !in old(petRepository.pets)
      ensures r.pet == PetRow(req.name, req.species, req.age, req.race, None)
      ensures petRepository.pets == old(petRepository.pets)[r.id := r.pet]
    {
      var pet := new Pet(req.name, req.species, req.age, req.race);
      var id := petRepository.SaveNew(pet);
      return Created(id, pet.Row());
    }

    /** `updatePet`: an unknown id answers 404 and saves nothing; otherwise
        the loaded pet is changed field by field and saved. */
    method UpdatePet(id: nat, req: UpdateRequest) returns (r: Response)
      requires petRepository.Valid()
      modifies petRepository
      ensures petRepository.Valid()
      ensures id !in old(petRepository.pets) ==> r == NotFound && petRepository.pets == old(petRepository.pets)
      ensures id in old(petRepository.pets) ==>
        && r == Found(Merge(old(petRepository.pets)[id], req))
        && petRepository.pets == old(petRepository.pets)[id := r.pet]
    {
      var existing := petRepository.FindById(id);
      if existing.None? {
        return NotFound;
      }
      var pet := existing.value;
      if req.name.Some? {
        pet.SetName(req.name.value);
      }
      if req.species.Some? {
        pet.SetSpecies(req.species.value);
      }
      if req.age.Some? {
        pet.SetAge(req.age.value);
      }
      if req.race.Some? {
        pet.SetRace(req.race.value);
      }
      petRepository.SaveExisting(pet);
      return Found(pet.Row());
    }

    /** `deletePet`: deletes only a stored id (204); otherwise 404 and the
        table is untouched. */
    method DeletePet(id: nat) returns (r: Response)
      requires petRepository.Valid()
      modifies petRepository
      ensures petRepository.Valid()
      ensures id in old(petRepository.pets) ==> r == NoContent && petRepository.pets == old(petRepository.pets) - {id}
      ensures id !in old(petRepository.pets) ==> r == NotFound && petRepository.pets == old(petRepository.pets)
      ensures id !in petRepository.pets
    {
      var pet := petRepository.FindById(id);
      if pet.Some? {
        petRepository.DeleteById(id);
        return NoContent;
      }
      return NotFound;
    }
  }
}
