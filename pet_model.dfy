/** The `Pet` entity (name, species, age, race and, in the second backend,
    a picture URL) and the pet table its `PetRepository` gives access to. */
module PetModel {
  import opened Common

  datatype Species = Cachorro | Gato

  /** A stored pet. */
  datatype PetRow = PetRow(name: string, species: Species, age: int, race: string, pictureUrl: Option<string>)

  class Pet {
    var id: Option<nat>
    var name: string
    var species: Species
    var age: int
    var race: string
    var pictureUrl: Option<string>

    /** `new Pet(name, species, age, race)`: not saved, no picture. */
    constructor (name: string, species: Species, age: int, race: string)
      ensures this.id == None && this.name == name && this.species == species
      ensures this.age == age && this.race == race && this.pictureUrl == None
    {
      this.id := None;
      this.name := name;
      this.species := species;
      this.age := age;
      this.race := race;
      this.pictureUrl := None;
    }

    /** A pet loaded from its row. */
    constructor Load(id: nat, row: PetRow)
      ensures this.id == Some(id) && Row() == row
    {
      this.id := Some(id);
      this.name := row.name;
      this.species := row.species;
      this.age := row.age;
      this.race := row.race;
      this.pictureUrl := row.pictureUrl;
    }

    method SetId(id: Option<nat>)
      modifies this`id
      ensures this.id == id
    {
      this.id := id;
    }

    method SetName(name: string)
      modifies this`name
      ensures this.name == name
    {
      this.name := name;
    }

    method SetSpecies(species: Species)
      modifies this`species
      ensures this.species == species
    {
      this.species := species;
    }

    method SetAge(age: int)
      modifies this`age
      ensures this.age == age
    {
      this.age := age;
    }

    method SetRace(race: string)
      modifies this`race
      ensures this.race == race
    {
      this.race := race;
    }

    /** The row this entity is stored as. */
    function Row(): (r: PetRow)
      reads this
      ensures r.name == name && r.species == species && r.age == age && r.race == race && r.pictureUrl == pictureUrl
    {
      PetRow(name, species, age, race, pictureUrl)
    }
  }

  /** The pet table, keyed by id; `nextId` stands for the generated id. */
  class PetStore {
    var pets: map<nat, PetRow>
    var nextId: nat

    ghost predicate Valid()
      reads this
    {
      forall id :: id in pets ==> id < nextId
    }

    constructor ()
      ensures Valid() && pets == map[]
    {
      pets := map[];
      nextId := 0;
    }

    /** `findById`: the stored pet, loaded as a fresh entity. */
    method FindById(id: nat) returns (p: Option<Pet>)
      ensures id !in pets ==> p.None?
      ensures id in pets ==> p.Some? && fresh(p.value) && p.value.id == Some(id) && p.value.Row() == pets[id]
    {
      if id !in pets {
        return None;
      }
      var pet := new Pet.Load(id, pets[id]);
      return Some(pet);
    }

    /** `save` of a new entity: it gets a fresh id, written back into it. */
    method SaveNew(p: Pet) returns (id: nat)
      requires Valid() && p.id == None
      modifies this, p`id
      ensures Valid() && id == old(nextId) && id !in old(pets)
      ensures p.id == Some(id) && pets == old(pets)[id := p.Row()]
    {
      id := nextId;
      p.SetId(Some(id));
      pets := pets[id := p.Row()];
      nextId := nextId + 1;
    }

    /** `save` of a loaded entity: its row is overwritten. */
    method SaveExisting(p: Pet)
      requires Valid() && p.id.Some? && p.id.value in pets
      modifies this
      ensures Valid() && nextId == old(nextId)
      ensures pets == old(pets)[p.id.value := p.Row()]
    {
      pets := pets[p.id.value := p.Row()];
    }

    /** `deleteById` */
    method DeleteById(id: nat)
      requires Valid()
      modifies this
      ensures Valid() && nextId == old(nextId)
      ensures pets == old(pets) - {id}
    {
      pets := pets - {id};
    }
  }
}
