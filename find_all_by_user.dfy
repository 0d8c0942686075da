/** Pets::FindAllByUser: the pets the caller holds a role on, at either level, each
    listed with every user holding a role on it. */
module FindAllByUser {
  import opened Common
  import opened Schema
  import opened PetAuthorizationHelpers

  /** A listed pet with its eagerly loaded owners. */
  datatype PetWithOwners = PetWithOwners(pet: Pet, owners: seq<User>)

  /** `validate_user_existence`: raises InternalServerError 'User not found'. */
  function ValidateUserExistence(users: seq<User>, userId: Id): (r: Outcome)
    ensures r.Pass? <==> HasUser(users, userId)
    ensures r.Fail? ==> r.error == InternalServerError(USER_NOT_FOUND)
  {
    if HasUser(users, userId) then Pass else Fail(InternalServerError(USER_NOT_FOUND))
  }

  /** `pet_ids`: the pet of every ownership row of the user, in table order. */
  function PetIds(owners: seq<PetOwner>, userId: Id): (r: seq<Id>)
    ensures forall id :: id in r <==> exists o :: o in owners && o.ownerId == userId && o.petId == id
    ensures (forall o :: o in owners ==> o.ownerId != userId) ==> r == []
  {
    if owners == [] then []
    else
      assert forall o :: o in owners ==> o == owners[0] || o in owners[1..];
      (if owners[0].ownerId == userId then [owners[0].petId] else []) + PetIds(owners[1..], userId)
  }

  /** `pet.owners`: the users holding an ownership row of the pet, at either level. */
  function OwnersOf(users: seq<User>, petOwners: seq<PetOwner>, petId: Id): (r: seq<User>)
    ensures forall u :: u in r <==> u in users && exists o :: o in petOwners && o.ownerId == u.id && o.petId == petId
  {
    if users == [] then []
    else
      assert forall u :: u in users ==> u == users[0] || u in users[1..];
      (if OwnershipExists(petOwners, OwnershipQuery(users[0].id, petId, None)) then [users[0]] else [])
      + OwnersOf(users[1..], petOwners, petId)
  }

  /** `Pet.includes(:owners).where(pet_owners: { pet_id: ids })`: the stored pets whose id is
      listed, in table order, each with all of its owners. */
  function PetsWithIds(t: Tables, pets: seq<Pet>, ids: seq<Id>): (r: seq<PetWithOwners>)
    ensures forall e :: e in r <==> e.pet in pets && e.pet.id in ids && e.owners == OwnersOf(t.users, t.petOwners, e.pet.id)
    ensures |r| <= |pets|
    ensures ids == [] ==> r == []
  {
    if pets == [] then []
    else
      assert forall pet :: pet in pets ==> pet == pets[0] || pet in pets[1..];
      (if pets[0].id in ids then [PetWithOwners(pets[0], OwnersOf(t.users, t.petOwners, pets[0].id))] else [])
      + PetsWithIds(t, pets[1..], ids)
  }

  /** `call`: a caller missing from the users table is an internal error; otherwise exactly
      the pets the caller holds a role on, each carrying every owner and not only the caller. */
  function Call(t: Tables, userId: Id): (r: Result<seq<PetWithOwners>>)
    ensures !HasUser(t.users, userId) ==> r == Err(InternalServerError(USER_NOT_FOUND))
    ensures r.Ok? <==> HasUser(t.users, userId)
    ensures r.Ok? ==> forall e :: e in r.value <==>
      && e.pet in t.pets && HasPermission(t, userId, e.pet.id, false)
      && e.owners == OwnersOf(t.users, t.petOwners, e.pet.id)
    ensures r.Ok? ==> forall e, u :: e in r.value ==>
      (u in e.owners <==> u in t.users && HasPermission(t, u.id, e.pet.id, false))
  {
    var check := ValidateUserExistence(t.users, userId);
    if check.Fail? then Err(check.error)
    else Ok(PetsWithIds(t, t.pets, PetIds(t.petOwners, userId)))
  }

  // ---------------------------------------------------------------------------
  // Properties

  /** A user holding no ownership row gets an empty list. */
  lemma NoOwnershipGivesEmptyList(t: Tables, userId: Id)
    requires HasUser(t.users, userId)
    requires forall o :: o in t.petOwners ==> o.ownerId != userId
    ensures Call(t, userId) == Ok([])
  {
  }

  /** A pet on which only other users hold roles is not listed. */
  lemma OtherUsersPetsNotListed(t: Tables, userId: Id, pet: Pet)
    requires HasUser(t.users, userId)
    requires forall o :: o in t.petOwners && o.petId == pet.id ==> o.ownerId != userId
    ensures forall e :: e in Call(t, userId).value ==> e.pet != pet
  {
  }

  /** A pet the user cares for as CARETAKER is listed just like an owned one. */
  lemma CaretakerPetsAreListed(t: Tables, userId: Id, pet: Pet)
    requires HasUser(t.users, userId) && pet in t.pets
    requires PetOwner(pet.id, userId, Caretaker) in t.petOwners
    ensures PetWithOwners(pet, OwnersOf(t.users, t.petOwners, pet.id)) in Call(t, userId).value
  {
  }
}
