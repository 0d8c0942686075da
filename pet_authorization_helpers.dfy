/** Helpers::PetAuthorizationHelpers: the two checks every pet service runs. Both
    only read the tables; each returns normally or raises. */
module PetAuthorizationHelpers {
  import opened Common
  import opened Schema

  /** The conditions of `PetOwner.exists?(...)`: owner and pet, and a level when one is required. */
  datatype OwnershipQuery = OwnershipQuery(ownerId: Id, petId: Id, level: Option<OwnershipLevel>)

  /** The query hash: owner and pet, plus `ownership_level: 'OWNER'` when owner permission is asked for. */
  function PermissionQuery(userId: Id, petId: Id, ownerPermission: bool): OwnershipQuery {
    var query := OwnershipQuery(userId, petId, None);
    if ownerPermission then query.(level := Some(Owner)) else query
  }

  predicate MatchesQuery(o: PetOwner, query: OwnershipQuery) {
    o.ownerId == query.ownerId && o.petId == query.petId && (query.level.Some? ==> o.level == query.level.value)
  }

  /** `PetOwner.exists?(query)`, scanning the table. */
  function OwnershipExists(owners: seq<PetOwner>, query: OwnershipQuery): (r: bool)
    ensures r <==> exists o :: o in owners && MatchesQuery(o, query)
  {
    if owners == [] then false
    else
      assert forall o :: o in owners ==> o == owners[0] || o in owners[1..];
      MatchesQuery(owners[0], query) || OwnershipExists(owners[1..], query)
  }

  /** The user holds an ownership row for the pet, of level OWNER when `ownerPermission` is set. */
  ghost predicate HasPermission(t: Tables, userId: Id, petId: Id, ownerPermission: bool) {
    exists o :: o in t.petOwners && o.ownerId == userId && o.petId == petId && (ownerPermission ==> o.level == Owner)
  }

  /** `validate_pet_permission`: passes exactly when the user holds a matching ownership
      row, and raises UnauthorizedError otherwise. */
  function ValidatePetPermission(t: Tables, userId: Id, petId: Id, ownerPermission: bool): (r: Outcome)
    ensures r.Pass? <==> HasPermission(t, userId, petId, ownerPermission)
    ensures r.Fail? ==> r.error == Unauthorized
  {
    if OwnershipExists(t.petOwners, PermissionQuery(userId, petId, ownerPermission)) then Pass
    else Fail(Unauthorized)
  }

  /** `validate_pet_existence`: passes exactly when a pet has that id, and raises
      NotFoundError with its default message otherwise. */
  function ValidatePetExistence(pets: seq<Pet>, petId: Id): (r: Outcome)
    ensures r.Pass? <==> HasPet(pets, petId)
    ensures r.Fail? ==> r.error == NotFound(NOT_FOUND)
  {
    if HasPet(pets, petId) then Pass else Fail(NotFound(NOT_FOUND))
  }

  /** Without the owner flag either level is enough; with it only OWNER is, so a caretaker
      passes the default check and fails the owner check. */
  lemma CaretakerSufficesByDefault(t: Tables, o: PetOwner)
    requires o in t.petOwners && o.level == Caretaker
    requires forall o' :: o' in t.petOwners && o'.ownerId == o.ownerId && o'.petId == o.petId ==> o' == o
    ensures ValidatePetPermission(t, o.ownerId, o.petId, false).Pass?
    ensures ValidatePetPermission(t, o.ownerId, o.petId, true) == Fail(Unauthorized)
  {
  }

  /** Owner permission is the stronger check. */
  lemma OwnerPermissionImpliesPermission(t: Tables, userId: Id, petId: Id)
    ensures ValidatePetPermission(t, userId, petId, true).Pass? ==> ValidatePetPermission(t, userId, petId, false).Pass?
  {
  }
}
