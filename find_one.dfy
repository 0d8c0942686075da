/** InsulinApplications::FindOne: one insulin application by id, for a user allowed on its pet. */
module FindOne {
  import opened Common
  import opened Schema
  import opened PetAuthorizationHelpers

  /** `InsulinApplication.find_by!(id:)`, raising NotFoundError 'Insulin application not found'. */
  function FindInsulinApplication(apps: seq<InsulinApplication>, id: Id): (r: Result<InsulinApplication>)
    ensures r.Err? <==> !HasApplication(apps, id)
    ensures r.Err? ==> r.error == NotFound(APPLICATION_NOT_FOUND)
    ensures r.Ok? ==> r.value in apps && r.value.id == id
  {
    match ApplicationIndex(apps, id)
    case None => Err(NotFound(APPLICATION_NOT_FOUND))
    case Some(i) => Ok(apps[i])
  }

  /** `call`: the lookup, then the existence of the record's pet, then permission on it. */
  function Call(t: Tables, userId: Id, id: Id): (r: Result<InsulinApplication>)
    ensures !HasApplication(t.applications, id) ==> r == Err(NotFound(APPLICATION_NOT_FOUND))
    ensures HasApplication(t.applications, id) ==>
      var a := t.applications[ApplicationIndex(t.applications, id).value];
      && (!HasPet(t.pets, a.petId) ==> r == Err(NotFound(NOT_FOUND)))
      && (HasPet(t.pets, a.petId) && !HasPermission(t, userId, a.petId, false) ==> r == Err(Unauthorized))
      && (HasPet(t.pets, a.petId) && HasPermission(t, userId, a.petId, false) ==> r == Ok(a))
  {
    match FindInsulinApplication(t.applications, id)
    case Err(e) => Err(e)
    case Ok(a) =>
      var check := AndThen(ValidatePetExistence(t.pets, a.petId), ValidatePetPermission(t, userId, a.petId, false));
      if check.Fail? then Err(check.error) else Ok(a)
  }

  /** With unique ids the record returned is the stored record with that id, every field unchanged. */
  lemma ReturnsTheStoredRecord(t: Tables, userId: Id, a: InsulinApplication)
    requires UniqueApplicationIds(t.applications)
    requires a in t.applications
    requires HasPet(t.pets, a.petId) && HasPermission(t, userId, a.petId, false)
    ensures Call(t, userId, a.id) == Ok(a)
  {
    var i := ApplicationIndex(t.applications, a.id).value;
    var j :| 0 <= j < |t.applications| && t.applications[j] == a;
    assert i == j;
  }
}
