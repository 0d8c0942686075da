/** Pets::Dashboard: the pet's last insulin application and the time the next one is due. */
module Dashboard {
  import opened Common
  import opened Schema
  import opened PetAuthorizationHelpers

  datatype DashboardData = DashboardData(
    lastInsulinApplication: Option<InsulinApplication>,
    nextInsulinApplication: Option<Time>)

  const SECONDS_PER_HOUR: int := 3600

  /** `InsulinApplication.where(pet_id:).order(application_time: :desc).first`; among
      applications tied at the latest time the first in table order is taken. */
  function LastInsulinApplication(apps: seq<InsulinApplication>, petId: Id): (r: Option<InsulinApplication>)
    ensures r.None? <==> !HasApplicationOfPet(apps, petId)
    ensures r.Some? ==> r.value in apps && r.value.petId == petId
    ensures r.Some? ==> forall a :: a in apps && a.petId == petId ==> a.applicationTime <= r.value.applicationTime
  {
    if apps == [] then None
    else
      var rest := LastInsulinApplication(apps[1..], petId);
      assert forall a :: a in apps ==> a == apps[0] || a in apps[1..];
      if apps[0].petId == petId && (rest.None? || rest.value.applicationTime <= apps[0].applicationTime) then
        Some(apps[0])
      else rest
  }

  /** The last application's time advanced by the pet's frequency in hours; nil without one. */
  function NextInsulinApplication(pet: Pet, last: Option<InsulinApplication>): Option<Time> {
    if last.None? then None
    else Some(last.value.applicationTime + pet.insulinFrequency * SECONDS_PER_HOUR)
  }

  /** `call`: pet existence is checked before permission; any ownership level is enough. */
  function Call(t: Tables, userId: Id, petId: Id): (r: Result<DashboardData>)
    ensures !HasPet(t.pets, petId) ==> r == Err(NotFound(NOT_FOUND))
    ensures HasPet(t.pets, petId) && !HasPermission(t, userId, petId, false) ==> r == Err(Unauthorized)
    ensures r.Ok? <==> HasPet(t.pets, petId) && HasPermission(t, userId, petId, false)
    ensures r.Ok? ==> var d := r.value;
      && (d.lastInsulinApplication.None? <==> !HasApplicationOfPet(t.applications, petId))
      && (d.lastInsulinApplication.None? <==> d.nextInsulinApplication.None?)
      && (d.lastInsulinApplication.Some? ==>
            var last := d.lastInsulinApplication.value;
            && last in t.applications && last.petId == petId
            && (forall a :: a in t.applications && a.petId == petId ==> a.applicationTime <= last.applicationTime)
            && d.nextInsulinApplication.value
               == last.applicationTime + FindPet(t.pets, petId).value.insulinFrequency * SECONDS_PER_HOUR)
  {
    var check := AndThen(ValidatePetExistence(t.pets, petId), ValidatePetPermission(t, userId, petId, false));
    if check.Fail? then Err(check.error)
    else
      var last := LastInsulinApplication(t.applications, petId);
      Ok(DashboardData(last, NextInsulinApplication(FindPet(t.pets, petId).value, last)))
  }

  /** The last application depends only on the pet's own applications. */
  lemma {:induction false} LastDependsOnlyOnOwnApplications(apps: seq<InsulinApplication>, petId: Id)
    ensures LastInsulinApplication(apps, petId) == LastInsulinApplication(OfPet(apps, petId), petId)
  {
    if apps != [] {
      LastDependsOnlyOnOwnApplications(apps[1..], petId);
    }
  }

  /** Applications of other pets do not change the dashboard. */
  lemma OtherPetsDoNotAffectDashboard(t: Tables, t': Tables, userId: Id, petId: Id)
    requires t'.pets == t.pets && t'.petOwners == t.petOwners
    requires OfPet(t'.applications, petId) == OfPet(t.applications, petId)
    ensures Call(t', userId, petId) == Call(t, userId, petId)
  {
    LastDependsOnlyOnOwnApplications(t.applications, petId);
    LastDependsOnlyOnOwnApplications(t'.applications, petId);
  }
}
