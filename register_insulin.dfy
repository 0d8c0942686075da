/** Pets::RegisterInsulin: records one insulin application for a pet and tells the
    pet's owners about it. Four checks run first, in a fixed order; the record is
    created only when all of them pass, and then a single push batch goes to every
    token of the pet's owners, provided there is at least one. */
module RegisterInsulin {
  import opened Common
  import opened Schema
  import opened Persistence
  import opened PetAuthorizationHelpers
  import opened NotifyUsers
  import opened PetPushTokens

  datatype RegisterParams = RegisterParams(
    petId: Id,
    responsibleId: Id,
    glucoseLevel: Option<int>,
    insulinUnits: int,
    applicationTime: Time,
    observations: Option<string>)

  /** The batch `NotifyUsers` sends, with its outcome. */
  datatype PushBatch = PushBatch(attempts: seq<Message>, successCount: nat, errorCount: nat)

  function Title(petName: string): string {
    petName + ": Insulina registrada!"
  }

  function Body(firstName: string): string {
    firstName + " acabou de registrar uma aplicação de insulina"
  }

  /** `validate_user_existence`: raises NotFoundError 'User not found'. */
  function ValidateUserExistence(users: seq<User>, userId: Id): (r: Outcome)
    ensures r.Pass? <==> HasUser(users, userId)
    ensures r.Fail? ==> r.error == NotFound(USER_NOT_FOUND)
  {
    if HasUser(users, userId) then Pass else Fail(NotFound(USER_NOT_FOUND))
  }

  /** The checks of `call`: the responsible user exists, the pet exists, the caller may
      act on the pet, the responsible user may act on the pet. The first failure is raised. */
  function Validate(t: Tables, callerId: Id, p: RegisterParams): (r: Outcome)
    ensures r.Pass? <==>
      && HasUser(t.users, p.responsibleId) && HasPet(t.pets, p.petId)
      && HasPermission(t, callerId, p.petId, false) && HasPermission(t, p.responsibleId, p.petId, false)
    ensures !HasUser(t.users, p.responsibleId) ==> r == Fail(NotFound(USER_NOT_FOUND))
    ensures HasUser(t.users, p.responsibleId) && !HasPet(t.pets, p.petId) ==> r == Fail(NotFound(NOT_FOUND))
    ensures HasUser(t.users, p.responsibleId) && HasPet(t.pets, p.petId) && !HasPermission(t, callerId, p.petId, false)
      ==> r == Fail(Unauthorized)
    ensures r.Fail? && HasPet(t.pets, p.petId) && HasUser(t.users, p.responsibleId) ==> r == Fail(Unauthorized)
  {
    AndThen(AndThen(AndThen(
      ValidateUserExistence(t.users, p.responsibleId),
      ValidatePetExistence(t.pets, p.petId)),
      ValidatePetPermission(t, callerId, p.petId, false)),
      ValidatePetPermission(t, p.responsibleId, p.petId, false))
  }

  /** `build_insulin_parameters`, with the id the table's sequence hands out. */
  function NewApplication(p: RegisterParams, id: Id): InsulinApplication {
    InsulinApplication(id, p.petId, p.responsibleId, p.applicationTime, p.insulinUnits, p.glucoseLevel, p.observations)
  }

  /** What `notify_pet_owners` sends: nothing when the owners hold no token, otherwise one
      message per token of the owners, in collection order, titled with the pet's name and
      signed with the responsible user's first name. */
  function OwnersBatch(t: Tables, p: RegisterParams, transport: Transport): (r: Option<PushBatch>)
    requires HasPet(t.pets, p.petId) && HasUser(t.users, p.responsibleId)
    ensures r.Some? <==> PetTokens(t, p.petId) != []
    ensures r.Some? ==> var tokens := PetTokens(t, p.petId);
      && |r.value.attempts| == |tokens|
      && (forall i :: 0 <= i < |tokens| ==> r.value.attempts[i].token == tokens[i])
      && r.value.successCount + r.value.errorCount == |tokens|
    ensures r.Some? ==> forall m :: m in r.value.attempts ==>
      m.notification == Notification(FindPet(t.pets, p.petId).value.name + ": Insulina registrada!",
                                     FindUser(t.users, p.responsibleId).value.firstName
                                       + " acabou de registrar uma aplicação de insulina")
  {
    var tokens := PetTokens(t, p.petId);
    if tokens == [] then None
    else
      var ms := Messages(tokens, Title(FindPet(t.pets, p.petId).value.name), Body(FindUser(t.users, p.responsibleId).value.firstName));
      AcceptedPlusRejected(ms, transport);
      Some(PushBatch(ms, CountAccepted(ms, transport), CountRejected(ms, transport)))
  }

  /** The batch reads the pets, the users, the ownerships and the tokens, never the applications. */
  lemma OwnersBatchIgnoresApplications(t: Tables, t': Tables, p: RegisterParams, transport: Transport)
    requires HasPet(t.pets, p.petId) && HasUser(t.users, p.responsibleId)
    requires t' == t.(applications := t'.applications)
    ensures OwnersBatch(t', p, transport) == OwnersBatch(t, p, transport)
  {
  }

  /** `notify_pet_owners`: collects the tokens and sends when there is any. */
  method NotifyPetOwners(t: Tables, p: RegisterParams, transport: Transport) returns (push: Option<PushBatch>)
    requires HasPet(t.pets, p.petId) && HasUser(t.users, p.responsibleId)
    ensures push == OwnersBatch(t, p, transport)
  {
    var pet := FindPet(t.pets, p.petId).value;
    var pushTokens := CollectPushTokensForPet(t, pet.id);
    if |pushTokens| > 0 {
      var responsible := FindUser(t.users, p.responsibleId).value;
      var successCount, errorCount, attempts :=
        SendNotificationsToTokens(pushTokens, Title(pet.name), Body(responsible.firstName), transport);
      assert attempts == Messages(pushTokens, Title(pet.name), Body(responsible.firstName));
      push := Some(PushBatch(attempts, successCount, errorCount));
    } else {
      push := None;
    }
  }

  /** `call`: the checks, then `create!`, then the notification. A failed check leaves the
      table as it was and sends nothing. */
  method Call(db: Database, callerId: Id, p: RegisterParams, transport: Transport)
    returns (r: Result<InsulinApplication>, push: Option<PushBatch>)
    requires db.Valid()
    modifies db`applications, db`nextApplicationId
    ensures db.Valid()
    ensures var check := Validate(old(db.State()), callerId, p);
      && (check.Fail? ==>
            && r == Err(check.error) && push.None?
            && db.applications == old(db.applications) && db.nextApplicationId == old(db.nextApplicationId))
      && (check.Pass? ==>
            && r == Ok(NewApplication(p, old(db.nextApplicationId)))
            && db.applications == old(db.applications) + [r.value]
            && db.nextApplicationId == old(db.nextApplicationId) + 1
            && push == OwnersBatch(old(db.State()), p, transport))
  {
    var t := db.State();
    var check := Validate(t, callerId, p);
    if check.Fail? {
      return Err(check.error), None;
    }
    var a := NewApplication(p, db.nextApplicationId);
    AppendApplicationKeepsConsistent(t, a);
    db.applications := db.applications + [a];
    db.nextApplicationId := db.nextApplicationId + 1;
    push := NotifyPetOwners(db.State(), p, transport);
    OwnersBatchIgnoresApplications(t, db.State(), p, transport);
    r := Ok(a);
  }

  // ---------------------------------------------------------------------------
  // Properties

  /** A caller without a role on the pet is refused even when the responsible user has one. */
  lemma CallerPermissionIsRequired(t: Tables, callerId: Id, p: RegisterParams)
    requires HasUser(t.users, p.responsibleId) && HasPet(t.pets, p.petId)
    requires HasPermission(t, p.responsibleId, p.petId, false)
    requires forall o :: o in t.petOwners && o.petId == p.petId ==> o.ownerId != callerId
    ensures Validate(t, callerId, p) == Fail(Unauthorized)
  {
  }
}
