/** InsulinApplications::Update: overwrites the editable fields of one insulin
    application in place. The record is looked up and authorised exactly as
    FindOne does; `update!` then also requires the new responsible user to exist. */
module UpdateInsulinApplication {
  import opened Common
  import opened Schema
  import opened Persistence
  import FindOne

  datatype UpdateParams = UpdateParams(
    applicationTime: Time,
    insulinUnits: int,
    glucoseLevel: Option<int>,
    responsibleId: Id,
    observations: Option<string>)

  /** `update_params` written onto a record: `user_id` is taken from `responsible_id`. */
  function Updated(a: InsulinApplication, u: UpdateParams): InsulinApplication {
    a.(applicationTime := u.applicationTime, insulinUnits := u.insulinUnits, glucoseLevel := u.glucoseLevel,
       userId := u.responsibleId, observations := u.observations)
  }

  /** `find_insulin_application` and `validate_and_authorize`, then the `belongs_to :user`
      validation `update!` runs: the record to overwrite, or the first error. */
  function Check(t: Tables, userId: Id, id: Id, u: UpdateParams): (r: Result<InsulinApplication>)
    ensures FindOne.Call(t, userId, id).Err? ==> r == FindOne.Call(t, userId, id)
    ensures FindOne.Call(t, userId, id).Ok? && !HasUser(t.users, u.responsibleId) ==> r == Err(RecordInvalid)
    ensures r.Ok? <==> FindOne.Call(t, userId, id).Ok? && HasUser(t.users, u.responsibleId)
    ensures r.Ok? ==> r == FindOne.Call(t, userId, id)
  {
    var found := FindOne.Call(t, userId, id);
    if found.Err? then found
    else if !HasUser(t.users, u.responsibleId) then Err(RecordInvalid)
    else found
  }

  /** The table after the record with that id has been overwritten. */
  function Overwrite(apps: seq<InsulinApplication>, id: Id, a: InsulinApplication): seq<InsulinApplication>
    requires HasApplication(apps, id)
  {
    apps[ApplicationIndex(apps, id).value := a]
  }

  /** `call`: on success the record keeps its id and its pet, takes every other field from
      the params, and is the only row that changes. On any error nothing changes. */
  method Call(db: Database, userId: Id, id: Id, u: UpdateParams) returns (r: Result<InsulinApplication>)
    requires db.Valid()
    modifies db`applications
    ensures db.Valid()
    ensures var check := Check(old(db.State()), userId, id, u);
      && (check.Err? ==> r == check && db.applications == old(db.applications))
      && (check.Ok? ==>
            && r == Ok(Updated(check.value, u))
            && db.applications == Overwrite(old(db.applications), id, r.value))
    ensures r.Ok? ==> r.value.id == id && r.value.userId == u.responsibleId
    ensures forall a :: a in old(db.applications) && a.id != id ==> a in db.applications
  {
    var t := db.State();
    var check := Check(t, userId, id, u);
    if check.Err? {
      return check;
    }
    var i := ApplicationIndex(db.applications, id).value;
    var updated := Updated(check.value, u);
    OverwriteKeepsConsistent(t, i, updated);
    db.applications := db.applications[i := updated];
    r := Ok(updated);
  }

  /** Overwriting a row with one of the same id, whose pet and user exist, keeps the tables consistent. */
  lemma OverwriteKeepsConsistent(t: Tables, i: nat, a: InsulinApplication)
    requires Consistent(t)
    requires i < |t.applications| && t.applications[i].id == a.id
    requires HasPet(t.pets, a.petId) && HasUser(t.users, a.userId)
    ensures Consistent(t.(applications := t.applications[i := a]))
    ensures forall x :: x in t.applications && x.id != a.id ==> x in t.applications[i := a]
  {
    var apps := t.applications[i := a];
    forall x | x in t.applications
      ensures HasApplication(apps, x.id)
      ensures x.id != a.id ==> x in apps
    {
      var j :| 0 <= j < |t.applications| && t.applications[j] == x;
      assert apps[j] == x || j == i;
    }
  }

  // ---------------------------------------------------------------------------
  // Properties

  /** Reading the record back after the update returns the updated record: the lookup by
      id still finds it first and the checks on its unchanged pet still pass. */
  lemma ReadAfterUpdate(t: Tables, userId: Id, id: Id, u: UpdateParams)
    requires Check(t, userId, id, u).Ok?
    ensures var updated := Updated(Check(t, userId, id, u).value, u);
      FindOne.Call(t.(applications := Overwrite(t.applications, id, updated)), userId, id) == Ok(updated)
  {
    var found := Check(t, userId, id, u).value;
    var updated := Updated(found, u);
    var i := ApplicationIndex(t.applications, id).value;
    var t' := t.(applications := Overwrite(t.applications, id, updated));
    assert t'.applications[i] == updated;
    assert HasApplication(t'.applications, id);
  }

  /** The update neither moves a record to another pet nor renames it. */
  lemma UpdateKeepsIdentity(t: Tables, userId: Id, id: Id, u: UpdateParams)
    requires Check(t, userId, id, u).Ok?
    ensures var found := Check(t, userId, id, u).value;
      && Updated(found, u).id == id
      && Updated(found, u).petId == found.petId
      && found == t.applications[ApplicationIndex(t.applications, id).value]
  {
  }
}
