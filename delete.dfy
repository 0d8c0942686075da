/** InsulinApplications::Delete: removes one insulin application, after finding it
    and checking that the caller holds a role on its pet. Unlike FindOne and Update,
    the existence of the record's pet is not checked. `destroy` is refused by the
    foreign key from the notification ledger while a ledger row names the record. */
module DeleteInsulinApplication {
  import opened Common
  import opened Schema
  import opened Persistence
  import opened PetAuthorizationHelpers
  import FindOne
  import NotifyInsulins

  /** `find_insulin_application` then `authorize_deletion`: the record to remove, or the first error. */
  function Authorize(t: Tables, userId: Id, id: Id): (r: Result<InsulinApplication>)
    ensures !HasApplication(t.applications, id) ==> r == Err(NotFound(APPLICATION_NOT_FOUND))
    ensures HasApplication(t.applications, id) ==>
      var a := t.applications[ApplicationIndex(t.applications, id).value];
      && (!HasPermission(t, userId, a.petId, false) ==> r == Err(Unauthorized))
      && (HasPermission(t, userId, a.petId, false) ==> r == Ok(a))
  {
    match FindOne.FindInsulinApplication(t.applications, id)
    case Err(e) => Err(e)
    case Ok(a) =>
      var check := ValidatePetPermission(t, userId, a.petId, false);
      if check.Fail? then Err(check.error) else Ok(a)
  }

  /** A ledger row names the application as the dose its reminder followed. */
  predicate Referenced(sent: seq<SentNotification>, id: Id) {
    exists s :: s in sent && s.lastInsulinId == id
  }

  /** `call`: on success exactly the record with that id leaves the table, which shrinks by
      one; when the lookup, the permission check or the foreign key refuses, nothing changes. */
  method Call(db: Database, userId: Id, id: Id) returns (r: Result<InsulinApplication>)
    requires db.Valid()
    modifies db`applications
    ensures db.Valid()
    ensures var auth := Authorize(old(db.State()), userId, id);
      && (auth.Err? ==> r == auth && db.applications == old(db.applications))
      && (auth.Ok? && Referenced(old(db.sentNotifications), id) ==>
            r == Err(InvalidForeignKey) && db.applications == old(db.applications))
      && (auth.Ok? && !Referenced(old(db.sentNotifications), id) ==>
            var i := ApplicationIndex(old(db.applications), id).value;
            r == auth && db.applications == old(db.applications)[..i] + old(db.applications)[i + 1..])
    ensures r.Ok? ==> |db.applications| == |old(db.applications)| - 1 && !HasApplication(db.applications, id)
    ensures forall a :: a in old(db.applications) && a.id != id ==> a in db.applications
  {
    var t := db.State();
    var auth := Authorize(t, userId, id);
    if auth.Err? {
      return auth;
    }
    if Referenced(db.sentNotifications, id) {
      return Err(InvalidForeignKey);
    }
    var i := ApplicationIndex(db.applications, id).value;
    RemoveKeepsConsistent(t, i);
    db.applications := db.applications[..i] + db.applications[i + 1..];
    r := auth;
  }

  /** With unique ids, cutting out position `i` removes exactly the row with that id and keeps ids unique. */
  lemma RemoveAt(apps: seq<InsulinApplication>, i: nat)
    requires UniqueApplicationIds(apps) && i < |apps|
    ensures var rest := apps[..i] + apps[i + 1..];
      && UniqueApplicationIds(rest)
      && (forall x :: x in rest <==> x in apps && x.id != apps[i].id)
  {
    var rest := apps[..i] + apps[i + 1..];
    assert forall k :: 0 <= k < |rest| ==> rest[k] == apps[if k < i then k else k + 1];
    forall x | x in apps && x.id != apps[i].id
      ensures x in rest
    {
      var j :| 0 <= j < |apps| && apps[j] == x;
      if j < i {
        assert rest[j] == x;
      } else {
        assert rest[j - 1] == x;
      }
    }
  }

  /** Removing a row no ledger row names keeps the tables consistent. */
  lemma RemoveKeepsConsistent(t: Tables, i: nat)
    requires Consistent(t)
    requires i < |t.applications| && !Referenced(t.sentNotifications, t.applications[i].id)
    ensures var apps := t.applications[..i] + t.applications[i + 1..];
      && Consistent(t.(applications := apps))
      && !HasApplication(apps, t.applications[i].id)
      && (forall x :: x in t.applications && x.id != t.applications[i].id ==> x in apps)
  {
    var apps := t.applications[..i] + t.applications[i + 1..];
    RemoveAt(t.applications, i);
    forall s | s in t.sentNotifications
      ensures HasApplication(apps, s.lastInsulinId)
    {
      var x :| x in t.applications && x.id == s.lastInsulinId;
      assert x in apps;
    }
  }

  // ---------------------------------------------------------------------------
  // Properties

  /** After the reminder job has logged a row for an application, the ledger references that
      application, so `Call` answers InvalidForeignKey for it and changes nothing. */
  lemma LoggedApplicationCannotBeDeleted(t: Tables, rows: seq<NotifyInsulins.DueRow>, firstId: Id, row: NotifyInsulins.DueRow)
    requires row in rows
    ensures Referenced(NotifyInsulins.AfterRun(t, rows, firstId).sentNotifications, row.insulinApplicationId)
  {
    NotifyInsulins.RowIsLogged(rows, firstId, row);
  }
}
