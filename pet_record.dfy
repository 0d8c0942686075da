/** The Pet model's `destroy`: its ownership rows and its insulin applications are
    destroyed first, then the pet, all in one transaction. The notification ledger's
    foreign keys to pets and to insulin applications refuse the deletion while a
    ledger row names the pet or one of its applications, and the transaction then
    leaves every table as it was. */
module PetRecord {
  import opened Common
  import opened Schema
  import NotifyInsulins

  function PetsExcept(pets: seq<Pet>, petId: Id): (r: seq<Pet>)
    ensures forall p :: p in r <==> p in pets && p.id != petId
    ensures UniquePetIds(pets) ==> UniquePetIds(r)
  {
    if pets == [] then []
    else
      var rest := PetsExcept(pets[1..], petId);
      assert forall p :: p in pets <==> p == pets[0] || p in pets[1..];
      if pets[0].id == petId then rest
      else
        assert UniquePetIds(pets) ==> forall p :: p in pets[1..] ==> p.id != pets[0].id;
        [pets[0]] + rest
  }

  function OwnershipsNotOf(owners: seq<PetOwner>, petId: Id): (r: seq<PetOwner>)
    ensures forall o :: o in r <==> o in owners && o.petId != petId
    ensures UniqueOwnerships(owners) ==> UniqueOwnerships(r)
  {
    if owners == [] then []
    else
      var rest := OwnershipsNotOf(owners[1..], petId);
      assert forall o :: o in owners <==> o == owners[0] || o in owners[1..];
      if owners[0].petId == petId then rest
      else
        assert UniqueOwnerships(owners) ==>
          forall o :: o in owners[1..] ==> o.petId != owners[0].petId || o.ownerId != owners[0].ownerId;
        [owners[0]] + rest
  }

  function ApplicationsNotOf(apps: seq<InsulinApplication>, petId: Id): (r: seq<InsulinApplication>)
    ensures forall a :: a in r <==> a in apps && a.petId != petId
    ensures UniqueApplicationIds(apps) ==> UniqueApplicationIds(r)
  {
    if apps == [] then []
    else
      var rest := ApplicationsNotOf(apps[1..], petId);
      assert forall a :: a in apps <==> a == apps[0] || a in apps[1..];
      if apps[0].petId == petId then rest
      else
        assert UniqueApplicationIds(apps) ==> forall a :: a in apps[1..] ==> a.id != apps[0].id;
        [apps[0]] + rest
  }

  /** A ledger row names the pet, or names one of the pet's applications as its last dose. */
  predicate Blocked(t: Tables, petId: Id) {
    exists s :: s in t.sentNotifications &&
      (s.petId == petId || exists a :: a in t.applications && a.petId == petId && a.id == s.lastInsulinId)
  }

  /** `pet.destroy`: refused by a foreign key with nothing changed, or the tables without the
      pet, its ownership rows and its applications, every other row kept. */
  function DestroyPet(t: Tables, petId: Id): (r: Result<Tables>)
    ensures Blocked(t, petId) ==> r == Err(InvalidForeignKey)
    ensures !Blocked(t, petId) ==> r.Ok?
    ensures r.Ok? ==>
      && r.value.users == t.users && r.value.pushTokens == t.pushTokens
      && r.value.sentNotifications == t.sentNotifications
      && !HasPet(r.value.pets, petId) && !HasApplicationOfPet(r.value.applications, petId)
      && (forall p :: p in r.value.pets <==> p in t.pets && p.id != petId)
      && (forall o :: o in r.value.petOwners <==> o in t.petOwners && o.petId != petId)
      && (forall a :: a in r.value.applications <==> a in t.applications && a.petId != petId)
  {
    if Blocked(t, petId) then Err(InvalidForeignKey)
    else Ok(t.(pets := PetsExcept(t.pets, petId),
               petOwners := OwnershipsNotOf(t.petOwners, petId),
               applications := ApplicationsNotOf(t.applications, petId)))
  }

  // ---------------------------------------------------------------------------
  // Properties

  /** A destroy that goes through leaves no row behind that points at the pet. */
  lemma DestroyKeepsConsistent(t: Tables, petId: Id)
    requires Consistent(t) && DestroyPet(t, petId).Ok?
    ensures Consistent(DestroyPet(t, petId).value)
  {
    var t' := DestroyPet(t, petId).value;
    forall s | s in t'.sentNotifications
      ensures HasPet(t'.pets, s.petId) && HasApplication(t'.applications, s.lastInsulinId)
    {
      var p :| p in t.pets && p.id == s.petId;
      assert p in t'.pets;
      var a :| a in t.applications && a.id == s.lastInsulinId;
      assert a in t'.applications;
    }
    forall a | a in t'.applications
      ensures HasPet(t'.pets, a.petId)
    {
      var p :| p in t.pets && p.id == a.petId;
      assert p in t'.pets;
    }
    forall o | o in t'.petOwners
      ensures HasPet(t'.pets, o.petId)
    {
      var p :| p in t.pets && p.id == o.petId;
      assert p in t'.pets;
    }
  }

  /** Once the reminder job has logged a row for a pet, the pet can no longer be destroyed. */
  lemma NotifiedPetCannotBeDestroyed(t: Tables, rows: seq<NotifyInsulins.DueRow>, firstId: Id, row: NotifyInsulins.DueRow)
    requires row in rows
    ensures DestroyPet(NotifyInsulins.AfterRun(t, rows, firstId), row.petId) == Err(InvalidForeignKey)
  {
    NotifyInsulins.RowIsLogged(rows, firstId, row);
  }

  /** Destroying the same pet a second time finds nothing more to remove. */
  lemma DestroyIsIdempotent(t: Tables, petId: Id)
    requires DestroyPet(t, petId).Ok?
    ensures DestroyPet(DestroyPet(t, petId).value, petId) == DestroyPet(t, petId)
  {
    var t' := DestroyPet(t, petId).value;
    assert !Blocked(t', petId);
    FiltersAreIdle(t'.pets, t'.petOwners, t'.applications, petId);
  }

  /** Filtering out a pet's rows from tables that hold none of them changes nothing. */
  lemma {:induction false} FiltersAreIdle(pets: seq<Pet>, owners: seq<PetOwner>, apps: seq<InsulinApplication>, petId: Id)
    requires forall p :: p in pets ==> p.id != petId
    requires forall o :: o in owners ==> o.petId != petId
    requires forall a :: a in apps ==> a.petId != petId
    ensures PetsExcept(pets, petId) == pets
    ensures OwnershipsNotOf(owners, petId) == owners
    ensures ApplicationsNotOf(apps, petId) == apps
    decreases |pets| + |owners| + |apps|
  {
    if pets != [] {
      FiltersAreIdle(pets[1..], [], [], petId);
      assert pets == [pets[0]] + pets[1..];
    }
    if owners != [] {
      FiltersAreIdle([], owners[1..], [], petId);
      assert owners == [owners[0]] + owners[1..];
    }
    if apps != [] {
      FiltersAreIdle([], [], apps[1..], petId);
      assert apps == [apps[0]] + apps[1..];
    }
  }
}
