/** The tables the services read and write, as values, with the lookups the
    services run on them and the consistency the database schema and the models
    guarantee. */
module Schema {
  import opened Common

  /** Primary keys are positive integers handed out by a sequence. */
  type Id = nat
  /** Timestamps are whole seconds. */
  type Time = int

  datatype OwnershipLevel = Owner | Caretaker

  datatype User = User(id: Id, email: string, firstName: string, lastName: string)

  /** `insulinFrequency` is the number of hours between two doses; `birthdate` is a day number. */
  datatype Pet = Pet(id: Id, name: string, species: string, birthdate: int, insulinFrequency: int)

  datatype PetOwner = PetOwner(petId: Id, ownerId: Id, level: OwnershipLevel)

  datatype InsulinApplication = InsulinApplication(
    id: Id,
    petId: Id,
    userId: Id,
    applicationTime: Time,
    insulinUnits: int,
    glucoseLevel: Option<int>,
    observations: Option<string>)

  datatype PushToken = PushToken(id: Id, userId: Id, token: string)

  /** One row of the notification ledger: a reminder `minutesAlarm` minutes ahead
      was sent for the dose that followed application `lastInsulinId`. */
  datatype SentNotification = SentNotification(id: Id, petId: Id, minutesAlarm: int, lastInsulinId: Id)

  datatype Tables = Tables(
    users: seq<User>,
    pets: seq<Pet>,
    petOwners: seq<PetOwner>,
    applications: seq<InsulinApplication>,
    pushTokens: seq<PushToken>,
    sentNotifications: seq<SentNotification>)

  // ---------------------------------------------------------------------------
  // The Pet model's validations

  const SPECIES: seq<string> := ["DOG", "CAT"]

  /** `validates :name, presence`, `validates :species, inclusion: SPECIES` and
      `validates :insulin_frequency, only_integer, greater_than: 0`. */
  predicate ValidPet(p: Pet) {
    !IsBlank(p.name) && p.species in SPECIES && p.insulinFrequency > 0
  }

  // ---------------------------------------------------------------------------
  // Existence queries (`Model.exists?(...)`)

  predicate HasUser(users: seq<User>, id: Id) {
    exists u :: u in users && u.id == id
  }

  predicate HasPet(pets: seq<Pet>, id: Id) {
    exists p :: p in pets && p.id == id
  }

  predicate HasApplication(apps: seq<InsulinApplication>, id: Id) {
    exists a :: a in apps && a.id == id
  }

  predicate HasApplicationOfPet(apps: seq<InsulinApplication>, petId: Id) {
    exists a :: a in apps && a.petId == petId
  }

  // ---------------------------------------------------------------------------
  // Lookups by key

  /** `Pet.find(id)`: the first pet with that id. */
  function FindPet(pets: seq<Pet>, id: Id): (r: Option<Pet>)
    ensures r.None? <==> !HasPet(pets, id)
    ensures r.Some? ==> r.value in pets && r.value.id == id
  {
    if pets == [] then None
    else if pets[0].id == id then Some(pets[0])
    else FindPet(pets[1..], id)
  }

  /** `User.find(id)`: the first user with that id. */
  function FindUser(users: seq<User>, id: Id): (r: Option<User>)
    ensures r.None? <==> !HasUser(users, id)
    ensures r.Some? ==> r.value in users && r.value.id == id
  {
    if users == [] then None
    else if users[0].id == id then Some(users[0])
    else FindUser(users[1..], id)
  }

  /** Position of the first application with that id. */
  function ApplicationIndex(apps: seq<InsulinApplication>, id: Id): (r: Option<nat>)
    ensures r.None? <==> !HasApplication(apps, id)
    ensures r.Some? ==> r.value < |apps| && apps[r.value].id == id
    ensures r.Some? ==> forall j :: 0 <= j < r.value ==> apps[j].id != id
  {
    if apps == [] then None
    else if apps[0].id == id then Some(0)
    else
      var rest := ApplicationIndex(apps[1..], id);
      if rest.None? then None else Some(rest.value + 1)
  }

  /** `InsulinApplication.where(pet_id: petId)`, in table order. */
  function OfPet(apps: seq<InsulinApplication>, petId: Id): (r: seq<InsulinApplication>)
    ensures forall a :: a in r <==> a in apps && a.petId == petId
    ensures |r| <= |apps|
  {
    if apps == [] then []
    else if apps[0].petId == petId then [apps[0]] + OfPet(apps[1..], petId)
    else OfPet(apps[1..], petId)
  }

  /** `PetOwner.where(pet_id: petId)`, in table order. */
  function OwnershipsOfPet(owners: seq<PetOwner>, petId: Id): (r: seq<PetOwner>)
    ensures forall o :: o in r <==> o in owners && o.petId == petId
  {
    if owners == [] then []
    else if owners[0].petId == petId then [owners[0]] + OwnershipsOfPet(owners[1..], petId)
    else OwnershipsOfPet(owners[1..], petId)
  }

  // ---------------------------------------------------------------------------
  // Consistency kept by primary keys, unique indexes, foreign keys and model validations

  ghost predicate UniqueUserIds(users: seq<User>) {
    forall i, j :: 0 <= i < j < |users| ==> users[i].id != users[j].id
  }

  ghost predicate UniqueEmails(users: seq<User>) {
    forall i, j :: 0 <= i < j < |users| ==> users[i].email != users[j].email
  }

  ghost predicate UniquePetIds(pets: seq<Pet>) {
    forall i, j :: 0 <= i < j < |pets| ==> pets[i].id != pets[j].id
  }

  ghost predicate UniqueApplicationIds(apps: seq<InsulinApplication>) {
    forall i, j :: 0 <= i < j < |apps| ==> apps[i].id != apps[j].id
  }

  ghost predicate UniquePushTokenIds(tokens: seq<PushToken>) {
    forall i, j :: 0 <= i < j < |tokens| ==> tokens[i].id != tokens[j].id
  }

  ghost predicate UniqueSentIds(sent: seq<SentNotification>) {
    forall i, j :: 0 <= i < j < |sent| ==> sent[i].id != sent[j].id
  }

  /** The unique index on (pet_id, owner_id). */
  ghost predicate UniqueOwnerships(owners: seq<PetOwner>) {
    forall i, j :: 0 <= i < j < |owners| ==>
      owners[i].petId != owners[j].petId || owners[i].ownerId != owners[j].ownerId
  }

  ghost predicate Consistent(t: Tables) {
    && UniqueUserIds(t.users) && UniqueEmails(t.users)
    && UniquePetIds(t.pets)
    && UniqueApplicationIds(t.applications)
    && UniquePushTokenIds(t.pushTokens)
    && UniqueSentIds(t.sentNotifications)
    && UniqueOwnerships(t.petOwners)
    && (forall p :: p in t.pets ==> p.id >= 1 && ValidPet(p))
    && (forall a :: a in t.applications ==> HasPet(t.pets, a.petId) && HasUser(t.users, a.userId))
    && (forall o :: o in t.petOwners ==> HasPet(t.pets, o.petId) && HasUser(t.users, o.ownerId))
    && (forall k :: k in t.pushTokens ==> HasUser(t.users, k.userId))
    && (forall s :: s in t.sentNotifications ==>
          HasPet(t.pets, s.petId) && HasApplication(t.applications, s.lastInsulinId))
  }

  /** Appending an application whose id is new and whose pet and user exist keeps the tables consistent. */
  lemma AppendApplicationKeepsConsistent(t: Tables, a: InsulinApplication)
    requires Consistent(t)
    requires forall x :: x in t.applications ==> x.id < a.id
    requires HasPet(t.pets, a.petId) && HasUser(t.users, a.userId)
    ensures Consistent(t.(applications := t.applications + [a]))
  {
    var t' := t.(applications := t.applications + [a]);
    assert forall x :: x in t.applications ==> x in t'.applications;
    forall i, j | 0 <= i < j < |t'.applications|
      ensures t'.applications[i].id != t'.applications[j].id
    {
      if j == |t.applications| {
        assert t'.applications[i] in t.applications;
      }
    }
  }

  /** Appending a valid pet whose id is positive and new keeps the tables consistent. */
  lemma AppendPetKeepsConsistent(t: Tables, pet: Pet)
    requires Consistent(t)
    requires forall x :: x in t.pets ==> x.id < pet.id
    requires pet.id >= 1 && ValidPet(pet)
    ensures Consistent(t.(pets := t.pets + [pet]))
  {
    var t' := t.(pets := t.pets + [pet]);
    assert forall x :: x in t.pets ==> x in t'.pets;
    forall i, j | 0 <= i < j < |t'.pets|
      ensures t'.pets[i].id != t'.pets[j].id
    {
      if j == |t.pets| {
        assert t'.pets[i] in t.pets;
      }
    }
  }

  /** Appending an ownership row for an existing pet and user, for a pair not yet present, keeps the tables consistent. */
  lemma AppendOwnershipKeepsConsistent(t: Tables, o: PetOwner)
    requires Consistent(t)
    requires HasPet(t.pets, o.petId) && HasUser(t.users, o.ownerId)
    requires forall x :: x in t.petOwners ==> x.petId != o.petId || x.ownerId != o.ownerId
    ensures Consistent(t.(petOwners := t.petOwners + [o]))
  {
    var t' := t.(petOwners := t.petOwners + [o]);
    forall i, j | 0 <= i < j < |t'.petOwners|
      ensures t'.petOwners[i].petId != t'.petOwners[j].petId || t'.petOwners[i].ownerId != t'.petOwners[j].ownerId
    {
      if j == |t.petOwners| {
        assert t'.petOwners[i] in t.petOwners;
      }
    }
  }

  /** Appending a push token whose id is new and whose user exists keeps the tables consistent. */
  lemma AppendPushTokenKeepsConsistent(t: Tables, k: PushToken)
    requires Consistent(t)
    requires forall x :: x in t.pushTokens ==> x.id < k.id
    requires HasUser(t.users, k.userId)
    ensures Consistent(t.(pushTokens := t.pushTokens + [k]))
  {
    var t' := t.(pushTokens := t.pushTokens + [k]);
    forall i, j | 0 <= i < j < |t'.pushTokens|
      ensures t'.pushTokens[i].id != t'.pushTokens[j].id
    {
      if j == |t.pushTokens| {
        assert t'.pushTokens[i] in t.pushTokens;
      }
    }
  }

  /** Appending a user whose id and email are new keeps the tables consistent. */
  lemma AppendUserKeepsConsistent(t: Tables, u: User)
    requires Consistent(t)
    requires forall x :: x in t.users ==> x.id < u.id && x.email != u.email
    ensures Consistent(t.(users := t.users + [u]))
  {
    var t' := t.(users := t.users + [u]);
    assert forall x :: x in t.users ==> x in t'.users;
    forall i, j | 0 <= i < j < |t'.users|
      ensures t'.users[i].id != t'.users[j].id && t'.users[i].email != t'.users[j].email
    {
      if j == |t.users| {
        assert t'.users[i] in t.users;
      }
    }
  }
}
