/** Pets::FindByNextInsulinTime: the pets whose next insulin dose is due within a
    lead time, each paired with its latest insulin application, minus the pets
    already reminded for that application and the pets the caller excludes.

    The query joins every pet with MAX(application_time) of its applications and
    then with the applications at that time; the where-clauses compare the
    minutes elapsed since that time with the pet's dose period minus the lead.
    Elapsed time is kept in whole seconds, and "elapsed / 60 >= x" is written
    "elapsed >= 60 * x", which is the same comparison over the reals. */
module FindByNextInsulinTime {
  import opened Common
  import opened Schema

  /** The caller's parameters; each may be absent. */
  datatype Params = Params(
    minutesUntilNextInsulin: Option<int>,
    findLatePets: Option<bool>,
    excludedPets: Option<seq<Id>>)

  /** The parameters once their defaults are applied. */
  datatype Policy = Policy(lead: int, findLatePets: bool, excludedPets: seq<Id>)

  /** A result row: a pet id and the id of one of its latest applications. */
  datatype DueRow = DueRow(petId: Id, insulinApplicationId: Id)

  predicate IsBlankList(ids: Option<seq<Id>>) {
    ids.None? || ids.value == []
  }

  /** The lead defaults to 0, the late flag to false, and a blank exclusion list
      becomes [0] so that the NOT IN clause is never empty. */
  function Effective(p: Params): (q: Policy)
    ensures p.minutesUntilNextInsulin.None? ==> q.lead == 0
    ensures p.minutesUntilNextInsulin.Some? ==> q.lead == p.minutesUntilNextInsulin.value
    ensures q.findLatePets <==> p.findLatePets == Some(true)
    ensures IsBlankList(p.excludedPets) ==> q.excludedPets == [0]
    ensures !IsBlankList(p.excludedPets) ==> q.excludedPets == p.excludedPets.value
  {
    Policy(
      p.minutesUntilNextInsulin.GetOr(0),
      p.findLatePets.GetOr(false),
      if IsBlankList(p.excludedPets) then [0] else p.excludedPets.value)
  }

  // ---------------------------------------------------------------------------
  // The where-clauses

  /** Minutes elapsed since `latest` are at least the dose period minus the lead. */
  predicate LeadTimeReached(now: Time, pet: Pet, latest: Time, lead: int) {
    now - latest >= 60 * (pet.insulinFrequency * 60 - lead)
  }

  /** Minutes elapsed since `latest` are still below the dose period. */
  predicate NotYetLate(now: Time, pet: Pet, latest: Time) {
    now - latest < 3600 * pet.insulinFrequency
  }

  /** The ledger already holds a reminder for this pet, this lead and this application. */
  predicate AlreadyNotified(sent: seq<SentNotification>, petId: Id, lead: int, applicationId: Id) {
    exists s :: s in sent && s.petId == petId && s.minutesAlarm == lead && s.lastInsulinId == applicationId
  }

  /** All where-clauses, for a pet joined with an application at its latest time. */
  predicate PassesWhere(t: Tables, now: Time, q: Policy, pet: Pet, a: InsulinApplication) {
    && pet.id !in q.excludedPets
    && LeadTimeReached(now, pet, a.applicationTime, q.lead)
    && !AlreadyNotified(t.sentNotifications, pet.id, q.lead, a.id)
    && (q.findLatePets || NotYetLate(now, pet, a.applicationTime))
  }

  // ---------------------------------------------------------------------------
  // The specification of the selection

  /** `a` is stored and no application of the same pet is later. */
  ghost predicate IsLatest(apps: seq<InsulinApplication>, a: InsulinApplication) {
    a in apps && forall b :: b in apps && b.petId == a.petId ==> b.applicationTime <= a.applicationTime
  }

  /** Row `r` belongs to the answer: it pairs a stored pet with one of that pet's
      latest applications, and together they pass every where-clause. */
  ghost predicate Selected(t: Tables, now: Time, q: Policy, r: DueRow) {
    exists pet, a: InsulinApplication :: pet in t.pets && a.petId == pet.id && IsLatest(t.applications, a)
      && PassesWhere(t, now, q, pet, a) && r == DueRow(pet.id, a.id)
  }

  // ---------------------------------------------------------------------------
  // The query

  /** `SELECT MAX(application_time) ... WHERE pet_id = petId`. */
  function LatestApplicationTime(apps: seq<InsulinApplication>, petId: Id): (r: Option<Time>)
    ensures r.None? <==> !HasApplicationOfPet(apps, petId)
    ensures r.Some? ==> exists a :: a in apps && a.petId == petId && a.applicationTime == r.value
    ensures r.Some? ==> forall a :: a in apps && a.petId == petId ==> a.applicationTime <= r.value
  {
    if apps == [] then None
    else
      var rest := LatestApplicationTime(apps[1..], petId);
      assert forall a :: a in apps ==> a == apps[0] || a in apps[1..];
      if apps[0].petId != petId then rest
      else if rest.None? || rest.value < apps[0].applicationTime then Some(apps[0].applicationTime)
      else rest
  }

  /** An application of the pet has the pet's maximal time exactly when it is a latest one. */
  lemma AtMaximumIffLatest(apps: seq<InsulinApplication>, a: InsulinApplication)
    requires a in apps
    ensures LatestApplicationTime(apps, a.petId).Some?
    ensures LatestApplicationTime(apps, a.petId).value == a.applicationTime <==> IsLatest(apps, a)
  {
    var m := LatestApplicationTime(apps, a.petId);
    assert HasApplicationOfPet(apps, a.petId);
    if IsLatest(apps, a) {
      var w :| w in apps && w.petId == a.petId && w.applicationTime == m.value;
    }
  }

  /** The second inner join: the pet's applications whose time is `latest`, filtered by the where-clauses. */
  function JoinedRows(t: Tables, now: Time, q: Policy, pet: Pet, latest: Time, apps: seq<InsulinApplication>)
    : (rows: seq<DueRow>)
    ensures forall r :: r in rows <==>
      (exists a :: a in apps && a.petId == pet.id && a.applicationTime == latest
         && PassesWhere(t, now, q, pet, a) && r == DueRow(pet.id, a.id))
  {
    if apps == [] then []
    else
      var a := apps[0];
      var rest := JoinedRows(t, now, q, pet, latest, apps[1..]);
      assert forall b :: b in apps ==> b == a || b in apps[1..];
      if a.petId == pet.id && a.applicationTime == latest && PassesWhere(t, now, q, pet, a) then
        [DueRow(pet.id, a.id)] + rest
      else rest
  }

  /** The rows one pet contributes: none without applications (the first inner join drops it),
      otherwise one per latest application that passes the where-clauses. */
  function RowsOfPet(t: Tables, now: Time, q: Policy, pet: Pet): (rows: seq<DueRow>)
    ensures forall r :: r in rows <==>
      (exists a: InsulinApplication :: a.petId == pet.id && IsLatest(t.applications, a)
         && PassesWhere(t, now, q, pet, a) && r == DueRow(pet.id, a.id))
  {
    match LatestApplicationTime(t.applications, pet.id)
    case None => []
    case Some(latest) =>
      var rows := JoinedRows(t, now, q, pet, latest, t.applications);
      assert forall a :: a in t.applications && a.petId == pet.id ==>
        (a.applicationTime == latest <==> IsLatest(t.applications, a)) by {
        forall a | a in t.applications && a.petId == pet.id {
          AtMaximumIffLatest(t.applications, a);
        }
      }
      rows
  }

  function SelectFrom(t: Tables, now: Time, q: Policy, pets: seq<Pet>): (rows: seq<DueRow>)
    ensures forall r :: r in rows <==>
      (exists pet, a: InsulinApplication :: pet in pets && a.petId == pet.id
         && IsLatest(t.applications, a) && PassesWhere(t, now, q, pet, a) && r == DueRow(pet.id, a.id))
  {
    if pets == [] then []
    else
      assert forall pet :: pet in pets ==> pet == pets[0] || pet in pets[1..];
      RowsOfPet(t, now, q, pets[0]) + SelectFrom(t, now, q, pets[1..])
  }

  /** The whole query, in the order of the pets table. */
  function Call(t: Tables, now: Time, p: Params): (rows: seq<DueRow>)
    ensures forall r :: r in rows <==> Selected(t, now, Effective(p), r)
  {
    SelectFrom(t, now, Effective(p), t.pets)
  }

  // ---------------------------------------------------------------------------
  // Properties

  /** A pet without applications never appears: the join on its MAX time drops it. */
  lemma PetWithoutApplicationsNeverSelected(t: Tables, now: Time, p: Params, petId: Id)
    requires !HasApplicationOfPet(t.applications, petId)
    ensures forall r :: r in Call(t, now, p) ==> r.petId != petId
  {
  }

  /** Every selected row names a stored pet whose latest application is that row's
      application, whose lead time is reached, which is not overdue unless late pets
      are wanted, and which the caller did not exclude. */
  lemma SelectedRowsAreDue(t: Tables, now: Time, p: Params, pet: Pet, r: DueRow)
    requires UniquePetIds(t.pets)
    requires pet in t.pets
    requires r in Call(t, now, p) && r.petId == pet.id
    ensures LatestApplicationTime(t.applications, pet.id).Some?
    ensures var latest := LatestApplicationTime(t.applications, pet.id).value;
      && (exists a :: a in t.applications && a.id == r.insulinApplicationId && a.petId == pet.id
            && a.applicationTime == latest)
      && now - latest >= 60 * (pet.insulinFrequency * 60 - Effective(p).lead)
      && (!Effective(p).findLatePets ==> now - latest < 3600 * pet.insulinFrequency)
      && pet.id !in Effective(p).excludedPets
  {
    var q := Effective(p);
    var pet', a: InsulinApplication :| pet' in t.pets && a.petId == pet'.id && IsLatest(t.applications, a)
      && PassesWhere(t, now, q, pet', a) && r == DueRow(pet'.id, a.id);
    assert pet' == pet by {
      var i :| 0 <= i < |t.pets| && t.pets[i] == pet;
      var j :| 0 <= j < |t.pets| && t.pets[j] == pet';
      assert i == j;
    }
    AtMaximumIffLatest(t.applications, a);
  }

  /** Completeness: a stored pet's latest application that passes every where-clause
      gives a row. With `find_late_pets` true there is no upper bound on the elapsed time. */
  lemma DueLatestApplicationIsSelected(t: Tables, now: Time, p: Params, pet: Pet, a: InsulinApplication)
    requires pet in t.pets && a.petId == pet.id && IsLatest(t.applications, a)
    requires pet.id !in Effective(p).excludedPets
    requires LeadTimeReached(now, pet, a.applicationTime, Effective(p).lead)
    requires !AlreadyNotified(t.sentNotifications, pet.id, Effective(p).lead, a.id)
    requires p.findLatePets == Some(true) || NotYetLate(now, pet, a.applicationTime)
    ensures DueRow(pet.id, a.id) in Call(t, now, p)
  {
    assert Selected(t, now, Effective(p), DueRow(pet.id, a.id));
  }

  /** With `find_late_pets` true an overdue pet is still selected. */
  lemma LatePetsIncludedWhenAsked(t: Tables, now: Time, p: Params, pet: Pet, a: InsulinApplication)
    requires p.findLatePets == Some(true)
    requires pet in t.pets && a.petId == pet.id && IsLatest(t.applications, a)
    requires pet.id !in Effective(p).excludedPets
    requires !AlreadyNotified(t.sentNotifications, pet.id, Effective(p).lead, a.id)
    requires !NotYetLate(now, pet, a.applicationTime)
    requires Effective(p).lead >= 0
    ensures DueRow(pet.id, a.id) in Call(t, now, p)
  {
    DueLatestApplicationIsSelected(t, now, p, pet, a);
  }

  /** Several applications tied at the pet's latest time each give their own row. */
  lemma TiedLatestApplicationsEachGiveARow(t: Tables, now: Time, p: Params, pet: Pet,
                                           a1: InsulinApplication, a2: InsulinApplication)
    requires pet in t.pets && a1.petId == pet.id && a2.petId == pet.id
    requires IsLatest(t.applications, a1) && a1.id != a2.id
    requires a2 in t.applications && a2.applicationTime == a1.applicationTime
    requires PassesWhere(t, now, Effective(p), pet, a1) && PassesWhere(t, now, Effective(p), pet, a2)
    ensures DueRow(pet.id, a1.id) in Call(t, now, p) && DueRow(pet.id, a2.id) in Call(t, now, p)
    ensures DueRow(pet.id, a1.id) != DueRow(pet.id, a2.id)
  {
    assert Selected(t, now, Effective(p), DueRow(pet.id, a1.id));
    assert IsLatest(t.applications, a2);
    assert Selected(t, now, Effective(p), DueRow(pet.id, a2.id));
  }

  /** The ledger suppresses a row: a reminder for the same pet, lead and application blocks it. */
  lemma NotifiedApplicationIsSkipped(t: Tables, now: Time, p: Params, petId: Id, applicationId: Id)
    requires AlreadyNotified(t.sentNotifications, petId, Effective(p).lead, applicationId)
    ensures DueRow(petId, applicationId) !in Call(t, now, p)
  {
  }

  /** No row names an excluded pet; a non-blank list is used as given. */
  lemma ExcludedPetsNeverSelected(t: Tables, now: Time, p: Params)
    ensures forall r :: r in Call(t, now, p) ==> r.petId !in Effective(p).excludedPets
    ensures p.excludedPets.Some? ==> forall r :: r in Call(t, now, p) ==> r.petId !in p.excludedPets.value
  {
  }

  /** A blank exclusion list excludes nothing: as pet ids are positive, the substitute [0]
      selects the same rows as any list that names no stored pet. */
  lemma BlankExclusionExcludesNothing(t: Tables, now: Time, lead: Option<int>, late: Option<bool>,
                                      blank: Option<seq<Id>>, others: seq<Id>)
    requires IsBlankList(blank)
    requires forall pet :: pet in t.pets ==> pet.id >= 1 && pet.id !in others
    ensures forall r :: r in Call(t, now, Params(lead, late, blank)) <==> r in Call(t, now, Params(lead, late, Some(others)))
  {
    var q1 := Effective(Params(lead, late, blank));
    var q2 := Effective(Params(lead, late, Some(others)));
    assert forall pet, a :: pet in t.pets ==> (PassesWhere(t, now, q1, pet, a) <==> PassesWhere(t, now, q2, pet, a));
  }

  /** An absent lead behaves as a lead of 0, and an absent late flag as false. */
  lemma DefaultsApply(t: Tables, now: Time, p: Params)
    ensures Call(t, now, p.(minutesUntilNextInsulin := None)) == Call(t, now, p.(minutesUntilNextInsulin := Some(0)))
    ensures Call(t, now, p.(findLatePets := None)) == Call(t, now, p.(findLatePets := Some(false)))
  {
  }

  /** Every row refers to a stored pet and a stored application. */
  lemma SelectedRowsReferToStoredRecords(t: Tables, now: Time, p: Params)
    ensures forall r :: r in Call(t, now, p) ==>
      HasPet(t.pets, r.petId) && HasApplication(t.applications, r.insulinApplicationId)
  {
    forall r | r in Call(t, now, p)
      ensures HasPet(t.pets, r.petId) && HasApplication(t.applications, r.insulinApplicationId)
    {
      var pet, a: InsulinApplication :| pet in t.pets && a.petId == pet.id && IsLatest(t.applications, a)
        && PassesWhere(t, now, Effective(p), pet, a) && r == DueRow(pet.id, a.id);
    }
  }

  // ---------------------------------------------------------------------------
  // Boundary examples: one pet dosed every 2 hours, last dosed at time 0

  const EXAMPLE_PET: Pet := Pet(1, "Rex", "DOG", 0, 2)
  const EXAMPLE_APPLICATION: InsulinApplication := InsulinApplication(1, 1, 1, 0, 3, None, None)

  function ExampleTables(sent: seq<SentNotification>): Tables {
    Tables([], [EXAMPLE_PET], [], [EXAMPLE_APPLICATION], [], sent)
  }

  /** With a 30-minute lead the pet is due from 90 minutes on: 95 is selected, 90 is the
      inclusive boundary, 89 and 60 are not; 120 minutes is overdue and dropped unless late
      pets are wanted; a reminder already in the ledger suppresses the row. */
  lemma FrequencyTwoLeadThirtyBoundaries()
    ensures Call(ExampleTables([]), 95 * 60, Params(Some(30), None, None)) == [DueRow(1, 1)]
    ensures Call(ExampleTables([]), 90 * 60, Params(Some(30), None, None)) == [DueRow(1, 1)]
    ensures Call(ExampleTables([]), 89 * 60, Params(Some(30), None, None)) == []
    ensures Call(ExampleTables([]), 60 * 60, Params(Some(30), None, None)) == []
    ensures Call(ExampleTables([]), 120 * 60, Params(Some(30), None, None)) == []
    ensures Call(ExampleTables([]), 120 * 60, Params(Some(30), Some(true), None)) == [DueRow(1, 1)]
    ensures Call(ExampleTables([SentNotification(1, 1, 30, 1)]), 95 * 60, Params(Some(30), None, None)) == []
    ensures Call(ExampleTables([]), 95 * 60, Params(Some(30), None, Some([1]))) == []
  {
  }
}
