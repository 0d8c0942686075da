/** Pets::Create: registers a pet for the caller. The parameters are checked in a
    fixed order (name, species, birthdate, insulin frequency), each check meant to raise
    BadRequestError with its own detailed code; then the pet is saved and the caller
    becomes its OWNER. The two saves are not wrapped in a transaction.

    As written, BadRequestError cannot be built with a detailed code, so a refused check
    raises ArgumentError instead (`ValidateParamsAsWritten`). `ValidateParams` and `Call`
    model the intended errors. */
module CreatePet {
  import opened Common
  import opened Schema
  import opened Persistence

  /** The insulin frequency as it arrives: absent, an integer, or a value of another type. */
  datatype FrequencyParam = NoFrequency | IntegerFrequency(n: int) | OtherFrequency

  datatype CreateParams = CreateParams(
    name: Option<string>,
    species: Option<string>,
    birthdate: Option<string>,
    insulinFrequency: FrequencyParam)

  /** The date library: which strings `Date.parse` accepts, the day number it gives them,
      and today's day number. */
  datatype Calendar = Calendar(parses: string -> bool, parse: string -> int, today: int)

  const MIN_NAME_LENGTH: int := 2
  const MAX_NAME_LENGTH: int := 50
  const MAX_INSULIN_FREQUENCY: int := 24

  /** `validate_name`: only a missing name counts as absent; a short or long one is refused. */
  function ValidateName(name: Option<string>): (r: Outcome)
    ensures r.Pass? <==> name.Some? && MIN_NAME_LENGTH <= |name.value| <= MAX_NAME_LENGTH
    ensures name.None? ==> r == Fail(BadRequest(NameRequired))
    ensures name.Some? && |name.value| < MIN_NAME_LENGTH ==> r == Fail(BadRequest(ShortName))
    ensures name.Some? && |name.value| > MAX_NAME_LENGTH ==> r == Fail(BadRequest(BigName))
  {
    if name.None? then Fail(BadRequest(NameRequired))
    else if |name.value| < MIN_NAME_LENGTH then Fail(BadRequest(ShortName))
    else if |name.value| > MAX_NAME_LENGTH then Fail(BadRequest(BigName))
    else Pass
  }

  /** `validate_species`: DOG or CAT. */
  function ValidateSpecies(species: Option<string>): (r: Outcome)
    ensures r.Pass? <==> species.Some? && species.value in SPECIES
    ensures species.None? ==> r == Fail(BadRequest(SpeciesRequired))
    ensures species.Some? && species.value !in SPECIES ==> r == Fail(BadRequest(InvalidSpecies))
  {
    if species.None? then Fail(BadRequest(SpeciesRequired))
    else if species.value == "DOG" || species.value == "CAT" then Pass
    else Fail(BadRequest(InvalidSpecies))
  }

  /** `validate_birthdate`: present, then parseable, then not after today. */
  function ValidateBirthdate(birthdate: Option<string>, cal: Calendar): (r: Outcome)
    ensures r.Pass? <==> birthdate.Some? && cal.parses(birthdate.value) && cal.parse(birthdate.value) <= cal.today
    ensures birthdate.None? ==> r == Fail(BadRequest(BirthdateRequired))
    ensures birthdate.Some? && !cal.parses(birthdate.value) ==> r == Fail(BadRequest(InvalidBirthdate))
    ensures birthdate.Some? && cal.parses(birthdate.value) && cal.parse(birthdate.value) > cal.today
      ==> r == Fail(BadRequest(FutureBirthdate))
  {
    if birthdate.None? then Fail(BadRequest(BirthdateRequired))
    else if !cal.parses(birthdate.value) then Fail(BadRequest(InvalidBirthdate))
    else if cal.parse(birthdate.value) > cal.today then Fail(BadRequest(FutureBirthdate))
    else Pass
  }

  /** `validate_insulin_frequency`: present, an integer, then not negative, not zero and not above 24. */
  function ValidateInsulinFrequency(f: FrequencyParam): (r: Outcome)
    ensures r.Pass? <==> f.IntegerFrequency? && 1 <= f.n <= MAX_INSULIN_FREQUENCY
    ensures f.NoFrequency? ==> r == Fail(BadRequest(InsulinFrequencyRequired))
    ensures f.OtherFrequency? ==> r == Fail(BadRequest(InvalidInsulinFrequency))
    ensures f.IntegerFrequency? && f.n < 0 ==> r == Fail(BadRequest(NegativeInsulinFrequency))
    ensures f.IntegerFrequency? && f.n == 0 ==> r == Fail(BadRequest(ZeroInsulinFrequency))
    ensures f.IntegerFrequency? && f.n > MAX_INSULIN_FREQUENCY ==> r == Fail(BadRequest(BigInsulinFrequency))
  {
    match f
    case NoFrequency => Fail(BadRequest(InsulinFrequencyRequired))
    case OtherFrequency => Fail(BadRequest(InvalidInsulinFrequency))
    case IntegerFrequency(n) =>
      if n < 0 then Fail(BadRequest(NegativeInsulinFrequency))
      else if n == 0 then Fail(BadRequest(ZeroInsulinFrequency))
      else if n > MAX_INSULIN_FREQUENCY then Fail(BadRequest(BigInsulinFrequency))
      else Pass
  }

  /** `validate_params`: the four checks in order; the first failure is raised. */
  function ValidateParams(p: CreateParams, cal: Calendar): (r: Outcome)
    ensures r.Pass? <==>
      && ValidateName(p.name).Pass? && ValidateSpecies(p.species).Pass?
      && ValidateBirthdate(p.birthdate, cal).Pass? && ValidateInsulinFrequency(p.insulinFrequency).Pass?
    ensures ValidateName(p.name).Fail? ==> r == ValidateName(p.name)
    ensures ValidateName(p.name).Pass? && ValidateSpecies(p.species).Fail? ==> r == ValidateSpecies(p.species)
    ensures ValidateName(p.name).Pass? && ValidateSpecies(p.species).Pass? && ValidateBirthdate(p.birthdate, cal).Fail?
      ==> r == ValidateBirthdate(p.birthdate, cal)
    ensures ValidateName(p.name).Pass? && ValidateSpecies(p.species).Pass? && ValidateBirthdate(p.birthdate, cal).Pass?
      ==> r == ValidateInsulinFrequency(p.insulinFrequency)
    ensures r.Fail? ==> r.error.BadRequest?
  {
    AndThen(AndThen(AndThen(
      ValidateName(p.name),
      ValidateSpecies(p.species)),
      ValidateBirthdate(p.birthdate, cal)),
      ValidateInsulinFrequency(p.insulinFrequency))
  }

  /** `validate_params` as written: a refusal fails while building its BadRequestError, so
      what escapes `call` is ArgumentError, which the API's AppError handler does not answer. */
  function ValidateParamsAsWritten(p: CreateParams, cal: Calendar): (r: Outcome)
    ensures r.Pass? <==> ValidateParams(p, cal).Pass?
    ensures r.Fail? ==> r.error == ArgumentError && !IsAppError(r.error)
  {
    RaisedAsWritten(ValidateParams(p, cal))
  }

  /** `Pet.new(...)` from accepted params, with the id the pets sequence hands out. */
  function NewPet(p: CreateParams, cal: Calendar, id: Id): Pet
    requires ValidateParams(p, cal).Pass?
  {
    Pet(id, p.name.value, p.species.value, cal.parse(p.birthdate.value), p.insulinFrequency.n)
  }

  /** `call`: `validate_params`, then `create_pet` (`save!`), then `create_pet_owner` (`save!`).
      Only the Pet model's presence check on the name can still refuse the pet, and only a
      caller missing from the users table can refuse the ownership row, which then leaves
      the pet stored without an owner. */
  method Call(db: Database, callerId: Id, p: CreateParams, cal: Calendar) returns (r: Result<Pet>)
    requires db.Valid()
    modifies db`pets, db`nextPetId, db`petOwners
    ensures db.Valid()
    ensures var check := ValidateParams(p, cal);
      && (check.Fail? ==> r == Err(check.error))
      && (check.Pass? && IsBlank(p.name.value) ==> r == Err(RecordInvalid))
      && (check.Fail? || IsBlank(p.name.value) ==>
            db.pets == old(db.pets) && db.nextPetId == old(db.nextPetId) && db.petOwners == old(db.petOwners))
      && (check.Pass? && !IsBlank(p.name.value) ==>
            var pet := NewPet(p, cal, old(db.nextPetId));
            && db.pets == old(db.pets) + [pet]
            && db.nextPetId == old(db.nextPetId) + 1
            && (!HasUser(old(db.users), callerId) ==> r == Err(RecordInvalid) && db.petOwners == old(db.petOwners))
            && (HasUser(old(db.users), callerId) ==>
                  r == Ok(pet) && db.petOwners == old(db.petOwners) + [PetOwner(pet.id, callerId, Owner)]))
  {
    var check := ValidateParams(p, cal);
    if check.Fail? {
      return Err(check.error);
    }
    var pet := NewPet(p, cal, db.nextPetId);
    if !ValidPet(pet) {
      return Err(RecordInvalid);
    }
    AppendPetKeepsConsistent(db.State(), pet);
    db.pets := db.pets + [pet];
    db.nextPetId := db.nextPetId + 1;
    if !HasUser(db.users, callerId) {
      return Err(RecordInvalid);
    }
    var owner := PetOwner(pet.id, callerId, Owner);
    assert HasPet(db.pets, pet.id) by {
      assert db.pets[|db.pets| - 1] == pet;
    }
    AppendOwnershipKeepsConsistent(db.State(), owner);
    db.petOwners := db.petOwners + [owner];
    r := Ok(pet);
  }

  // ---------------------------------------------------------------------------
  // Properties

  /** Accepted params make a pet the Pet model accepts exactly when the name is not blank,
      and its frequency lies between 1 and 24 hours. */
  lemma AcceptedParamsGiveValidPet(p: CreateParams, cal: Calendar, id: Id)
    requires ValidateParams(p, cal).Pass?
    ensures ValidPet(NewPet(p, cal, id)) <==> !IsBlank(p.name.value)
    ensures 1 <= NewPet(p, cal, id).insulinFrequency <= MAX_INSULIN_FREQUENCY
    ensures MIN_NAME_LENGTH <= |NewPet(p, cal, id).name| <= MAX_NAME_LENGTH
    ensures NewPet(p, cal, id).birthdate <= cal.today
  {
  }

  /** The Pet model accepts any positive frequency; the service stops at 24 hours. */
  lemma ModelAllowsLongerFrequencies(id: Id, name: string, species: string, birthdate: int, f: int)
    requires !IsBlank(name) && species in SPECIES && f > MAX_INSULIN_FREQUENCY
    ensures ValidPet(Pet(id, name, species, birthdate, f))
    ensures ValidateInsulinFrequency(IntegerFrequency(f)) == Fail(BadRequest(BigInsulinFrequency))
  {
  }

  /** A name of two spaces passes `validate_name` but not the model's presence check. */
  lemma BlankNamePassesTheServiceCheck()
    ensures ValidateName(Some("  ")).Pass?
    ensures IsBlank("  ")
  {
  }

  /** A request without a name is meant to be refused with NAME_REQUIRED; as written the
      error escaping is ArgumentError, whatever the other params are. */
  lemma MissingNameRaisesArgumentError(species: Option<string>, birthdate: Option<string>, f: FrequencyParam, cal: Calendar)
    ensures var p := CreateParams(None, species, birthdate, f);
      && ValidateParams(p, cal) == Fail(BadRequest(NameRequired))
      && ValidateParamsAsWritten(p, cal) == Fail(ArgumentError)
  {
  }
}
