/** Auth::SignUp: registers a user. The email, the password and the two names are
    checked in that order, each failure meant to raise UnprocessableEntityError with its
    own detailed code; the user is then created and a token issued for it.

    As written, two things differ from that intent. UnprocessableEntityError cannot be
    built with a detailed code, so a refused check raises ArgumentError instead. And the
    service creates the user with the non-raising `User.create`, so a user the User model
    refuses is neither stored nor reported: the service still answers with a registration
    whose user has no id. `CallAsWritten` models both; `Validate`, `Register` and the
    method `Call` model the intended behaviour, which raises RecordInvalid. */
module SignUp {
  import opened Common
  import opened Schema
  import opened Persistence

  datatype SignUpParams = SignUpParams(
    email: Option<string>,
    password: string,
    firstName: Option<string>,
    lastName: Option<string>)

  /** The registration handed back: the user (and the id the token is issued for, nil for
      a user that was not stored). */
  datatype Registration = Registration(userId: Option<Id>, email: string, firstName: string, lastName: string)

  const MIN_PASSWORD_LENGTH: int := 6
  const MIN_PERSON_NAME_LENGTH: int := 2
  /** The longest password `has_secure_password` accepts. */
  const MAX_PASSWORD_LENGTH: int := 72

  predicate EmailInUse(users: seq<User>, email: string) {
    exists u :: u in users && u.email == email
  }

  /** `validate_email`: present, matching the mail address pattern, then not registered yet. */
  function ValidateEmail(users: seq<User>, email: Option<string>, emailFormat: string -> bool): (r: Outcome)
    ensures r.Pass? <==> !IsBlankOrNil(email) && emailFormat(email.value) && !EmailInUse(users, email.value)
    ensures IsBlankOrNil(email) ==> r == Fail(UnprocessableEntity(EmailRequired))
    ensures !IsBlankOrNil(email) && !emailFormat(email.value) ==> r == Fail(UnprocessableEntity(InvalidEmail))
    ensures !IsBlankOrNil(email) && emailFormat(email.value) && EmailInUse(users, email.value)
      ==> r == Fail(UnprocessableEntity(EmailTaken))
  {
    if IsBlankOrNil(email) then Fail(UnprocessableEntity(EmailRequired))
    else if !emailFormat(email.value) then Fail(UnprocessableEntity(InvalidEmail))
    else if EmailInUse(users, email.value) then Fail(UnprocessableEntity(EmailTaken))
    else Pass
  }

  /** `validate_password`: at least six characters; white space counts. */
  function ValidatePassword(password: string): (r: Outcome)
    ensures r.Pass? <==> |password| >= MIN_PASSWORD_LENGTH
    ensures r.Fail? ==> r.error == UnprocessableEntity(ShortPassword)
  {
    if |password| < MIN_PASSWORD_LENGTH then Fail(UnprocessableEntity(ShortPassword)) else Pass
  }

  /** One name of `validate_names`: not blank, then at least two characters. */
  function ValidatePersonName(name: Option<string>, required: DetailCode, short: DetailCode): (r: Outcome)
    ensures r.Pass? <==> !IsBlankOrNil(name) && |name.value| >= MIN_PERSON_NAME_LENGTH
    ensures IsBlankOrNil(name) ==> r == Fail(UnprocessableEntity(required))
    ensures !IsBlankOrNil(name) && |name.value| < MIN_PERSON_NAME_LENGTH ==> r == Fail(UnprocessableEntity(short))
  {
    if IsBlankOrNil(name) then Fail(UnprocessableEntity(required))
    else if |name.value| < MIN_PERSON_NAME_LENGTH then Fail(UnprocessableEntity(short))
    else Pass
  }

  /** `validate_names`: the first name, then the last name. */
  function ValidateNames(firstName: Option<string>, lastName: Option<string>): (r: Outcome)
    ensures r.Pass? <==>
      ValidatePersonName(firstName, FirstNameRequired, FirstNameShort).Pass?
      && ValidatePersonName(lastName, LastNameRequired, LastNameShort).Pass?
    ensures ValidatePersonName(firstName, FirstNameRequired, FirstNameShort).Fail?
      ==> r == ValidatePersonName(firstName, FirstNameRequired, FirstNameShort)
    ensures ValidatePersonName(firstName, FirstNameRequired, FirstNameShort).Pass?
      ==> r == ValidatePersonName(lastName, LastNameRequired, LastNameShort)
  {
    AndThen(ValidatePersonName(firstName, FirstNameRequired, FirstNameShort),
            ValidatePersonName(lastName, LastNameRequired, LastNameShort))
  }

  /** The three steps `call` runs before creating the user, in order. */
  function Validate(users: seq<User>, p: SignUpParams, emailFormat: string -> bool): (r: Outcome)
    ensures r.Pass? <==>
      ValidateEmail(users, p.email, emailFormat).Pass? && ValidatePassword(p.password).Pass?
      && ValidateNames(p.firstName, p.lastName).Pass?
    ensures ValidateEmail(users, p.email, emailFormat).Fail? ==> r == ValidateEmail(users, p.email, emailFormat)
    ensures ValidateEmail(users, p.email, emailFormat).Pass? && ValidatePassword(p.password).Fail?
      ==> r == ValidatePassword(p.password)
    ensures ValidateEmail(users, p.email, emailFormat).Pass? && ValidatePassword(p.password).Pass?
      ==> r == ValidateNames(p.firstName, p.lastName)
    ensures r.Fail? ==> r.error.UnprocessableEntity?
  {
    AndThen(AndThen(ValidateEmail(users, p.email, emailFormat), ValidatePassword(p.password)),
            ValidateNames(p.firstName, p.lastName))
  }

  /** The three checks as written: a refusal fails while building its
      UnprocessableEntityError, so what escapes is ArgumentError. */
  function ValidateAsWritten(users: seq<User>, p: SignUpParams, emailFormat: string -> bool): (r: Outcome)
    ensures r.Pass? <==> Validate(users, p, emailFormat).Pass?
    ensures r.Fail? ==> r.error == ArgumentError && !IsAppError(r.error)
  {
    RaisedAsWritten(Validate(users, p, emailFormat))
  }

  /** The User model's validations: both names, the email (present and unique) and the
      password (present and no longer than `has_secure_password` allows). */
  predicate ModelAccepts(users: seq<User>, p: SignUpParams) {
    && !IsBlankOrNil(p.firstName) && !IsBlankOrNil(p.lastName)
    && !IsBlankOrNil(p.email) && !EmailInUse(users, p.email.value)
    && !IsBlank(p.password) && |p.password| <= MAX_PASSWORD_LENGTH
  }

  /** The row `User.create(user_params)` inserts when the model accepts the params: the email
      and both names as given, under the next id (the password digest is not modelled). */
  function NewUser(p: SignUpParams, id: Id): User
    requires !IsBlankOrNil(p.email) && !IsBlankOrNil(p.firstName) && !IsBlankOrNil(p.lastName)
  {
    User(id, p.email.value, p.firstName.value, p.lastName.value)
  }

  function RegistrationOf(u: User): Registration {
    Registration(Some(u.id), u.email, u.firstName, u.lastName)
  }

  /** `call` as written: the service answers and the users table after it. A refused check
      raises ArgumentError; a refused `User.create` leaves the table as it was and still
      yields a registration, without id. */
  function CallAsWritten(users: seq<User>, p: SignUpParams, emailFormat: string -> bool, nextId: Id)
    : (r: (Result<Registration>, seq<User>))
    ensures Validate(users, p, emailFormat).Fail? ==> r == (Err(ArgumentError), users)
    ensures Validate(users, p, emailFormat).Pass? ==> r.0.Ok?
    ensures Validate(users, p, emailFormat).Pass? && !ModelAccepts(users, p)
      ==> r.1 == users && r.0.value.userId.None?
    ensures Validate(users, p, emailFormat).Pass? && ModelAccepts(users, p)
      ==> r == Register(users, p, emailFormat, nextId)
  {
    var check := ValidateAsWritten(users, p, emailFormat);
    if check.Fail? then (Err(check.error), users)
    else if ModelAccepts(users, p) then
      var u := NewUser(p, nextId);
      (Ok(RegistrationOf(u)), users + [u])
    else (Ok(Registration(None, p.email.value, p.firstName.value, p.lastName.value)), users)
  }

  /** `call` as intended: a user the model refuses raises RecordInvalid, as `User.create!` would. */
  function Register(users: seq<User>, p: SignUpParams, emailFormat: string -> bool, nextId: Id)
    : (r: (Result<Registration>, seq<User>))
    ensures Validate(users, p, emailFormat).Fail? ==> r == (Err(Validate(users, p, emailFormat).error), users)
    ensures Validate(users, p, emailFormat).Pass? && !ModelAccepts(users, p) ==> r == (Err(RecordInvalid), users)
    ensures r.0.Err? ==> r.1 == users
    ensures r.0.Ok? ==> r.1 == users + [NewUser(p, nextId)] && r.0.value == RegistrationOf(NewUser(p, nextId))
  {
    var check := Validate(users, p, emailFormat);
    if check.Fail? then (Err(check.error), users)
    else if !ModelAccepts(users, p) then (Err(RecordInvalid), users)
    else
      var u := NewUser(p, nextId);
      (Ok(RegistrationOf(u)), users + [u])
  }

  /** `call`, with the intended failure: on success the user is stored under the next id. */
  method Call(db: Database, p: SignUpParams, emailFormat: string -> bool) returns (r: Result<Registration>)
    requires db.Valid()
    modifies db`users, db`nextUserId
    ensures db.Valid()
    ensures (r, db.users) == Register(old(db.users), p, emailFormat, old(db.nextUserId))
    ensures db.nextUserId == old(db.nextUserId) + (if r.Ok? then 1 else 0)
  {
    var check := Validate(db.users, p, emailFormat);
    if check.Fail? {
      return Err(check.error);
    }
    if !ModelAccepts(db.users, p) {
      return Err(RecordInvalid);
    }
    var u := NewUser(p, db.nextUserId);
    AppendUserKeepsConsistent(db.State(), u);
    db.users := db.users + [u];
    db.nextUserId := db.nextUserId + 1;
    r := Ok(RegistrationOf(u));
  }

  // ---------------------------------------------------------------------------
  // Properties

  /** The service's checks leave only the password's content and length to the model: after
      them, the model refuses exactly a blank password or one longer than 72 characters. */
  lemma ModelRefusesOnlyPasswords(users: seq<User>, p: SignUpParams, emailFormat: string -> bool)
    requires Validate(users, p, emailFormat).Pass?
    ensures ModelAccepts(users, p) <==> !IsBlank(p.password) && |p.password| <= MAX_PASSWORD_LENGTH
  {
  }

  /** Intended behaviour: every registration answered names a stored user with that id and email,
      and a second sign-up with the same email is refused. */
  lemma RegisteredUserIsStored(users: seq<User>, p: SignUpParams, emailFormat: string -> bool, nextId: Id, laterId: Id)
    requires Register(users, p, emailFormat, nextId).0.Ok?
    ensures var (r, after) := Register(users, p, emailFormat, nextId);
      && r.value.userId == Some(nextId)
      && User(nextId, r.value.email, r.value.firstName, r.value.lastName) in after
      && Register(after, p, emailFormat, laterId) == (Err(UnprocessableEntity(EmailTaken)), after)
  {
    var after := Register(users, p, emailFormat, nextId).1;
    assert after[|after| - 1] == NewUser(p, nextId);
    assert EmailInUse(after, p.email.value);
  }

  /** Where the model accepts the user, the code as written and the intended behaviour store
      the same rows; they answer alike when the checks pass, and differ only in the error
      raised when a check refuses. */
  lemma AsWrittenAgreesWhenModelAccepts(users: seq<User>, p: SignUpParams, emailFormat: string -> bool, nextId: Id)
    requires ModelAccepts(users, p)
    ensures CallAsWritten(users, p, emailFormat, nextId).1 == Register(users, p, emailFormat, nextId).1
    ensures Validate(users, p, emailFormat).Pass? ==>
      CallAsWritten(users, p, emailFormat, nextId) == Register(users, p, emailFormat, nextId)
    ensures Validate(users, p, emailFormat).Fail? ==>
      && CallAsWritten(users, p, emailFormat, nextId).0 == Err(ArgumentError)
      && Register(users, p, emailFormat, nextId).0 == Err(Validate(users, p, emailFormat).error)
  {
  }

  /** A missing email is meant to be refused with EMAIL_REQUIRED; as written the error
      escaping is ArgumentError, and nothing is stored either way. */
  lemma MissingEmailRaisesArgumentError(users: seq<User>, password: string, firstName: Option<string>,
                                        lastName: Option<string>, emailFormat: string -> bool, nextId: Id)
    ensures var p := SignUpParams(None, password, firstName, lastName);
      && Register(users, p, emailFormat, nextId) == (Err(UnprocessableEntity(EmailRequired)), users)
      && CallAsWritten(users, p, emailFormat, nextId) == (Err(ArgumentError), users)
  {
  }

  /** As written, a password of six spaces passes `validate_password`, the model refuses it, and
      the service still answers with a registration while no user is stored. */
  lemma AsWrittenAnswersWithoutStoring()
    ensures var p := SignUpParams(Some("ann@example.com"), "      ", Some("Ann"), Some("Lee"));
      && ValidatePassword(p.password).Pass?
      && CallAsWritten([], p, _ => true, 1) == (Ok(Registration(None, "ann@example.com", "Ann", "Lee")), [])
      && Register([], p, _ => true, 1) == (Err(RecordInvalid), [])
  {
    var p := SignUpParams(Some("ann@example.com"), "      ", Some("Ann"), Some("Lee"));
    assert !IsSpace(p.email.value[0]) && !IsSpace(p.firstName.value[0]) && !IsSpace(p.lastName.value[0]);
    assert IsBlank(p.password);
  }
}
