/** Values shared by every service: optional values, the error kinds the
    services raise, and the outcome of a check that either passes or raises. */
module Common {

  datatype Option<+T> = None | Some(value: T) {
    /** `x || default` on a value that may be nil. */
    function GetOr(default: T): T {
      if Some? then value else default
    }
  }

  /** Detailed codes attached to the validation errors of pet creation and sign-up. */
  datatype DetailCode =
    | NameRequired | ShortName | BigName
    | SpeciesRequired | InvalidSpecies
    | BirthdateRequired | InvalidBirthdate | FutureBirthdate
    | InsulinFrequencyRequired | InvalidInsulinFrequency | NegativeInsulinFrequency
    | ZeroInsulinFrequency | BigInsulinFrequency
    | EmailRequired | InvalidEmail | EmailTaken
    | ShortPassword
    | FirstNameRequired | FirstNameShort | LastNameRequired | LastNameShort

  /** What a service raises. The first six are the application's error kinds (the
      subclasses of AppError); the next three are raised by the persistence layer itself,
      and the last by Ruby when a method is called with arguments it does not take. */
  datatype Error =
    | NotFound(message: string)
    | InternalServerError(message: string)
    | InvalidToken
    | Unauthorized
    | BadRequest(code: DetailCode)
    | UnprocessableEntity(code: DetailCode)
    | RecordNotFound       // a `find` on a missing id
    | RecordInvalid        // a `save!`, `create!` or `update!` whose model validation failed
    | InvalidForeignKey    // a delete refused because another table still references the row
    | ArgumentError        // a call passing more arguments than the method accepts

  /** Default message of NotFoundError. */
  const NOT_FOUND: string := "Not found"
  const APPLICATION_NOT_FOUND: string := "Insulin application not found"
  const USER_NOT_FOUND: string := "User not found"

  datatype Result<+T> = Ok(value: T) | Err(error: Error)

  /** A validation step: it returns normally or raises. */
  datatype Outcome = Pass | Fail(error: Error)

  /** Runs `first`, and `second` only when `first` passed. */
  function AndThen(first: Outcome, second: Outcome): (r: Outcome)
    ensures r.Pass? <==> first.Pass? && second.Pass?
    ensures first.Fail? ==> r == first
    ensures first.Pass? ==> r == second
  {
    if first.Fail? then first else second
  }

  /** The error kinds the API's `rescue_from Exceptions::AppError` catches. */
  predicate IsAppError(e: Error) {
    e.NotFound? || e.InternalServerError? || e.InvalidToken? || e.Unauthorized?
    || e.BadRequest? || e.UnprocessableEntity?
  }

  /** The error a validation check is meant to raise, as `raise` actually raises it.
      BadRequestError and UnprocessableEntityError hand `detailed_code:` on to
      `AppError#initialize`, which takes no keyword, so building either of them fails
      with ArgumentError before anything is raised; every other error is raised as built. */
  function RaisedAsWritten(intended: Outcome): (r: Outcome)
    ensures r.Pass? <==> intended.Pass?
    ensures intended.Fail? && (intended.error.BadRequest? || intended.error.UnprocessableEntity?)
      ==> r == Fail(ArgumentError) && !IsAppError(r.error)
    ensures (intended.Fail? && IsAppError(intended.error)
             && !intended.error.BadRequest? && !intended.error.UnprocessableEntity?) ==> r == intended
  {
    if intended.Fail? && (intended.error.BadRequest? || intended.error.UnprocessableEntity?)
    then Fail(ArgumentError)
    else intended
  }

  predicate IsSpace(c: char) {
    c == ' ' || c == '\t' || c == '\n' || c == '\r' || c == '\U{000B}' || c == '\U{000C}'
  }

  /** `blank?` on a string: empty or only white space. */
  predicate IsBlank(s: string) {
    forall i :: 0 <= i < |s| ==> IsSpace(s[i])
  }

  /** `blank?` on a value that may be nil. */
  predicate IsBlankOrNil(s: Option<string>) {
    s.None? || IsBlank(s.value)
  }
}
