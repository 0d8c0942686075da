# Diapets: a verified model of the pet-care services

Diapets is a JSON API for people who look after diabetic dogs and cats. Users register
pets and share them with other users as OWNER or CARETAKER. They record every insulin
application (time, units, optional glucose level, optional observations) and register
device push tokens. A periodic job reminds the pets' owners 15 minutes before the next dose
is due. It writes each reminder to a ledger (`sent_notifications`) so that the same dose
is never announced twice.

This project models the services behind that API in Dafny, over an in-memory database:

- `Schema` gives the tables as values: users, pets, pet owners, insulin applications, push
  tokens and sent notifications. It also gives the consistency that the primary keys, unique
  indexes, foreign keys and the Pet model's validations guarantee (`Schema.Consistent`).
- `Persistence.Database` is the database as a mutable object: one sequence per table and one
  id sequence per table. Services that insert, overwrite or delete rows are methods that
  change its fields. Every such method keeps `Valid()`: the tables stay consistent and every
  id sequence stays past the ids it has handed out.
- Services that only read are functions of the tables.
- Time is whole seconds, and the clock ("now") is a parameter.
- Three things are oracles, passed in as parameters:
  - the push service (`Transport`: the send of a message returns, whatever the service answered, or raises);
  - the token decoder;
  - the date library (`Calendar`) and the email pattern.

Each service is one module, and its entry point is named `Call`:

- **Reminder engine:**
  - `FindByNextInsulinTime`: the due-pet query;
  - `NotifyInsulins`: the job;
  - `NotifyUsers`: the best-effort push loop;
  - `PetPushTokens`: the owners' tokens of a pet.
- **Insulin applications:** `Dashboard`, `FindAllInsulinApplications`, `GetFilters`,
  `FindOne`, `UpdateInsulinApplication`, `DeleteInsulinApplication` and `RegisterInsulin`.
- **Authorization and validation:** `PetAuthorizationHelpers`, `CreatePet`,
  `FindAllByUser`, `CreatePushToken`, `SignUp` and `Authorize`.
- **Pet model:** `PetRecord`, the cascade of `pet.destroy`.

## Model

| member | source | states |
|---|---|---|
| Common.AndThen | app/services/pets/create.rb:37-46 | a chain of checks passes iff both steps pass; when the first step fails its error is raised, and otherwise the second step's result is |
| Common.IsAppError | app/api/base.rb:9 | definition: the error kinds `rescue_from Exceptions::AppError` catches; used by `Common.RaisedAsWritten` |
| Common.RaisedAsWritten | app/errors/exceptions/app_error.rb:7 | as written: a BadRequestError or UnprocessableEntityError built with a detailed code fails with ArgumentError, which is not an AppError; every other outcome is unchanged |
| Common.IsBlank | app/services/auth/sign_up.rb:121 | definition: `blank?` on a string, empty or only white space (also sign_up.rb:66,133, authorize.rb:63 and the Pet and User presence validations); specified through `CreatePet.AcceptedParamsGiveValidPet`, `CreatePet.BlankNamePassesTheServiceCheck` and `SignUp.ModelRefusesOnlyPasswords` |
| Common.IsBlankOrNil | app/services/auth/sign_up.rb:66 | definition: `blank?` on a value that may be nil, true for nil (also sign_up.rb:121,133 and authorize.rb:63); specified through `SignUp.ValidateEmail`, `SignUp.ValidatePersonName` and `Authorize.Call` |
| Schema.FindPet | app/services/pets/dashboard.rb:53 | `Pet.find` finds a pet iff one has that id, and what it finds is a stored pet with that id |
| Schema.FindUser | app/services/users/create_push_token.rb:44 | `User.find` finds a user iff one has that id, and what it finds is a stored user with that id |
| Schema.ApplicationIndex | app/services/insulin_applications/update.rb:44 | the position of the first application with the id, absent iff no application has it |
| Schema.OfPet | app/services/pets/dashboard.rb:44 | `where(pet_id:)` keeps exactly the applications of the pet |
| Schema.OwnershipsOfPet | app/services/pets/notify_insulins.rb:91 | the ownership rows of a pet are exactly the rows naming it |
| Schema.ValidPet | app/models/pet.rb:14-18 | definition: the Pet model's validations; specified through `CreatePet.AcceptedParamsGiveValidPet` and `Schema.AppendPetKeepsConsistent` |
| Schema.Consistent | db/migrate/20240319020535_create_sent_notifications.rb:4-6 | definition: unique keys and the unique (pet, owner) index, the Pet validations, and every foreign key; kept by the `Append*KeepsConsistent` lemmas |
| Schema.AppendApplicationKeepsConsistent | db/migrate/20240312005943_create_insulin_applications.rb:6-9 | inserting an application with a fresh id whose pet and user exist keeps every key and foreign key intact |
| Schema.AppendPetKeepsConsistent | app/models/pet.rb:14-18 | inserting a pet that passes the Pet validations, under a fresh positive id, keeps the tables consistent |
| Schema.AppendOwnershipKeepsConsistent | db/migrate/20240312000751_create_pet_owners.rb:4-11 | inserting an ownership row whose pet and user exist and whose (pet, owner) pair is new keeps the unique index and foreign keys intact |
| Schema.AppendPushTokenKeepsConsistent | db/migrate/20240318145132_create_push_tokens.rb:4 | inserting a token with a fresh id for an existing user keeps the tables consistent |
| Schema.AppendUserKeepsConsistent | db/migrate/20240215180436_create_users.rb:6 | inserting a user with a fresh id and an unused email keeps ids and emails unique |
| Persistence.Database.constructor | db/migrate/20240319020535_create_sent_notifications.rb:3-9 | a new database has empty tables and is valid: consistent, with every id sequence at least 1 |
| FindByNextInsulinTime.Effective | app/services/pets/find_by_next_insulin_time.rb:98-118 | the lead defaults to 0 and the late flag to false; a blank exclusion list becomes [0], and any other list is used as given |
| FindByNextInsulinTime.LeadTimeReached | app/services/pets/find_by_next_insulin_time.rb:48-51 | definition: the lead-time clause, in seconds; a negative lead is used as given (lines 98-100); specified through `FindByNextInsulinTime.SelectedRowsAreDue` |
| FindByNextInsulinTime.NotYetLate | app/services/pets/find_by_next_insulin_time.rb:65-67 | definition: the not-yet-late clause; specified through `FindByNextInsulinTime.SelectedRowsAreDue` |
| FindByNextInsulinTime.AlreadyNotified | app/services/pets/find_by_next_insulin_time.rb:52-55 | definition: the ledger's NOT EXISTS clause; specified through `FindByNextInsulinTime.NotifiedApplicationIsSkipped` |
| FindByNextInsulinTime.PassesWhere | app/services/pets/find_by_next_insulin_time.rb:45-68 | definition: every where-clause together; specified through `FindByNextInsulinTime.Call` |
| FindByNextInsulinTime.LatestApplicationTime | app/services/pets/find_by_next_insulin_time.rb:73-83 | the per-pet MAX(application_time): absent iff the pet has no application; otherwise attained by one of them and not below any |
| FindByNextInsulinTime.AtMaximumIffLatest | app/services/pets/find_by_next_insulin_time.rb:79-82 | an application of the pet has the pet's maximal time exactly when no application of the pet is later |
| FindByNextInsulinTime.JoinedRows | app/services/pets/find_by_next_insulin_time.rb:79-82 | the second join yields exactly the pet's applications at the latest time that pass every where-clause |
| FindByNextInsulinTime.RowsOfPet | app/services/pets/find_by_next_insulin_time.rb:74-78 | a pet without applications contributes no row; otherwise its rows are the joined rows at its latest time |
| FindByNextInsulinTime.SelectFrom | app/services/pets/find_by_next_insulin_time.rb:35-56 | a row is produced iff it is selected for one of the listed pets |
| FindByNextInsulinTime.Call | app/services/pets/find_by_next_insulin_time.rb:35-83 | a row is in the answer iff it pairs a stored pet with one of its latest applications and passes the exclusion, lead-time, not-yet-late and ledger clauses |
| FindByNextInsulinTime.PetWithoutApplicationsNeverSelected | app/services/pets/find_by_next_insulin_time.rb:74-78 | a pet with no application is never selected |
| FindByNextInsulinTime.SelectedRowsAreDue | app/services/pets/find_by_next_insulin_time.rb:48-68 | every selected row is the pet's latest dose, at least `frequency*60 - lead` minutes ago, not yet overdue unless late pets are asked for, and not excluded |
| FindByNextInsulinTime.DueLatestApplicationIsSelected | app/services/pets/find_by_next_insulin_time.rb:45-83 | completeness: a latest application passing every clause is selected |
| FindByNextInsulinTime.LatePetsIncludedWhenAsked | app/services/pets/find_by_next_insulin_time.rb:61-62 | with `find_late_pets` true and a non-negative lead, an overdue pet is still selected |
| FindByNextInsulinTime.TiedLatestApplicationsEachGiveARow | app/services/pets/find_by_next_insulin_time.rb:79-82 | two applications tied at the latest time give two distinct rows |
| FindByNextInsulinTime.NotifiedApplicationIsSkipped | app/services/pets/find_by_next_insulin_time.rb:52-55 | a ledger row with the same pet, lead and application suppresses the row |
| FindByNextInsulinTime.ExcludedPetsNeverSelected | app/services/pets/find_by_next_insulin_time.rb:47 | no row names an excluded pet |
| FindByNextInsulinTime.BlankExclusionExcludesNothing | app/services/pets/find_by_next_insulin_time.rb:105-111 | with positive pet ids, a blank exclusion list selects the same rows as excluding no stored pet |
| FindByNextInsulinTime.DefaultsApply | app/services/pets/find_by_next_insulin_time.rb:98-100 | an absent lead acts as 0, and an absent late flag as false |
| FindByNextInsulinTime.SelectedRowsReferToStoredRecords | app/services/pets/find_by_next_insulin_time.rb:74-82 | every row names a stored pet and a stored application |
| FindByNextInsulinTime.FrequencyTwoLeadThirtyBoundaries | app/services/pets/find_by_next_insulin_time.rb:48-68 | frequency 2 and lead 30: selected at 90 and 95 minutes; not at 89 or 60; not at 120 unless late pets are asked for; not when logged or excluded |
| NotifyInsulins.Selection | app/services/pets/notify_insulins.rb:39-57 | definition: `find_pet_ids`, the due-pet query with lead 15, no late pets and no exclusions; specified through `FindByNextInsulinTime.Call`, `NotifyInsulins.Call` and `NotifyInsulins.LoggedRowsNeverReselected` |
| NotifyInsulins.PetsToNotify | app/services/pets/notify_insulins.rb:72-74 | the pets loaded are exactly the stored pets some selected row names |
| NotifyInsulins.Title | app/services/pets/notify_insulins.rb:107 | definition: the reminder title "<pet name>: Insulina!" |
| NotifyInsulins.Body | app/services/pets/notify_insulins.rb:108 | definition: the reminder body "<pet name> precisará de insulina em breve!." |
| NotifyInsulins.BatchFor | app/services/pets/notify_insulins.rb:78-84 | definition: no batch for a pet whose owners hold no token, otherwise one message per token; specified through `NotifyInsulins.PushEffectsArePushes` and `NotifyInsulins.PetWithoutTokensIsLoggedNotPushed` |
| NotifyInsulins.PushEffects | app/services/pets/notify_insulins.rb:78-84 | definition: the batches of every pet in order; specified through `NotifyInsulins.ProcessPetNotifications` and `NotifyInsulins.PushEffectsArePushes` |
| NotifyInsulins.LedgerEntries | app/services/pets/notify_insulins.rb:116-125 | definition: one row per selected row with lead 15 and consecutive ids; a row is appended without looking for an existing one; specified through `NotifyInsulins.RowIsLogged` |
| NotifyInsulins.AfterRun | app/services/pets/notify_insulins.rb:116-125 | definition: the tables after a run, with only the ledger grown; specified through `NotifyInsulins.Call` |
| NotifyInsulins.ProcessPetNotifications | app/services/pets/notify_insulins.rb:78-84 | the pushes sent are one batch per pet, in order, skipping pets whose owners hold no token |
| NotifyInsulins.LogNotifications | app/services/pets/notify_insulins.rb:116-128 | the ledger grows by exactly one row per selected row, with lead 15 and that row's application, under fresh ids |
| NotifyInsulins.Call | app/services/pets/notify_insulins.rb:18-32 | selects with lead 15, no late pets and no exclusions; with nothing due nothing is pushed and nothing changes; otherwise pushes, then appends the ledger rows, and changes no other table |
| NotifyInsulins.RowIsLogged | app/services/pets/notify_insulins.rb:119-125 | every selected row gets its ledger row, carrying lead 15 and the row's application |
| NotifyInsulins.LoggedRowsNeverReselected | app/services/pets/notify_insulins.rb:113-124 | once its ledger row exists, a row is never selected again, at any later state and clock |
| NotifyInsulins.SecondRunSelectsNoLoggedPet | app/services/pets/notify_insulins.rb:113-124 | a second run with the same clock and applications selects none of the pets the first run logged |
| NotifyInsulins.PushEffectsArePushes | app/services/pets/notify_insulins.rb:82 | every push goes to a pet in the list whose owners hold at least one token |
| NotifyInsulins.PushesPrecedeLedgerRows | app/services/pets/notify_insulins.rb:28-29 | within a run every push comes before every ledger row |
| NotifyInsulins.PushesThenLedgerRows | app/services/pets/notify_insulins.rb:28-29 | push batches followed by ledger rows never put a push after a ledger row |
| NotifyInsulins.PetWithoutTokensIsLoggedNotPushed | app/services/pets/notify_insulins.rb:82 | a selected pet without tokens gets no push but does get its ledger row |
| NotifyUsers.CountAccepted | app/services/push_notifications/notify_users.rb:43-54 | the success count is at most the number of messages |
| NotifyUsers.Messages | app/services/push_notifications/notify_users.rb:102-109 | definition: one message per token, in token order, with the shared title and body; specified through `NotifyUsers.SendNotificationsToTokens` |
| NotifyUsers.CountRejected | app/services/push_notifications/notify_users.rb:43-54 | the error count is at most the number of messages |
| NotifyUsers.AcceptedPlusRejected | app/services/push_notifications/notify_users.rb:43-54 | successes and errors add up to the number of messages |
| NotifyUsers.SendNotificationsToTokens | app/services/push_notifications/notify_users.rb:43-54 | every token is attempted once, in order, with its own token and the shared title and body; the counts are the accepted and refused attempts and add up to the number of tokens |
| NotifyUsers.ProcessSingleNotification | app/services/push_notifications/notify_users.rb:60-68 | one attempt counts [1, 0] iff the send returns, and [0, 1] when it raises |
| PetPushTokens.TokensOfUserMembership | app/services/pets/notify_insulins.rb:92-94 | a token is among a user's tokens iff a push-token row of that user carries it |
| PetPushTokens.TokensOfUser | app/services/pets/notify_insulins.rb:92-94 | definition: a user's tokens in table order; specified through `PetPushTokens.TokensOfUserMembership` |
| PetPushTokens.TokensOfOwners | app/services/pets/notify_insulins.rb:91-95 | definition: the owners' tokens, owner by owner; specified through `PetPushTokens.TokensOfOwnersMembership` |
| PetPushTokens.PetTokens | app/services/pets/notify_insulins.rb:89-98 | definition: the tokens of the pet's owners; specified through `PetPushTokens.PetTokensMembership` and `PetPushTokens.CollectPushTokensForPet` |
| PetPushTokens.TokensOfOwnersMembership | app/services/pets/notify_insulins.rb:89-98 | a token is collected iff it belongs to one of the listed owners |
| PetPushTokens.PetTokensMembership | app/services/pets/notify_insulins.rb:89-98 | a token is collected for a pet iff it belongs to a user holding an ownership row of the pet |
| PetPushTokens.CollectPushTokensForPet | app/services/pets/register_insulin.rb:128-138 | the nested loop collects the concatenation, owner by owner, of each owner's tokens |
| PetAuthorizationHelpers.OwnershipExists | app/services/helpers/pet_authorization_helpers.rb:19-33 | `PetOwner.exists?` holds iff some row matches owner, pet and, when asked for, level OWNER |
| PetAuthorizationHelpers.HasPermission | app/services/helpers/pet_authorization_helpers.rb:19-33 | definition: the user holds an ownership row on the pet, at level OWNER when asked for; specified through `PetAuthorizationHelpers.ValidatePetPermission` |
| PetAuthorizationHelpers.ValidatePetPermission | app/services/helpers/pet_authorization_helpers.rb:14-43 | passes iff the user holds a matching ownership row; otherwise Unauthorized |
| PetAuthorizationHelpers.ValidatePetExistence | app/services/helpers/pet_authorization_helpers.rb:49-62 | passes iff a pet has the id; otherwise NotFound 'Not found' |
| PetAuthorizationHelpers.CaretakerSufficesByDefault | app/services/helpers/pet_authorization_helpers.rb:14-28 | a CARETAKER passes the default check and fails the owner check |
| PetAuthorizationHelpers.OwnerPermissionImpliesPermission | app/services/helpers/pet_authorization_helpers.rb:25-28 | passing the owner check implies passing the default check |
| Dashboard.LastInsulinApplication | app/services/pets/dashboard.rb:42-45 | the last application is one of the pet's with maximal time, absent iff the pet has none |
| Dashboard.NextInsulinApplication | app/services/pets/dashboard.rb:50-58 | definition: nil without a last application, otherwise its time plus the frequency in hours; specified through `Dashboard.Call` |
| Dashboard.Call | app/services/pets/dashboard.rb:22-58 | pet existence before permission, any level allowed; the last application and `last + frequency` hours, both nil without applications |
| Dashboard.LastDependsOnlyOnOwnApplications | app/services/pets/dashboard.rb:44 | the last application is computed from the pet's own applications alone |
| Dashboard.OtherPetsDoNotAffectDashboard | app/services/pets/dashboard.rb:44 | changing other pets' applications does not change the dashboard |
| FindAllInsulinApplications.Filters | app/services/pets/find_all_insulin_applications.rb:48-66 | the hash always has the pet id, and a range iff a bound is given; a row matches it iff the caller wants the row |
| FindAllInsulinApplications.Matches | app/services/pets/find_all_insulin_applications.rb:48-66 | definition: a row matches the filter hash (pet id and inclusive ranges, NULL glucose outside every range); specified through `FindAllInsulinApplications.Filters` |
| FindAllInsulinApplications.Where | app/services/pets/find_all_insulin_applications.rb:42 | `where` keeps every matching row as often as it is stored and drops the rest |
| FindAllInsulinApplications.Insert | app/services/pets/find_all_insulin_applications.rb:42 | inserting into a non-increasing list keeps it non-increasing and adds exactly that element |
| FindAllInsulinApplications.OrderByTimeDesc | app/services/pets/find_all_insulin_applications.rb:42 | `order(application_time: :desc)` gives a non-increasing permutation |
| FindAllInsulinApplications.Call | app/services/pets/find_all_insulin_applications.rb:23-43 | NotFound, then Unauthorized; otherwise exactly the wanted applications, each as often as stored, ordered by time descending |
| FindAllInsulinApplications.NoBoundsWantsEveryApplicationOfThePet | app/services/pets/find_all_insulin_applications.rb:56-62 | without bounds every application of the pet is wanted, and only those |
| FindAllInsulinApplications.BoundsAreInclusive | app/services/pets/find_all_insulin_applications.rb:56-62 | a value equal to a bound is kept |
| FindAllInsulinApplications.GlucoseBoundDropsUnrecorded | app/services/pets/find_all_insulin_applications.rb:62 | any glucose bound drops applications with no glucose level |
| GetFilters.Glucoses | app/services/insulin_applications/get_filters.rb:78-79 | the glucose column without NULLs holds exactly the recorded levels |
| GetFilters.Aggregate | app/services/insulin_applications/get_filters.rb:74-79 | MIN and MAX of a non-empty column are attained and bound every value |
| GetFilters.AggregateOrNil | app/services/insulin_applications/get_filters.rb:78-79 | MIN and MAX are nil iff the column has no value, otherwise attained bounds |
| GetFilters.BuildFilterResponse | app/services/insulin_applications/get_filters.rb:105-114 | the date and unit bounds span the applications; the glucose bounds are nil iff no glucose is recorded |
| GetFilters.ValidateInsulinApplicationExistence | app/services/insulin_applications/get_filters.rb:43-50 | passes iff the pet has an application; otherwise NotFound 'Insulin application not found' |
| GetFilters.Call | app/services/insulin_applications/get_filters.rb:26-36 | pet existence, permission, then applications, in that order; on success min <= max for every bound |
| GetFilters.BoundsSpanThePetsApplications | app/services/insulin_applications/get_filters.rb:73-83 | every bound is attained by an application of the pet, and every application lies within the bounds |
| GetFilters.OtherPetsDoNotAffectBounds | app/services/insulin_applications/get_filters.rb:80 | applications of other pets never change the answer |
| GetFilters.SingleApplicationBoundsCoincide | app/services/insulin_applications/get_filters.rb:105-114 | with one application every minimum equals its maximum and that application's value |
| FindOne.FindInsulinApplication | app/services/insulin_applications/find_one.rb:50-57 | fails iff no application has the id, with NotFound 'Insulin application not found'; otherwise a stored record with that id |
| FindOne.Call | app/services/insulin_applications/find_one.rb:22-43 | the lookup, then the existence of the record's pet, then permission at any level; success returns the first stored record with the id |
| FindOne.ReturnsTheStoredRecord | app/services/insulin_applications/find_one.rb:26-38 | with unique ids an authorised read returns the stored record unchanged |
| UpdateInsulinApplication.Check | app/services/insulin_applications/update.rb:122-131 | FindOne's errors first, then RecordInvalid for a responsible user who does not exist; otherwise the record FindOne returns |
| UpdateInsulinApplication.Updated | app/services/insulin_applications/update.rb:104-112 | definition: the record with the params' time, units, glucose and observations and `user_id` = `responsible_id`; specified through `UpdateInsulinApplication.UpdateKeepsIdentity` |
| UpdateInsulinApplication.Overwrite | app/services/insulin_applications/update.rb:82-93 | definition: the table with the row of that id replaced; specified through `UpdateInsulinApplication.Call` and `UpdateInsulinApplication.ReadAfterUpdate` |
| UpdateInsulinApplication.Call | app/services/insulin_applications/update.rb:25-34 | on error nothing changes; on success only that row is overwritten, with the params' fields and `user_id` = `responsible_id`, keeping its id |
| UpdateInsulinApplication.OverwriteKeepsConsistent | app/services/insulin_applications/update.rb:82-93 | overwriting a row with one of the same id whose pet and user exist keeps the tables consistent and every other row |
| UpdateInsulinApplication.ReadAfterUpdate | app/services/insulin_applications/update.rb:104-112 | reading the record back after the update returns the updated record |
| UpdateInsulinApplication.UpdateKeepsIdentity | app/services/insulin_applications/update.rb:104-112 | the update keeps the record's id and pet |
| DeleteInsulinApplication.Authorize | app/services/insulin_applications/delete.rb:53-77 | NotFound for an unknown id, then Unauthorized without a role on the record's pet; the pet's existence is not checked |
| DeleteInsulinApplication.Referenced | db/migrate/20240319020535_create_sent_notifications.rb:6 | definition: a ledger row names the application as its last dose; specified through `DeleteInsulinApplication.Call` |
| DeleteInsulinApplication.Call | app/services/insulin_applications/delete.rb:25-34 | on error, or when a ledger row references the record, nothing changes; otherwise exactly that record leaves, the count drops by one and all other records stay |
| DeleteInsulinApplication.RemoveAt | app/services/insulin_applications/delete.rb:82-86 | with unique ids, cutting out one position removes exactly the rows with that id |
| DeleteInsulinApplication.RemoveKeepsConsistent | db/migrate/20240319020535_create_sent_notifications.rb:6 | removing an application no ledger row names keeps every foreign key intact |
| DeleteInsulinApplication.LoggedApplicationCannotBeDeleted | db/migrate/20240319020535_create_sent_notifications.rb:6 | after the job logged a dose, the ledger references that application, so `DeleteInsulinApplication.Call` answers InvalidForeignKey and changes nothing |
| RegisterInsulin.ValidateUserExistence | app/services/pets/register_insulin.rb:89-96 | passes iff the user exists; otherwise NotFound 'User not found' |
| RegisterInsulin.Validate | app/services/pets/register_insulin.rb:27-30 | responsible user, pet, caller permission, responsible permission, in that order; passes iff all hold |
| RegisterInsulin.NewApplication | app/services/pets/register_insulin.rb:155-164 | definition: the record built from the params, with `user_id` = `responsible_id`; specified through `RegisterInsulin.Call` |
| RegisterInsulin.Title | app/services/pets/register_insulin.rb:146 | definition: the title "<pet name>: Insulina registrada!" |
| RegisterInsulin.Body | app/services/pets/register_insulin.rb:147 | definition: the body "<first name> acabou de registrar uma aplicação de insulina" |
| RegisterInsulin.OwnersBatch | app/services/pets/register_insulin.rb:128-147 | a batch iff the owners hold a token; one attempt per owner token, in collection order, each titled "<pet name>: Insulina registrada!" with the body "<responsible's first name> acabou de registrar uma aplicação de insulina"; its counts add up to the number of tokens |
| RegisterInsulin.OwnersBatchIgnoresApplications | app/services/pets/register_insulin.rb:119-138 | the batch does not depend on the applications table |
| RegisterInsulin.NotifyPetOwners | app/services/pets/register_insulin.rb:48-59 | sends exactly the owners' batch |
| RegisterInsulin.Call | app/services/pets/register_insulin.rb:23-40 | a failed check changes nothing; otherwise exactly one application with the params and `user_id` = `responsible_id` is appended under the next id, then the batch is sent |
| RegisterInsulin.CallerPermissionIsRequired | app/services/pets/register_insulin.rb:29 | a caller without a role is refused even when the responsible user has one |
| CreatePet.ValidateName | app/services/pets/create.rb:50-58 | accepted iff present with 2 to 50 characters; NAME_REQUIRED, SHORT_NAME, BIG_NAME otherwise |
| CreatePet.ValidateSpecies | app/services/pets/create.rb:62-71 | accepted iff DOG or CAT; SPECIES_REQUIRED, INVALID_SPECIES otherwise |
| CreatePet.ValidateBirthdate | app/services/pets/create.rb:75-103 | accepted iff present, parseable and not after today, checked in that order with their codes |
| CreatePet.ValidateInsulinFrequency | app/services/pets/create.rb:107-111 | accepted iff an integer from 1 to 24; presence, type, negative, zero and too-big codes otherwise |
| CreatePet.ValidateParams | app/services/pets/create.rb:37-46 | name, species, birthdate, frequency in order; the first failure is raised, always a BadRequest |
| CreatePet.ValidateParamsAsWritten | app/errors/exceptions/bad_request_error.rb:7-8 | as written: passes exactly when the intended checks pass; any refusal escapes as ArgumentError, not as an AppError |
| CreatePet.NewPet | app/services/pets/create.rb:115-128 | definition: the pet built from accepted params under the next id; specified through `CreatePet.AcceptedParamsGiveValidPet` and `CreatePet.Call` |
| CreatePet.Call | app/services/pets/create.rb:22-31 | a failed check, or a blank name the model refuses (RecordInvalid), inserts nothing; otherwise the pet is inserted under the next id, then the OWNER row; a missing caller leaves the pet stored without an owner |
| CreatePet.AcceptedParamsGiveValidPet | app/models/pet.rb:14-18 | accepted params give a pet the model accepts iff the name is not blank, with a frequency from 1 to 24 and a birthdate not after today |
| CreatePet.ModelAllowsLongerFrequencies | app/models/pet.rb:18 | for any non-blank name and species in SPECIES, the model accepts every frequency over 24 hours, which the service refuses |
| CreatePet.BlankNamePassesTheServiceCheck | app/services/pets/create.rb:51-57 | a name of two spaces passes the service's check and is blank for the model |
| CreatePet.MissingNameRaisesArgumentError | app/services/pets/create.rb:51 | a request without a name is meant to get NAME_REQUIRED; as written it raises ArgumentError, whatever the other params |
| FindAllByUser.ValidateUserExistence | app/services/pets/find_all_by_user.rb:49-56 | passes iff the user exists; otherwise InternalServerError 'User not found' |
| FindAllByUser.PetIds | app/services/pets/find_all_by_user.rb:35-38 | the ids plucked are exactly the pets of the user's ownership rows |
| FindAllByUser.OwnersOf | app/services/pets/find_all_by_user.rb:24 | a pet's owners are exactly the users with an ownership row on it |
| FindAllByUser.PetsWithIds | app/services/pets/find_all_by_user.rb:24 | exactly the stored pets whose id is listed, each with all its owners |
| FindAllByUser.Call | app/services/pets/find_all_by_user.rb:19-28 | an unknown user is an internal error; otherwise exactly the pets the user holds a role on, each carrying every owner |
| FindAllByUser.NoOwnershipGivesEmptyList | app/services/pets/find_all_by_user.rb:35-38 | a user with no ownership row gets an empty list |
| FindAllByUser.OtherUsersPetsNotListed | app/services/pets/find_all_by_user.rb:35-38 | a pet only others hold a role on is not listed |
| FindAllByUser.CaretakerPetsAreListed | app/services/pets/find_all_by_user.rb:24 | a pet held as CARETAKER is listed with all its owners |
| CreatePushToken.FindToken | app/services/users/create_push_token.rb:63 | the lookup finds a row iff one holds the (user, token) pair, and what it finds holds it |
| CreatePushToken.FindOrCreate | app/services/users/create_push_token.rb:57-82 | an existing row is returned with the table unchanged; otherwise a new row with the pair is appended under the next id |
| CreatePushToken.Call | app/services/users/create_push_token.rb:25-51 | an unknown user is RecordNotFound with nothing inserted; otherwise find-or-create on (user, token) |
| CreatePushToken.FindTokenAppend | app/services/users/create_push_token.rb:63 | after an append the earlier rows still win the lookup |
| CreatePushToken.FindOrCreateIsIdempotent | app/services/users/create_push_token.rb:63 | a second identical call returns the same row and changes nothing |
| CreatePushToken.TwoCallsLeaveOneRow | app/services/users/create_push_token.rb:63 | starting without the pair, two identical calls leave exactly one matching row |
| CreatePushToken.CountPairCountsFound | app/services/users/create_push_token.rb:63 | a row the lookup finds is counted |
| SignUp.ValidateEmail | app/services/auth/sign_up.rb:62-84 | blank gives EMAIL_REQUIRED, a pattern mismatch INVALID_EMAIL, a registered email EMAIL_TAKEN; passes iff none applies |
| SignUp.ValidatePassword | app/services/auth/sign_up.rb:102-112 | passes iff at least 6 characters, otherwise SHORT_PASSWORD |
| SignUp.ValidatePersonName | app/services/auth/sign_up.rb:121-130 | blank gives the required code, under 2 characters the short code; passes iff neither applies |
| SignUp.ValidateNames | app/services/auth/sign_up.rb:117-145 | passes iff both names pass; a first-name failure raises FIRST_NAME_REQUIRED or FIRST_NAME_SHORT, and once the first name passes the last name's check (LAST_NAME_REQUIRED, LAST_NAME_SHORT) decides |
| SignUp.Validate | app/services/auth/sign_up.rb:26-33 | email, password, names in order; the first failure is raised, always UnprocessableEntity |
| SignUp.ValidateAsWritten | app/errors/exceptions/unprocessable_entity_error.rb:7-8 | as written: passes exactly when the intended checks pass; any refusal escapes as ArgumentError, not as an AppError |
| SignUp.NewUser | app/services/auth/sign_up.rb:93 | definition: the row `User.create(user_params)` stores, with the email and both names as given (lines 150-157) under the next id; specified through `SignUp.Register` and `SignUp.RegisteredUserIsStored` |
| SignUp.ModelAccepts | app/models/user.rb:11-17 | definition: both names present, the email present and unused, the password present and at most 72 characters; specified through `SignUp.ModelRefusesOnlyPasswords` |
| SignUp.CallAsWritten | app/services/auth/sign_up.rb:89-97 | as written: a failed check raises ArgumentError and stores nothing; after the checks the service always answers Ok; when the User model refuses the user the table is unchanged and the answer has no id; when it accepts, the result equals `SignUp.Register` |
| SignUp.Register | app/services/auth/sign_up.rb:89-97 | intended: a failed check or a refusing model stores nothing and raises; success appends exactly one user with the given email and names |
| SignUp.Call | app/services/auth/sign_up.rb:22-55 | the database after sign-up is the intended `Register`, and the id sequence advances only on success |
| SignUp.ModelRefusesOnlyPasswords | app/models/user.rb:11-17 | after the service's checks the model refuses exactly a blank password or one over 72 characters |
| SignUp.RegisteredUserIsStored | app/services/auth/sign_up.rb:93 | intended: every answered registration names a stored user, and the same email then gives EMAIL_TAKEN |
| SignUp.AsWrittenAgreesWhenModelAccepts | app/services/auth/sign_up.rb:93 | where the model accepts the user, as written and intended store the same rows; they answer alike when the checks pass, and only the raised error differs when a check refuses |
| SignUp.AsWrittenAnswersWithoutStoring | app/services/auth/sign_up.rb:93 | a six-space password passes the length check; as written the service then answers with a registration and stores nothing |
| SignUp.MissingEmailRaisesArgumentError | app/services/auth/sign_up.rb:66-69 | a missing email is meant to get EMAIL_REQUIRED; as written it raises ArgumentError; nothing is stored either way |
| Authorize.Fields | app/services/auth/authorize.rb:17 | splitting on the separator gives at least one field; the first field is a prefix; no field contains the separator |
| Authorize.PrependKeepsSeparatorOut | app/services/auth/authorize.rb:17 | growing a field by one leading character that does not start a separator keeps it separator-free |
| Authorize.DropTrailingEmpty | app/services/auth/authorize.rb:17 | Ruby's `split` drops exactly the trailing empty fields |
| Authorize.ExtractToken | app/services/auth/authorize.rb:13-25 | no header gives no token; a token is never empty and never contains "Bearer " |
| Authorize.Call | app/services/auth/authorize.rb:31-69 | a missing or blank token is InvalidToken before decoding; otherwise the decoder's answer on the token, unchanged |
| Authorize.JoinFields | app/services/auth/authorize.rb:17 | joining the fields with the separator gives the header back |
| Authorize.FieldsWithoutSeparator | app/services/auth/authorize.rb:17 | a string without the separator is one field |
| Authorize.BearerHeaderGivesToken | app/services/auth/authorize.rb:17 | "Bearer " + t yields t, for t non-empty and without "Bearer " |
| Authorize.UnprefixedHeaderIsTakenWhole | app/services/auth/authorize.rb:17 | a header without the prefix is taken whole as the token |
| Authorize.MissingTokenIsInvalid | app/services/auth/authorize.rb:17-66 | no header, an empty header and a bare "Bearer " are all InvalidToken |
| PetRecord.PetsExcept | app/models/pet.rb:8-10 | removing a pet keeps exactly the other pets and their unique ids |
| PetRecord.OwnershipsNotOf | app/models/pet.rb:8-9 | `dependent: :destroy` on pet_owners removes exactly the pet's ownership rows |
| PetRecord.ApplicationsNotOf | app/models/pet.rb:10 | `dependent: :destroy` on insulin_applications removes exactly the pet's applications |
| PetRecord.Blocked | db/migrate/20240319020535_create_sent_notifications.rb:4-6 | definition: a ledger row names the pet, or one of its applications as last dose; specified through `PetRecord.DestroyPet` and `PetRecord.NotifiedPetCannotBeDestroyed` |
| PetRecord.DestroyPet | app/models/pet.rb:8-10 | refused when a ledger row names the pet or one of its applications; otherwise the pet, its ownership rows and its applications go, and every other row stays |
| PetRecord.DestroyKeepsConsistent | db/migrate/20240319020535_create_sent_notifications.rb:4-6 | a destroy that goes through leaves every foreign key intact |
| PetRecord.NotifiedPetCannotBeDestroyed | db/migrate/20240319020535_create_sent_notifications.rb:4 | once the job logged a reminder for a pet, destroying the pet is refused |
| PetRecord.DestroyIsIdempotent | app/models/pet.rb:8-10 | destroying the same pet again removes nothing more |
| PetRecord.FiltersAreIdle | app/models/pet.rb:8-10 | filtering a pet's rows out of tables that hold none changes nothing |

## Left out

- The push service (FCM, `send_v1`) is the `Transport` oracle. Its credentials and project id, read from the environment, are not modelled.
- JWT encoding and decoding are not modelled. `Authorize.Call` takes the decoder as a function. The token that sign-up issues is not modelled; the registration carries the user id it would be issued for.
- Several services are not modelled: Login, CurrentUser, the AuthHelpers token generation and the password hashing behind `has_secure_password`. They are thin wrappers over libraries or plain lookups.
- The environment helpers and the date helpers are abstract.
  - `Date.parse`, "today" and the day numbering are the `Calendar` parameter of `CreatePet`.
  - The email pattern `URI::MailTo::EMAIL_REGEXP` is the `emailFormat` parameter of `SignUp`.
- Elapsed time is compared in whole seconds, against `60*(frequency*60 - lead)` and `3600*frequency`. This is exact for the SQL's fractional minutes, but sub-second timestamps are not modelled.
- Concurrency is not modelled: two overlapping reminder runs, or two sign-ups racing past `User.exists?`. The model runs one call at a time.
- The ledger has no unique constraint; the model appends exactly as the code does.
- Timestamps and range bounds are integers. Rails' Date/DateTime coercion in the date filter is not modelled.
- The order among applications with equal times depends on the database. `FindAllInsulinApplications.OrderByTimeDesc` promises only a non-increasing permutation. `Dashboard.LastInsulinApplication` returns one application of maximal time, not a particular one.
- Error classes are one `Error` datatype. Messages and HTTP statuses are not modelled beyond the messages the services pass. How a detailed code fails to reach the error is under "## Findings".
- The API's AppError handler (app/api/base.rb:9-11) reads `e.code`, but AppError (app/errors/exceptions/app_error.rb:5) defines readers only for `status` and `message`, so the handler itself raises NoMethodError. The model stops at the error a service raises and does not model the HTTP response.
- Logging, the SimpleCommand wrapper, the Grape APIs and their entities, seeds, factories and the stale `db/schema.rb` are not modelled.
- The InsulinAlarm and InsulinAlarmResponsible models and the legacy PetOwners model are not modelled; no service uses them.
- `blank?` is modelled as empty or made of ASCII white space. Ruby also counts other Unicode spaces as blank.
- SignUp.Call: the password limit of `has_secure_password` is modelled as 72 characters. Rails counts 72 bytes, so multi-byte passwords are not modelled exactly.
- Column limits (100 and 300 characters for the names) and database NOT NULL constraints are not modelled.
- A nil password at sign-up raises NoMethodError in `validate_password` (app/services/auth/sign_up.rb:106); the model takes the password as a string.
- The API declares the token and the insulin fields required (app/api/users/users_api.rb:10, app/api/pets/pets_api.rb:42-45), so the model takes them as present. A direct service call with nil would store NULL, since those columns are nullable; the model does not represent NULL there, except for the glucose level and the observations.
- The GetFilters branch that raises InternalServerError when the aggregate row is missing (app/services/insulin_applications/get_filters.rb:62-65) cannot be reached after the existence check, so it is not modelled.
- `NotifyInsulins.Call` loads the pets with `select(:id, :name)`. The model reads the whole row, which the job uses only for the id and the name.
- A negative `minutes_until_next_insulin` is used as given (app/services/pets/find_by_next_insulin_time.rb:98-100), and the model does the same.
- `log_notifications` appends one ledger row per selected row without looking for an existing one (app/services/pets/notify_insulins.rb:119-125), and the model does the same.

## Findings

| source | as written | input that shows it | evidently intended | confidence | as-written member | corrected member |
|---|---|---|---|---|---|---|
| app/services/auth/sign_up.rb:89-97 | `create_user` calls `User.create`, which does not raise. A user the User model refuses is not stored, yet `call` issues a token and answers with that unsaved user, whose id is nil. | Email "ann@example.com", names "Ann" and "Lee", password of six spaces. It passes `validate_password` (length 6), but `validates :password, presence: true` (app/models/user.rb:15) refuses it. | The refusal is raised (`User.create!`, RecordInvalid), and every answered sign-up has a stored user. | not executed; high | SignUp.CallAsWritten, SignUp.AsWrittenAnswersWithoutStoring | SignUp.Register, SignUp.RegisteredUserIsStored |
| app/errors/exceptions/bad_request_error.rb:7-8 | Every check of `Pets::Create` raises `BadRequestError.new(msg, detailed_code: ...)`. BadRequestError passes `detailed_code:` on to `AppError#initialize(code, message, status = 500)` (app/errors/exceptions/app_error.rb:7), which takes no keyword. So building the error raises ArgumentError (4 arguments given, 2 to 3 expected), which is not an AppError, and `rescue_from Exceptions::AppError` (app/api/base.rb:9) does not catch it. | Any refused request, e.g. one without a name. | Each refusal raises BadRequestError with its detailed code (NAME_REQUIRED, ...), answered as a 400. | not executed; high | CreatePet.ValidateParamsAsWritten, CreatePet.MissingNameRaisesArgumentError | CreatePet.ValidateParams, CreatePet.Call |
| app/errors/exceptions/unprocessable_entity_error.rb:7-8 | Every check of `Auth::SignUp` raises `UnprocessableEntityError.new(msg, detailed_code: ...)`, which fails the same way with ArgumentError. `call` re-raises it (app/services/auth/sign_up.rb:51-54), and AppError has no `detailed_code` reader either. | A sign-up without an email. | Each refusal raises UnprocessableEntityError with its detailed code (EMAIL_REQUIRED, ...), answered as a 422. | not executed; high | SignUp.ValidateAsWritten, SignUp.MissingEmailRaisesArgumentError, SignUp.CallAsWritten | SignUp.Validate, SignUp.Register |
