# User CRUD service — a Dafny model

This project models the core of a small Spring Boot CRUD service for a single
`User` resource:

- the **user service** (`UserService`): list, read, create, update and delete
  against a relational record store; the classification of the store's
  failures into `UserNotFound`, `UserNotCreated`, `UserNotUpdated`,
  `UserNotDeleted` or a passed-through storage failure; and the lifecycle
  events (`CREATED`, `DELETED`) sent to a message topic after a successful
  create or delete;
- the **exception handler** (`UserExceptionHandler`) that turns each exception
  into an error response with a status and a message that never reveals a
  storage failure's own text;
- the **error body** (`UserErrorResponse`) and the rendering of validation
  errors as `field - message` parts joined by `"; "`;
- the **request constraints** of `UserDTO` (name 2..30 UTF-16 code units and not empty, email not
  empty and well formed, age 0..150) as an explicit validator;
- the **controller** (`UserController`) that refuses an invalid request without
  calling the service and otherwise delegates, answering 201, 200, or 200 with a
  fixed confirmation text;
- the **`User` entity** and the rules its table keeps: identity ids, a unique
  email column, non-null name and email, a creation timestamp written once.

Modules, one per source component:

| module | file | models |
|---|---|---|
| `Wrappers` | `wrappers.dfy` | optional values (`null`, `Optional`) |
| `Clock` | `clock.dfy` | the clock value (`Timestamp`) |
| `Text` | `text.dfy` | decimal rendering of an integer, `Collectors.joining`, and their inverses |
| `Failures` | `failures.dfy` | the exception kinds; `Result` = value or thrown exception |
| `Http` | `http.dfy` | `HttpStatus`, `ResponseEntity` |
| `ErrorResponses` | `error_response.dfy` | `UserErrorResponse`, `getErrorMessage` |
| `ExceptionHandling` | `exception_handler.dfy` | `UserExceptionHandler` |
| `Users` | `user_entity.dfy` | `User`, the table rules, the store's `findAll`/`save` semantics |
| `Validation` | `user_dto.dfy` | `UserDTO` and its constraints |
| `Service` | `user_service.dfy` | `UserService` as a class over the store and the event log |
| `Controller` | `user_controller.dfy` | `UserController` as a class over the service |
| `Scenarios` | `scenarios.dfy` | client methods that drive the model the way the repository's tests do |

The record store is a `map<int, User>` from id to row plus the next identity
value; the event topic is an append-only `seq<UserEvent>`. A failure the store
raises for reasons outside the model (a lost connection, a driver error) is a
parameter of each operation: `readFault`, `saveFault` or `deleteFault` is
`Some(e)` when that repository call throws `e`. The store's own uniqueness
constraint is modelled: saving a row whose email another row holds raises a
`DataIntegrityViolation`, which is a kind of `DataAccessException` as in
Spring. The clock (`LocalDateTime.now()`, `@CreationTimestamp`) is a
`now: Timestamp` parameter, and the `@Email` syntax rule is a parameter
`emailOk: string -> bool`.

In these places the model follows the code:

- An update to an email another user already holds fails in the store with
  an integrity violation. `updateUser` rethrows every `DataAccessException`,
  so the client gets 500 with the generic storage message, not 400
  (`Scenarios.UpdateToTakenEmail`).
- Validation failures are not a separate kind. The controller throws
  `UserNotCreated`/`UserNotUpdated` carrying the joined field errors, and the
  handler answers those with 400.
- The age range 0..150 and the name length are constraints on the request
  DTO only. The `User` entity keeps any age, or none (`age` may be null).
- The event is sent inside the same service call, right after the store
  write. A failure before that point sends no event.
- The handler in `hometask4/util` and the service in `user/service/core`
  import the exception classes from two different packages. The model treats
  them as one set of exception kinds, which is what the end-to-end tests
  expect.

## Model

| member | source | states |
|---|---|---|
| `ErrorResponses.NewUserErrorResponse` | src/main/java/ru/aston/hometask4/util/UserErrorResponse.java:19-23 | the body carries the given message and status unchanged, stamped with the current time |
| `ErrorResponses.GetErrorMessage` | src/main/java/ru/aston/hometask4/util/UserErrorResponse.java:25-29 | no field errors give the empty string; one error gives exactly `field - message`, with no separator |
| `ErrorResponses.ErrorMessageSplitsIntoErrors` | src/main/java/ru/aston/hometask4/util/UserErrorResponse.java:25-29 | for n >= 1 errors whose rendering holds no `"; "`, cutting the message at `"; "` gives back each `field - message` part, in the order given |
| `ErrorResponses.ErrorMessageSeparatorCount` | src/main/java/ru/aston/hometask4/util/UserErrorResponse.java:26-28 | such a message contains exactly n - 1 separators |
| `Text.SplitJoin` | src/main/java/ru/aston/hometask4/util/UserErrorResponse.java:28 | joining with `"; "` and splitting at `"; "` are inverse when no part contains the separator |
| `Text.JoinSeparatorCount` | src/main/java/ru/aston/hometask4/util/UserErrorResponse.java:28 | joining n >= 1 separator-free parts writes n - 1 separators |
| `ExceptionHandling.BuildResponse` | src/main/java/ru/aston/hometask4/util/UserExceptionHandler.java:58-62 | the response's status and its body's status are the same; the message is unchanged |
| `ExceptionHandling.Handle` | src/main/java/ru/aston/hometask4/util/UserExceptionHandler.java:15-56 | `UserNotFound` gives 404 and the other three `UserNot*` give 400, in both cases exactly those; 4xx bodies carry the exception's message; a storage failure gives 500 with "A server error occurred. Please try again later."; anything else gives 500 with "Internal server error" |
| `ExceptionHandling.ServerErrorsIgnoreMessage` | src/main/java/ru/aston/hometask4/util/UserExceptionHandler.java:43-56 | a 500 response is the same whatever the exception's message, so no internal text reaches the client |
| `Users.Overwrite` | src/main/java/ru/aston/user/service/core/UserService.java:66-69 | an update sets name, email and age to the requested values and keeps id and creation time |
| `Users.InsertKeepsInvariant` | src/main/java/ru/aston/hometask4/entity/User.java:17-39 | a row inserted under the next identity value with a free email keeps ids distinct and emails unique |
| `Users.OverwriteKeepsInvariant` | src/main/java/ru/aston/hometask4/entity/User.java:17-30 | overwriting a row with an email no other row holds keeps emails unique |
| `Users.IdsBetween` | src/main/java/ru/aston/user/service/core/UserService.java:38-39 | the scan of the identity range yields exactly the stored ids in it, strictly ascending |
| `Users.ListAll` | src/main/java/ru/aston/user/service/core/UserService.java:38-39 | `findAll` lists every stored row, each as stored, by strictly ascending id (so once each) |
| `Validation.NameErrors` | src/main/java/ru/aston/user/dto/UserDTO.java:16-19 | "Name could not be empty" exactly when the name is missing or empty; "Name should be between 2 and 30 chars" exactly when a present name's length, counted in UTF-16 code units as `String.length()` counts it, is outside 2..30; no error exactly when that length is in 2..30 |
| `Validation.NameSizeInCodeUnits` | src/main/java/ru/aston/user/dto/UserDTO.java:18 | a single character outside the Basic Multilingual Plane is a name of size 2 and passes; sixteen of them (32 units) are too long |
| `Validation.ValidationErrorsSeparatorFree` | src/main/java/ru/aston/user/dto/UserDTO.java:16-29 | no field error the validator produces renders with `"; "` in it, so every rejection message cuts back into its errors |
| `Text.Utf16Length` | src/main/java/ru/aston/user/dto/UserDTO.java:18 | the UTF-16 length is between the character count and twice it, zero only for the empty string, equal to the count when every character is in the Basic Multilingual Plane and twice it when none is |
| `Validation.EmailErrors` | src/main/java/ru/aston/user/dto/UserDTO.java:21-24 | "Email should not be empty" exactly when the email is missing or empty; "Email should be valid" exactly when a non-empty email fails the syntax rule |
| `Validation.AgeErrors` | src/main/java/ru/aston/user/dto/UserDTO.java:26-29 | "Age should be more than 0" exactly when the age is below 0; "Age should be less than 150" exactly when it is above 150; every age in 0..150, and a missing age, passes |
| `Validation.Validate` | src/main/java/ru/aston/user/dto/UserDTO.java:12-30 | no errors exactly when the request satisfies every constraint; errors are only ever about name, email or age, never `id` |
| `Text.IntToStringRoundTrip` | src/main/java/ru/aston/user/service/core/UserService.java:45 | the decimal rendering of the id can be read back to the same integer |
| `Service.NotFoundMessageInjective` | src/main/java/ru/aston/user/service/core/UserService.java:42-46 | different ids get different not-found messages |
| `Service.ClassifyCreateFailure` | src/main/java/ru/aston/user/service/core/UserService.java:54-60 | an integrity or constraint violation becomes `UserNotCreated("User with this email <email> already exists")` and is never passed through; any other storage failure is rethrown unchanged; anything else becomes `UserNotCreated(<its message>)` |
| `Service.ClassifyUpdateFailure` | src/main/java/ru/aston/user/service/core/UserService.java:71-75 | `UserNotFound` and storage failures pass through unchanged; anything else becomes `UserNotUpdated(<its message>)` |
| `Service.ClassifyDeleteFailure` | src/main/java/ru/aston/user/service/core/UserService.java:84-88 | `UserNotFound` and storage failures pass through unchanged; anything else becomes `UserNotDeleted(<its message>)` |
| `Service.CreateFailureResponse` | src/main/java/ru/aston/user/service/core/UserService.java:54-60 | a failed create reaches the client as 400, or as 500 for a storage outage; a duplicate email is reported with the email sent |
| `Service.UpdateFailureResponse` | src/main/java/ru/aston/user/service/core/UserService.java:71-75 | a failed update reaches the client as 404 for a missing user, 500 for any storage failure (a duplicate email included), 400 otherwise |
| `Service.DeleteFailureResponse` | src/main/java/ru/aston/user/service/core/UserService.java:84-88 | a failed delete reaches the client as 404, 500 or 400 by the same rule |
| `Service.UserService.SaveNew` | src/main/java/ru/aston/user/service/core/UserService.java:51 | `save` of a new user: the injected fault, or an integrity violation when the email is taken, or a row under a fresh id with the creation time; the table rules are kept |
| `Service.UserService.SaveExisting` | src/main/java/ru/aston/user/service/core/UserService.java:70 | `save` of an existing user: the injected fault, or an integrity violation when another row holds the email, or the row replaced; the table rules are kept |
| `Service.UserService.Remove` | src/main/java/ru/aston/user/service/core/UserService.java:82 | `delete`: the injected fault with the table unchanged, or the row removed |
| `Service.UserService.GetAllUsers` | src/main/java/ru/aston/user/service/core/UserService.java:37-40 | every stored user once, by ascending id; a storage failure propagates unchanged |
| `Service.UserService.GetUserById` | src/main/java/ru/aston/user/service/core/UserService.java:42-46 | the stored user when the id is present, otherwise `UserNotFound("User with ID <id> not found")` |
| `Service.UserService.CreateUser` | src/main/java/ru/aston/user/service/core/UserService.java:48-61 | succeeds exactly when the store accepts the row. The user is then stored under a fresh id and exactly one `CREATED` event for its email is appended. On failure the table and the events are unchanged and the error is the classified one |
| `Service.UserService.UpdateUser` | src/main/java/ru/aston/user/service/core/UserService.java:63-76 | a missing id gives `UserNotFound`, never `UserNotUpdated`, and nothing is saved. On success only that row changes, in name, email and age. Store failures are classified. No event is sent and the table rules are kept |
| `Service.UserService.DeleteUser` | src/main/java/ru/aston/user/service/core/UserService.java:78-89 | a missing id gives `UserNotFound` and nothing is removed. On success the row is gone and exactly one `DELETED` event for its email is appended. A failed removal sends no event |
| `Controller.ToDTO` | src/main/java/ru/aston/user/controller/UserController.java:87-89 | the DTO carries the user's id, name, email and age |
| `Controller.ToCandidate` | src/main/java/ru/aston/user/controller/UserController.java:83-85 | the user to save carries the request's name, email and age |
| `Controller.ToDTOs` | src/main/java/ru/aston/user/controller/UserController.java:41-43 | one DTO per user, same length, same order |
| `Controller.DTORoundTrip` | src/main/java/ru/aston/user/controller/UserController.java:83-89 | copying a user to a DTO and back keeps name, email and age |
| `Controller.ValidRequestConverts` | src/main/java/ru/aston/user/controller/UserController.java:54-58 | a request with no validation errors has a name of 2..30 UTF-16 code units and a non-empty email, so it converts |
| `Controller.UserController.GetAllUsers` | src/main/java/ru/aston/user/controller/UserController.java:39-44 | one DTO per stored user, as stored, by ascending id |
| `Controller.UserController.GetUserById` | src/main/java/ru/aston/user/controller/UserController.java:46-49 | the stored user as a DTO, or `UserNotFound` naming the id |
| `Controller.UserController.CreateUser` | src/main/java/ru/aston/user/controller/UserController.java:51-61 | with validation errors: `UserNotCreated(getErrorMessage(errors))` and the service untouched. Otherwise one service create. On success: 201 with the saved user's fields; the table gains exactly that row, under the next id and stamped with the current time; the id counter advances by one; one `CREATED` event. Otherwise the classified save failure, or "already exists" for a taken email, with table, counter and events unchanged |
| `Controller.UserController.UpdateUser` | src/main/java/ru/aston/user/controller/UserController.java:63-74 | with validation errors: `UserNotUpdated(getErrorMessage(errors))` and the service untouched. Otherwise one service update of the path id. On success: 200 with the updated user, and only that row changed. Otherwise one of: `UserNotFound` for a missing id; the classified read or save failure; the integrity violation for an email another user holds. In those cases the table is unchanged. Counter and events never change |
| `Controller.UserController.Delete` | src/main/java/ru/aston/user/controller/UserController.java:76-81 | one service delete. On success: 200 with "User deleted successfully", the row removed and one `DELETED` event. Otherwise one of: `UserNotFound` for a missing id; the classified read or delete failure. In those cases table and events are unchanged. The counter never changes |
| `Scenarios.RejectInvalidUser` | src/test/java/ru/aston/hometask4/UserServiceAppTest.java:64-77 | name "Katya", a valid email and age -5 are refused with 400 and exactly "age - Age should be more than 0" |
| `Scenarios.RejectExistingUser` | src/test/java/ru/aston/hometask4/UserServiceAppTest.java:202-222 | a second create with the same email gets 400 "User with this email email@mail.ru already exists"; the returned set is exactly the ids of the service's stored users holding that email, and it has one element |
| `Scenarios.NotFoundMessage9999` | src/test/java/ru/aston/hometask4/UserServiceAppTest.java:169-176 | the not-found message for id 9999 is exactly "User with ID 9999 not found" |
| `Scenarios.NotFoundForMissingUser` | src/test/java/ru/aston/hometask4/UserServiceAppTest.java:168-200 | read, update and delete of id 9999 on an empty table all answer 404 "User with ID 9999 not found" |
| `Scenarios.DatabaseErrorOnCreate` | src/test/java/ru/aston/hometask4/DatabaseErrorTest.java:36-49 | a storage outage on create reaches the client as 500 with the fixed storage message, whatever the internal text |
| `Scenarios.DatabaseErrorOnUpdate` | src/test/java/ru/aston/hometask4/DatabaseErrorTest.java:51-67 | a storage failure while saving an update of an existing user reaches the client as 500 with the fixed storage message |
| `Scenarios.DatabaseErrorOnDelete` | src/test/java/ru/aston/hometask4/DatabaseErrorTest.java:69-84 | a storage failure while deleting an existing user reaches the client as 500 with the fixed storage message |
| `Scenarios.CreateThenGet` | src/test/java/ru/aston/hometask4/UserServiceAppTest.java:79-99 | reading back a created user by its id gives the same user, with the sent name, email and age and the creation time; one `CREATED` event |
| `Scenarios.CreateThenDelete` | src/test/java/ru/aston/user/service/messaging/UserServiceKafkaIntegrationTest.java:69-87 | after create then delete, reading the id gives `UserNotFound`, and the topic received `CREATED` then `DELETED` for the email |
| `Scenarios.UpdateToTakenEmail` | src/main/java/ru/aston/user/service/core/UserService.java:70-72 | updating to an email another user holds is a storage failure passed through: 500 with the fixed storage message, and no row changes |

## Left out

- Publishing to the topic (`UserEventProducer.sendEvent`) is an append to the `events` log and never fails. A publish failure after a successful write is not modelled. Neither is the transaction rollback it would cause.
- JPA, Hibernate and the database are replaced by the map and the identity counter. A failed insert does not use up an identity value in the model.
- Spring transactions and the `@Lazy` self-injection: `getUserById` is a direct call, and each operation is atomic (a failure leaves the table unchanged).
- Timestamps are opaque integers supplied by the caller; the clock is not modelled.
- The `@Email` syntax rule is the parameter `emailOk`. Like Hibernate's validator, the model applies it only to non-empty emails.
- Bean Validation reports violations in no specified order. The model fixes the order name, email, age, each field in the order its annotations are declared.
- `findAll` has no specified order in the store. The model lists rows by ascending id, which for identity ids is insertion order.
- A client-supplied `id` in the request body is dropped when converting to a user. In the source, `ModelMapper` copies it, and `save` of an entity with an id becomes a merge.
- Null messages (`getMessage()` returning null), a null id passed to `getUserById`, and a null name or email passed to the service directly are not modelled. Through the controller, validation already rules out a null name or email.
- A `ConstraintViolationException` and any other exception thrown by a repository call exist only as injected faults.
- 32-bit `Integer` limits on ids and ages are not modelled; both are unbounded integers.
- Request binding errors (such as a non-numeric age), HTTP routing, JSON serialisation and logging are not modelled.
- The line-for-line duplicate controller in `hometask4/controller/UserController.java`, the application bootstrap in `UserServiceApp.java` and the `ModelMapper` bean are left out; conversions are explicit field copies.
- Concurrent requests are not modelled; the store's uniqueness constraint is the only cross-request rule, and a sequential model keeps it as a table invariant.
