/** `UserController` (package `ru.aston.user.controller`): the REST entry
    points. Spring validates the request body against the `UserDTO`
    constraints before the handler runs; the handler turns validation errors
    into `UserNotCreated`/`UserNotUpdated` without calling the service, and
    otherwise delegates. The reflective `ModelMapper` copies are explicit
    field copies here. */
module Controller {
  import opened Wrappers
  import opened Text
  import opened Failures
  import opened Http
  import opened Clock
  import opened ErrorResponses
  import opened Users
  import opened Validation
  import opened Service

  const DeletedMessage: string := "User deleted successfully"

  /** `convertToUserDTO`: the four fields a client sees. */
  function ToDTO(u: User): (d: UserDTO)
    ensures d.id == Some(u.id) && d.name == Some(u.name) && d.email == Some(u.email) && d.age == u.age
  {
    UserDTO(Some(u.id), Some(u.name), Some(u.email), u.age)
  }

  /** `convertToUser` for a request that passed validation. */
  function ToCandidate(d: UserDTO): (c: Candidate)
    requires d.name.Some? && d.email.Some?
    ensures Some(c.name) == d.name && Some(c.email) == d.email && c.age == d.age
  {
    Candidate(d.name.value, d.email.value, d.age)
  }

  /** The list mapping of `getAllUsers`: one DTO per user, same order. */
  function ToDTOs(users: seq<User>): (r: seq<UserDTO>)
    ensures |r| == |users|
    ensures forall i :: 0 <= i < |users| ==> r[i] == ToDTO(users[i])
  {
    seq(|users|, i requires 0 <= i < |users| => ToDTO(users[i]))
  }

  /** Copying a user out to a DTO and back in keeps every field a client can set. */
  lemma DTORoundTrip(u: User)
    ensures ToCandidate(ToDTO(u)) == Candidate(u.name, u.email, u.age)
  {
  }

  /** A request the validator accepts has a name and an email, so it can be converted. */
  lemma ValidRequestConverts(d: UserDTO, emailOk: string -> bool)
    requires Validate(d, emailOk) == []
    ensures d.name.Some? && d.email.Some?
    ensures NameMin <= Utf16Length(ToCandidate(d).name) <= NameMax && |ToCandidate(d).email| > 0
  {
  }

  class UserController {
    const service: UserService

    constructor (service: UserService)
      ensures this.service == service
    {
      this.service := service;
    }

    /** `GET /users`. */
    method GetAllUsers(readFault: Option<Exception>) returns (r: Result<seq<UserDTO>>)
      requires service.Valid()
      ensures readFault.Some? ==> r == Err(readFault.value)
      ensures readFault.None? ==> r.Ok?
      ensures r.Ok? ==> forall i :: 0 <= i < |r.value| ==>
        r.value[i].id.Some? && r.value[i].id.value in service.users
        && r.value[i] == ToDTO(service.users[r.value[i].id.value])
      ensures r.Ok? ==> forall k :: k in service.users ==> ToDTO(service.users[k]) in r.value
      ensures r.Ok? ==> forall i, j :: 0 <= i < j < |r.value| ==> r.value[i].id.value < r.value[j].id.value
    {
      var listed := service.GetAllUsers(readFault);
      if listed.Err? {
        return Err(listed.error);
      }
      var dtos := ToDTOs(listed.value);
      assert forall k :: k in service.users ==> ToDTO(service.users[k]) in dtos by {
        forall k | k in service.users ensures ToDTO(service.users[k]) in dtos {
          var i :| 0 <= i < |listed.value| && listed.value[i] == service.users[k];
          assert dtos[i] == ToDTO(service.users[k]);
        }
      }
      r := Ok(dtos);
    }

    /** `GET /users/{id}`. */
    method GetUserById(id: int, readFault: Option<Exception>) returns (r: Result<UserDTO>)
      ensures readFault.Some? ==> r == Err(readFault.value)
      ensures readFault.None? && id in service.users ==> r == Ok(ToDTO(service.users[id]))
      ensures readFault.None? && id !in service.users ==> r == Err(UserNotFound(NotFoundMessage(id)))
    {
      var found := service.GetUserById(id, readFault);
      if found.Err? {
        return Err(found.error);
      }
      r := Ok(ToDTO(found.value));
    }

    /** `POST /users`: 201 with the saved user, or the rejection. */
    method CreateUser(dto: UserDTO, emailOk: string -> bool, now: Timestamp, saveFault: Option<Exception>)
      returns (r: Result<ResponseEntity<UserDTO>>)
      requires service.Valid()
      modifies service
      ensures service.Valid()
      ensures Validate(dto, emailOk) != [] ==>
        r == Err(UserNotCreated(GetErrorMessage(Validate(dto, emailOk)))) && unchanged(service)
      ensures Validate(dto, emailOk) == [] ==>
        (r.Ok? <==> saveFault.None? && !EmailTaken(old(service.users), dto.email.value, old(service.nextId)))
      ensures r.Ok? ==> && r.value.status == HttpStatus.CREATED
                        && r.value.body.id == Some(old(service.nextId))
                        && r.value.body.name == dto.name && r.value.body.email == dto.email
                        && r.value.body.age == dto.age
                        && old(service.nextId) in service.users
                        && r.value.body == ToDTO(service.users[old(service.nextId)])
                        && service.users == old(service.users)[old(service.nextId) :=
                             User(old(service.nextId), dto.name.value, dto.email.value, dto.age, now)]
                        && service.nextId == old(service.nextId) + 1
                        && service.events == old(service.events) + [UserEvent(dto.email.value, UserEventType.CREATED)]
      ensures Validate(dto, emailOk) == [] && saveFault.Some? ==>
        r == Err(ClassifyCreateFailure(saveFault.value, dto.email.value))
      ensures Validate(dto, emailOk) == [] && saveFault.None? && r.Err? ==>
        r == Err(UserNotCreated(DuplicateEmailMessage(dto.email.value)))
      ensures r.Err? ==> service.users == old(service.users) && service.nextId == old(service.nextId)
                         && service.events == old(service.events)
    {
      var errors := Validate(dto, emailOk);
      if errors != [] {
        return Err(UserNotCreated(GetErrorMessage(errors)));
      }
      var created := service.CreateUser(ToCandidate(dto), now, saveFault);
      if created.Err? {
        return Err(created.error);
      }
      r := Ok(ResponseEntity(ToDTO(created.value), HttpStatus.CREATED));
    }

    /** `PATCH /users/{id}`: 200 with the updated user, or the rejection. */
    method UpdateUser(id: int, dto: UserDTO, emailOk: string -> bool,
                      readFault: Option<Exception>, saveFault: Option<Exception>)
      returns (r: Result<ResponseEntity<UserDTO>>)
      requires service.Valid()
      modifies service
      ensures service.Valid()
      ensures Validate(dto, emailOk) != [] ==>
        r == Err(UserNotUpdated(GetErrorMessage(Validate(dto, emailOk)))) && unchanged(service)
      ensures Validate(dto, emailOk) == [] && readFault.None? && id !in old(service.users) ==>
        r == Err(UserNotFound(NotFoundMessage(id)))
      ensures Validate(dto, emailOk) == [] ==>
        (r.Ok? <==> readFault.None? && id in old(service.users) && saveFault.None?
                    && !EmailTaken(old(service.users), dto.email.value, id))
      ensures r.Ok? ==> && r.value.status == OK
                        && id in old(service.users) && id in service.users
                        && service.users == old(service.users)[id := Overwrite(old(service.users)[id], ToCandidate(dto))]
                        && r.value.body == ToDTO(service.users[id])
      ensures Validate(dto, emailOk) == [] && readFault.Some? ==>
        r == Err(ClassifyUpdateFailure(readFault.value))
      ensures Validate(dto, emailOk) == [] && readFault.None? && id in old(service.users) && saveFault.Some? ==>
        r == Err(ClassifyUpdateFailure(saveFault.value))
      ensures Validate(dto, emailOk) == [] && readFault.None? && id in old(service.users) && saveFault.None?
              && EmailTaken(old(service.users), dto.email.value, id) ==>
        r == Err(DataIntegrityViolation(UniqueViolationMessage))
      ensures r.Err? ==> service.users == old(service.users)
      ensures service.nextId == old(service.nextId) && service.events == old(service.events)
    {
      var errors := Validate(dto, emailOk);
      if errors != [] {
        return Err(UserNotUpdated(GetErrorMessage(errors)));
      }
      var updated := service.UpdateUser(id, ToCandidate(dto), readFault, saveFault);
      if updated.Err? {
        return Err(updated.error);
      }
      r := Ok(ResponseEntity(ToDTO(updated.value), OK));
    }

    /** `DELETE /users/{id}`: 200 with a fixed confirmation text. */
    method Delete(id: int, readFault: Option<Exception>, deleteFault: Option<Exception>)
      returns (r: Result<ResponseEntity<string>>)
      requires service.Valid()
      modifies service
      ensures service.Valid()
      ensures r.Ok? <==> readFault.None? && id in old(service.users) && deleteFault.None?
      ensures r.Ok? ==> && r.value == ResponseEntity(DeletedMessage, OK)
                        && service.users == old(service.users) - {id}
                        && service.events == old(service.events) + [UserEvent(old(service.users)[id].email, UserEventType.DELETED)]
      ensures readFault.None? && id !in old(service.users) ==> r == Err(UserNotFound(NotFoundMessage(id)))
      ensures readFault.Some? ==> r == Err(ClassifyDeleteFailure(readFault.value))
      ensures readFault.None? && id in old(service.users) && deleteFault.Some? ==>
        r == Err(ClassifyDeleteFailure(deleteFault.value))
      ensures r.Err? ==> service.users == old(service.users) && service.events == old(service.events)
      ensures service.nextId == old(service.nextId)
    {
      var deleted := service.DeleteUser(id, readFault, deleteFault);
      if deleted.Err? {
        return Err(deleted.error);
      }
      r := Ok(ResponseEntity(DeletedMessage, OK));
    }
  }
}
