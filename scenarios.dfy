/** Client code that drives the controller and the service the way the
    repository's tests do, with the exception handler turning a thrown
    exception into the response a client receives. */
module Scenarios {
  import opened Wrappers
  import opened Text
  import opened Failures
  import opened Http
  import opened Clock
  import opened ErrorResponses
  import opened Users
  import opened Validation
  import opened ExceptionHandling
  import opened Service
  import opened Controller

  function Request(name: string, email: string, age: int): UserDTO {
    UserDTO(None, Some(name), Some(email), Some(age))
  }

  lemma NotFoundMessage9999()
    ensures NotFoundMessage(9999) == "User with ID 9999 not found"
  {
    assert NatToString(9) == "9";
    assert NatToString(99) == NatToString(9) + ['9'];
    assert NatToString(999) == NatToString(99) + ['9'];
    assert NatToString(9999) == NatToString(999) + ['9'];
  }

  lemma DuplicateMessageForTestEmail()
    ensures DuplicateEmailMessage("email@mail.ru") == "User with this email email@mail.ru already exists"
  {
  }

  /** The only field error of the Katya request is the age. */
  lemma NegativeAgeErrors(emailOk: string -> bool)
    requires emailOk("katya@gmail.com")
    ensures Validate(Request("Katya", "katya@gmail.com", -5), emailOk) == [FieldError("age", AgeTooSmall)]
  {
    var dto := Request("Katya", "katya@gmail.com", -5);
    assert NameErrors(dto.name) == [];
    assert EmailErrors(dto.email, emailOk) == [];
    assert AgeErrors(dto.age) == [FieldError("age", AgeTooSmall)];
  }

  /** A single age error renders as that error alone, without a separator. */
  lemma NegativeAgeMessage()
    ensures GetErrorMessage([FieldError("age", AgeTooSmall)]) == "age - Age should be more than 0"
  {
    var m := GetErrorMessage([FieldError("age", AgeTooSmall)]);
    assert m == "age" + " - " + AgeTooSmall;
  }

  /** A negative age is refused before the service is reached, with the age message alone. */
  method RejectInvalidUser(emailOk: string -> bool, now: Timestamp) returns (reply: ResponseEntity<UserErrorResponse>)
    requires emailOk("katya@gmail.com")
    ensures reply.status == BAD_REQUEST && reply.status.Code() == 400
    ensures reply.body.message == "age - Age should be more than 0"
  {
    var service := new UserService();
    var controller := new UserController(service);
    var dto := Request("Katya", "katya@gmail.com", -5);
    NegativeAgeErrors(emailOk);
    NegativeAgeMessage();
    var r := controller.CreateUser(dto, emailOk, now, None);
    reply := Handle(r.error, now);
  }

  /** The second create with the same email is refused with that email in the message,
      and the table keeps exactly one user with it. */
  method RejectExistingUser(emailOk: string -> bool, now: Timestamp)
    returns (service: UserService, first: ResponseEntity<UserDTO>, reply: ResponseEntity<UserErrorResponse>,
             holders: set<int>)
    requires emailOk("email@mail.ru")
    ensures first.status == HttpStatus.CREATED && first.body.email == Some("email@mail.ru")
    ensures reply.status == BAD_REQUEST
    ensures reply.body.message == "User with this email email@mail.ru already exists"
    ensures holders == set k | k in service.users && service.users[k].email == "email@mail.ru"
    ensures |holders| == 1
  {
    service := new UserService();
    var controller := new UserController(service);
    var dto1 := Request("Name", "email@mail.ru", 30);
    var dto2 := Request("Name", "email@mail.ru", 29);
    assert IsValid(dto1, emailOk) && IsValid(dto2, emailOk);
    var r1 := controller.CreateUser(dto1, emailOk, now, None);
    assert !EmailTaken(map[], "email@mail.ru", FirstId);
    first := r1.value;
    var id := first.body.id.value;
    assert service.users[id].email == "email@mail.ru";
    assert EmailTaken(service.users, "email@mail.ru", service.nextId);
    var r2 := controller.CreateUser(dto2, emailOk, now, None);
    DuplicateMessageForTestEmail();
    reply := Handle(r2.error, now);
    holders := set k | k in service.users && service.users[k].email == "email@mail.ru";
    forall k | k in holders ensures k == id {
      assert service.users[k].email == service.users[id].email;
    }
    assert id in holders;
    assert holders == {id};
  }

  /** Reading, updating or deleting an id nobody holds answers 404 with the same message. */
  method NotFoundForMissingUser(emailOk: string -> bool, now: Timestamp)
    returns (onGet: ResponseEntity<UserErrorResponse>, onUpdate: ResponseEntity<UserErrorResponse>,
             onDelete: ResponseEntity<UserErrorResponse>)
    requires emailOk("somename@gmail.com")
    ensures onGet.status == NOT_FOUND && onGet.body.message == "User with ID 9999 not found"
    ensures onUpdate.status == NOT_FOUND && onUpdate.body.message == "User with ID 9999 not found"
    ensures onDelete.status == NOT_FOUND && onDelete.body.message == "User with ID 9999 not found"
  {
    var service := new UserService();
    var controller := new UserController(service);
    NotFoundMessage9999();
    var g := controller.GetUserById(9999, None);
    onGet := Handle(g.error, now);
    var dto := Request("Somename", "somename@gmail.com", 30);
    assert IsValid(dto, emailOk);
    var u := controller.UpdateUser(9999, dto, emailOk, None, None);
    onUpdate := Handle(u.error, now);
    var d := controller.Delete(9999, None, None);
    onDelete := Handle(d.error, now);
  }

  /** A storage outage on create reaches the client as a 500 with the fixed text only. */
  method DatabaseErrorOnCreate(emailOk: string -> bool, now: Timestamp, internal: string)
    returns (reply: ResponseEntity<UserErrorResponse>)
    requires emailOk("failCreate@gmail.com")
    ensures reply.status == INTERNAL_SERVER_ERROR
    ensures reply.body.message == "A server error occurred. Please try again later."
  {
    var service := new UserService();
    var controller := new UserController(service);
    var dto := Request("FailCreate", "failCreate@gmail.com", 40);
    assert IsValid(dto, emailOk);
    var r := controller.CreateUser(dto, emailOk, now, Some(DataAccessFailure(internal)));
    reply := Handle(r.error, now);
  }

  /** A storage failure while saving an update reaches the client as a 500 with the fixed text only. */
  method DatabaseErrorOnUpdate(emailOk: string -> bool, now: Timestamp, internal: string)
    returns (reply: ResponseEntity<UserErrorResponse>)
    requires emailOk("existing@mail.ru") && emailOk("failUpdate@mail.ru")
    ensures reply.status == INTERNAL_SERVER_ERROR
    ensures reply.body.message == "A server error occurred. Please try again later."
  {
    var service := new UserService();
    var controller := new UserController(service);
    var seed := Request("Existing", "existing@mail.ru", 20);
    assert IsValid(seed, emailOk);
    assert !EmailTaken(map[], "existing@mail.ru", FirstId);
    var created := controller.CreateUser(seed, emailOk, now, None);
    var dto := Request("FailUpdate", "failUpdate@mail.ru", 35);
    assert IsValid(dto, emailOk);
    var r := controller.UpdateUser(created.value.body.id.value, dto, emailOk, None, Some(DataAccessFailure(internal)));
    reply := Handle(r.error, now);
  }

  /** A storage failure while deleting an existing user reaches the client as a 500 with the fixed text only. */
  method DatabaseErrorOnDelete(emailOk: string -> bool, now: Timestamp, internal: string)
    returns (reply: ResponseEntity<UserErrorResponse>)
    requires emailOk("existing@mail.ru")
    ensures reply.status == INTERNAL_SERVER_ERROR
    ensures reply.body.message == "A server error occurred. Please try again later."
  {
    var service := new UserService();
    var controller := new UserController(service);
    var seed := Request("Existing", "existing@mail.ru", 20);
    assert IsValid(seed, emailOk);
    assert !EmailTaken(map[], "existing@mail.ru", FirstId);
    var created := controller.CreateUser(seed, emailOk, now, None);
    var r := controller.Delete(created.value.body.id.value, None, Some(DataAccessFailure(internal)));
    reply := Handle(r.error, now);
  }

  /** Create, then read back by the returned id: the same name, email and age, with the
      id and creation time the store assigned. */
  method CreateThenGet(service: UserService, c: Candidate, now: Timestamp)
    returns (created: Result<User>, found: Result<User>)
    requires service.Valid() && !EmailTaken(service.users, c.email, service.nextId)
    modifies service
    ensures created.Ok? && found.Ok?
    ensures found.value == created.value
    ensures found.value.name == c.name && found.value.email == c.email && found.value.age == c.age
    ensures found.value.createdAt == now
    ensures service.events == old(service.events) + [UserEvent(c.email, UserEventType.CREATED)]
  {
    created := service.CreateUser(c, now, None);
    found := service.GetUserById(created.value.id, None);
  }

  /** Create, then delete: the user is gone, and the topic received CREATED then DELETED
      for its email. */
  method CreateThenDelete(service: UserService, c: Candidate, now: Timestamp)
    returns (created: Result<User>, deleted: Result<()>, found: Result<User>)
    requires service.Valid() && !EmailTaken(service.users, c.email, service.nextId)
    modifies service
    ensures created.Ok? && deleted.Ok?
    ensures found == Err(UserNotFound(NotFoundMessage(created.value.id)))
    ensures service.events == old(service.events) + [UserEvent(c.email, UserEventType.CREATED),
                                                      UserEvent(c.email, UserEventType.DELETED)]
  {
    created := service.CreateUser(c, now, None);
    deleted := service.DeleteUser(created.value.id, None, None);
    found := service.GetUserById(created.value.id, None);
  }

  /** Updating to an email another user holds is a storage failure passed through: 500. */
  method UpdateToTakenEmail(service: UserService, id: int, other: int, c: Candidate, now: Timestamp)
    returns (reply: ResponseEntity<UserErrorResponse>)
    requires service.Valid() && id in service.users && other in service.users && id != other
    requires c.email == service.users[other].email
    modifies service
    ensures reply.status == INTERNAL_SERVER_ERROR && reply.body.message == DatabaseErrorMessage
    ensures service.users == old(service.users)
  {
    var r := service.UpdateUser(id, c, None, None);
    reply := Handle(r.error, now);
  }
}
