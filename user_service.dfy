/** `UserService`: create, read, update and delete of users against the
    record store, classification of the store's failures, and lifecycle
    events sent after a successful create or delete.

    The store is the pair `users`/`nextId` (see module `Users`); the event
    sink is the append-only log `events`. A failure the store raises for a
    reason outside the model (a lost connection, a driver error) is given to
    each operation as a fault parameter: `Some(e)` means that repository call
    throws `e`. The `@Lazy` self-reference the source calls `getUserById`
    through is a direct call here. */
module Service {
  import opened Wrappers
  import opened Text
  import opened Failures
  import opened Http
  import opened Clock
  import opened ErrorResponses
  import opened Users
  import opened ExceptionHandling

  datatype UserEventType = CREATED | DELETED

  /** The event sent to the topic, keyed by email. */
  datatype UserEvent = UserEvent(email: string, eventType: UserEventType)

  function NotFoundMessage(id: int): string {
    "User with ID " + IntToString(id) + " not found"
  }

  function DuplicateEmailMessage(email: string): string {
    "User with this email " + email + " already exists"
  }

  /** Different ids are reported with different not-found messages. */
  lemma NotFoundMessageInjective(a: int, b: int)
    requires NotFoundMessage(a) == NotFoundMessage(b)
    ensures a == b
  {
    var ma, mb := NotFoundMessage(a), NotFoundMessage(b);
    assert ma[13..|ma| - 10] == IntToString(a);
    assert mb[13..|mb| - 10] == IntToString(b);
    IntToStringInjective(a, b);
  }

  /** The catch clauses of `createUser`, in order: an integrity or constraint
      violation becomes "already exists", any other storage failure is rethrown,
      anything else becomes `UserNotCreated` with its own message. */
  function ClassifyCreateFailure(e: Exception, email: string): (r: Exception)
    ensures r.UserNotCreated? || r.DataAccessFailure?
    ensures r.DataAccessFailure? <==> e.DataAccessFailure?
    ensures e.DataAccessFailure? ==> r == e
    ensures e.DataIntegrityViolation? || e.ConstraintViolation? ==> r.message == DuplicateEmailMessage(email)
    ensures !e.IsDataAccess() && !e.ConstraintViolation? ==> r.message == e.message
  {
    if e.DataIntegrityViolation? || e.ConstraintViolation? then UserNotCreated(DuplicateEmailMessage(email))
    else if e.IsDataAccess() then e
    else UserNotCreated(e.message)
  }

  /** The catch clauses of `updateUser`: storage failures and `UserNotFound` pass
      through, anything else becomes `UserNotUpdated` with its own message. */
  function ClassifyUpdateFailure(e: Exception): (r: Exception)
    ensures r.UserNotFound? <==> e.UserNotFound?
    ensures r.IsDataAccess() <==> e.IsDataAccess()
    ensures e.IsDataAccess() || e.UserNotFound? ==> r == e
    ensures !r.IsDataAccess() && !r.UserNotFound? ==> r == UserNotUpdated(e.message)
  {
    if e.IsDataAccess() || e.UserNotFound? then e else UserNotUpdated(e.message)
  }

  /** The catch clauses of `deleteUser`: as for update, with `UserNotDeleted`. */
  function ClassifyDeleteFailure(e: Exception): (r: Exception)
    ensures r.UserNotFound? <==> e.UserNotFound?
    ensures r.IsDataAccess() <==> e.IsDataAccess()
    ensures e.IsDataAccess() || e.UserNotFound? ==> r == e
    ensures !r.IsDataAccess() && !r.UserNotFound? ==> r == UserNotDeleted(e.message)
  {
    if e.IsDataAccess() || e.UserNotFound? then e else UserNotDeleted(e.message)
  }

  /** A failed create is a client error (400), except a storage outage (500);
      a duplicate email is reported with the email the client sent. */
  lemma CreateFailureResponse(e: Exception, email: string, now: Timestamp)
    ensures var resp := Handle(ClassifyCreateFailure(e, email), now);
      && resp.status == (if e.DataAccessFailure? then INTERNAL_SERVER_ERROR else BAD_REQUEST)
      && (e.DataIntegrityViolation? ==> resp.body.message == DuplicateEmailMessage(email))
  {
  }

  /** A failed update answers 404 for a missing user, 500 for any storage failure
      (a duplicate email included) and 400 otherwise. */
  lemma UpdateFailureResponse(e: Exception, now: Timestamp)
    ensures var resp := Handle(ClassifyUpdateFailure(e), now);
      resp.status == (if e.UserNotFound? then NOT_FOUND
                      else if e.IsDataAccess() then INTERNAL_SERVER_ERROR
                      else BAD_REQUEST)
  {
  }

  /** A failed delete answers 404 for a missing user, 500 for a storage failure, 400 otherwise. */
  lemma DeleteFailureResponse(e: Exception, now: Timestamp)
    ensures var resp := Handle(ClassifyDeleteFailure(e), now);
      resp.status == (if e.UserNotFound? then NOT_FOUND
                      else if e.IsDataAccess() then INTERNAL_SERVER_ERROR
                      else BAD_REQUEST)
  {
  }

  class UserService {
    var users: map<int, User>
    var nextId: int
    var events: seq<UserEvent>

    ghost predicate Valid()
      reads this
    {
      TableInvariant(users, nextId)
    }

    constructor ()
      ensures Valid()
      ensures users == map[] && nextId == FirstId && events == []
    {
      users := map[];
      nextId := FirstId;
      events := [];
    }

    /** `userRepository.save` of a new entity: the unique email constraint, or a
        fresh identity id and the creation timestamp. */
    method SaveNew(c: Candidate, now: Timestamp, fault: Option<Exception>) returns (r: Result<User>)
      requires Valid()
      modifies this
      ensures Valid() && events == old(events)
      ensures fault.Some? ==> r == Err(fault.value)
      ensures fault.None? && EmailTaken(old(users), c.email, old(nextId)) ==>
        r == Err(DataIntegrityViolation(UniqueViolationMessage))
      ensures r.Ok? <==> fault.None? && !EmailTaken(old(users), c.email, old(nextId))
      ensures r.Ok? ==> && old(nextId) !in old(users)
                        && r.value == User(old(nextId), c.name, c.email, c.age, now)
                        && users == old(users)[old(nextId) := r.value]
                        && nextId == old(nextId) + 1
      ensures r.Err? ==> users == old(users) && nextId == old(nextId)
    {
      if fault.Some? {
        return Err(fault.value);
      }
      if EmailTaken(users, c.email, nextId) {
        return Err(DataIntegrityViolation(UniqueViolationMessage));
      }
      InsertKeepsInvariant(users, nextId, c, now);
      var saved := User(nextId, c.name, c.email, c.age, now);
      users := users[nextId := saved];
      nextId := nextId + 1;
      r := Ok(saved);
    }

    /** `userRepository.save` of an existing entity: the unique email constraint,
        or the row replaced. */
    method SaveExisting(u: User, fault: Option<Exception>) returns (r: Result<User>)
      requires Valid() && u.id in users && u.createdAt == users[u.id].createdAt
      modifies this
      ensures Valid() && events == old(events) && nextId == old(nextId)
      ensures fault.Some? ==> r == Err(fault.value)
      ensures fault.None? && EmailTaken(old(users), u.email, u.id) ==>
        r == Err(DataIntegrityViolation(UniqueViolationMessage))
      ensures r.Ok? <==> fault.None? && !EmailTaken(old(users), u.email, u.id)
      ensures r.Ok? ==> r.value == u && users == old(users)[u.id := u]
      ensures r.Err? ==> users == old(users)
    {
      if fault.Some? {
        return Err(fault.value);
      }
      if EmailTaken(users, u.email, u.id) {
        return Err(DataIntegrityViolation(UniqueViolationMessage));
      }
      var c := Candidate(u.name, u.email, u.age);
      OverwriteKeepsInvariant(users, nextId, u.id, c);
      assert Overwrite(users[u.id], c) == u;
      users := users[u.id := u];
      r := Ok(u);
    }

    /** `userRepository.delete`: the row is removed. */
    method Remove(u: User, fault: Option<Exception>) returns (r: Result<()>)
      requires Valid()
      modifies this
      ensures Valid() && events == old(events) && nextId == old(nextId)
      ensures fault.Some? ==> r == Err(fault.value) && users == old(users)
      ensures fault.None? ==> r == Ok(()) && users == old(users) - {u.id}
    {
      if fault.Some? {
        return Err(fault.value);
      }
      users := users - {u.id};
      r := Ok(());
    }

    /** `getAllUsers`: every stored user once, by ascending id; a storage failure propagates. */
    method GetAllUsers(readFault: Option<Exception>) returns (r: Result<seq<User>>)
      requires Valid()
      ensures readFault.Some? ==> r == Err(readFault.value)
      ensures readFault.None? ==> r.Ok?
      ensures r.Ok? ==> forall i :: 0 <= i < |r.value| ==> r.value[i].id in users && users[r.value[i].id] == r.value[i]
      ensures r.Ok? ==> forall k :: k in users ==> users[k] in r.value
      ensures r.Ok? ==> forall i, j :: 0 <= i < j < |r.value| ==> r.value[i].id < r.value[j].id
    {
      if readFault.Some? {
        return Err(readFault.value);
      }
      r := Ok(ListAll(users, nextId));
    }

    /** `getUserById`: the stored user, or `UserNotFound` naming the id. */
    method GetUserById(id: int, readFault: Option<Exception>) returns (r: Result<User>)
      ensures readFault.Some? ==> r == Err(readFault.value)
      ensures readFault.None? && id in users ==> r == Ok(users[id])
      ensures readFault.None? && id !in users ==> r == Err(UserNotFound(NotFoundMessage(id)))
    {
      if readFault.Some? {
        return Err(readFault.value);
      }
      if id in users {
        r := Ok(users[id]);
      } else {
        r := Err(UserNotFound(NotFoundMessage(id)));
      }
    }

    /** `createUser`: save, then one CREATED event for the saved email; failures classified. */
    method CreateUser(c: Candidate, now: Timestamp, saveFault: Option<Exception>) returns (r: Result<User>)
      requires Valid()
      modifies this
      ensures Valid()
      ensures r.Ok? <==> saveFault.None? && !EmailTaken(old(users), c.email, old(nextId))
      ensures r.Ok? ==> && r.value == User(old(nextId), c.name, c.email, c.age, now)
                        && old(nextId) !in old(users)
                        && users == old(users)[r.value.id := r.value]
                        && nextId == old(nextId) + 1
                        && events == old(events) + [UserEvent(r.value.email, UserEventType.CREATED)]
      ensures r.Err? ==> users == old(users) && nextId == old(nextId) && events == old(events)
      ensures saveFault.Some? ==> r == Err(ClassifyCreateFailure(saveFault.value, c.email))
      ensures saveFault.None? && r.Err? ==> r == Err(UserNotCreated(DuplicateEmailMessage(c.email)))
    {
      var saved := SaveNew(c, now, saveFault);
      if saved.Err? {
        return Err(ClassifyCreateFailure(saved.error, c.email));
      }
      events := events + [UserEvent(saved.value.email, UserEventType.CREATED)];
      r := saved;
    }

    /** `updateUser`: look the user up (a miss is `UserNotFound`), overwrite name,
        email and age, save; no event. */
    method UpdateUser(id: int, changes: Candidate, readFault: Option<Exception>, saveFault: Option<Exception>)
      returns (r: Result<User>)
      requires Valid()
      modifies this
      ensures Valid() && nextId == old(nextId) && events == old(events)
      ensures readFault.None? && id !in old(users) ==> r == Err(UserNotFound(NotFoundMessage(id)))
      ensures readFault.Some? ==> r == Err(ClassifyUpdateFailure(readFault.value))
      ensures r.Ok? <==> readFault.None? && id in old(users) && saveFault.None?
                         && !EmailTaken(old(users), changes.email, id)
      ensures r.Ok? ==> r.value == Overwrite(old(users)[id], changes) && users == old(users)[id := r.value]
      ensures r.Err? ==> users == old(users)
      ensures readFault.None? && id in old(users) && saveFault.Some? ==>
        r == Err(ClassifyUpdateFailure(saveFault.value))
      ensures readFault.None? && id in old(users) && saveFault.None? && EmailTaken(old(users), changes.email, id) ==>
        r == Err(DataIntegrityViolation(UniqueViolationMessage))
    {
      var found := GetUserById(id, readFault);
      if found.Err? {
        return Err(ClassifyUpdateFailure(found.error));
      }
      var edited := Overwrite(found.value, changes);
      var saved := SaveExisting(edited, saveFault);
      if saved.Err? {
        return Err(ClassifyUpdateFailure(saved.error));
      }
      r := saved;
    }

    /** `deleteUser`: look the user up (a miss is `UserNotFound`), remove it, then
        one DELETED event for its email. */
    method DeleteUser(id: int, readFault: Option<Exception>, deleteFault: Option<Exception>) returns (r: Result<()>)
      requires Valid()
      modifies this
      ensures Valid() && nextId == old(nextId)
      ensures readFault.None? && id !in old(users) ==> r == Err(UserNotFound(NotFoundMessage(id)))
      ensures readFault.Some? ==> r == Err(ClassifyDeleteFailure(readFault.value))
      ensures r.Ok? <==> readFault.None? && id in old(users) && deleteFault.None?
      ensures r.Ok? ==> && users == old(users) - {id} && id !in users
                        && events == old(events) + [UserEvent(old(users)[id].email, DELETED)]
      ensures r.Err? ==> users == old(users) && events == old(events)
      ensures readFault.None? && id in old(users) && deleteFault.Some? ==>
        r == Err(ClassifyDeleteFailure(deleteFault.value))
    {
      var found := GetUserById(id, readFault);
      if found.Err? {
        return Err(ClassifyDeleteFailure(found.error));
      }
      var removed := Remove(found.value, deleteFault);
      if removed.Err? {
        return Err(ClassifyDeleteFailure(removed.error));
      }
      events := events + [UserEvent(found.value.email, DELETED)];
      r := Ok(());
    }
  }
}
