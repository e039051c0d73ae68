/** The `User` entity and the rules the relational store keeps for its table:
    an identity id generated on insert, a unique email column, non-null name
    and email, and a creation timestamp written once. The store itself (JPA
    and the database) is represented by a map from id to row and the next
    identity value. */
module Users {
  import opened Wrappers
  import opened Clock

  datatype User = User(id: int, name: string, email: string, age: Option<int>, createdAt: Timestamp)

  /** The fields a client supplies when creating or updating a user. */
  datatype Candidate = Candidate(name: string, email: string, age: Option<int>)

  /** The message the database attaches to a unique-constraint violation; the
      service never shows it to a client. */
  const UniqueViolationMessage: string := "duplicate key value violates unique constraint on users(email)"

  /** The first value the identity column hands out. */
  const FirstId: int := 1

  /** Every row is stored under its own id. */
  predicate IdsMatchKeys(users: map<int, User>) {
    forall k :: k in users ==> users[k].id == k
  }

  /** Identity ids: each row sits under its own id, between the first identity value and the
      next one to be handed out;
      the unique constraint: no two rows share an email. */
  predicate TableInvariant(users: map<int, User>, nextId: int) {
    && FirstId <= nextId
    && IdsMatchKeys(users)
    && (forall k :: k in users ==> FirstId <= k < nextId)
    && (forall a, b :: a in users && b in users && a != b ==> users[a].email != users[b].email)
  }

  /** Some row other than the one with id `self` already holds `email`. */
  predicate EmailTaken(users: map<int, User>, email: string, self: int) {
    exists k :: k in users && k != self && users[k].email == email
  }

  /** The row written by `save` of an existing entity whose mutable fields were set. */
  function Overwrite(u: User, c: Candidate): (r: User)
    ensures r.id == u.id && r.createdAt == u.createdAt
    ensures r.name == c.name && r.email == c.email && r.age == c.age
  {
    u.(name := c.name, email := c.email, age := c.age)
  }

  /** Inserting a row whose email is free under the next identity value keeps the table rules. */
  lemma InsertKeepsInvariant(users: map<int, User>, nextId: int, c: Candidate, now: Timestamp)
    requires TableInvariant(users, nextId)
    requires !EmailTaken(users, c.email, nextId)
    ensures nextId !in users
    ensures TableInvariant(users[nextId := User(nextId, c.name, c.email, c.age, now)], nextId + 1)
  {
    var u := User(nextId, c.name, c.email, c.age, now);
    var users' := users[nextId := u];
    forall a, b | a in users' && b in users' && a != b
      ensures users'[a].email != users'[b].email
    {
      if a == nextId {
        assert users'[b] == users[b];
      } else if b == nextId {
        assert users'[a] == users[a];
      }
    }
  }

  /** Overwriting a row with an email no other row holds keeps the table rules. */
  lemma OverwriteKeepsInvariant(users: map<int, User>, nextId: int, id: int, c: Candidate)
    requires TableInvariant(users, nextId)
    requires id in users && !EmailTaken(users, c.email, id)
    ensures TableInvariant(users[id := Overwrite(users[id], c)], nextId)
  {
    var users' := users[id := Overwrite(users[id], c)];
    forall a, b | a in users' && b in users' && a != b
      ensures users'[a].email != users'[b].email
    {
      if a == id {
        assert users'[b] == users[b];
      } else if b == id {
        assert users'[a] == users[a];
      }
    }
  }

  /** The stored ids in `[lo, hi)`, ascending: a scan of the identity range. */
  function IdsBetween(users: map<int, User>, lo: int, hi: int): (r: seq<int>)
    ensures forall i :: 0 <= i < |r| ==> r[i] in users && lo <= r[i] < hi
    ensures forall k :: k in users && lo <= k < hi ==> k in r
    ensures forall i, j :: 0 <= i < j < |r| ==> r[i] < r[j]
    decreases hi - lo
  {
    if hi <= lo then []
    else if lo in users then [lo] + IdsBetween(users, lo + 1, hi)
    else IdsBetween(users, lo + 1, hi)
  }

  /** `findAll`: every stored row exactly once, by ascending id. */
  function ListAll(users: map<int, User>, nextId: int): (r: seq<User>)
    requires TableInvariant(users, nextId)
    ensures forall i :: 0 <= i < |r| ==> r[i].id in users && users[r[i].id] == r[i]
    ensures forall k :: k in users ==> users[k] in r
    ensures forall i, j :: 0 <= i < j < |r| ==> r[i].id < r[j].id
  {
    var ids := IdsBetween(users, FirstId, nextId);
    var r := seq(|ids|, i requires 0 <= i < |ids| => users[ids[i]]);
    assert forall k :: k in users ==> users[k] in r by {
      forall k | k in users ensures users[k] in r {
        var i :| 0 <= i < |ids| && ids[i] == k;
        assert r[i] == users[k];
      }
    }
    r
  }
}
