/**
 * The user table behind `UserRepository`. The `username` column is unique
 * (`@Column(unique = true)`), so the table holds at most one row per name
 * and `findByUsername` is a lookup. The `registration_time` column is not
 * nullable, so every stored row has a registration time.
 */
module Users {
  import opened Lang
  import opened Entities

  /** No two rows share a user name. */
  ghost predicate UniqueUsernames(users: seq<User>) {
    forall i, j :: 0 <= i < j < |users| ==> users[i].username != users[j].username
  }

  /** `findByUsername`: the row with that name, if there is one. */
  function FindByUsername(users: seq<User>, username: string): (r: Option<User>)
    ensures r.Some? ==> r.value in users && r.value.username == username
    ensures r.None? <==> forall u :: u in users ==> u.username != username
  {
    if users == [] then None
    else if users[0].username == username then Some(users[0])
    else FindByUsername(users[1..], username)
  }

  /** Adding a row under a name that is not taken keeps the names unique. */
  lemma AddKeepsUnique(users: seq<User>, u: User)
    requires UniqueUsernames(users)
    requires FindByUsername(users, u.username).None?
    ensures UniqueUsernames(users + [u])
  {
  }

  class UserRepository {
    var users: seq<User>
    var nextId: nat

    /**
     * Names are unique, every row has a registration time, and every id
     * lies below the next identity value.
     */
    ghost predicate Valid()
      reads this
    {
      && UniqueUsernames(users)
      && (forall u :: u in users ==> u.registrationTime.Some?)
      && (forall u :: u in users ==> u.id < nextId)
    }

    constructor ()
      ensures Valid()
      ensures users == [] && nextId == 0
    {
      users := [];
      nextId := 0;
    }

    /**
     * `save` of a new user: the database assigns the next identity value,
     * or refuses the row when it has no registration time or its name is
     * already taken.
     */
    method Save(u: User) returns (r: Outcome<User>)
      requires Valid()
      modifies this
      ensures Valid()
      ensures u.registrationTime.None? || FindByUsername(old(users), u.username).Some? ==>
        r == Thrown(DataIntegrityViolation) && users == old(users) && nextId == old(nextId)
      ensures u.registrationTime.Some? && FindByUsername(old(users), u.username).None? ==>
        && r == Returned(u.(id := old(nextId)))
        && users == old(users) + [r.value]
        && nextId == old(nextId) + 1
    {
      if u.registrationTime.None? || FindByUsername(users, u.username).Some? {
        return Thrown(DataIntegrityViolation);
      }
      var saved := u.(id := nextId);
      AddKeepsUnique(users, saved);
      users := users + [saved];
      nextId := nextId + 1;
      r := Returned(saved);
    }
  }
}
