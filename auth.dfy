/**
 * `AuthService.register`: refuses a user name that is already taken and
 * otherwise stores a new user with the encoded password and the default
 * role. The password encoder (BCrypt) is an opaque function.
 */
module Auth {
  import opened Lang
  import opened Entities
  import opened Users

  const UsernameTakenMessage: string := "Error: Username is already taken!"
  const DefaultRole: string := "ROLE_USER"

  /**
   * The user `register` builds: the requested name, the encoded password,
   * the default role, and neither a registration nor a login time. The id
   * is the one the table then assigns.
   */
  function NewUser(request: RegisterRequest, encode: string -> string, id: nat): (u: User)
    ensures u.username == request.username && u.password == encode(request.password)
    ensures u.roles == DefaultRole && u.registrationTime.None? && u.lastLoginTime.None?
  {
    User(id, request.username, encode(request.password), DefaultRole, None, None)
  }

  /** The same user with its registration time set, as the not-null column requires. */
  function RegisteredUser(request: RegisterRequest, encode: string -> string, id: nat, now: Timestamp): (u: User)
    ensures u.username == request.username && u.password == encode(request.password)
    ensures u.roles == DefaultRole && u.registrationTime == Some(now) && u.lastLoginTime.None?
  {
    NewUser(request, encode, id).(registrationTime := Some(now))
  }

  /** The user added last under a fresh name is the one `findByUsername` then returns. */
  lemma FindAdded(users: seq<User>, u: User)
    requires FindByUsername(users, u.username).None?
    ensures FindByUsername(users + [u], u.username) == Some(u)
  {
  }

  class AuthService {
    const userRepository: UserRepository
    const encode: string -> string

    constructor (userRepository: UserRepository, encode: string -> string)
      ensures this.userRepository == userRepository && this.encode == encode
    {
      this.userRepository := userRepository;
      this.encode := encode;
    }

    /**
     * `register` as written: it never sets the registration time, so the
     * table refuses every user it builds. A taken name throws the
     * "already taken" error; a fresh name throws the table's integrity
     * error. No call adds a user.
     */
    method RegisterAsWritten(request: RegisterRequest) returns (r: Outcome<()>)
      requires userRepository.Valid()
      modifies userRepository
      ensures userRepository.Valid()
      ensures FindByUsername(old(userRepository.users), request.username).Some? ==>
        r == Thrown(RuntimeException(UsernameTakenMessage))
      ensures FindByUsername(old(userRepository.users), request.username).None? ==>
        r == Thrown(DataIntegrityViolation)
      ensures userRepository.users == old(userRepository.users)
      ensures userRepository.nextId == old(userRepository.nextId)
    {
      if FindByUsername(userRepository.users, request.username).Some? {
        return Thrown(RuntimeException(UsernameTakenMessage));
      }
      var user := NewUser(request, encode, 0);
      var saved := userRepository.Save(user);
      assert saved == Thrown(DataIntegrityViolation);
      r := Thrown(saved.exception);
    }

    /**
     * `register` with the registration time set to `now`: a taken name
     * throws and changes nothing; a new name adds exactly one user, who can
     * then be found under that name. User names stay unique either way.
     */
    method Register(request: RegisterRequest, now: Timestamp) returns (r: Outcome<()>)
      requires userRepository.Valid()
      modifies userRepository
      ensures userRepository.Valid()
      ensures FindByUsername(old(userRepository.users), request.username).Some? ==>
        && r == Thrown(RuntimeException(UsernameTakenMessage))
        && unchanged(userRepository)
      ensures FindByUsername(old(userRepository.users), request.username).None? ==>
        var added := RegisteredUser(request, encode, old(userRepository.nextId), now);
        && r == Returned(())
        && userRepository.users == old(userRepository.users) + [added]
        && FindByUsername(userRepository.users, request.username) == Some(added)
    {
      if FindByUsername(userRepository.users, request.username).Some? {
        return Thrown(RuntimeException(UsernameTakenMessage));
      }
      var user := RegisteredUser(request, encode, 0, now);
      FindAdded(userRepository.users, user.(id := userRepository.nextId));
      var saved := userRepository.Save(user);
      r := Returned(());
    }
  }
}
