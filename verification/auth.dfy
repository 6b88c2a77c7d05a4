/** The authentication service: password validation with lockout, password
    change, profile completion and lookup by id. */
module AuthService {
  import opened Outcomes
  import opened UserEntity
  import opened StatusService
  import UserService

  /** The row a wrong password leaves: the failure counter one higher and,
      once it reaches the limit, the account locked. */
  function Counted(u: User, passwordRetries: int): (v: User)
    ensures v.failedAttempts == u.failedAttempts + 1
    ensures v.failedAttempts >= passwordRetries ==>
              v == u.(failedAttempts := v.failedAttempts, meta := u.meta.(status := LOCKED))
    ensures v.failedAttempts < passwordRetries ==> v == u.(failedAttempts := v.failedAttempts)
  {
    var counted := u.(failedAttempts := UserService.Max0(u.failedAttempts + 1));
    if counted.failedAttempts >= passwordRetries then counted.(meta := counted.meta.(status := LOCKED))
    else counted
  }

  /** `validateUser`: an unknown address dereferences a missing row, and a
      stored password that is not a digest makes argon2 throw; neither
      writes anything. A wrong password replaces that user's row by its counted form and persists it
      although the call fails, with the maximum-attempts error once the
      count reaches the limit. A right password returns the user and writes
      nothing, so the counter is not reset. */
  function ValidateUser(users: Users, email: string, password: string, passwordRetries: int)
    : (r: Change<Users, User>)
    ensures FindByEmail(users, email).None? ==> r == Change(users, Internal(NullReference))
    ensures FindByEmail(users, email).Some? && users[FindByEmail(users, email).value].password.Plain? ==>
              r == Change(users, Internal(NotADigest))
    ensures r.result.Err? ==> r.result.kind == InternalServerError
    ensures r.result.Ok? <==>
              FindByEmail(users, email).Some? && ComparePassword(users[FindByEmail(users, email).value], password)
    ensures r.result.Ok? ==>
              r.state == users && r.result.value == users[FindByEmail(users, email).value]
    ensures FindByEmail(users, email).Some? && users[FindByEmail(users, email).value].password.Argon2?
            && !ComparePassword(users[FindByEmail(users, email).value], password) ==>
              var id := FindByEmail(users, email).value;
              var v := Counted(users[id], passwordRetries);
              && r.state == users[id := v]
              && r.result == Internal(if v.failedAttempts >= passwordRetries then MaxPasswordAttempts
                                      else IncorrectPasswordKindlyReset)
  {
    match FindByEmail(users, email)
    case None => Change(users, Internal(NullReference))
    case Some(id) =>
      var u := users[id];
      if u.password.Plain? then Change(users, Internal(NotADigest))
      else if !ComparePassword(u, password) then
        var v := Counted(u, passwordRetries);
        if v.failedAttempts >= passwordRetries then Change(users[id := v], Internal(MaxPasswordAttempts))
        else Change(users[id := v], Internal(IncorrectPasswordKindlyReset))
      else
        Change(users, Ok(u))
  }

  /** The users after `n` calls of `validateUser` with the same credentials. */
  function ValidateTimes(users: Users, email: string, password: string, passwordRetries: int, n: nat)
    : Users
  {
    if n == 0 then users
    else ValidateTimes(ValidateUser(users, email, password, passwordRetries).state,
                       email, password, passwordRetries, n - 1)
  }

  /** One wrong password against a stored digest rewrites only that user's
      row, into its counted form, and the lookup still finds the row. */
  lemma FailureStep(before: Users, email: string, password: string, passwordRetries: int, id: UserId)
    requires FindByEmail(before, email) == Some(id)
    requires before[id].password.Argon2? && !ComparePassword(before[id], password)
    ensures var after := ValidateUser(before, email, password, passwordRetries).state;
            && after == before[id := Counted(before[id], passwordRetries)]
            && FindByEmail(after, email) == Some(id)
  {
    FindByEmailAfterUpdate(before, id, Counted(before[id], passwordRetries), email);
  }

  /** A row after `n` wrong passwords. */
  function Recounted(u: User, passwordRetries: int, n: nat): User
    decreases n
  {
    if n == 0 then u else Recounted(Counted(u, passwordRetries), passwordRetries, n - 1)
  }

  /** `n` wrong passwords add exactly `n` to the counter, keep the password
      and e-mail, and lock the account once the count has reached the
      limit; below the limit the status columns are untouched. */
  lemma {:induction false} RecountedCounts(u: User, passwordRetries: int, n: nat)
    ensures var v := Recounted(u, passwordRetries, n);
            && v.failedAttempts == u.failedAttempts + n
            && v.password == u.password && v.email == u.email
            && (n >= 1 && u.failedAttempts + n >= passwordRetries ==> v.meta.status == LOCKED)
            && (u.failedAttempts + n < passwordRetries ==> v.meta == u.meta)
    decreases n
  {
    if n > 0 {
      RecountedCounts(Counted(u, passwordRetries), passwordRetries, n - 1);
    }
  }

  /** `n` failures in a row rewrite only that user's row, into its form after
      `n` wrong passwords, and the lookup keeps finding it. */
  lemma {:induction false} FailuresAccumulate(users: Users, email: string, password: string,
                                              passwordRetries: int, n: nat)
    requires FindByEmail(users, email).Some?
    requires var u := users[FindByEmail(users, email).value];
             u.password.Argon2? && !ComparePassword(u, password)
    ensures var id := FindByEmail(users, email).value;
            var after := ValidateTimes(users, email, password, passwordRetries, n);
            && after == users[id := Recounted(users[id], passwordRetries, n)]
            && FindByEmail(after, email) == Some(id)
  {
    var id := FindByEmail(users, email).value;
    if n > 0 {
      FailureStep(users, email, password, passwordRetries, id);
      var next := ValidateUser(users, email, password, passwordRetries).state;
      var v := Counted(users[id], passwordRetries);
      assert next[id] == v;
      FailuresAccumulate(next, email, password, passwordRetries, n - 1);
      assert ValidateTimes(users, email, password, passwordRetries, n)
             == ValidateTimes(next, email, password, passwordRetries, n - 1);
      assert Recounted(users[id], passwordRetries, n) == Recounted(v, passwordRetries, n - 1);
      assert next[id := Recounted(v, passwordRetries, n - 1)] == users[id := Recounted(v, passwordRetries, n - 1)];
    }
  }

  /** With a limit of three, two wrong passwords report an incorrect password
      and leave the account unlocked; the third reports and causes the
      lockout. */
  lemma ThirdConsecutiveFailureLocks(users: Users, email: string, password: string)
    requires FindByEmail(users, email).Some?
    requires var u := users[FindByEmail(users, email).value];
             && u.password.Argon2? && !ComparePassword(u, password)
             && u.failedAttempts == 0 && u.meta.status != LOCKED
    ensures var id := FindByEmail(users, email).value;
            var once := ValidateUser(users, email, password, 3);
            var twice := ValidateUser(once.state, email, password, 3);
            var thrice := ValidateUser(twice.state, email, password, 3);
            && once.result == Internal(IncorrectPasswordKindlyReset)
            && twice.result == Internal(IncorrectPasswordKindlyReset)
            && twice.state[id].meta.status != LOCKED
            && thrice.result == Internal(MaxPasswordAttempts)
            && thrice.state[id].meta.status == LOCKED
  {
    var id := FindByEmail(users, email).value;
    FailureStep(users, email, password, 3, id);
    var once := ValidateUser(users, email, password, 3);
    FailureStep(once.state, email, password, 3, id);
    var twice := ValidateUser(once.state, email, password, 3);
    FailureStep(twice.state, email, password, 3, id);
  }

  /** `changePassword` for the authenticated user `id`: a missing row is
      dereferenced and a stored password that is not a digest makes argon2
      throw; then, in this order, the old password must verify, the
      new one must differ from it and the account must not be locked. Every
      failure writes nothing; success replaces only the password, by the
      digest of the new one. */
  function ChangePassword(users: Users, id: UserId, oldPassword: string, newPassword: string, salt: nat)
    : (r: Change<Users, UserId>)
    ensures r.result.Err? ==> r.state == users && r.result.kind == InternalServerError
    ensures id !in users ==> r.result == Internal(NullReference)
    ensures id in users && users[id].password.Plain? ==> r.result == Internal(NotADigest)
    ensures id in users && users[id].password.Argon2? && !ComparePassword(users[id], oldPassword) ==>
              r.result == Internal(IncorrectPassword)
    ensures id in users && ComparePassword(users[id], oldPassword) && oldPassword == newPassword ==>
              r.result == Internal(PasswordUnchanged)
    ensures id in users && ComparePassword(users[id], oldPassword) && oldPassword != newPassword
            && users[id].meta.status == LOCKED ==>
              r.result == Internal(AccountLocked)
    ensures r.result.Ok? <==>
              id in users && ComparePassword(users[id], oldPassword) && oldPassword != newPassword
              && users[id].meta.status != LOCKED
    ensures r.result.Ok? ==>
              && r.result.value == id
              && r.state.Keys == users.Keys
              && (forall k :: k in users && k != id ==> r.state[k] == users[k])
              && r.state[id].(password := users[id].password) == users[id]
              && (forall q :: ComparePassword(r.state[id], q) <==> q == newPassword)
  {
    if id !in users then Change(users, Internal(NullReference))
    else
      var u := users[id];
      if u.password.Plain? then Change(users, Internal(NotADigest))
      else if !ComparePassword(u, oldPassword) then Change(users, Internal(IncorrectPassword))
      else if oldPassword == newPassword then Change(users, Internal(PasswordUnchanged))
      else if u.meta.status == LOCKED then Change(users, Internal(AccountLocked))
      else
        var v := HashPassword(u.(password := Plain(newPassword)), salt);
        Change(users[id := v], Ok(id))
  }

  /** `getUserById`: that user, or a not-found failure exactly when the id is
      absent. */
  function GetUserById(users: Users, id: UserId): (r: Result<User>)
    ensures r.Ok? <==> id in users
    ensures r.Ok? ==> r.value == users[id]
    ensures r.Err? ==> r == Internal(UserNotFound)
  {
    if id in users then Ok(users[id]) else Internal(UserNotFound)
  }

  /** `updateProfile`: a missing user, then a missing "Completed" status, fails
      with nothing written. Otherwise the names are set as given (the
      request body must carry both), the audit columns record the user and `now`, and
      the profile status becomes the "Completed" status; no other user
      changes. */
  function UpdateProfile(users: Users, statuses: Statuses, id: UserId,
                         firstName: string, lastName: string, now: int)
    : (r: Change<Users, User>)
    ensures r.result.Err? ==> r.state == users && r.result.kind == InternalServerError
    ensures id !in users ==> r.result == Internal(UserNotFound)
    ensures id in users && FindByName(statuses, COMPLETED_STATUS).None? ==> r.result == Internal(StatusNotFound)
    ensures r.result.Ok? <==> id in users && FindByName(statuses, COMPLETED_STATUS).Some?
    ensures r.result.Ok? ==>
              var v := r.result.value;
              && r.state == users[id := v]
              && v.firstName == Some(firstName) && v.lastName == Some(lastName)
              && v.statusId.Some? && v.statusId.value in statuses
              && statuses[v.statusId.value].name == COMPLETED_STATUS
              && v.meta.updatedBy == Some(id) && v.meta.updatedAt == Some(now)
              && v.meta.statusChangedBy == Some(id) && v.meta.statusChangedAt == Some(now)
              && v.meta.statusChangeReason == Some("User updated")
              && v.meta.status == users[id].meta.status && v.meta.version == users[id].meta.version
              && v.(firstName := users[id].firstName, lastName := users[id].lastName,
                    statusId := users[id].statusId, meta := users[id].meta) == users[id]
  {
    if id !in users then Change(users, Internal(UserNotFound))
    else
      match FindByName(statuses, COMPLETED_STATUS)
      case None => Change(users, Internal(StatusNotFound))
      case Some(sid) =>
        var u := users[id];
        var meta := u.meta.(updatedBy := Some(id), updatedAt := Some(now), statusChangedBy := Some(id),
                            statusChangedAt := Some(now), statusChangeReason := Some("User updated"));
        var v := u.(firstName := Some(firstName), lastName := Some(lastName), meta := meta, statusId := Some(sid));
        Change(users[id := v], Ok(v))
  }

  /** Reading a user back after a successful profile update gives the row
      the update wrote, and the other users as they were. */
  lemma ProfileReadBack(users: Users, statuses: Statuses, id: UserId,
                        firstName: string, lastName: string, now: int, other: UserId)
    requires UpdateProfile(users, statuses, id, firstName, lastName, now).result.Ok?
    ensures var r := UpdateProfile(users, statuses, id, firstName, lastName, now);
            && GetUserById(r.state, id) == r.result
            && (other != id ==> GetUserById(r.state, other) == GetUserById(users, other))
  {
  }

  /** `validateUser` as its lockout is evidently meant: a right password also
      clears the failure counter, so only consecutive failures count. */
  function ValidateUserIntended(users: Users, email: string, password: string, passwordRetries: int)
    : (r: Change<Users, User>)
    ensures r.result.Ok? <==>
              FindByEmail(users, email).Some? && ComparePassword(users[FindByEmail(users, email).value], password)
    ensures r.result.Ok? ==>
              var id := FindByEmail(users, email).value;
              && r.state == users[id := users[id].(failedAttempts := 0)]
              && r.result.value == r.state[id]
    ensures r.result.Err? ==> r == ValidateUser(users, email, password, passwordRetries)
  {
    match FindByEmail(users, email)
    case None => ValidateUser(users, email, password, passwordRetries)
    case Some(id) =>
      var u := users[id];
      if ComparePassword(u, password) then
        var v := u.(failedAttempts := 0);
        Change(users[id := v], Ok(v))
      else ValidateUser(users, email, password, passwordRetries)
  }

  /** As written, failures separated by successful logins still add up: with
      a limit of three, two wrong passwords, a right one and one more wrong
      one lock the account. */
  lemma NonConsecutiveFailuresLock(users: Users, email: string, wrong: string, right: string)
    requires FindByEmail(users, email).Some?
    requires var u := users[FindByEmail(users, email).value];
             !ComparePassword(u, wrong) && ComparePassword(u, right)
             && u.failedAttempts == 0 && u.meta.status != LOCKED
    ensures var id := FindByEmail(users, email).value;
            var s2 := ValidateTimes(users, email, wrong, 3, 2);
            var ok := ValidateUser(s2, email, right, 3);
            var last := ValidateUser(ok.state, email, wrong, 3);
            && ok.result.Ok?
            && last.result == Internal(MaxPasswordAttempts)
            && id in last.state && last.state[id].meta.status == LOCKED
  {
    var id := FindByEmail(users, email).value;
    FailuresAccumulate(users, email, wrong, 3, 2);
    RecountedCounts(users[id], 3, 2);
    var s2 := ValidateTimes(users, email, wrong, 3, 2);
    FailureStep(s2, email, wrong, 3, id);
  }

  /** With the counter cleared on success, the same sequence leaves the
      account unlocked when the two failures before the success stayed
      below the limit: one failure after a success counts as the first. */
  lemma SuccessClearsCounterIntended(users: Users, email: string, wrong: string, right: string,
                                     passwordRetries: int)
    requires FindByEmail(users, email).Some?
    requires var u := users[FindByEmail(users, email).value];
             && !ComparePassword(u, wrong) && ComparePassword(u, right) && u.meta.status != LOCKED
             && u.failedAttempts + 2 < passwordRetries
    ensures var id := FindByEmail(users, email).value;
            var s2 := ValidateTimes(users, email, wrong, passwordRetries, 2);
            var ok := ValidateUserIntended(s2, email, right, passwordRetries);
            var last := ValidateUserIntended(ok.state, email, wrong, passwordRetries);
            && ok.result.Ok?
            && last.result == Internal(IncorrectPasswordKindlyReset)
            && id in last.state && last.state[id].failedAttempts == 1
            && last.state[id].meta == users[id].meta
            && last.state[id].meta.status != LOCKED
  {
    var id := FindByEmail(users, email).value;
    FailuresAccumulate(users, email, wrong, passwordRetries, 2);
    RecountedCounts(users[id], passwordRetries, 2);
    var s2 := ValidateTimes(users, email, wrong, passwordRetries, 2);
    var ok := ValidateUserIntended(s2, email, right, passwordRetries);
    FindByEmailAfterUpdate(s2, id, ok.state[id], email);
  }
}
