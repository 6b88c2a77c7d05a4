/** Properties that span several calls of the credential and authentication
    services: the life of an account from registration to login, what a
    password reset does to the lockout counter and to a deleted account, and
    the reset as it is evidently meant to behave. */
module AccountLifecycle {
  import opened Outcomes
  import opened Environment
  import opened UserEntity
  import opened Verifications
  import opened Helper
  import opened UserService
  import AuthService

  /** Registration keeps the e-mail column unique. */
  lemma RegisterKeepsEmailsUnique(s: Identity, email: string, password: string, env: Env)
    requires UniqueEmails(s.users)
    ensures UniqueEmails(Register(s, email, password, env).state.users)
  {
  }

  /** After registering a fresh address, the lookups by that address find
      the new user and the new ticket. */
  lemma RegisteredRowsAreFound(s: Identity, email: string, password: string, env: Env)
    requires IsEmail(email)
    requires forall id :: id in s.users ==> s.users[id].email != email
    requires FindOne(s.tickets, email).None?
    ensures var reg := Register(s, email, password, env);
            && reg.result.Ok?
            && FindByEmail(reg.state.users, email) == Some(reg.result.value.userId)
            && FindOne(reg.state.tickets, email) == Some(reg.result.value.ticketId)
  {
    var reg := Register(s, email, password, env);
    var g := reg.result.value;
    var f := FindByEmail(reg.state.users, email);
    assert reg.state.users[g.userId].email == email;
    assert f.Some?;
  }

  /** A successful verification leaves an account that logs in with its
      password, provided it was active. */
  lemma VerifiedAccountLogsIn(s: Identity, email: string, passcode: string, password: string,
                              cfg: Config, env: Env, env2: Env)
    requires VerifyEmail(s, email, passcode, cfg, env).result.Ok?
    requires var u := s.users[FindByEmail(s.users, email).value];
             u.meta.status == ACTIVE && ComparePassword(u, password)
    requires IsEmail(email)
    ensures var ver := VerifyEmail(s, email, passcode, cfg, env);
            var log := Login(ver.state, Str(email), Str(password), env2);
            log.result.Ok? && log.result.value.sub == FindByEmail(s.users, email).value
  {
    var ver := VerifyEmail(s, email, passcode, cfg, env);
    var uid := FindByEmail(s.users, email).value;
    FindByEmailAfterUpdate(s.users, uid, ver.result.value, email);
  }

  /** Registering a fresh address, verifying it with the code just issued
      before that code expires, and logging in with the registered password
      succeeds, and the token names the registered user. */
  lemma RegisterVerifyLogin(s: Identity, email: string, password: string, cfg: Config,
                            env1: Env, env2: Env, env3: Env)
    requires IsEmail(email)
    requires forall id :: id in s.users ==> s.users[id].email != email
    requires FindOne(s.tickets, email).None?
    requires env2.now <= env1.now + TTL_MS
    ensures var reg := Register(s, email, password, env1);
            && reg.result.Ok?
            && var code := reg.state.tickets[reg.result.value.ticketId].passcode;
            && var ver := VerifyEmail(reg.state, email, code, cfg, env2);
            && ver.result.Ok?
            && var log := Login(ver.state, Str(email), Str(password), env3);
            && log.result.Ok? && log.result.value.sub == reg.result.value.userId
  {
    RegisteredRowsAreFound(s, email, password, env1);
    var reg := Register(s, email, password, env1);
    var g := reg.result.value;
    var code := reg.state.tickets[g.ticketId].passcode;
    assert CodeAccepted(reg.state.tickets, email, code, env2.now);
    VerifiedAccountLogsIn(reg.state, email, code, password, cfg, env2, env3);
  }

  /** Once an address is verified, verifying it again is refused and writes
      nothing, whatever code is offered. */
  lemma VerifyTwiceIsRefused(s: Identity, email: string, passcode: string, again: string,
                             cfg: Config, env: Env, env2: Env)
    requires VerifyEmail(s, email, passcode, cfg, env).result.Ok?
    ensures var once := VerifyEmail(s, email, passcode, cfg, env);
            VerifyEmail(once.state, email, again, cfg, env2) == Step(once.state, Internal(EmailAlreadyVerified))
  {
    var once := VerifyEmail(s, email, passcode, cfg, env);
    var uid := FindByEmail(s.users, email).value;
    FindByEmailAfterUpdate(s.users, uid, once.result.value, email);
  }

  /** As written, a reset unlocks the account but keeps the failure counter,
      so for an account locked by reaching the limit the very next wrong
      password locks it again. */
  lemma ResetLeavesOneFailureToLock(s: Identity, email: string, passcode: string, newPassword: string,
                                    wrong: string, cfg: Config, env: Env)
    requires FindByEmail(s.users, email).Some?
    requires s.users[FindByEmail(s.users, email).value].failedAttempts + 1 >= cfg.passwordRetries
    requires CodeAccepted(s.tickets, email, passcode, env.now)
    requires wrong != newPassword
    ensures var reset := ResetPassword(s, email, passcode, newPassword, cfg, env);
            var uid := FindByEmail(s.users, email).value;
            var next := AuthService.ValidateUser(reset.state.users, email, wrong, cfg.passwordRetries);
            && reset.result.Ok? && reset.result.value.meta.status == ACTIVE
            && next.result == Internal(MaxPasswordAttempts)
            && uid in next.state && next.state[uid].meta.status == LOCKED
  {
    var reset := ResetPassword(s, email, passcode, newPassword, cfg, env);
    var uid := FindByEmail(s.users, email).value;
    FindByEmailAfterUpdate(s.users, uid, reset.result.value, email);
  }

  /** A forgotten-password request for an account with no open ticket issues
      the code that a reset needs: resetting with that code before it
      expires succeeds, activates the account and stores the new password. */
  lemma ForgotThenReset(s: Identity, email: string, newPassword: string, cfg: Config,
                        env1: Env, env2: Env)
    requires FindByEmail(s.users, email).Some?
    requires s.users[FindByEmail(s.users, email).value].meta.status != DELETED
    requires FindOne(s.tickets, email).None?
    requires env2.now <= env1.now + TTL_MS
    ensures var forgot := ForgotPassword(s, email, env1);
            && forgot.result.Ok?
            && FindOne(forgot.state.tickets, email) == Some(forgot.result.value.ticketId)
            && var code := forgot.state.tickets[forgot.result.value.ticketId].passcode;
            && var reset := ResetPassword(forgot.state, email, code, newPassword, cfg, env2);
            && reset.result.Ok?
            && reset.result.value.meta.status == ACTIVE
            && (forall q :: ComparePassword(reset.result.value, q) <==> q == newPassword)
  {
    var forgot := ForgotPassword(s, email, env1);
    var i := CreateVerification(s.tickets, s.outbox, email, PasswordReset, env1);
    assert forgot.state.tickets == i.tickets;
    assert FindOne(forgot.state.tickets, email) == Some(i.id);
  }

  /** As written, a reset does not refuse a deleted account: a first reset
      call with any code finds no ticket and mails a fresh one, and a second
      call with that code, before it expires, makes the account active again
      under a new password. */
  lemma DeletedAccountReactivated(s: Identity, email: string, anyCode: string, newPassword: string,
                                  cfg: Config, env1: Env, env2: Env)
    requires FindByEmail(s.users, email).Some?
    requires s.users[FindByEmail(s.users, email).value].meta.status == DELETED
    requires FindOne(s.tickets, email).None?
    requires env2.now <= env1.now + TTL_MS
    ensures var first := ResetPassword(s, email, anyCode, newPassword, cfg, env1);
            && first.result == Internal(NoResetCodeFound)
            && FindOne(first.state.tickets, email).Some?
            && var code := first.state.tickets[FindOne(first.state.tickets, email).value].passcode;
            && var second := ResetPassword(first.state, email, code, newPassword, cfg, env2);
            && second.result.Ok?
            && second.result.value.meta.status == ACTIVE
            && (forall q :: ComparePassword(second.result.value, q) <==> q == newPassword)
  {
    var first := ResetPassword(s, email, anyCode, newPassword, cfg, env1);
    var i := CreateVerification(s.tickets, s.outbox, email, PasswordReset, env1);
    assert first.state.tickets == i.tickets;
    assert FindOne(first.state.tickets, email) == Some(i.id);
  }

  /** `resetPassword` as evidently intended: a deleted account is refused as
      the forgotten-password and login paths refuse it, and a successful
      reset also clears the failure counter. Every other outcome is the one
      of the reset as written. */
  function ResetPasswordIntended(s: Identity, email: string, passcode: string, newPassword: string,
                                 cfg: Config, env: Env): (r: Step<User>)
    ensures FindByEmail(s.users, email).None? ==> r == Step(s, Internal(UserNotFound))
    ensures FindByEmail(s.users, email).Some? && s.users[FindByEmail(s.users, email).value].meta.status == DELETED ==>
              r == Step(s, Internal(AccountDoesNotExist))
    ensures r.result.Ok? <==>
              && FindByEmail(s.users, email).Some?
              && s.users[FindByEmail(s.users, email).value].meta.status != DELETED
              && CodeAccepted(s.tickets, email, passcode, env.now)
    ensures r.result.Ok? ==>
              var uid := FindByEmail(s.users, email).value;
              var v := r.result.value;
              && v.failedAttempts == 0
              && v.meta.status == ACTIVE
              && (forall q :: ComparePassword(v, q) <==> q == newPassword)
              && v.email == s.users[uid].email
              && r.state.users == s.users[uid := v]
              && r.state.tickets == ResetPassword(s, email, passcode, newPassword, cfg, env).state.tickets
    ensures r.result.Err? && FindByEmail(s.users, email).Some?
            && s.users[FindByEmail(s.users, email).value].meta.status != DELETED ==>
              r == ResetPassword(s, email, passcode, newPassword, cfg, env)
  {
    match FindByEmail(s.users, email)
    case None => Step(s, Internal(UserNotFound))
    case Some(uid) =>
      if s.users[uid].meta.status == DELETED then Step(s, Internal(AccountDoesNotExist))
      else
        var asWritten := ResetPassword(s, email, passcode, newPassword, cfg, env);
        match asWritten.result
        case Err(_, _) => asWritten
        case Ok(v) =>
          var w := v.(failedAttempts := 0);
          Step(asWritten.state.(users := s.users[uid := w]), Ok(w))
  }

  /** After the intended reset the counter starts again: one wrong password
      is counted as the first failure and does not lock the account. */
  lemma ResetClearsCounterIntended(s: Identity, email: string, passcode: string, newPassword: string,
                                   wrong: string, cfg: Config, env: Env)
    requires FindByEmail(s.users, email).Some?
    requires s.users[FindByEmail(s.users, email).value].meta.status != DELETED
    requires CodeAccepted(s.tickets, email, passcode, env.now)
    requires wrong != newPassword
    requires cfg.passwordRetries > 1
    ensures var reset := ResetPasswordIntended(s, email, passcode, newPassword, cfg, env);
            var uid := FindByEmail(s.users, email).value;
            var next := AuthService.ValidateUser(reset.state.users, email, wrong, cfg.passwordRetries);
            && reset.result.Ok?
            && next.result == Internal(IncorrectPasswordKindlyReset)
            && uid in next.state && next.state[uid].failedAttempts == 1
            && next.state[uid].meta.status == ACTIVE
  {
    var reset := ResetPasswordIntended(s, email, passcode, newPassword, cfg, env);
    var uid := FindByEmail(s.users, email).value;
    FindByEmailAfterUpdate(s.users, uid, reset.result.value, email);
  }

  /** With the intended reset a deleted account stays deleted: the two calls
      that reactivate it as written are both refused and write nothing. */
  lemma DeletedAccountStaysDeletedIntended(s: Identity, email: string, anyCode: string, code: string,
                                           newPassword: string, cfg: Config, env1: Env, env2: Env)
    requires FindByEmail(s.users, email).Some?
    requires s.users[FindByEmail(s.users, email).value].meta.status == DELETED
    ensures var first := ResetPasswordIntended(s, email, anyCode, newPassword, cfg, env1);
            var second := ResetPasswordIntended(first.state, email, code, newPassword, cfg, env2);
            && first == Step(s, Internal(AccountDoesNotExist))
            && second == Step(s, Internal(AccountDoesNotExist))
  {
  }
}
