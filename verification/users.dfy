/** The credential service: registration, e-mail verification, forgotten and
    reset passwords, and login. Every operation maps a state to the state it
    leaves behind and what the caller sees; when an operation fails, the
    state it leaves holds exactly the writes that escape its transaction
    (ticket writes, which the ticket store commits on its own). */
module UserService {
  import opened Outcomes
  import opened Environment
  import opened UserEntity
  import opened Helper
  import opened Verifications

  /** Limits read from configuration. */
  datatype Config = Config(verificationRetries: int, passwordRetries: int)

  /** The persistent state the credential service touches. */
  datatype Identity = Identity(users: Users, tickets: Tickets, outbox: seq<Mail>)

  /** The state an operation leaves and the outcome its caller sees. */
  datatype Step<+T> = Step(state: Identity, result: Result<T>)

  /** Stand-in for the validator library's `isEmail`: an '@' with a
      non-empty part on each side. */
  predicate IsEmail(s: string)
  {
    exists i | 0 < i < |s| - 1 :: s[i] == '@'
  }

  /** `Math.max(0, x)`. */
  function Max0(x: int): nat
  {
    if x < 0 then 0 else x
  }

  // ---------------------------------------------------------------------
  // The one-time-code check shared by verifyEmail and resetPassword
  // ---------------------------------------------------------------------

  /** A fresh ticket for `email` is issued; users are untouched. */
  function Reissue(s: Identity, email: string, purpose: Purpose, env: Env): Identity
  {
    var i := CreateVerification(s.tickets, s.outbox, email, purpose, env);
    Identity(s.users, i.tickets, i.outbox)
  }

  function NoTicketMsg(purpose: Purpose): Msg
  {
    match purpose
    case AccountRegistration => NoVerificationFound
    case PasswordReset => NoResetCodeFound
  }

  /** A code is accepted exactly when the ticket the lookup returns carries
      that code and has not expired; expiry is strict (`expiresAt < now`). */
  predicate CodeAccepted(tickets: Tickets, email: string, passcode: string, now: int)
  {
    var found := FindOne(tickets, email);
    found.Some? && tickets[found.value].passcode == passcode
    && now <= tickets[found.value].expiresAt
  }

  datatype Attempt = Accepted(id: TicketId) | Rejected(msg: Msg)

  datatype Checked = Checked(state: Identity, attempt: Attempt)

  /** The branch order of both callers: no ticket, then wrong code, then
      expired, then accepted. A wrong code is counted on the ticket; once
      the count reaches the limit the ticket is replaced by a fresh one. */
  function AttemptTicket(s: Identity, email: string, passcode: string, purpose: Purpose,
                         cfg: Config, env: Env): (r: Checked)
    ensures r.state.users == s.users
    ensures FindOne(s.tickets, email).None? ==>
              r == Checked(Reissue(s, email, purpose, env), Rejected(NoTicketMsg(purpose)))
    ensures r.attempt.Accepted? <==> CodeAccepted(s.tickets, email, passcode, env.now)
    ensures r.attempt.Accepted? ==> r.state == s && Some(r.attempt.id) == FindOne(s.tickets, email)
  {
    match FindOne(s.tickets, email)
    case None =>
      Checked(Reissue(s, email, purpose, env), Rejected(NoTicketMsg(purpose)))
    case Some(id) =>
      var t := s.tickets[id];
      if t.passcode != passcode then
        var tries := Max0(t.tries + 1);
        var saved := s.(tickets := s.tickets[id := t.(tries := tries)]);
        if tries >= cfg.verificationRetries then
          Checked(Reissue(saved.(tickets := DeleteVerification(saved.tickets, id)), email, purpose, env),
                  Rejected(MaxVerificationAttempts))
        else
          Checked(saved, Rejected(InvalidCode(cfg.verificationRetries - tries)))
      else if t.expiresAt < env.now then
        Checked(Reissue(s.(tickets := DeleteVerification(s.tickets, id)), email, purpose, env),
                Rejected(CodeExpired))
      else
        Checked(s, Accepted(id))
  }

  /** A wrong code below the limit raises that ticket's tries by exactly one,
      persists it, touches nothing else and reports the attempts left. */
  lemma WrongCodeCountsOneTry(s: Identity, email: string, passcode: string, purpose: Purpose,
                              cfg: Config, env: Env)
    requires FindOne(s.tickets, email).Some?
    requires var t := s.tickets[FindOne(s.tickets, email).value];
             t.passcode != passcode && 0 <= t.tries && t.tries + 1 < cfg.verificationRetries
    ensures var id := FindOne(s.tickets, email).value;
            var t := s.tickets[id];
            var r := AttemptTicket(s, email, passcode, purpose, cfg, env);
            && r.attempt == Rejected(InvalidCode(cfg.verificationRetries - (t.tries + 1)))
            && r.state.tickets.Keys == s.tickets.Keys
            && r.state.tickets[id].tries == t.tries + 1
            && r.state.tickets[id].(tries := t.tries) == t
            && (forall k :: k in s.tickets && k != id ==> r.state.tickets[k] == s.tickets[k])
            && r.state.outbox == s.outbox
  {
  }

  /** A wrong code that brings the count to the limit destroys that ticket and
      issues a fresh one with no tries; the caller learns the limit was hit. */
  lemma WrongCodeAtLimitReplacesTicket(s: Identity, email: string, passcode: string,
                                       purpose: Purpose, cfg: Config, env: Env)
    requires FindOne(s.tickets, email).Some?
    requires var t := s.tickets[FindOne(s.tickets, email).value];
             t.passcode != passcode && Max0(t.tries + 1) >= cfg.verificationRetries
    ensures var id := FindOne(s.tickets, email).value;
            var r := AttemptTicket(s, email, passcode, purpose, cfg, env);
            var i := CreateVerification(s.tickets - {id}, s.outbox, email, purpose, env);
            && r.attempt == Rejected(MaxVerificationAttempts)
            && r.state.tickets.Keys == (s.tickets.Keys - {id}) + {i.id}
            && r.state.tickets == i.tickets && r.state.outbox == i.outbox
            && r.state.tickets[i.id].tries == 0 && r.state.tickets[i.id].email == email
  {
    var id := FindOne(s.tickets, email).value;
    var t := s.tickets[id];
    assert (s.tickets[id := t.(tries := Max0(t.tries + 1))]) - {id} == s.tickets - {id};
  }

  /** The passcode is compared before the expiry: a wrong code on an expired
      ticket is counted as a try, never reported as expired. */
  lemma WrongCodeBeforeExpiry(s: Identity, email: string, passcode: string, purpose: Purpose,
                              cfg: Config, env: Env)
    requires FindOne(s.tickets, email).Some?
    requires s.tickets[FindOne(s.tickets, email).value].passcode != passcode
    ensures var r := AttemptTicket(s, email, passcode, purpose, cfg, env);
            r.attempt.Rejected? && r.attempt.msg != CodeExpired
  {
  }

  /** Expiry is strict: the right code is accepted while `now` has not passed
      `expiresAt`, including `now == expiresAt`; once it has, the ticket is
      replaced by a fresh one and the call reports expiry. */
  lemma ExpiryIsStrict(s: Identity, email: string, purpose: Purpose, cfg: Config, env: Env)
    requires FindOne(s.tickets, email).Some?
    ensures var id := FindOne(s.tickets, email).value;
            var t := s.tickets[id];
            var r := AttemptTicket(s, email, t.passcode, purpose, cfg, env);
            && (env.now == t.expiresAt ==> r == Checked(s, Accepted(id)))
            && (t.expiresAt < env.now ==>
                  && r.attempt == Rejected(CodeExpired)
                  && r.state == Reissue(s.(tickets := s.tickets - {id}), email, purpose, env))
  {
  }

  /** Every stored ticket is below the retry limit. */
  ghost predicate TicketsBelowLimit(tickets: Tickets, limit: int)
  {
    forall id :: id in tickets ==> 0 <= tickets[id].tries < limit
  }

  /** No ticket at or beyond the retry limit survives a check: with a positive
      limit the check preserves "every ticket is below the limit". */
  lemma {:induction false} AttemptKeepsTicketsBelowLimit(s: Identity, email: string, passcode: string,
                                                       purpose: Purpose, cfg: Config, env: Env)
    requires cfg.verificationRetries >= 1
    requires TicketsBelowLimit(s.tickets, cfg.verificationRetries)
    ensures TicketsBelowLimit(AttemptTicket(s, email, passcode, purpose, cfg, env).state.tickets,
                              cfg.verificationRetries)
  {
    var r := AttemptTicket(s, email, passcode, purpose, cfg, env);
    match FindOne(s.tickets, email)
    case None =>
      IssueKeepsBelowLimit(s, email, purpose, cfg, env);
    case Some(id) =>
      var t := s.tickets[id];
      if t.passcode != passcode {
        var tries := Max0(t.tries + 1);
        var saved := s.(tickets := s.tickets[id := t.(tries := tries)]);
        if tries >= cfg.verificationRetries {
          var kept := saved.(tickets := DeleteVerification(saved.tickets, id));
          assert TicketsBelowLimit(kept.tickets, cfg.verificationRetries);
          IssueKeepsBelowLimit(kept, email, purpose, cfg, env);
        } else {
          assert r.state == saved;
        }
      } else if t.expiresAt < env.now {
        var kept := s.(tickets := DeleteVerification(s.tickets, id));
        assert TicketsBelowLimit(kept.tickets, cfg.verificationRetries);
        IssueKeepsBelowLimit(kept, email, purpose, cfg, env);
      }
  }

  lemma IssueKeepsBelowLimit(s: Identity, email: string, purpose: Purpose, cfg: Config, env: Env)
    requires cfg.verificationRetries >= 1
    requires TicketsBelowLimit(s.tickets, cfg.verificationRetries)
    ensures TicketsBelowLimit(Reissue(s, email, purpose, env).tickets, cfg.verificationRetries)
  {
  }

  // ---------------------------------------------------------------------
  // Operations
  // ---------------------------------------------------------------------

  /** What registration and a password-reset request hand back. */
  datatype Grant = Grant(userId: UserId, user: User, ticketId: TicketId)

  /** `checkUserExists`: fails, as a bad request, exactly when some user
      already holds the address, whatever that user's status. */
  function CheckUserExists(users: Users, email: string): (r: Result<bool>)
    ensures r.Err? <==> exists id :: id in users && users[id].email == email
    ensures r.Err? ==> r.kind == BadRequest && r.msg == EmailAlreadyExists
    ensures r.Ok? ==> !r.value
  {
    if FindByEmail(users, email).Some? then Err(BadRequest, EmailAlreadyExists) else Ok(false)
  }

  /** `register`: a malformed or taken address fails before anything is
      written. Otherwise exactly one user is added (unverified, password
      stored as the digest of the given one) and one ticket is issued to
      that address. */
  function Register(s: Identity, email: string, password: string, env: Env): (r: Step<Grant>)
    ensures !IsEmail(email) ==> r == Step(s, Internal(InvalidEmailFormat))
    ensures IsEmail(email) && (exists id :: id in s.users && s.users[id].email == email) ==>
              r == Step(s, Internal(EmailAlreadyExists))
    ensures r.result.Ok? <==>
              IsEmail(email) && forall id :: id in s.users ==> s.users[id].email != email
    ensures r.result.Ok? ==>
              var g := r.result.value;
              && g.userId !in s.users
              && r.state.users == s.users[g.userId := g.user]
              && g.user.email == email
              && g.user.emailStatus == UNVERIFIED
              && g.user.meta.status == ACTIVE
              && g.user.failedAttempts == 0
              && g.user.statusId.None?
              && (forall q :: ComparePassword(g.user, q) <==> q == password)
              && g.ticketId !in s.tickets
              && r.state.tickets.Keys == s.tickets.Keys + {g.ticketId}
              && r.state.tickets[g.ticketId].email == email
              && r.state.tickets[g.ticketId].tries == 0
              && (forall k :: k in s.tickets ==> r.state.tickets[k] == s.tickets[k])
  {
    if !IsEmail(email) then Step(s, Internal(InvalidEmailFormat))
    else
      match CheckUserExists(s.users, email)
      case Err(_, m) => Step(s, Internal(m))
      case Ok(_) =>
        var id := Tables.Fresh(s.users.Keys);
        var u := HashPassword(NewUser(email, password), env.salt);
        var i := CreateVerification(s.tickets, s.outbox, email, AccountRegistration, env);
        Step(Identity(s.users[id := u], i.tickets, i.outbox), Ok(Grant(id, u, i.id)))
  }

  predicate AlreadyVerified(users: Users, email: string)
  {
    var found := FindByEmail(users, email);
    found.Some? && users[found.value].emailStatus == VERIFIED
  }

  /** `verifyEmail`: an unknown address fails and an already verified one
      fails before any ticket is touched; otherwise the shared code check
      runs, and its ticket writes survive its failure. Success marks the
      address verified, bumps the version by one, changes nothing else on
      the user and consumes the ticket. */
  function VerifyEmail(s: Identity, email: string, passcode: string, cfg: Config, env: Env)
    : (r: Step<User>)
    ensures FindByEmail(s.users, email).None? ==> r == Step(s, Internal(UserNotFound))
    ensures AlreadyVerified(s.users, email) ==> r == Step(s, Internal(EmailAlreadyVerified))
    ensures r.result.Err? ==> r.result.kind == InternalServerError && r.state.users == s.users
    ensures FindByEmail(s.users, email).Some? && !AlreadyVerified(s.users, email) && r.result.Err? ==>
              var c := AttemptTicket(s, email, passcode, AccountRegistration, cfg, env);
              r.state == c.state && c.attempt.Rejected? && r.result.msg == c.attempt.msg
    ensures r.result.Ok? <==>
              FindByEmail(s.users, email).Some? && !AlreadyVerified(s.users, email)
              && CodeAccepted(s.tickets, email, passcode, env.now)
    ensures r.result.Ok? ==>
              var uid := FindByEmail(s.users, email).value;
              var tid := FindOne(s.tickets, email).value;
              var u := s.users[uid];
              var v := r.result.value;
              && v.emailStatus == VERIFIED
              && v.meta.version == u.meta.version + 1
              && v.(emailStatus := u.emailStatus, meta := v.meta.(version := u.meta.version)) == u
              && r.state == Identity(s.users[uid := v], DeleteVerification(s.tickets, tid), s.outbox)
  {
    match FindByEmail(s.users, email)
    case None => Step(s, Internal(UserNotFound))
    case Some(uid) =>
      var u := s.users[uid];
      if u.emailStatus == VERIFIED then Step(s, Internal(EmailAlreadyVerified))
      else
        var c := AttemptTicket(s, u.email, passcode, AccountRegistration, cfg, env);
        match c.attempt
        case Rejected(m) => Step(c.state, Internal(m))
        case Accepted(tid) =>
          var v := u.(emailStatus := VERIFIED, meta := u.meta.(version := u.meta.version + 1));
          Step(Identity(s.users[uid := v], DeleteVerification(s.tickets, tid), s.outbox), Ok(v))
  }

  /** `forgotPassword`: an unknown or deleted account fails with nothing
      written; otherwise a ticket is issued to the address and the user
      record is left as it was. */
  function ForgotPassword(s: Identity, email: string, env: Env): (r: Step<Grant>)
    ensures FindByEmail(s.users, email).None? ==> r == Step(s, Internal(UserNotFound))
    ensures (FindByEmail(s.users, email).Some?
             && s.users[FindByEmail(s.users, email).value].meta.status == DELETED) ==>
              r == Step(s, Internal(AccountDoesNotExist))
    ensures r.result.Ok? ==>
              var g := r.result.value;
              && Some(g.userId) == FindByEmail(s.users, email)
              && g.user == s.users[g.userId]
              && r.state.users == s.users
              && r.state == Reissue(s, email, PasswordReset, env)
              && g.ticketId !in s.tickets && g.ticketId in r.state.tickets
              && r.state.tickets[g.ticketId].email == email
    ensures r.result.Ok? <==>
              FindByEmail(s.users, email).Some? && s.users[FindByEmail(s.users, email).value].meta.status != DELETED
  {
    match FindByEmail(s.users, email)
    case None => Step(s, Internal(UserNotFound))
    case Some(uid) =>
      var u := s.users[uid];
      if u.meta.status == DELETED then Step(s, Internal(AccountDoesNotExist))
      else
        var i := CreateVerification(s.tickets, s.outbox, u.email, PasswordReset, env);
        Step(Identity(s.users, i.tickets, i.outbox), Ok(Grant(uid, u, i.id)))
  }

  /** `resetPassword`: an unknown address fails; otherwise the shared code
      check runs (deleted accounts are not refused). Success unlocks the
      account, stores the digest of the new password, consumes the ticket
      and leaves every other column, the failure counter included, as it
      was. */
  function ResetPassword(s: Identity, email: string, passcode: string, newPassword: string,
                         cfg: Config, env: Env): (r: Step<User>)
    ensures FindByEmail(s.users, email).None? ==> r == Step(s, Internal(UserNotFound))
    ensures r.result.Err? ==> r.result.kind == InternalServerError && r.state.users == s.users
    ensures FindByEmail(s.users, email).Some? && r.result.Err? ==>
              var c := AttemptTicket(s, email, passcode, PasswordReset, cfg, env);
              r.state == c.state && c.attempt.Rejected? && r.result.msg == c.attempt.msg
    ensures r.result.Ok? <==>
              FindByEmail(s.users, email).Some? && CodeAccepted(s.tickets, email, passcode, env.now)
    ensures r.result.Ok? ==>
              var uid := FindByEmail(s.users, email).value;
              var tid := FindOne(s.tickets, email).value;
              var u := s.users[uid];
              var v := r.result.value;
              && v.meta.status == ACTIVE
              && (forall q :: ComparePassword(v, q) <==> q == newPassword)
              && v.failedAttempts == u.failedAttempts
              && v.(password := u.password, meta := v.meta.(status := u.meta.status)) == u
              && r.state == Identity(s.users[uid := v], DeleteVerification(s.tickets, tid), s.outbox)
  {
    match FindByEmail(s.users, email)
    case None => Step(s, Internal(UserNotFound))
    case Some(uid) =>
      var u := s.users[uid];
      var c := AttemptTicket(s, u.email, passcode, PasswordReset, cfg, env);
      match c.attempt
      case Rejected(m) => Step(c.state, Internal(m))
      case Accepted(tid) =>
        var v := HashPassword(u.(meta := u.meta.(status := ACTIVE), password := Plain(newPassword)), env.salt);
        Step(Identity(s.users[uid := v], DeleteVerification(s.tickets, tid), s.outbox), Ok(v))
  }

  /** A request field as it arrives: a string or some other JSON value. */
  datatype Input = Str(text: string) | NonString

  /** The signed access token's payload; the signature itself is not
      modelled. */
  datatype Token = Token(sub: UserId, email: string, jwtId: nat)

  /** `login`: rejects, in this order, a non-string e-mail, a non-string
      password, a malformed address, a deleted account, an unknown address,
      an unverified address, a locked account, a stored password that is not
      a digest (argon2 throws) and a wrong password, with nothing written; success changes only the user's last-login time and
      returns a token naming that user. */
  function Login(s: Identity, email: Input, password: Input, env: Env): (r: Step<Token>)
    ensures r.result.Err? ==> r.state == s && r.result.kind == InternalServerError
    ensures !email.Str? ==> r.result == Internal(EmailMustBeString)
    ensures email.Str? && !password.Str? ==> r.result == Internal(PasswordMustBeString)
    ensures email.Str? && password.Str? && !IsEmail(email.text) ==> r.result == Internal(InvalidEmailFormat)
    ensures email.Str? && password.Str? && IsEmail(email.text) ==>
              var found := FindByEmail(s.users, email.text);
              && (found.Some? && s.users[found.value].meta.status == DELETED ==>
                    r.result == Internal(AccountDoesNotExist))
              && (found.None? ==> r.result == Internal(UserNotFound))
              && (found.Some? && s.users[found.value].meta.status != DELETED ==>
                    var u := s.users[found.value];
                    && (u.emailStatus == UNVERIFIED ==> r.result == Internal(EmailNotVerified))
                    && (u.emailStatus != UNVERIFIED && u.meta.status == LOCKED ==>
                          r.result == Internal(AccountLocked))
                    && (u.emailStatus != UNVERIFIED && u.meta.status != LOCKED ==>
                          (r.result.Ok? <==> ComparePassword(u, password.text)))
                    && ((u.emailStatus != UNVERIFIED && u.meta.status != LOCKED && u.password.Plain?) ==>
                          r.result == Internal(NotADigest))
                    && ((u.emailStatus != UNVERIFIED && u.meta.status != LOCKED && u.password.Argon2?
                         && !ComparePassword(u, password.text)) ==> r.result == Internal(IncorrectPassword)))
    ensures r.result.Ok? ==>
              && email.Str?
              && var uid := FindByEmail(s.users, email.text).value;
              && r.result.value.sub == uid
              && r.state == s.(users := s.users[uid := s.users[uid].(lastLogin := Some(env.now))])
  {
    if !email.Str? then Step(s, Internal(EmailMustBeString))
    else if !password.Str? then Step(s, Internal(PasswordMustBeString))
    else if !IsEmail(email.text) then Step(s, Internal(InvalidEmailFormat))
    else
      var found := FindByEmail(s.users, email.text);
      if found.Some? && s.users[found.value].meta.status == DELETED then
        Step(s, Internal(AccountDoesNotExist))
      else if found.None? then Step(s, Internal(UserNotFound))
      else
        var uid := found.value;
        var u := s.users[uid];
        if u.emailStatus == UNVERIFIED then Step(s, Internal(EmailNotVerified))
        else if u.meta.status == LOCKED then Step(s, Internal(AccountLocked))
        else if u.password.Plain? then Step(s, Internal(NotADigest))
        else if !ComparePassword(u, password.text) then Step(s, Internal(IncorrectPassword))
        else
          var v := u.(lastLogin := Some(env.now));
          Step(s.(users := s.users[uid := v]), Ok(Token(uid, v.email, env.entropy)))
  }
}
