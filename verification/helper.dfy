/** The helper service: e-mail dispatch whose failures are swallowed, and the
    password-free copy of a user that is cached. */
module Helper {
  import opened Outcomes
  import opened UserEntity

  /** Which one-time-code message a mail carries; each purpose has its own
      subject line and text template. */
  datatype Purpose = AccountRegistration | PasswordReset

  function Subject(p: Purpose): string
  {
    match p
    case AccountRegistration => "Account Registration"
    case PasswordReset => "Password Reset"
  }

  /** A rendered template, kept as the values the template was given. */
  datatype Notice = CodeNotice(purpose: Purpose, code: string, expiresAt: int)

  datatype Mail = Mail(to: string, from: string, subject: string, text: Notice)

  const SENDER: string := "collinsceleb@gmail.com"

  /** `sendEmail(to, text, subject)`: the provider's answer is `delivered`.
      A refused dispatch is logged and the call returns normally, so no
      outcome of the provider reaches the caller as an error. */
  function SendEmail(outbox: seq<Mail>, to: string, text: Notice, subject: string, delivered: bool)
    : (r: seq<Mail>)
    ensures outbox <= r && |r| <= |outbox| + 1
    ensures |r| == |outbox| + 1 <==> delivered
    ensures delivered ==> r[|outbox|].to == to && r[|outbox|].text == text
                          && r[|outbox|].subject == subject && r[|outbox|].from == SENDER
  {
    if delivered then outbox + [Mail(to, SENDER, subject, text)] else outbox
  }

  /** Every mail the service sends carries the one sender address. */
  lemma SendKeepsSender(outbox: seq<Mail>, to: string, text: Notice, subject: string, delivered: bool)
    requires forall i :: 0 <= i < |outbox| ==> outbox[i].from == SENDER
    ensures var r := SendEmail(outbox, to, text, subject, delivered);
            forall i :: 0 <= i < |r| ==> r[i].from == SENDER
  {
  }

  /** Two dispatches in a row leave the delivered mails in the order they
      were sent, and a refused one leaves no trace. */
  lemma SendsInOrder(outbox: seq<Mail>, to1: string, text1: Notice, subject1: string, delivered1: bool,
                     to2: string, text2: Notice, subject2: string, delivered2: bool)
    requires delivered1 && delivered2
    ensures var r := SendEmail(SendEmail(outbox, to1, text1, subject1, delivered1),
                               to2, text2, subject2, delivered2);
            && |r| == |outbox| + 2 && outbox <= r
            && r[|outbox|].text == text1 && r[|outbox|].to == to1
            && r[|outbox| + 1].text == text2 && r[|outbox| + 1].to == to2
  {
  }

  /** A user with the password column removed. */
  datatype CachedUser = CachedUser(
    email: string,
    firstName: Option<string>,
    lastName: Option<string>,
    failedAttempts: nat,
    lastLogin: Option<int>,
    meta: Meta,
    emailStatus: RecordStatus,
    statusId: Option<StatusId>)

  /** `sanitizeUserForCache`: every column except the password. */
  function SanitizeUserForCache(u: User): (c: CachedUser)
    ensures c.email == u.email && c.firstName == u.firstName && c.lastName == u.lastName
    ensures c.failedAttempts == u.failedAttempts && c.lastLogin == u.lastLogin
    ensures c.meta == u.meta && c.emailStatus == u.emailStatus && c.statusId == u.statusId
  {
    CachedUser(u.email, u.firstName, u.lastName, u.failedAttempts, u.lastLogin,
               u.meta, u.emailStatus, u.statusId)
  }

  /** Puts a password back on a cached user. */
  function WithPassword(c: CachedUser, password: Secret): User
  {
    User(c.email, password, c.firstName, c.lastName, c.failedAttempts, c.lastLogin,
         c.meta, c.emailStatus, c.statusId)
  }

  /** The cached copy determines the user up to the password and nothing
      more: two users have equal cached copies exactly when they differ at
      most in their password, and restoring the password restores the user. */
  lemma SanitizeDropsExactlyPassword(u: User, v: User)
    ensures SanitizeUserForCache(u) == SanitizeUserForCache(v) <==> u.(password := v.password) == v
    ensures WithPassword(SanitizeUserForCache(u), u.password) == u
  {
  }
}
