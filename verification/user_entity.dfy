/** The `users` table: the user record, its defaults and the abstract
    password-hash relation (argon2 is not interpreted). */
module UserEntity {
  import opened Outcomes
  import Tables

  type UserId = nat
  type StatusId = nat

  /** The shared record-status enumeration. */
  datatype RecordStatus =
    | ACTIVE | ARCHIVED | DELETED | REVOKED | DRAFT | PENDING | REJECTED
    | SUSPENDED | VERIFIED | UNVERIFIED | WITHDRAWN | INACTIVE | LOCKED

  /** A stored password: the plain text a record is created with, or an
      argon2 digest of an earlier value under some salt. The digest is kept
      symbolic: two digests are equal only when made from equal inputs. */
  datatype Secret = Plain(text: string) | Argon2(of: Secret, salt: nat)

  /** The embedded status/audit columns. */
  datatype Meta = Meta(
    status: RecordStatus,
    version: int,
    updatedBy: Option<UserId>,
    updatedAt: Option<int>,
    statusChangedBy: Option<UserId>,
    statusChangedAt: Option<int>,
    statusChangeReason: Option<string>)

  /** A row of `users`; the primary key is the key of the users map.
      `failedAttempts` is the `tries` column, constrained non-negative;
      `statusId` is the profile status (a campaign-status row). */
  datatype User = User(
    email: string,
    password: Secret,
    firstName: Option<string>,
    lastName: Option<string>,
    failedAttempts: nat,
    lastLogin: Option<int>,
    meta: Meta,
    emailStatus: RecordStatus,
    statusId: Option<StatusId>)

  type Users = map<UserId, User>

  /** A record as `create(User, { email, password })` builds it: every
      column not given takes its declared default. */
  function NewUser(email: string, password: string): (u: User)
    ensures u.email == email && u.password == Plain(password)
    ensures u.failedAttempts == 0 && u.lastLogin.None?
    ensures u.emailStatus == UNVERIFIED
    ensures u.meta.status == ACTIVE && u.meta.version == 1
    ensures u.statusId.None? && u.firstName.None? && u.lastName.None?
  {
    User(email, Plain(password), None, None, 0, None,
         Meta(ACTIVE, 1, None, None, None, None, None), UNVERIFIED, None)
  }

  /** argon2.verify(digest, plain). */
  predicate Verifies(h: Secret, plain: string)
  {
    h.Argon2? && h.of == Plain(plain)
  }

  /** `hashPassword`: the stored password becomes the digest of its previous
      value; nothing else changes. */
  function HashPassword(u: User, salt: nat): (r: User)
    ensures r.password.Argon2? && r.password.of == u.password
    ensures r.(password := u.password) == u
  {
    u.(password := Argon2(u.password, salt))
  }

  /** `comparePassword(plain)` on a stored digest: whether it is the digest of
      `plain`. On a stored password that is not a digest argon2 throws
      instead; each caller tests that case first and fails with `NotADigest`. */
  predicate ComparePassword(u: User, plain: string)
  {
    Verifies(u.password, plain)
  }

  /** Storing a plain password and hashing it yields a record that verifies
      against that password and against no other. */
  lemma HashThenCompare(u: User, p: string, salt: nat, q: string)
    requires u.password == Plain(p)
    ensures ComparePassword(HashPassword(u, salt), q) <==> q == p
  {
  }

  /** A record whose password was never hashed verifies against nothing. */
  lemma PlainNeverVerifies(u: User, q: string)
    requires u.password.Plain?
    ensures !ComparePassword(u, q)
  {
  }

  /** The `email` column is unique. */
  ghost predicate UniqueEmails(users: Users)
  {
    forall a, b :: a in users && b in users && users[a].email == users[b].email ==> a == b
  }

  /** `findOne({ where: { email } })`. */
  function FindByEmail(users: Users, email: string): (r: Option<UserId>)
    ensures r.Some? ==> r.value in users && users[r.value].email == email
    ensures r.None? <==> forall id :: id in users ==> users[id].email != email
  {
    Tables.FindKey(users, (u: User) => u.email == email)
  }

  /** Rewriting a row without changing its e-mail leaves every lookup by
      e-mail as it was. */
  lemma FindByEmailAfterUpdate(users: Users, id: UserId, v: User, email: string)
    requires id in users && v.email == users[id].email
    ensures FindByEmail(users[id := v], email) == FindByEmail(users, email)
  {
    Tables.FindKeyStable(users, users[id := v], (u: User) => u.email == email);
  }

  /** With unique e-mails the lookup is the one row holding that e-mail. */
  lemma FindByEmailUnique(users: Users, email: string, id: UserId)
    requires UniqueEmails(users)
    requires id in users && users[id].email == email
    ensures FindByEmail(users, email) == Some(id)
  {
  }
}
