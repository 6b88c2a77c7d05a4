# Ad-campaign management: a Dafny model of its core services

This project models the server-side logic of the ad-campaign management API:

- the credential service: registration, e-mail verification, forgotten and reset passwords, and login;
- the ticket store of one-time codes those flows share;
- the authentication service: password validation with lockout, password change, profile completion and lookup;
- payment reconciliation with a card gateway;
- the campaign, campaign-location and campaign-status services;
- the guard that admits only users whose profile is complete.

Every database table is a map from id to an immutable record. Every service operation is a pure function. It maps the tables it reads to the tables it leaves behind and to the outcome the caller sees (`Outcomes.Result`: `Ok(value)` or `Err(kind, msg)`).

Each service's catch block rethrows as an internal-server error. The error carries a fixed per-operation text and the inner message; `Outcomes.Internal` models it, keeping the kind and the inner message. Writes that escape a rolled-back transaction appear in the returned state:

- a ticket's `tries` counter;
- ticket creation and deletion;
- the password-failure counter.

The outside world enters only as parameters:

- `Environment.Env` carries the clock in milliseconds, an entropy value for the code generator and token ids, the password-hash salt, and whether the mail provider accepted a message.
- The password hash is symbolic (`UserEntity.Secret`): a stored digest verifies exactly the password it was made from.
- The payment gateway is an optional authorization url for the initialize call and a `verify(reference)` predicate.
- The webhook's HMAC is a `computed` digest parameter.

Modules follow the program's structure:

| file | module | models |
|---|---|---|
| common.dfy | `Outcomes`, `Environment` | results, exception kinds and messages, the environment |
| tables.dfy | `Tables` | lookup of "some row matching" and fresh ids |
| user_entity.dfy | `UserEntity` | the user record, hashing, lookup by e-mail |
| helper.dfy | `Helper` | mail dispatch and the cache projection of a user |
| verifications.dfy | `Verifications` | the ticket store |
| users.dfy | `UserService` | the ticket state machine and the credential flows |
| auth.dfy | `AuthService` | lockout, password change, profile update |
| profile_guard.dfy | `ProfileGuard` | the profile-completed guard |
| campaign_status.dfy | `StatusService` | statuses |
| campaign_location.dfy | `LocationService` | locations |
| campaign.dfy | `CampaignService` | campaigns, paging, auto-completion |
| payments.dfy | `PaymentService` | payment initiation and reconciliation |
| account_lifecycle.dfy | `AccountLifecycle` | properties spanning several credential calls |

Lookups that the source does with `findOne({ where: ... })` return *some* matching row. The contracts promise only that: a returned row matches, and nothing is returned exactly when no row matches. This is also why the payment `reference` column is handled as possibly shared.

Three behaviours of the code are easy to misread:

- **Ticket expiry.** A ticket whose `expiresAt` equals the current time is still valid, because only `expiresAt < now` expires it. `UserService.ExpiryIsStrict` states this.
- **Registration conflicts.** `register` refuses an address held by *any* user, deleted ones included. The error is an internal-server error wrapping the bad-request message, not a conflict.
- **Failed password checks.** The failure-counter increment is saved before the error is thrown, so it survives the failed call.

The campaign locations are resolved by name in the model, as the code evidently means; as written the names are ignored (see Findings). The name-based resolution follows the code's `Promise.all`: every lookup sees the location table as it was before the call, so a new name requested twice is created twice. The campaign's locations are saved into the join table `campaign_locations`, keyed on the (campaign, location) pair, so an existing name requested twice makes the save fail.

Amounts are integer cents. The `decimal(10,2)` columns hold exactly two decimals, so the gateway's minor-unit amount (`Math.round(amount * 100)`) is the stored cent value itself.

## Model

| member | source | states |
|---|---|---|
| Outcomes.Internal | src/modules/users/users.service.ts:179-188 | a catch block rethrows as an internal-server error carrying the inner message |
| UserEntity.NewUser | src/modules/users/entities/user.entity.ts:41-56 | a new user starts unverified, active, with no failures, no last login and no profile status |
| UserEntity.HashPassword | src/modules/users/entities/user.entity.ts:67-69 | the stored password becomes the digest of its previous value and nothing else changes |
| UserEntity.HashThenCompare | src/modules/users/entities/user.entity.ts:67-73 | after hashing a plain password, comparison succeeds for that password and for no other |
| UserEntity.PlainNeverVerifies | src/modules/users/entities/user.entity.ts:71-73 | a password that was never hashed verifies against nothing |
| UserEntity.FindByEmail | src/modules/users/entities/user.entity.ts:28-29 | a lookup by e-mail returns a user with that e-mail, or nothing exactly when no user has it |
| UserEntity.FindByEmailAfterUpdate | src/modules/users/entities/user.entity.ts:28-29 | rewriting a user without changing its e-mail leaves every lookup by e-mail unchanged |
| UserEntity.FindByEmailUnique | src/modules/users/entities/user.entity.ts:28-29 | with the unique constraint on e-mail, the lookup returns the one user holding it |
| Helper.SendEmail | src/common/utils/helper/helper.service.ts:13-24 | a delivered message is appended, addressed to the recipient with the given text and subject; a failed dispatch is swallowed and the outbox is unchanged |
| Helper.SendKeepsSender | src/common/utils/helper/helper.service.ts:13-24 | every mail sent carries the one sender address |
| Helper.SendsInOrder | src/common/utils/helper/helper.service.ts:13-24 | two delivered dispatches append their mails in the order they were sent |
| Helper.SanitizeUserForCache | src/common/utils/helper/helper.service.ts:26-35 | the cached projection has no password and copies every other field |
| Helper.SanitizeDropsExactlyPassword | src/common/utils/helper/helper.service.ts:26-35 | two users have the same cached projection exactly when they differ at most in their password, and putting the password back restores the user |
| Verifications.GenCode | src/modules/verifications/verifications.service.ts:30 | a generated code has exactly the requested length |
| Verifications.CreateVerification | src/modules/verifications/verifications.service.ts:24-41 | one ticket is added with no tries, a ten-minute expiry and a six-character code; every older ticket is kept; the mail sent carries exactly the stored code and expiry, and a dispatch failure does not undo the ticket |
| Verifications.FindOne | src/modules/verifications/verifications.service.ts:53-57 | a ticket lookup matches on e-mail only: any ticket returned has that address, and none is returned exactly when the address holds no ticket |
| Verifications.DeleteVerification | src/modules/verifications/verifications.service.ts:58-60 | deleting removes that ticket and keeps all others unchanged |
| Verifications.CreateKeepsOlderTickets | src/modules/verifications/verifications.service.ts:28-34 | issuing a code to an address that holds a ticket leaves the older ticket in place, unchanged |
| UserService.AttemptTicket | src/modules/users/users.service.ts:129-178 | the shared code check: with no ticket a new one is issued and the call fails; a code is accepted exactly when the ticket carries it and has not expired; acceptance writes nothing; users are never touched |
| UserService.WrongCodeCountsOneTry | src/modules/users/users.service.ts:139-157 | below the limit a wrong code raises that ticket's tries by exactly one, persists it, and reports the attempts left |
| UserService.WrongCodeAtLimitReplacesTicket | src/modules/users/users.service.ts:143-154 | a wrong code that reaches the limit deletes that ticket and issues a fresh one with no tries |
| UserService.WrongCodeBeforeExpiry | src/modules/users/users.service.ts:139-167 | the passcode is compared before the expiry: an expired ticket given a wrong code is counted, not replaced |
| UserService.ExpiryIsStrict | src/modules/users/users.service.ts:158-167 | the right code is accepted up to and including the expiry instant, and refused with a replaced ticket after it |
| UserService.AttemptKeepsTicketsBelowLimit | src/modules/users/users.service.ts:139-167 | if every ticket is below the retry limit before a code check, every ticket is below it afterwards |
| UserService.IssueKeepsBelowLimit | src/modules/verifications/verifications.service.ts:24-41 | issuing a ticket keeps every ticket below a positive retry limit |
| UserService.CheckUserExists | src/modules/users/users.service.ts:366-386 | the check fails with the bad-request "already exists" error exactly when some user holds the address |
| UserService.Register | src/modules/users/users.service.ts:51-96 | a malformed or taken address fails before anything is written; success adds exactly one unverified, active user with no failures whose password verifies only the given one, and issues one fresh ticket to that address |
| UserService.VerifyEmail | src/modules/users/users.service.ts:97-189 | an unknown or already verified address fails before any ticket is touched; code failures keep their ticket writes; success exactly when the code is accepted, marking the address verified, bumping the version by one and consuming the ticket |
| UserService.ForgotPassword | src/modules/users/users.service.ts:190-224 | an unknown or deleted account fails with nothing written; otherwise a ticket is issued and the user record is unchanged |
| UserService.ResetPassword | src/modules/users/users.service.ts:226-296 | an unknown address fails; success exactly when the code is accepted, making the account active, replacing the password and consuming the ticket while the failure counter keeps its value |
| UserService.Login | src/modules/users/users.service.ts:297-365 | rejects, in this order, a non-string e-mail or password, a malformed address, a deleted, missing, unverified or locked account, a stored password that is not a digest and a wrong password, writing nothing; among the modelled columns, success changes only the last-login time, and the token names the user |
| AuthService.Counted | src/modules/auth/auth.service.ts:108-112 | a counted failure raises the counter by exactly one; at or above the limit it also locks the account, below it nothing else changes |
| AuthService.ValidateUser | src/modules/auth/auth.service.ts:102-132 | a missing user is an internal error, and so is a stored password that is not a digest, with nothing written; a right password returns the user and writes nothing; a wrong password against a digest replaces only that user's row by its counted form and fails with the maximum-attempts error at the limit, the incorrect-password error below it |
| AuthService.FailureStep | src/modules/auth/auth.service.ts:102-120 | a wrong password against a stored digest rewrites exactly the matched row and the address still finds the same user afterwards |
| AuthService.RecountedCounts | src/modules/auth/auth.service.ts:108-112 | n counted failures raise the counter by n, keep the password and e-mail, lock the account once the count reaches the limit, and below the limit keep the status |
| AuthService.FailuresAccumulate | src/modules/auth/auth.service.ts:102-120 | n wrong passwords in a row rewrite only that user's row, into its form after n counted failures, and the address keeps finding that user |
| AuthService.ThirdConsecutiveFailureLocks | src/modules/auth/auth.service.ts:102-120 | with a limit of three, the first two wrong passwords in a row leave an account with no failures unlocked and the third locks it |
| AuthService.ChangePassword | src/modules/auth/auth.service.ts:41-84 | a stored password that is not a digest fails; then it checks, in this order, that the old password verifies, the new one differs and the account is not locked; every failure writes nothing; success replaces only the password by the digest of the new one |
| AuthService.GetUserById | src/modules/auth/auth.service.ts:133-147 | returns the user with that id, and fails with not-found exactly when there is none |
| AuthService.UpdateProfile | src/modules/auth/auth.service.ts:148-191 | a missing user, then a missing "Completed" status, fails with nothing written; success sets both required names, the audit columns and the "Completed" status and changes no other user |
| AuthService.ProfileReadBack | src/modules/auth/auth.service.ts:133-176 | after a successful profile update, reading the user by id returns the row the update wrote, and every other user as before |
| AuthService.ValidateUserIntended | src/modules/auth/auth.service.ts:121-123 | as intended, a right password also clears the failure counter; failures behave as written |
| AuthService.NonConsecutiveFailuresLock | src/modules/auth/auth.service.ts:102-132 | as written, two failures, a success and one more failure lock the account under the limit of three |
| AuthService.SuccessClearsCounterIntended | src/modules/auth/auth.service.ts:102-132 | with the intended validation, when the two failures stay below the limit, the same sequence leaves one failure on the counter, the status columns as they were and the account unlocked |
| ProfileGuard.CanActivate | src/common/guards/profile-updated/profile-updated.guard.ts:24-48 | a missing "Completed" status fails with not-found before the profile is compared; a status other than "Completed" is forbidden; the guard passes exactly when the user's status id is that status's id |
| ProfileGuard.GuardAdmitsCompletedProfiles | src/common/guards/profile-updated/profile-updated.guard.ts:39-47 | with unique status names, the guard admits exactly the users whose status row is named "Completed" |
| ProfileGuard.UpdateProfileOpensGuard | src/modules/auth/auth.service.ts:157-176 | after a successful profile update the guard admits that user |
| ProfileGuard.CanActivateIntended | src/common/guards/profile-updated/profile-updated.guard.ts:36-46 | as intended, a request without a user, or a user with no profile status, is refused rather than dereferenced; the guard passes for exactly the same users |
| ProfileGuard.IncompleteProfileIsNullReference | src/common/guards/profile-updated/profile-updated.guard.ts:42 | as written, a user whose profile status is unset gets an internal error, where the intended guard answers forbidden |
| StatusService.FindByName | src/modules/campaign-status/entities/campaign-status.entity.ts:19 | a lookup by name returns a status with that name, or nothing exactly when no status has it |
| StatusService.StatusFor | src/modules/campaign/campaign.service.ts:78-98 | a named status must exist; with none named the default must exist; the result is a status carrying the wanted name |
| StatusService.CreateStatus | src/modules/campaign-status/campaign-status.service.ts:19-57 | a missing requester or a taken name fails with nothing written; otherwise exactly one status with that name is added and names stay unique |
| StatusService.FetchAllStatuses | src/modules/campaign-status/campaign-status.service.ts:59-87 | returns every status, and fails exactly when there are none |
| StatusService.FetchStatusById | src/modules/campaign-status/campaign-status.service.ts:89-119 | returns the status with that id, and fails exactly when there is none |
| StatusService.CreatedStatusReadBack | src/modules/campaign-status/campaign-status.service.ts:19-119 | a status just created is what fetching its id returns and what a lookup of its name finds, and it is among all statuses |
| StatusService.UpdatedStatusReadBack | src/modules/campaign-status/campaign-status.service.ts:89-160 | after a successful update, fetching the status by id returns what the update wrote, and a truthy new name is found |
| StatusService.UpdateStatus | src/modules/campaign-status/campaign-status.service.ts:121-160 | an absent id fails; only a truthy name renames, a duplicate name is refused by the unique constraint, no other status changes and names stay unique |
| LocationService.FindLocationByName | src/modules/campaign-location/campaign-location.service.ts:37-42 | a lookup by name returns a location with that name, or nothing exactly when no location has it |
| LocationService.CreateLocation | src/modules/campaign-location/campaign-location.service.ts:21-81 | a missing requester, a taken name, a named status that does not exist, or a missing "Inactive" status fails with nothing written; otherwise exactly one location with that name and the named or "Inactive" status is added |
| LocationService.FetchAllLocations | src/modules/campaign-location/campaign-location.service.ts:83-110 | returns every location for an existing requester |
| LocationService.FetchLocationById | src/modules/campaign-location/campaign-location.service.ts:112-146 | returns the location with that id, and fails exactly when there is none |
| LocationService.CreatedLocationReadBack | src/modules/campaign-location/campaign-location.service.ts:21-146 | a location just created is what fetching its id returns and what a lookup of its name finds, and it is among all locations |
| LocationService.UpdatedLocationReadBack | src/modules/campaign-location/campaign-location.service.ts:112-199 | after a successful update, fetching the location by id returns what the update wrote, and a truthy new name is found |
| LocationService.UpdateLocation | src/modules/campaign-location/campaign-location.service.ts:148-199 | an absent id fails; a truthy name renames; a truthy status must exist and then replaces the status; no other location changes |
| CampaignService.ResolveAsWritten | src/modules/campaign/campaign.service.ts:59-77 | as written, the names are ignored: with some location stored, every element resolves to one existing location and nothing is created; with none stored, the call fails on the NOT NULL name column |
| CampaignService.AsWrittenIgnoresNames | src/modules/campaign/campaign.service.ts:59-77 | as written, any two requests of the same length resolve alike |
| CampaignService.AsWrittenRepeatsLink | src/modules/campaign/campaign.service.ts:59-109 | as written, with some location stored, a request of two or more names resolves to one location repeated, which the join table refuses |
| CampaignService.RepeatsIffSharesExisting | src/modules/campaign/campaign.service.ts:59-109 | the resolved list repeats a location not yet linked exactly when two positions request one name an existing location carries and that location is not yet linked |
| CampaignService.NamesIgnoredAsWritten | src/modules/campaign/campaign.service.ts:59-77 | as written, "Lagos" is attached to the stored "Abuja" and fails on an empty table, where the intended resolution creates "Lagos" |
| CampaignService.FindOrCreate | src/modules/campaign/campaign.service.ts:61-75 | as intended, a name the table had before the call resolves to that location with nothing written; a missing one adds one new location of that name with no status |
| CampaignService.ResolveLocations | src/modules/campaign/campaign.service.ts:59-77 | as intended, each requested name resolves, in order, to a location with that name, and existing locations are kept |
| CampaignService.ResolveFrom | src/modules/campaign/campaign.service.ts:59-77 | with every lookup seeing the table as it was before the call, each name resolves to a location with that name and nothing already present changes |
| CampaignService.ResolveReusesExisting | src/modules/campaign/campaign.service.ts:61-67 | a name that already names a location resolves to exactly the location its lookup finds |
| CampaignService.ResolveCreatesOnlyMissing | src/modules/campaign/campaign.service.ts:59-77 | every created location has no status and is the resolution of a position whose name no location had; each such position gets its own new location, distinct from the others |
| CampaignService.RepeatedMissingNameCreatedTwice | src/modules/campaign/campaign.service.ts:59-77 | a new name requested twice in one call is created twice, because both lookups run before either save |
| CampaignService.CreateCampaign | src/modules/campaign/campaign.service.ts:38-133 | a missing user or non-array locations fails; a named status must exist and Draft is the default; two requested names that resolve to one existing location fail at the join table; errors roll back every write; success adds one campaign owned by the user with one distinct resolved location per name |
| CampaignService.CeilDiv | src/modules/campaign/campaign.service.ts:182 | the last page number is the least page count covering all rows |
| CampaignService.Window | src/modules/campaign/campaign.service.ts:151-152 | a window of rows skips the first rows and takes at most the limit |
| CampaignService.FetchAllCampaigns | src/modules/campaign/campaign.service.ts:135-193 | a page holds the rows from (page-1)*limit, at most limit of them, with the total and the ceiling of total over limit as last page |
| CampaignService.WindowIsSlice | src/modules/campaign/campaign.service.ts:151-152 | a window is the slice of the rows between the skip and skip plus limit, both clipped to the row count |
| CampaignService.OffsetIsProduct | src/modules/campaign/campaign.service.ts:151 | the offset of page k+1 is k times the limit |
| CampaignService.PagesArePrefix | src/modules/campaign/campaign.service.ts:151-152 | the first k pages, concatenated, are the rows before offset k times the limit, clipped to the row count |
| CampaignService.PagesCoverAllRows | src/modules/campaign/campaign.service.ts:151-182 | for a positive limit, each page from 1 to the last page holds the window at its offset, and those pages concatenated are exactly all the rows |
| CampaignService.UpdateCampaign | src/modules/campaign/campaign.service.ts:251-336 | a missing user or campaign, an unknown status, or two requested names resolving to one existing location not yet linked fails with nothing written; only truthy fields overwrite and banners only when non-empty |
| CampaignService.EmptyUpdateKeepsCampaign | src/modules/campaign/campaign.service.ts:274-323 | an update with no truthy field, no locations and no banners changes nothing and returns the campaign as it was |
| CampaignService.UpdateTwiceIsUpdateOnce | src/modules/campaign/campaign.service.ts:274-323 | repeating an update that leaves the locations alone changes nothing beyond the first one |
| CampaignService.ExtendCampaignToNewLocation | src/modules/campaign/campaign.service.ts:338-389 | a missing campaign or location, or one already attached, fails; otherwise exactly that location is appended and the list stays duplicate-free |
| CampaignService.AutoCompleteCampaigns | src/modules/campaign/campaign.service.ts:437-478 | running campaigns that ended before today become completed; every other campaign is untouched |
| CampaignService.AutoCompleteIdempotent | src/modules/campaign/campaign.service.ts:442-453 | running the auto-completion twice is the same as running it once |
| PaymentService.Reference | src/modules/payments/payments.service.ts:56-58 | a reference starts with REF_ |
| PaymentService.ReferenceDeterminesInputs | src/modules/payments/payments.service.ts:56-58 | two references are equal only when made in the same millisecond with the same draw below 10000 |
| PaymentService.FindPayment | src/modules/payments/entities/payment.entity.ts:27-28 | a lookup by the non-unique reference returns some payment with it, or nothing exactly when none has it |
| PaymentService.InitiatePayment | src/modules/payments/payments.service.ts:32-103 | a missing user or campaign, an amount other than the campaign's, or a failed gateway call records nothing; success records exactly one pending USD payment of that amount under the reference and charges the campaign amount in cents |
| PaymentService.MarkPaymentAsSuccess | src/modules/payments/payments.service.ts:117-155 | as intended, an unknown reference fails and an already successful payment is acknowledged, both without writes; a payment not yet successful is marked Success and its campaign Paid, and succeeds, exactly when its campaign row exists; otherwise the call fails with nothing written |
| PaymentService.MarkPaymentAsSuccessAsWritten | src/modules/payments/payments.service.ts:117-155 | as written, every call on a known reference fails with nothing written, because the status name assigned to the integer status column is refused on save; an unknown reference fails too |
| PaymentService.NoPaymentMarkedAsWritten | src/modules/payments/payments.service.ts:131-143 | as written, no payment is ever marked: the ledger is unchanged and the call fails, where the intended marking turns a pending payment into Success and its campaign into Paid |
| PaymentService.MarkIdempotent | src/modules/payments/payments.service.ts:131-136 | marking twice leaves the same state and outcome as marking once |
| PaymentService.HandleWebhook | src/modules/payments/payments.service.ts:157-177 | a signature other than the computed digest is refused before the gateway is asked; only a verified charge.success event marks the payment |
| PaymentService.WebhookReplayIsHarmless | src/modules/payments/payments.service.ts:157-177 | a redelivered webhook leaves the state and outcome of the first delivery |
| PaymentService.HandleCallback | src/modules/payments/payments.service.ts:179-188 | the gateway is always asked; only a verified reference is marked, and an unverified one is reported with no state change |
| PaymentService.CallbackAfterWebhookChangesNothing | src/modules/payments/payments.service.ts:157-188 | after a webhook has marked a payment, the callback for the same reference changes nothing and reports it verified |
| AccountLifecycle.RegisterKeepsEmailsUnique | src/modules/users/users.service.ts:62-70 | registration keeps e-mails unique across users |
| AccountLifecycle.RegisteredRowsAreFound | src/modules/users/users.service.ts:62-96 | after a registration, the address finds the new user and the new ticket |
| AccountLifecycle.VerifiedAccountLogsIn | src/modules/users/users.service.ts:97-341 | after a successful verification of an active account, logging in with its password succeeds for that user |
| AccountLifecycle.RegisterVerifyLogin | src/modules/users/users.service.ts:51-341 | registering a fresh address, verifying it with the issued code before expiry and logging in with the password succeeds for that user |
| AccountLifecycle.VerifyTwiceIsRefused | src/modules/users/users.service.ts:126-128 | once verified, verifying the address again is refused and writes nothing |
| AccountLifecycle.ResetLeavesOneFailureToLock | src/modules/users/users.service.ts:278-285 | as written, after a reset of an account locked at the limit, one wrong password locks it again |
| AccountLifecycle.ForgotThenReset | src/modules/users/users.service.ts:190-296 | a forgotten-password request issues the code that a reset needs: resetting with it before expiry succeeds, activates the account and stores exactly the new password |
| AccountLifecycle.DeletedAccountReactivated | src/modules/users/users.service.ts:226-296 | as written, two reset calls, the first of which mails a fresh code, make a deleted account active again |
| AccountLifecycle.ResetPasswordIntended | src/modules/users/users.service.ts:226-296 | as intended, a deleted account is refused and a successful reset also clears the failure counter; every other outcome is the one of the reset as written |
| AccountLifecycle.ResetClearsCounterIntended | src/modules/users/users.service.ts:278-285 | after the intended reset, one wrong password is counted as the first failure and does not lock the account |
| AccountLifecycle.DeletedAccountStaysDeletedIntended | src/modules/users/users.service.ts:198-204 | with the intended reset, both calls that reactivate a deleted account as written are refused and write nothing |

## Left out

- Controllers, routing, module wiring, bootstrap, the JWT strategy and the cache layer carry no logic to verify. The store is treated as authoritative, and a cache hit in `verifyEmail` behaves as the stored user.
- Token generation signs a JWT. Only the payload (user id, e-mail, a token id drawn from the environment) is modelled, and `logout` is not modelled.
- Argon2 hashing, HMAC-SHA512, `crypto.randomUUID`, the code generator's alphabet and `Math.random` are foreign or random. They are symbolic values or parameters.
- The gateway's HTTP calls (`verifyPayment` and the initialize request) are oracles.
- The SendGrid dispatch and the e-mail templates are I/O. Only the recipient, subject, code and expiry of a notice, and the swallowed dispatch failure, are kept.
- `calculateDailyBudget` divides floating-point numbers and formats with `toFixed`. `fetchCampaignById` and `sendTwoDaysBeforeEndReminder` add no state change beyond what is modelled.
- The notices mailed after campaign creation are not modelled. Cron scheduling is not modelled either: today's date is a parameter.
- The `Promise.all` lookups of independent rows run sequentially in the model. The location resolution keeps what matters of its concurrency: every lookup sees the table as it was before any save. Transactions are single atomic steps. Concurrent callers, including the register race on one e-mail, are not modelled.
- The ORM's automatic `version` and `updatedAt` writes on save are not modelled. Only the explicit increment in `verifyEmail` and the timestamp `updateProfile` sets are. Where a contract says that an operation changes only some columns, these automatic columns are the exception.
- The validator library's `isEmail` is approximated by `UserService.IsEmail`: an '@' with a non-empty part on each side.
- The enumeration of campaign status names is not part of this model. Its member names are used as the stored status names.
- Payment and campaign statuses are modelled by status name. In the source the status of a payment or campaign is a relation whose `status_id` column holds the integer id of a status row (payment.entity.ts:36-38, campaign.entity.ts:33-35). Where the code writes or filters on an enum name through a type cast instead, the store refuses the name and the operation fails; the lines below say which operations this affects.
- The fixed text each catch block puts beside the inner message is not modelled.
- PaymentService.MarkPaymentAsSuccess: models the marking as evidently meant. In the source the status relation is never loaded, so the guard never fires. The first save also writes the name "Success" into the integer status column, so every call on a known reference fails and rolls back. `PaymentService.MarkPaymentAsSuccessAsWritten` models that (see Findings). The webhook and callback use the intended marking.
- CampaignService.CreateCampaign: resolves the locations by name as evidently meant (`CampaignService.ResolveLocations`). As written the names are ignored: an empty location table makes every call with locations fail, and with any location stored every call with two or more locations fails at the join table (`CampaignService.ResolveAsWritten`, `CampaignService.AsWrittenRepeatsLink`, see Findings).
- CampaignService.UpdateCampaign: resolves a locations array by name as evidently meant, with the same gap as creation. When an already linked location is requested twice, the model's list holds it twice, while the join table keeps one row.
- PaymentService.InitiatePayment: records the pending payment with its status as evidently meant. As written the status relation's integer column is given the name "Pending" (payments.service.ts:63-71), so the save is refused after every guard has passed and the call always fails, recording nothing. Decimal columns are integer cents. How the database driver returns decimals is not modelled: it may return them as strings, which would make the strict amount comparison fail as well.
- CampaignService.AutoCompleteCampaigns: models the status filter and write as evidently meant. As written the query compares the integer status column with the name "Running" and the save writes the name "Completed" (campaign.service.ts:442-453), so the job fails without completing any campaign.
- CampaignService.FetchAllCampaigns: requires `page >= 1` and `limit >= 1`, the controller's defaults being 1 and 10. The database's ordering by creation time is given as the order of the input rows.
- ProfileGuard.CanActivate: the request's user is the one the token guard attached. Token validation is not modelled.

## Findings

| source | as written | input that shows it | evidently intended | confidence | as-written member | corrected member |
|---|---|---|---|---|---|---|
| src/modules/auth/auth.service.ts:121-123 | a right password leaves the failure counter as it is | limit 3: wrong, wrong, right, wrong locks the account | only consecutive failures count, so a right password clears the counter | not executed | AuthService.NonConsecutiveFailuresLock | AuthService.SuccessClearsCounterIntended |
| src/modules/users/users.service.ts:278-285 | a reset makes the account active but keeps the failure counter | an account locked after 3 failures is reset, then one wrong password locks it again | a reset clears the counter along with the lock | not executed | AccountLifecycle.ResetLeavesOneFailureToLock | AccountLifecycle.ResetClearsCounterIntended |
| src/modules/users/users.service.ts:226-248 | reset does not refuse a deleted account, and its no-ticket branch mails a code to it | a deleted user calls reset with any code, receives a new code, and resets with it: the account is active | deleted accounts are refused, as forgotten-password and login refuse them | not executed | AccountLifecycle.DeletedAccountReactivated | AccountLifecycle.DeletedAccountStaysDeletedIntended |
| src/modules/campaign/campaign.service.ts:59-109 | the elements of `locations` are strings (the DTO validates each with `IsString`), so `location.name` is undefined: the lookup drops that condition and matches any location, and the creation saves no name | with only "Abuja" stored, a campaign for ["Lagos"] is attached to Abuja; for ["Lagos", "Kano"] both elements resolve to Abuja and the join table refuses the repeated pair, so the creation fails; with no location stored, every creation with locations fails | each element is looked up, and created if missing, by its own string | not executed | CampaignService.NamesIgnoredAsWritten | CampaignService.ResolveLocations |
| src/modules/payments/payments.service.ts:131-139 | the status relation is not loaded, so the already-succeeded check never holds; the marking then assigns the name "Success" to the integer status column, which the store refuses on save, so the transaction rolls back | any pending payment whose reference the gateway confirms: the webhook reports an internal error and the payment stays Pending | an already successful payment is acknowledged without writes, and a pending one becomes Success with its campaign Paid | not executed | PaymentService.NoPaymentMarkedAsWritten | PaymentService.MarkPaymentAsSuccess |
| src/common/guards/profile-updated/profile-updated.guard.ts:42 | the guard reads the id of the user's status, which is unset until the profile is updated | a freshly registered user creating a campaign gets an internal error | the forbidden answer asking the user to update their profile | not executed | ProfileGuard.IncompleteProfileIsNullReference | ProfileGuard.CanActivateIntended |
