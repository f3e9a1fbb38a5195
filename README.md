# FIDO relying party: verified model of the controllers and the FIDO service wrapper

This project models the server side of a FIDO (UAF) relying party sample built on the
IdentityX FIDO server. The modelled parts are:

- **SimpleController.** The REST controller. It creates accounts with salted, iterated
  SHA-256 password digests. It opens sessions by password or by a FIDO authentication
  response. Sessions have a sliding expiry. It also creates FIDO registration requests,
  deletes sessions, and deletes accounts, deactivating their FIDO authenticators on the way.
  Every operation writes one audit record in its `finally` block.
- **IdentityXServices.** The controller's wrapper around the FIDO server. It covers:
  - the verdict on an authentication response, including the FIDO response codes written
    into the shared `Error` constants;
  - the user, application, policy and registration lookups;
  - the per-href authenticator type cache;
  - the ownership checks;
  - registration requests;
  - user archiving.
- **The entities** `Account`, `Session` and `Audit`, the `Error` constants, and the
  `IdGenerator` that draws the 22-character URL-safe keys.
- **TestController.** The unprotected debugging interface. It lists accounts, sessions and
  audits with `*` patterns, fetches one account, and deletes an account by email.

The files, each one module:

| file | module | models |
|---|---|---|
| `wrappers.dfy` | `Wrappers`, `Bytes` | `Option`, byte strings |
| `errors.dfy` | `Errors` | the error constants, `Error` values, `toString`, the shared mutable constants (`ErrorStatics`), the exception handlers |
| `base64url.dfy` | `Base64Url` | `Base64.getUrlEncoder()` with padding, and a decoder for the round trip |
| `idgen.dfy` | `IdGenerator` | key generation |
| `hashing.dfy` | `PasswordHashing` | `hash`, the digest it computes, password checks |
| `entities.dfy` | `Entities` | `Account`, `Session`, `Audit` as classes with their setters |
| `stores.dfy` | `Stores` | the three repositories as a class holding maps of entity objects and the audit log |
| `tenant.dfy` | `Tenants` | the FIDO server's state as a value, and its elementary updates |
| `identityx.dfy` | `IdentityX` | `IdentityXServices` |
| `controller.dfy` | `Controller` | `SimpleController` |
| `testcontroller.dfy` | `Debugging` | `TestController` |

Conventions:

- **Parameters for what the program reads from outside.**
  - The clock is `now`, read during an operation, and `finish`, read in its `finally` block.
  - Random salts and key bytes are parameters.
  - So are the objects the FIDO server creates (hrefs, ids, challenge texts).
  - So is the answer it gives to an authentication request.
  - SHA-256 and UTF-8 encoding are function values of a `Primitives` datatype.
- **Null strings.** A null string and `""` are one value, because every check in the code
  treats them alike.
- **Exceptions.** An operation's result is an `Outcome`:
  - `Ok(value)`;
  - `Raised(error)`, a `ProcessingException` carrying one of the `Error` constants (or null);
  - `Crashed(reason)`, any other exception, which the handler turns into `UNEXPECTED_ERROR`.

The model follows the code on these points:

- Deleting a session that is already gone is an error (`UNKNOWN_SESSION_IDENTIFIER`). It is
  not a silent success.
- A session is expired only when its expiry lies strictly before the present.
- Renewal extends a session by `DEFAULT_SESSION_PERIOD` (15 minutes). It does not use the
  configured period.
- Deleting an account by session deletes the account and the presented session. Other
  sessions of the account stay.
- `getAudits` without a date returns nothing. The repository's query is `createdDTM < null`.

## Model

| member | source | states |
|---|---|---|
| Errors.AllKindsComplete | src/main/java/com/daon/identityx/controller/model/Error.java:29-52 | every error constant belongs to the table of constants |
| Errors.KindOfCode | src/main/java/com/daon/identityx/controller/model/Error.java:29-52 | a code leads back only to a constant carrying that code |
| Errors.CodeIdentifiesKind | src/main/java/com/daon/identityx/controller/model/Error.java:29-52 | every constant's code leads back to that constant |
| Errors.CodesDistinct | src/main/java/com/daon/identityx/controller/model/Error.java:29-52 | two different constants never share a code |
| Errors.NewError | src/main/java/com/daon/identityx/controller/model/Error.java:63-66 | the two-argument constructor sets code and message and leaves the three FIDO fields null |
| Errors.ParseNatToString | src/main/java/com/daon/identityx/controller/model/Error.java:84-86 | the decimal rendering of a natural number reads back as that number |
| Errors.ParseIntToString | src/main/java/com/daon/identityx/controller/model/Error.java:84-86 | the rendering of any code, negative ones included, reads back as that code |
| Errors.ToStringReadsBack | src/main/java/com/daon/identityx/controller/model/Error.java:84-86 | `toString` is "Code: ", the code, " Message: ", the message, and both code and message can be recovered from it |
| Errors.ErrorStatics.constructor | src/main/java/com/daon/identityx/controller/model/Error.java:29-52 | every shared constant starts as its code and message with no FIDO fields |
| Errors.ErrorStatics.Get | src/main/java/com/daon/identityx/controller/model/Error.java:29-52 | a shared constant keeps its code and message whatever FIDO fields have been written into it |
| Errors.ErrorStatics.SetFidoResponseCode | src/main/java/com/daon/identityx/controller/model/Error.java:100-102 | writes the FIDO response code into that one shared constant and changes nothing else |
| Errors.ErrorStatics.SetFidoResponseMsg | src/main/java/com/daon/identityx/controller/model/Error.java:108-110 | writes the FIDO response message into that one shared constant and changes nothing else |
| Errors.Reply | src/main/java/com/daon/identityx/controller/SimpleController.java:113-147 | a `ProcessingException` is answered with its own error, and any other exception with `UNEXPECTED_ERROR` |
| Base64Url.CharOf | src/main/java/com/daon/identityx/utils/IdGenerator.java:51 | each of the 64 values has a URL-safe alphabet character that maps back to it |
| Base64Url.Regroup | src/main/java/com/daon/identityx/utils/IdGenerator.java:51 | the four sextets of a group reassemble into its three bytes |
| Base64Url.EncodedLengthFormula | src/main/java/com/daon/identityx/utils/IdGenerator.java:51 | n bytes encode to 4 * ceil(n / 3) characters |
| Base64Url.Encode | src/main/java/com/daon/identityx/utils/IdGenerator.java:51 | the encoding has the padded length of its input |
| Base64Url.GroupRoundTrip | src/main/java/com/daon/identityx/utils/IdGenerator.java:51 | a full group of three bytes decodes back to those bytes |
| Base64Url.GroupNoPadding | src/main/java/com/daon/identityx/utils/IdGenerator.java:51 | a full group is four alphabet characters without padding |
| Base64Url.PairRoundTrip | src/main/java/com/daon/identityx/utils/IdGenerator.java:51 | a trailing pair of bytes encodes with one '=' and decodes back |
| Base64Url.SingleRoundTrip | src/main/java/com/daon/identityx/utils/IdGenerator.java:51 | a trailing single byte encodes with two '=' and decodes back |
| Base64Url.DecodeGroupThen | src/main/java/com/daon/identityx/utils/IdGenerator.java:51 | decoding is compositional over whole groups |
| Base64Url.DecodeEncode | src/main/java/com/daon/identityx/utils/IdGenerator.java:51 | decoding an encoding gives back the bytes, for every byte string |
| Base64Url.EncodeShape | src/main/java/com/daon/identityx/utils/IdGenerator.java:51 | an encoding is alphabet characters followed by exactly the padding its length calls for |
| IdGenerator.Generate | src/main/java/com/daon/identityx/utils/IdGenerator.java:47-55 | a key is 22 characters of the URL-safe alphabet |
| IdGenerator.GenerateUrlSafe | src/main/java/com/daon/identityx/utils/IdGenerator.java:51-52 | a key contains no '=', '+' or '/' |
| IdGenerator.GenerateDropsOnlyPadding | src/main/java/com/daon/identityx/utils/IdGenerator.java:51-52 | cutting the encoding of 16 bytes to 22 characters drops exactly the "==" padding |
| IdGenerator.GenerateDecodes | src/main/java/com/daon/identityx/utils/IdGenerator.java:49-52 | the 16 random bytes can be recovered from the key |
| IdGenerator.GenerateInjective | src/main/java/com/daon/identityx/utils/IdGenerator.java:49-52 | different random bytes give different keys |
| PasswordHashing.Hash | src/main/java/com/daon/identityx/controller/SimpleController.java:795-811 | the loop computes the salted digest iterated the given number of times |
| PasswordHashing.IterateSplit | src/main/java/com/daon/identityx/controller/SimpleController.java:802-805 | m + n rounds of the digest are n rounds applied after m rounds |
| PasswordHashing.IterateInjective | src/main/java/com/daon/identityx/controller/SimpleController.java:802-805 | with a collision-free digest, different inputs stay different through every number of rounds |
| PasswordHashing.OtherPasswordRejected | src/main/java/com/daon/identityx/controller/SimpleController.java:778-784 | with a collision-free digest and encoder, any other password is refused |
| Entities.Lower | src/main/java/com/daon/identityx/entity/Account.java:46-47 | upper-case ASCII letters fold to lower case and every other character stays |
| Entities.FoldCase | src/main/java/com/daon/identityx/entity/Account.java:46-47 | case folding keeps the length |
| Entities.FoldCaseAt | src/main/java/com/daon/identityx/entity/Account.java:46-47 | case folding works character by character |
| Entities.Account.constructor | src/main/java/com/daon/identityx/entity/Account.java:61-66 | a new account carries the request's names and email, its drawn id and its creation time, with no password, salt, FIDO id or login yet |
| Entities.Account.SetHashedPassword | src/main/java/com/daon/identityx/entity/Account.java:128-130 | sets the digest and nothing else |
| Entities.Account.SetIterations | src/main/java/com/daon/identityx/entity/Account.java:112-114 | sets the iteration count and nothing else |
| Entities.Account.SetSalt | src/main/java/com/daon/identityx/entity/Account.java:120-122 | sets the salt and nothing else |
| Entities.Account.SetCreatedDTM | src/main/java/com/daon/identityx/entity/Account.java:104-106 | sets the creation time and nothing else |
| Entities.Account.SetLastLoggedIn | src/main/java/com/daon/identityx/entity/Account.java:136-138 | sets the last login time and nothing else |
| Entities.Account.SetIdXId | src/main/java/com/daon/identityx/entity/Account.java:144-146 | sets the FIDO id and nothing else |
| Entities.Session.constructor | src/main/java/com/daon/identityx/entity/Session.java:47-51 | a new session belongs to the account, starts now and expires one period later |
| Entities.Session.SetExpiringDTM | src/main/java/com/daon/identityx/entity/Session.java:84-86 | sets the expiry and nothing else |
| Entities.Audit.constructor | src/main/java/com/daon/identityx/entity/Audit.java:50-54 | a new audit names its operation and start time, with no account, no session and no duration |
| Entities.Audit.SetAccountId | src/main/java/com/daon/identityx/entity/Audit.java:77-79 | sets the account id and nothing else |
| Entities.Audit.SetSessionId | src/main/java/com/daon/identityx/entity/Audit.java:85-87 | sets the session id and nothing else |
| Entities.Audit.SetDuration | src/main/java/com/daon/identityx/entity/Audit.java:93-95 | sets the duration and nothing else |
| Entities.Audit.SetCreatedDTM | src/main/java/com/daon/identityx/entity/Audit.java:101-103 | sets the creation time and nothing else |
| Stores.Repositories.AccountById | src/main/java/com/daon/identityx/repository/AccountRepository.java:39 | finds the account exactly when its id is stored |
| Stores.Repositories.KeyOfEmail | src/main/java/com/daon/identityx/entity/Account.java:46-47 | the account found by email has that email up to case, and none is found only when no account has it |
| Stores.Repositories.FindByEmail | src/main/java/com/daon/identityx/repository/AccountRepository.java:37 | finds the one account whose email equals the given one ignoring case, or none when there is none |
| Stores.Repositories.SaveNewAccount | src/main/java/com/daon/identityx/entity/Account.java:46-47 | a new account is saved exactly when no stored account has its email up to case, and otherwise nothing changes |
| Stores.Repositories.SaveNewSession | src/main/java/com/daon/identityx/repository/SessionRepository.java:31-37 | adds the session under its id and changes nothing else |
| Stores.Repositories.DeleteAccount | src/main/java/com/daon/identityx/repository/AccountRepository.java:31-39 | removes the account with that id and changes nothing else |
| Stores.Repositories.DeleteSession | src/main/java/com/daon/identityx/repository/SessionRepository.java:37 | removes the session with that id and changes nothing else |
| Stores.Repositories.SaveAudit | src/main/java/com/daon/identityx/repository/AuditRepository.java:31-43 | appends the audit record and changes nothing else |
| Stores.Repositories.WriteAudit | src/main/java/com/daon/identityx/controller/SimpleController.java:223-227 | a `finally` block appends one new audit record with its operation, account, start time, duration and finish time, and touches no account or session |
| Tenants.First | src/main/java/com/daon/identityx/fido/IdentityXServices.java:896-900 | the first match satisfies the condition, and none is found only when nothing does |
| Tenants.Where | src/main/java/com/daon/identityx/fido/IdentityXServices.java:909-926 | a query returns exactly the items satisfying its condition |
| Tenants.UserById | src/main/java/com/daon/identityx/fido/IdentityXServices.java:896-900 | the user found by id has that id, and none is found only when no user has it |
| Tenants.UserWithId | src/main/java/com/daon/identityx/fido/IdentityXServices.java:896-900 | the same, over any list of users |
| Tenants.AddRegistration | src/main/java/com/daon/identityx/fido/IdentityXServices.java:741-751 | creates one registration for the user's href and adds it to the server's registrations |
| Tenants.AddRegistrationChallenge | src/main/java/com/daon/identityx/fido/IdentityXServices.java:722-731 | creates one challenge for the registration, with no response yet, and adds it |
| Tenants.UpdateChallenge | src/main/java/com/daon/identityx/fido/IdentityXServices.java:500-501 | replaces the challenge with that href and leaves everything else unchanged |
| Tenants.AddUser | src/main/java/com/daon/identityx/fido/IdentityXServices.java:852-860 | creates one active user with the given userId and adds it |
| Tenants.ArchiveUser | src/main/java/com/daon/identityx/fido/IdentityXServices.java:229-230 | archives the user with that id and leaves everything else unchanged |
| Tenants.ArchiveAuthenticator | src/main/java/com/daon/identityx/fido/IdentityXServices.java:379-381 | archives the authenticator with that id and leaves everything else unchanged |
| IdentityX.LastIndexOf | src/main/java/com/daon/identityx/fido/IdentityXServices.java:879-887 | the last position of the character, or -1 exactly when it does not occur |
| IdentityX.GetIdFromHref | src/main/java/com/daon/identityx/fido/IdentityXServices.java:879-887 | the id is the text after the last '/', and "" when there is no '/' |
| IdentityX.IdFromUserHref | src/main/java/com/daon/identityx/fido/IdentityXServices.java:868-887 | the id taken from a user's href is that user's id |
| IdentityX.FindRequired | src/main/java/com/daon/identityx/fido/IdentityXServices.java:667-674 | a required lookup succeeds exactly when one item is found, and fails otherwise |
| IdentityX.FindOptional | src/main/java/com/daon/identityx/fido/IdentityXServices.java:811-821 | an optional lookup gives nothing for no result, the one item for one, and fails for several |
| IdentityX.FindApplication | src/main/java/com/daon/identityx/fido/IdentityXServices.java:660-675 | the application is found exactly when one application has that application id, and it is that one; none or several crash |
| IdentityX.FindPolicy | src/main/java/com/daon/identityx/fido/IdentityXServices.java:699-713 | the policy is found exactly when the application has one policy with that policy id, and it is that one; none or several crash |
| IdentityX.FindUser | src/main/java/com/daon/identityx/fido/IdentityXServices.java:909-926 | finds the only user with that userId, finds none when there is none, and fails when there are several |
| IdentityX.FindRegistration | src/main/java/com/daon/identityx/fido/IdentityXServices.java:805-822 | the same for the user's registration with that registration id |
| IdentityX.RegisterWith | src/main/java/com/daon/identityx/fido/IdentityXServices.java:195-210 | once the user is known: the single registration is reused or one is created, several crash and change nothing, and one challenge for that registration is added |
| IdentityX.ActiveFido | src/main/java/com/daon/identityx/fido/IdentityXServices.java:354-372 | the selection is no longer than its input |
| IdentityX.ActiveFidoExactly | src/main/java/com/daon/identityx/fido/IdentityXServices.java:354-372 | an authenticator is selected exactly when it is an active FIDO authenticator |
| IdentityX.ActiveFidoAppend | src/main/java/com/daon/identityx/fido/IdentityXServices.java:362-370 | the selection keeps the order, one authenticator at a time |
| IdentityX.FidoInfos | src/main/java/com/daon/identityx/fido/IdentityXServices.java:935-949 | the conversion is no longer than its input |
| IdentityX.FidoInfosExactly | src/main/java/com/daon/identityx/fido/IdentityXServices.java:935-949 | an info is produced exactly when it converts a FIDO authenticator of the input |
| IdentityX.FidoInfosAppend | src/main/java/com/daon/identityx/fido/IdentityXServices.java:935-949 | the conversion keeps the order, one authenticator at a time |
| IdentityX.FidoInfosOfFido | src/main/java/com/daon/identityx/fido/IdentityXServices.java:935-949 | a list of FIDO authenticators converts element by element |
| IdentityX.ConvertToAuthenticatorInfo | src/main/java/com/daon/identityx/fido/IdentityXServices.java:935-949 | the loop converts exactly the FIDO authenticators, in order |
| IdentityX.SelectActiveFido | src/main/java/com/daon/identityx/fido/IdentityXServices.java:359-371 | the loop keeps exactly the active FIDO authenticators, in order |
| IdentityX.Expand | src/main/java/com/daon/identityx/fido/IdentityXServices.java:831-843 | every authenticator has its type replaced by the full type from the type repository |
| IdentityX.WithAaidKeepsPresent | src/main/java/com/daon/identityx/fido/IdentityXServices.java:392-400 | an authenticator with its AAID is unchanged, filling is idempotent, and id, kind and status are kept |
| IdentityX.FillAaids | src/main/java/com/daon/identityx/fido/IdentityXServices.java:392-400 | every authenticator gets its type's AAID when it lacks one |
| IdentityX.ArchivedCopy | src/main/java/com/daon/identityx/fido/IdentityXServices.java:380 | the server's answer to a deactivation is that authenticator, archived |
| IdentityX.DeactivateAllShape | src/main/java/com/daon/identityx/fido/IdentityXServices.java:374-383 | deactivation answers one archived copy per authenticator, in order, with the same ids |
| IdentityX.DeactivateAllEffect | src/main/java/com/daon/identityx/fido/IdentityXServices.java:374-383 | afterwards an authenticator is archived exactly when it was archived or was in the list, and nothing else changes |
| IdentityX.Deactivation | src/main/java/com/daon/identityx/fido/IdentityXServices.java:314-340 | deactivating a user's authenticators fails, changing nothing, exactly when the user does not exist |
| IdentityX.ActiveIdsOfUser | src/main/java/com/daon/identityx/fido/IdentityXServices.java:354-383 | the list deactivation works through names exactly the user's active FIDO authenticators |
| IdentityX.DeactivationEffect | src/main/java/com/daon/identityx/fido/IdentityXServices.java:314-340 | a stored authenticator ends archived exactly when it is (shares its id with) an active FIDO authenticator of the user, and is otherwise untouched, so non-FIDO, archived and other users' authenticators stay; that user and no other is archived |
| IdentityX.ToInt32 | src/main/java/com/daon/identityx/fido/IdentityXServices.java:547 | the `(int)(long)` cast wraps the code to 32 bits and keeps every value already in range |
| IdentityX.FailureError | src/main/java/com/daon/identityx/fido/IdentityXServices.java:546-564 | a failed response is `UNKNOWN_AUTHENTICATOR` for code 1481, `REVOKED_AUTHENTICATOR` for 1493, `INVALID_CREDENTIALS` for every other code, and a null error for no code |
| IdentityX.StaticsAfter | src/main/java/com/daon/identityx/fido/IdentityXServices.java:549-558 | a thrown `UNKNOWN_AUTHENTICATOR` gets FIDO code 1481 and its hint message, a thrown `REVOKED_AUTHENTICATOR` gets 1493 and its hint; no other constant is written |
| IdentityX.AuthVerdict | src/main/java/com/daon/identityx/fido/IdentityXServices.java:520-576 | the response is accepted exactly when the server reports success, with its user re-read from the server; it is refused with the mapped error exactly on a failure; every other status and a missing request crash |
| IdentityX.OwnsExactlyOwnHref | src/main/java/com/daon/identityx/fido/IdentityXServices.java:258-263 | an account owns a user href exactly when the href's id is its FIDO id |
| IdentityX.DeleteAuthenticator | src/main/java/com/daon/identityx/fido/IdentityXServices.java:249-271 | an authenticator is archived and its deregistration request returned exactly when it exists and belongs to the caller; otherwise nothing changes |
| IdentityX.GetAuthenticator | src/main/java/com/daon/identityx/fido/IdentityXServices.java:608-627 | an authenticator is returned exactly when it exists and belongs to the caller |
| IdentityX.ProcessRegistrationResponse | src/main/java/com/daon/identityx/fido/IdentityXServices.java:482-510 | the response is recorded on the challenge exactly when the challenge exists and its registration belongs to the caller; otherwise nothing changes and the call crashes |
| IdentityX.RegRequest | src/main/java/com/daon/identityx/fido/IdentityXServices.java:183-212 | the user is the account's FIDO user, the one user with its email (several crash), or a new one; its registration named by the email is reused when single, created when absent, and several crash; a success adds exactly one challenge for that registration; a failure adds no registration or challenge |
| IdentityX.UserDeletion | src/main/java/com/daon/identityx/fido/IdentityXServices.java:220-236 | with no FIDO id nothing happens; otherwise the user is archived exactly when it exists, and a missing user crashes and changes nothing |
| IdentityX.DeleteUserArchivesOnlyThatUser | src/main/java/com/daon/identityx/fido/IdentityXServices.java:220-236 | deleting a user archives that user and no other |
| IdentityX.DeactivateAllAt | src/main/java/com/daon/identityx/fido/IdentityXServices.java:374-383 | the i-th archived copy returned is the server's copy of the i-th listed authenticator after the ones before it were archived |
| IdentityX.ArchivedCopyIsStored | src/main/java/com/daon/identityx/fido/IdentityXServices.java:374-383 | with unique ids, each returned copy is the stored authenticator with that id, now ARCHIVED |
| IdentityX.ReportedCopy | src/main/java/com/daon/identityx/fido/IdentityXServices.java:314-340 | one archived FIDO copy per active authenticator, in order, equal to it but for the status and the type the cache supplied |
| IdentityX.ReportedEntry | src/main/java/com/daon/identityx/fido/IdentityXServices.java:392-400 | each deregistration info carries the authenticator's id, ARCHIVED, its dates and deregistration request, and its AAID, taken from the type when the stored one is missing |
| IdentityX.DeactivationReport | src/main/java/com/daon/identityx/fido/IdentityXServices.java:314-340 | for a known user the deactivation succeeds with exactly one deregistration info per active FIDO authenticator, in order: its id, ARCHIVED, its dates, its stored deregistration request, and its AAID filled from the types when missing |
| IdentityX.IdentityXServices.constructor | src/main/java/com/daon/identityx/fido/IdentityXServices.java:115 | the type cache starts empty |
| IdentityX.IdentityXServices.GetAuthenticatorType | src/main/java/com/daon/identityx/fido/IdentityXServices.java:342-352 | returns the repository's type for the href, asks the repository only on a cache miss, and then caches the answer |
| IdentityX.IdentityXServices.GetAuthenticators | src/main/java/com/daon/identityx/fido/IdentityXServices.java:831-843 | returns the user's authenticators with full types, and every type seen ends in the cache |
| IdentityX.IdentityXServices.GetActiveFidoAuthenticators | src/main/java/com/daon/identityx/fido/IdentityXServices.java:354-372 | returns exactly the user's active FIDO authenticators, in order |
| IdentityX.IdentityXServices.DeactivateFidoAuthenticators | src/main/java/com/daon/identityx/fido/IdentityXServices.java:374-383 | archives each listed authenticator and returns the server's archived copies |
| IdentityX.IdentityXServices.AddAuthenticatorTypeAAID | src/main/java/com/daon/identityx/fido/IdentityXServices.java:392-400 | fills the missing AAIDs from the types, and caches only types it looked up |
| IdentityX.IdentityXServices.DeactivateAndDelete | src/main/java/com/daon/identityx/fido/IdentityXServices.java:314-340 | crashes for an unknown user; otherwise archives exactly the user's active FIDO authenticators (see `DeactivationEffect`) and returns one deregistration info per authenticator, as `DeactivationReport` states |
| IdentityX.IdentityXServices.ValidateAuthResponse | src/main/java/com/daon/identityx/fido/IdentityXServices.java:520-576 | gives the verdict on the response and writes the FIDO code and message only into the constant it throws |
| IdentityX.IdentityXServices.CreateRegRequest | src/main/java/com/daon/identityx/fido/IdentityXServices.java:183-212 | performs the registration request on the server's state |
| IdentityX.IdentityXServices.DeleteUser | src/main/java/com/daon/identityx/fido/IdentityXServices.java:220-236 | performs the user deletion on the server's state |
| Controller.Relay | src/main/java/com/daon/identityx/controller/SimpleController.java:113-147 | an exception passes through an operation unchanged and is answered the same |
| Controller.MissingField | src/main/java/com/daon/identityx/controller/SimpleController.java:185-196 | email, password, first name and last name are checked in that order, and the first missing one decides the error |
| Controller.Dispatch | src/main/java/com/daon/identityx/controller/SimpleController.java:274-282 | an email selects the password login even with a FIDO response present; a FIDO response alone selects the FIDO login; neither is insufficient credentials |
| Controller.EmailLogin | src/main/java/com/daon/identityx/controller/SimpleController.java:657-688 | a session opens exactly when the password is given, the email finds an account with a salt, and the password matches; an unknown email and a wrong password both give `INVALID_CREDENTIALS`; a missing salt crashes |
| Controller.FidoCompletion | src/main/java/com/daon/identityx/controller/SimpleController.java:704-733 | a FIDO response naming no user gives a response without a session; a user without an account gives `FIDO_AUTH_COMPLETE_ACCOUNT_NOT_FOUND`; otherwise a session opens; the FIDO fields always pass through |
| Controller.FidoLoginCases | src/main/java/com/daon/identityx/controller/SimpleController.java:696-737 | a FIDO login opens a session exactly when a request id is given, the server reports success for a user it knows, and that user's email finds an account |
| Controller.BindFidoId | src/main/java/com/daon/identityx/controller/SimpleController.java:446-456 | a FIDO id is bound when unset, kept when equal, and a different one crashes, so it is never replaced |
| Controller.CreatedPasswordLogsIn | src/main/java/com/daon/identityx/controller/SimpleController.java:761-784 | the password chosen at account creation later opens a session |
| Controller.OtherPasswordRefused | src/main/java/com/daon/identityx/controller/SimpleController.java:665-675 | any other password is refused exactly like an unknown email |
| Controller.SimpleController.ValidateSession | src/main/java/com/daon/identityx/controller/SimpleController.java:631-649 | an unknown session and an expired session are errors; a live session is returned with its expiry moved to now plus the default period |
| Controller.SimpleController.CreateHash | src/main/java/com/daon/identityx/controller/SimpleController.java:761-768 | stores the salt, the base iteration count and the digest, so the password then matches |
| Controller.SimpleController.ValidatePassword | src/main/java/com/daon/identityx/controller/SimpleController.java:778-784 | a password is accepted exactly when its digest equals the stored one; no salt crashes |
| Controller.SimpleController.OpenSession | src/main/java/com/daon/identityx/controller/SimpleController.java:746-753 | saves one new session of the account, starting now and ending one period later |
| Controller.SimpleController.LogIn | src/main/java/com/daon/identityx/controller/SimpleController.java:676-684 | opens a session and records the login time, and returns the account as it was before |
| Controller.SimpleController.NewAccount | src/main/java/com/daon/identityx/controller/SimpleController.java:198-202 | a new account with the request's fields, the digest of its password, the base iteration count and the salt |
| Controller.SimpleController.RegisterNewAccount | src/main/java/com/daon/identityx/controller/SimpleController.java:212-218 | a requested registration binds the account to its FIDO user and returns the challenge; a failure crashes |
| Controller.SimpleController.SaveAccount | src/main/java/com/daon/identityx/controller/SimpleController.java:204-222 | an email already taken up to case is `ACCOUNT_ALREADY_EXISTS` and changes nothing; otherwise the account and a new session are saved |
| Controller.SimpleController.CreateAccount | src/main/java/com/daon/identityx/controller/SimpleController.java:179-230 | a missing field is its error and writes no audit; an existing email is `ACCOUNT_ALREADY_EXISTS`; otherwise one new account with the password's digest and one new session; every call past the field checks writes one audit |
| Controller.SimpleController.CreateSessionWithEmail | src/main/java/com/daon/identityx/controller/SimpleController.java:657-688 | decides as the password login does; a success adds exactly one fresh session for the account, created now and expiring one period later, and sets only the account's last login to now; any other outcome leaves sessions and the account unchanged; accounts stay the same objects |
| Controller.SimpleController.CompleteFidoLogin | src/main/java/com/daon/identityx/controller/SimpleController.java:704-733 | decides as the FIDO completion does; a session response adds exactly one fresh session for the account of that user, created now and expiring one period later, and sets only its last login to now; any other outcome leaves sessions and the account unchanged |
| Controller.SimpleController.VerifyFidoLogin | src/main/java/com/daon/identityx/controller/SimpleController.java:704-733 | asks the server for its verdict, then completes the login as decided, with the same session and account effects as the completion |
| Controller.SimpleController.FinishFidoLogin | src/main/java/com/daon/identityx/controller/SimpleController.java:704-733 | failures pass through and change no session or account; an accepted response completes the login with the completion's session and account effects |
| Controller.SimpleController.CreateSessionWithFido | src/main/java/com/daon/identityx/controller/SimpleController.java:696-737 | decides as the FIDO login does; only a session response adds a session, exactly one fresh one created now for the authenticated user's account, whose last login becomes now; the shared constants change only when the server was asked |
| Controller.SimpleController.Authenticate | src/main/java/com/daon/identityx/controller/SimpleController.java:273-282 | answers as the login the dispatch selects (`SessionAnswer`); a session answer adds exactly one fresh session for the logged-in account, created now and expiring one period later, and sets only that account's last login to now; any other answer leaves sessions and that account unchanged; the shared constants change only on the FIDO path with a request id |
| Controller.SimpleController.CreateSession | src/main/java/com/daon/identityx/controller/SimpleController.java:268-293 | the same answer and the same session and account effects as `Authenticate`, and writes one audit whatever the outcome |
| Controller.SimpleController.DeleteSession | src/main/java/com/daon/identityx/controller/SimpleController.java:377-392 | an unknown or expired session is an error and nothing is deleted; a live one is deleted; one audit is written |
| Controller.SimpleController.RequestRegistration | src/main/java/com/daon/identityx/controller/SimpleController.java:445-459 | a registration request succeeds exactly when the server grants it and the FIDO id it names can be bound, and then binds it |
| Controller.SimpleController.CreateRegRequest | src/main/java/com/daon/identityx/controller/SimpleController.java:437-468 | validates and renews the session, only its expiry changing, then requests a registration for its account; a FIDO id already bound is never replaced; the audit names that account |
| Controller.SimpleController.RegisterSessionAccount | src/main/java/com/daon/identityx/controller/SimpleController.java:442-459 | an unknown or expired session is its error; a live one is renewed, only its expiry changing; for its account a registration is requested, whose FIDO id is bound when unset and must equal the server's otherwise; the session's account is reported for the audit |
| Controller.SimpleController.DeleteAccountAndSession | src/main/java/com/daon/identityx/controller/SimpleController.java:309-316 | deactivates the account's FIDO authenticators if it has a FIDO id, then deletes the account and the session; a failure deletes nothing |
| Controller.SimpleController.DeleteAccountBySessionId | src/main/java/com/daon/identityx/controller/SimpleController.java:302-325 | validates the session, deactivates the account's authenticators, deletes the account and that session, and returns the deregistrations; a live session whose deletion fails stays renewed; the audit names the account only on success |
| Debugging.ReplaceStars | src/main/java/com/daon/identityx/controller/TestController.java:146-149 | every '*' becomes '%' and every other character stays |
| Debugging.NormalisePattern | src/main/java/com/daon/identityx/controller/TestController.java:146-149 | an empty pattern becomes "%"; any other pattern has its stars replaced; the result is never empty and has no '*' |
| Debugging.NormaliseIdempotent | src/main/java/com/daon/identityx/controller/TestController.java:146-149 | normalising twice is normalising once |
| Debugging.LikeAnything | src/main/java/com/daon/identityx/controller/TestController.java:146-150 | the pattern "%" matches every string |
| Debugging.LikeLiteral | src/main/java/com/daon/identityx/controller/TestController.java:146-150 | a pattern without wildcards matches exactly itself |
| Debugging.LikePrefix | src/main/java/com/daon/identityx/controller/TestController.java:146-150 | a literal followed by '%' matches exactly the strings it begins |
| Debugging.StarSuffixMatchesPrefix | src/main/java/com/daon/identityx/controller/TestController.java:146-150 | a literal the user ends with '*' is sent as that literal ending in '%', and lists exactly the strings it begins |
| Debugging.EmptyEmailPatternListsAll | src/main/java/com/daon/identityx/controller/TestController.java:146-150 | with no pattern every email matches |
| Debugging.AuditsBefore | src/main/java/com/daon/identityx/controller/TestController.java:226-238 | exactly the audit records created strictly before the date, and none when there is no date |
| Debugging.TestController.GetAccount | src/main/java/com/daon/identityx/controller/TestController.java:112-128 | returns the account with that id or `ACCOUNT_NOT_FOUND`; one audit naming the id |
| Debugging.TestController.GetAccounts | src/main/java/com/daon/identityx/controller/TestController.java:141-157 | exactly the accounts whose email matches the pattern ignoring case, all of them for no pattern; one audit |
| Debugging.TestController.GetSessions | src/main/java/com/daon/identityx/controller/TestController.java:197-214 | exactly the sessions whose id matches the pattern, all of them for no pattern; one audit |
| Debugging.TestController.GetAudits | src/main/java/com/daon/identityx/controller/TestController.java:226-238 | exactly the stored audits created before the date, never the audit of this call |
| Debugging.TestController.DeleteAccountByEmailAsWritten | src/main/java/com/daon/identityx/controller/TestController.java:168-185 | an unknown email is `ACCOUNT_NOT_FOUND`; otherwise the account is deleted and the FIDO user whose id is the email is archived |
| Debugging.TestController.DeleteAccountByEmail | src/main/java/com/daon/identityx/controller/TestController.java:168-185 | an unknown email is `ACCOUNT_NOT_FOUND`; otherwise the account is deleted and its own FIDO user is archived |
| Debugging.EmailIsNotTheFidoId | src/main/java/com/daon/identityx/controller/TestController.java:179 | when the email is not a FIDO user id, deletion by email crashes and archives nothing, while deletion by the account's FIDO id archives the user |
| Debugging.EmailIsNotTheFidoIdWitness | src/main/java/com/daon/identityx/controller/TestController.java:179 | a concrete server state where this happens |

## Left out

- The HTTP layer is not modelled: Spring request mapping, JSON, response status codes and
  logging. The `HttpClientErrorException` handler is one such part. The model counts an HTTP
  error from the FIDO server as a crash.
- The FIDO server and its SDK are not modelled as code. They are a `Tenant` value holding
  users, registrations, challenges and authenticators. The server's answers and the objects
  it creates are parameters.
- Persistence is not modelled: JPA, the database, transactions and concurrent requests. The
  repositories are in-memory maps, and each operation runs alone.
- SHA-256, UTF-8 encoding and the secure random generator are not modelled. The first two are
  function values, and random bytes are parameters.
- The outer `createSession(CreateSessionRequest)` overload is modelled as
  `Authenticate`/`CreateSession`.
  - The FIDO path is split into `VerifyFidoLogin`, `FinishFidoLogin` and `CompleteFidoLogin`.
    This keeps each proof small; the composition is the one the source performs.
  - `createRegRequest` is split the same way: `RegisterSessionAccount` is its try block and
    `CreateRegRequest` adds the audit of the finally block.
- Pagination (the `Pageable` argument) and result order of the list queries are not modelled.
  `GetAccounts` and `GetSessions` return sets, and `GetAudits` keeps the store's order.
- SQL `LIKE` is modelled without an escape character. Matching on emails ignores case
  because the column is case-insensitive. Matching on session ids is case-sensitive. Case
  folding covers ASCII letters only.
- `Error.setCode` and `Error.setMessage` are not modelled. No modelled operation calls them.
- `createAuthRequest`, `createAuthTransactionRequest`, `getFidoFacets`, policy retrieval and
  the connection to the FIDO server are not part of this model. They are calls into the SDK
  and the network. What they answer is a parameter.
- `IdentityXServices.deleteAuthenticator`, `getAuthenticator` and `processRegistrationResponse`
  are modelled as functions from the server state to an outcome and a new state. This keeps
  their ownership checks. It does not model the SDK objects they update in place.
- IdentityX.DeactivationReport: assumes the server's authenticator ids are unique
  (`UniqueAuthenticatorIds`). With duplicate ids the model does not say which record is archived.
- IdentityX.IdentityXServices.AddAuthenticatorTypeAAID: the source sets the AAID on the
  authenticator objects in place. The model returns new authenticator values, so aliasing of
  those objects is not captured.
- The lazily created `SecureRandom` of `getRandomSalt` and the `synchronized` key generator
  are not modelled. Salts and keys are parameters.
- Controller.FidoLoginCases: the lemma is proved by the definitions alone, so it states the
  FIDO login's cases without adding proof work of its own.
- Keys and freshness: the keys of new accounts and sessions are parameters that the callers'
  preconditions require to be unused. They are not tied to `IdGenerator.Generate`, so the model
  does not capture that a random 128-bit key could collide with a stored one.

## Findings

| source | as written | input that shows it | evidently intended | confidence | as-written member | corrected member |
|---|---|---|---|---|---|---|
| src/main/java/com/daon/identityx/controller/TestController.java:179 | `deleteAccountByEmail` archives the FIDO user by passing the account's email to `deleteUser`, which takes the FIDO server's user id. The local account is already deleted by then. | The FIDO server has a user with id "u1" and userId "a@b.c", and an account with email "a@b.c" has FIDO id "u1". Deleting by email "a@b.c" archives no user and fails with `UNEXPECTED_ERROR`, yet the account is gone. | Pass the account's FIDO id (`getIdXId()`), so that the account's own FIDO user is archived. | not executed | Debugging.TestController.DeleteAccountByEmailAsWritten, Debugging.EmailIsNotTheFidoId, Debugging.EmailIsNotTheFidoIdWitness | Debugging.TestController.DeleteAccountByEmail |
