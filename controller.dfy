/**
 * The relying party's REST controller (controller/SimpleController.java):
 * accounts, password and FIDO logins, sessions with sliding expiry, FIDO
 * registration requests and account deletion, each operation writing one
 * audit record in its `finally` block.
 *
 * The wall clock is read as `now` during an operation and as `finish` in its
 * `finally` block; random bytes, generated keys and what the provider creates
 * or answers are parameters.
 */
module Controller {
  import opened Wrappers
  import opened Bytes
  import opened Errors
  import opened Entities
  import opened Stores
  import opened PasswordHashing
  import opened Tenants
  import opened IdentityX

  // ---------------------------------------------------------------------------
  // Requests, responses and the decisions made on them

  /** The body of a create-session request; an absent field is the empty string. */
  datatype CreateSessionRequest = CreateSessionRequest(
    email: string,
    password: string,
    fidoAuthenticationResponse: string,
    authenticationRequestId: string)

  datatype CreateSessionResponse = CreateSessionResponse(
    sessionId: Option<string>,
    loggedInWith: Option<AuthenticationMethod>,
    email: Option<string>,
    firstName: Option<string>,
    lastName: Option<string>,
    lastLoggedIn: Option<int>,
    fidoAuthenticationResponse: Option<string>,
    fidoResponseCode: Option<int>,
    fidoResponseMsg: Option<string>)

  datatype CreateAccountResponse = CreateAccountResponse(
    sessionId: string,
    fidoRegistrationRequest: Option<string>,
    registrationRequestId: Option<string>)

  datatype CreateRegRequestResponse = CreateRegRequestResponse(registrationRequestId: string, fidoRegistrationRequest: string)

  datatype DeleteAccountResponse = DeleteAccountResponse(fidoDeregistrationRequests: Option<seq<AuthenticatorInfo>>)

  /** An exception passing through unchanged into an operation of another result type. */
  function Relay<T, U>(o: Outcome<T>): (r: Outcome<U>)
    requires !o.Ok?
    ensures !r.Ok? && Reply(r) == Reply(o)
    ensures r.Raised? <==> o.Raised?
  {
    if o.Raised? then Raised(o.error) else Crashed(o.reason)
  }

  /** The reason `hash` gives when it cannot digest the password (a null salt). */
  const HASH_FAILURE := "An exception occurred while attempting to hash the password"

  /** A session is expired once its expiry lies strictly before the present. */
  predicate Expired(expiringDTM: int, now: int) {
    expiringDTM < now
  }

  /**
   * The field checks of createAccount, in order: email, password, first name,
   * last name; the first one missing decides the error.
   */
  function MissingField(req: CreateAccountRequest): (r: Option<ErrorKind>)
    ensures r.None? <==> req.email != "" && req.password != "" && req.firstName != "" && req.lastName != ""
    ensures req.email == "" ==> r == Some(EmailNotProvided)
    ensures req.email != "" && req.password == "" ==> r == Some(PasswordNotProvided)
    ensures req.email != "" && req.password != "" && req.firstName == "" ==> r == Some(FirstNameNotProvided)
    ensures req.email != "" && req.password != "" && req.firstName != "" && req.lastName == "" ==> r == Some(LastNameNotProvided)
  {
    if req.email == "" then Some(EmailNotProvided)
    else if req.password == "" then Some(PasswordNotProvided)
    else if req.firstName == "" then Some(FirstNameNotProvided)
    else if req.lastName == "" then Some(LastNameNotProvided)
    else None
  }

  datatype CredentialPath = EmailPath | FidoPath | NoCredentials

  /** createSession's choice: an email wins over a FIDO response, and neither is insufficient. */
  function Dispatch(req: CreateSessionRequest): (p: CredentialPath)
    ensures p == EmailPath <==> req.email != ""
    ensures p == FidoPath <==> req.email == "" && req.fidoAuthenticationResponse != ""
    ensures p == NoCredentials <==> req.email == "" && req.fidoAuthenticationResponse == ""
  {
    if req.email != "" then EmailPath
    else if req.fidoAuthenticationResponse != "" then FidoPath
    else NoCredentials
  }

  /** The response for a new session of `a`, carrying the login time it had before this one. */
  function Opened(sessionKey: string, how: AuthenticationMethod, a: AccountRecord): CreateSessionResponse {
    CreateSessionResponse(Some(sessionKey), Some(how), Some(a.email), Some(a.firstName), Some(a.lastName),
      a.lastLoggedIn, None, None, None)
  }

  /**
   * createSessionWithEmail's answer, given the account the email finds (if
   * any): a missing password first; then an unknown email and a wrong
   * password alike are invalid credentials; an account without a salt makes
   * the hashing fail.
   */
  function EmailLogin(p: Primitives, req: CreateSessionRequest, found: Option<AccountRecord>, sessionKey: string)
    : (r: Outcome<CreateSessionResponse>)
    ensures r.Ok? <==> req.password != "" && found.Some? && found.value.salt.Some?
                       && PasswordMatches(p, found.value.hashedPassword, found.value.iterations, found.value.salt.value, req.password)
    ensures r.Ok? ==> r.value == Opened(sessionKey, UsernamePassword, found.value)
    ensures req.password == "" ==> r == Raised(Some(PasswordNotProvided))
    ensures r.Crashed? <==> req.password != "" && found.Some? && found.value.salt.None?
    ensures req.password != "" && r.Raised? ==> r == Raised(Some(InvalidCredentials))
  {
    if req.password == "" then Raised(Some(PasswordNotProvided))
    else match found
      case None => Raised(Some(InvalidCredentials))
      case Some(a) =>
        if a.salt.None? then Crashed(HASH_FAILURE)
        else if !PasswordMatches(p, a.hashedPassword, a.iterations, a.salt.value, req.password) then Raised(Some(InvalidCredentials))
        else Ok(Opened(sessionKey, UsernamePassword, a))
  }

  /** The userId (an email) of the user an authentication request names, or "" when it names none. */
  function UserIdOf(request: AuthenticationRequest): string {
    if request.user.Some? then request.user.value.userId else ""
  }

  /** The userId of the user a verdict accepted, or "" when it accepted none or refused. */
  function VerdictUserId(v: Outcome<AuthenticationRequest>): string {
    if v.Ok? then UserIdOf(v.value) else ""
  }

  /** The userId of the user the provider says authenticated, or "" when none did. */
  function AuthenticatedUserId(t: Tenant, answer: Option<AuthenticationRequest>): string {
    VerdictUserId(AuthVerdict(t, answer))
  }

  /**
   * createSession's answer and its effect on the shared error constants
   * (`table` before, `table'` after): the email login when an email is given,
   * else the FIDO login, which alone asks the provider and so alone may write
   * the constants, and otherwise insufficient credentials.
   */
  ghost predicate SessionAnswer(p: Primitives, t: Tenant, req: CreateSessionRequest, answer: Option<AuthenticationRequest>,
                                byEmail: Option<AccountRecord>, byFido: Option<AccountRecord>, sessionKey: string,
                                o: Outcome<CreateSessionResponse>, table: map<ErrorKind, Error>, table': map<ErrorKind, Error>)
  {
    match Dispatch(req)
    case EmailPath => o == EmailLogin(p, req, byEmail, sessionKey) && table' == table
    case FidoPath =>
      && o == FidoLogin(t, answer, req, byFido, sessionKey)
      && (req.authenticationRequestId == "" ==> table' == table)
      && (req.authenticationRequestId != "" ==>
            UnknownAuthenticator in table && RevokedAuthenticator in table
            && table' == StaticsAfter(table, AuthVerdict(t, answer)))
    case NoCredentials => o == Raised(Some(InsufficientCredentials)) && table' == table
  }

  /** The email a login finds its account by: the one typed in, else the userId of the user the provider authenticated. */
  function LoginEmail(req: CreateSessionRequest, t: Tenant, answer: Option<AuthenticationRequest>): string {
    if req.email != "" then req.email else AuthenticatedUserId(t, answer)
  }

  /** A renewed session: only its expiry changes, to DEFAULT_SESSION_PERIOD after `now`. */
  ghost predicate Renewed(before: SessionRecord, after: SessionRecord, now: int) {
    after == before.(expiringDTM := now + DEFAULT_SESSION_PERIOD)
  }

  /**
   * A login of the account stored under `k`: of its record only the last
   * login changes, to `now`, and the new session `sessionKey` belongs to it,
   * created `now` and expiring `period` later.
   */
  ghost predicate LoggedIn(k: string, before: AccountRecord, after: AccountRecord,
                           sessionKey: string, session: SessionRecord, now: int, period: int)
  {
    && after == before.(lastLoggedIn := Some(now))
    && session == SessionRecord(sessionKey, k, now, now + period)
  }

  /**
   * The rest of createSessionWithFIDO once the provider has accepted the
   * response, given the account found by the user's userId: no user gives a
   * response without a session; a user without a local account is an error;
   * otherwise a session response. Every response passes the provider's FIDO
   * response, code and message on.
   */
  function FidoCompletion(request: AuthenticationRequest, found: Option<AccountRecord>, sessionKey: string)
    : (r: Outcome<CreateSessionResponse>)
    ensures !r.Crashed?
    ensures r.Ok? && r.value.sessionId.None? <==> request.user.None?
    ensures r.Ok? && r.value.sessionId.Some? <==> request.user.Some? && found.Some?
    ensures request.user.Some? && found.None? ==> r == Raised(Some(FidoAuthCompleteAccountNotFound))
    ensures r.Ok? && r.value.sessionId.Some? ==>
      r.value.sessionId == Some(sessionKey) && r.value.loggedInWith == Some(FidoAuthentication)
      && r.value.lastLoggedIn == found.value.lastLoggedIn && r.value.email == Some(found.value.email)
      && r.value.firstName == Some(found.value.firstName) && r.value.lastName == Some(found.value.lastName)
    ensures r.Ok? && r.value.sessionId.None? ==> r.value.loggedInWith.None? && r.value.email.None?
    ensures r.Ok? ==>
      r.value.fidoAuthenticationResponse == Some(request.fidoAuthenticationResponse)
      && r.value.fidoResponseCode == request.fidoResponseCode && r.value.fidoResponseMsg == request.fidoResponseMsg
  {
    if request.user.None? then
      Ok(CreateSessionResponse(None, None, None, None, None, None,
        Some(request.fidoAuthenticationResponse), request.fidoResponseCode, request.fidoResponseMsg))
    else match found
      case None => Raised(Some(FidoAuthCompleteAccountNotFound))
      case Some(a) =>
        Ok(Opened(sessionKey, FidoAuthentication, a).(fidoAuthenticationResponse := Some(request.fidoAuthenticationResponse),
          fidoResponseCode := request.fidoResponseCode, fidoResponseMsg := request.fidoResponseMsg))
  }

  /**
   * createSessionWithFIDO once the provider has given its verdict `v`: its
   * failures pass through; an accepted response goes on to `FidoCompletion`.
   */
  function FidoVerdictLogin(v: Outcome<AuthenticationRequest>, found: Option<AccountRecord>, sessionKey: string)
    : Outcome<CreateSessionResponse>
  {
    if !v.Ok? then Relay(v)
    else FidoCompletion(v.value, found, sessionKey)
  }

  /** createSessionWithFIDO's answer: no request id is an error, otherwise `FidoVerdictLogin`. */
  function FidoLogin(t: Tenant, answer: Option<AuthenticationRequest>, req: CreateSessionRequest, found: Option<AccountRecord>, sessionKey: string)
    : Outcome<CreateSessionResponse>
  {
    if req.authenticationRequestId == "" then Raised(Some(AuthenticationRequestIdNotProvided))
    else FidoVerdictLogin(AuthVerdict(t, answer), found, sessionKey)
  }

  /**
   * A FIDO login opens a session exactly when a request id is given, the
   * provider reports success for a user it knows, and that user's userId
   * finds an account; the provider's failures reach the client unchanged.
   */
  lemma FidoLoginCases(t: Tenant, answer: Option<AuthenticationRequest>, req: CreateSessionRequest, found: Option<AccountRecord>, sessionKey: string)
    ensures var r := FidoLogin(t, answer, req, found, sessionKey);
      && (req.authenticationRequestId == "" ==> r == Raised(Some(AuthenticationRequestIdNotProvided)))
      && (req.authenticationRequestId != "" && !AuthVerdict(t, answer).Ok? ==> !r.Ok? && Reply(r) == Reply(AuthVerdict(t, answer)))
      && (r.Ok? && r.value.sessionId.Some? <==>
            && req.authenticationRequestId != "" && answer.Some? && answer.value.status == CompletedSuccessful
            && answer.value.user.Some? && UserById(t, answer.value.user.value.id).Some? && found.Some?)
      && (r.Ok? && r.value.sessionId.Some? ==> r.value.email == Some(found.value.email) && r.value.lastLoggedIn == found.value.lastLoggedIn)
  {
  }

  /**
   * The account's FIDO id once the provider has named the user `provided`: it
   * is set when unset, kept when equal, and a different one is a failure. A
   * FIDO id, once bound, is never replaced.
   */
  function BindFidoId(current: Option<string>, provided: string): (r: Outcome<string>)
    ensures r.Ok? <==> current.None? || current == Some(provided)
    ensures r.Ok? ==> r.value == provided
    ensures current.Some? && r.Ok? ==> r.value == current.value
    ensures !r.Raised?
  {
    if current.None? || current.value == provided then Ok(provided)
    else Crashed("The FIDO Id from the account and the FIDO ID from the FIDO server are different! - this is an error!")
  }

  /**
   * deleteAccount for one account on the provider's side: an account without
   * a FIDO id answers with no authenticators and leaves tenant `t` alone;
   * otherwise the provider's deactivation of that user gives tenant `t'`, and
   * its list of deactivated authenticators is the response, or it failed.
   */
  ghost predicate ProviderDeactivated(t: Tenant, types: string -> AuthenticatorType, idXId: Option<string>,
                                      o: Outcome<DeleteAccountResponse>, t': Tenant)
  {
    && (idXId.None? ==> o == Ok(DeleteAccountResponse(None)) && t' == t)
    && (idXId.Some? ==>
          var (r, t1) := Deactivation(t, types, idXId.value);
          && t' == t1
          && (r.Ok? ==> o == Ok(DeleteAccountResponse(Some(r.value))))
          && (!r.Ok? ==> o.Crashed?))
  }

  /**
   * createRegRequest for one account: the provider's find-or-create step on
   * tenant `t` by the account's email and FIDO id gives tenant `t'`, and the
   * response carries the challenge's href and request exactly when that step
   * succeeds and its user's id binds to the account, which then holds that
   * FIDO id; otherwise the account is as it was.
   */
  ghost predicate RegistrationRequested(t: Tenant, c: Created, before: AccountRecord,
                                        o: Outcome<CreateRegRequestResponse>, t': Tenant, after: AccountRecord)
  {
    var (r, t1) := RegRequest(t, before.email, before.idXId, c);
    && t' == t1
    && (o.Ok? <==> r.Ok? && BindFidoId(before.idXId, r.value.idXId).Ok?)
    && (o.Ok? ==>
          o.value == CreateRegRequestResponse(r.value.registrationChallenge.href, r.value.registrationChallenge.fidoRegistrationRequest)
          && after == before.(idXId := Some(r.value.idXId)))
    && (!o.Ok? ==> o.Crashed? && after == before)
  }

  /** A password chosen at account creation opens a session later. */
  lemma CreatedPasswordLogsIn(p: Primitives, a: AccountRecord, req: CreateSessionRequest, salt: Bytes, sessionKey: string)
    requires req.password != ""
    requires a.salt == Some(salt) && a.iterations == BASE_ITERATION_NUMBER
    requires a.hashedPassword == Some(Digest(p, req.password, BASE_ITERATION_NUMBER, salt))
    ensures EmailLogin(p, req, Some(a), sessionKey) == Ok(Opened(sessionKey, UsernamePassword, a))
  {
    StoredDigestAccepts(p, req.password, BASE_ITERATION_NUMBER, salt);
  }

  /** With a collision-free digest and encoder, any other password is refused like an unknown email. */
  lemma OtherPasswordRefused(p: Primitives, a: AccountRecord, chosen: string, req: CreateSessionRequest, salt: Bytes, sessionKey: string)
    requires forall x, y :: p.sha256(x) == p.sha256(y) ==> x == y
    requires forall x, y :: p.utf8(x) == p.utf8(y) ==> x == y
    requires req.password != "" && req.password != chosen
    requires a.salt == Some(salt) && a.hashedPassword == Some(Digest(p, chosen, a.iterations, salt))
    ensures EmailLogin(p, req, Some(a), sessionKey) == EmailLogin(p, req, None, sessionKey) == Raised(Some(InvalidCredentials))
  {
    OtherPasswordRejected(p, chosen, req.password, a.iterations, salt);
  }

  // ---------------------------------------------------------------------------
  // The controller

  class SimpleController {
    const repos: Repositories
    const services: IdentityXServices
    const statics: ErrorStatics
    const primitives: Primitives
    /** The configured period of a new session, in milliseconds. */
    const sessionPeriod: int

    constructor (repos: Repositories, services: IdentityXServices, statics: ErrorStatics, primitives: Primitives, sessionPeriod: int)
      ensures this.repos == repos && this.services == services && this.statics == statics
      ensures this.primitives == primitives && this.sessionPeriod == sessionPeriod
    {
      this.repos, this.services, this.statics := repos, services, statics;
      this.primitives, this.sessionPeriod := primitives, sessionPeriod;
    }

    /** The account a valid session leads to, if the session is known, unexpired and its account stored. */
    ghost function SessionAccountKey(sessionId: string, now: int): (r: Option<string>)
      reads this, repos, repos.sessions.Values
      ensures r.Some? ==> r.value in repos.accounts
    {
      if sessionId in repos.sessions && !Expired(repos.sessions[sessionId].expiringDTM, now)
         && repos.sessions[sessionId].accountId in repos.accounts
      then Some(repos.sessions[sessionId].accountId)
      else None
    }

    /**
     * What a login by `email` did to the stored accounts and sessions between
     * the state before it and now: no account is added or removed; an answer
     * with a session adds exactly that new session, of the account the email
     * finds, and logs that account in; any other answer leaves the sessions
     * and the account the email finds as they were.
     */
    twostate predicate LoginDone(new email: string, new sessionKey: string, now: int, new o: Outcome<CreateSessionResponse>)
      reads this, repos`accounts, repos`sessions, repos.accounts.Values, repos.sessions.Values
    {
      && repos.accounts == old(repos.accounts)
      && (!(o.Ok? && o.value.sessionId.Some?) ==>
            && repos.sessions == old(repos.sessions)
            && forall a :: a in old(repos.EmailFrame(email)) ==> a.Record() == old(a.Record()))
      && (o.Ok? && o.value.sessionId.Some? ==>
            && old(repos.KeyOfEmail(email)).Some?
            && var k := old(repos.KeyOfEmail(email)).value;
            && sessionKey in repos.sessions && fresh(repos.sessions[sessionKey])
            && repos.sessions == old(repos.sessions)[sessionKey := repos.sessions[sessionKey]]
            && LoggedIn(k, old(repos.accounts[k].Record()), repos.accounts[k].Record(),
                        sessionKey, repos.sessions[sessionKey].Record(), now, sessionPeriod))
    }

    /**
     * validateSession: an unknown id and an expired session are refused with
     * their own errors; a valid session has its expiry pushed to
     * DEFAULT_SESSION_PERIOD after `now`, and nothing else about it changes.
     */
    method ValidateSession(sessionId: string, now: int) returns (o: Outcome<Session>)
      requires repos.Valid()
      modifies repos.SessionFrame(sessionId)
      ensures repos.Valid()
      ensures sessionId !in repos.sessions ==> o == Raised(Some(UnknownSessionIdentifier))
      ensures sessionId in repos.sessions ==>
        var s := repos.sessions[sessionId];
        if Expired(old(s.expiringDTM), now) then
          o == Raised(Some(ExpiredSession)) && s.Record() == old(s.Record())
        else
          o == Ok(s) && Renewed(old(s.Record()), s.Record(), now)
    {
      if sessionId !in repos.sessions {
        return Raised(Some(UnknownSessionIdentifier));
      }
      var s := repos.sessions[sessionId];
      if s.expiringDTM < now {
        return Raised(Some(ExpiredSession));
      }
      s.SetExpiringDTM(now + DEFAULT_SESSION_PERIOD);
      o := Ok(s);
    }

    /** createHash: a fresh salt, the base iteration count, and the digest of the password under both. */
    method CreateHash(account: Account, password: string, salt: Bytes)
      requires |salt| == SALT_LENGTH
      modifies account`hashedPassword, account`iterations, account`salt
      ensures account.salt == Some(salt) && account.iterations == BASE_ITERATION_NUMBER
      ensures account.hashedPassword == Some(Digest(primitives, password, BASE_ITERATION_NUMBER, salt))
      ensures PasswordMatches(primitives, account.hashedPassword, account.iterations, salt, password)
    {
      var hashed := Hash(primitives, password, BASE_ITERATION_NUMBER, salt);
      account.SetHashedPassword(hashed);
      account.SetIterations(BASE_ITERATION_NUMBER);
      account.SetSalt(salt);
      StoredDigestAccepts(primitives, password, BASE_ITERATION_NUMBER, salt);
    }

    /** validatePassword: re-hash under the account's own salt and count; a missing salt makes hashing fail. */
    method ValidatePassword(account: Account, password: string) returns (o: Outcome<bool>)
      ensures account.salt.None? ==> o == Crashed(HASH_FAILURE)
      ensures account.salt.Some? ==>
        o == Ok(PasswordMatches(primitives, account.hashedPassword, account.iterations, account.salt.value, password))
    {
      if account.salt.None? {
        return Crashed(HASH_FAILURE);
      }
      var hashed := Hash(primitives, password, account.iterations, account.salt.value);
      o := Ok(account.hashedPassword == Some(hashed));
    }

    /** createSession(account, method): a new session of the account, for the configured period, saved. */
    method OpenSession(account: Account, sessionKey: string, now: int) returns (s: Session)
      requires repos.Valid() && sessionKey !in repos.sessions
      modifies repos
      ensures repos.Valid() && fresh(s)
      ensures repos.sessions == old(repos.sessions)[sessionKey := s]
      ensures s.Record() == SessionRecord(sessionKey, account.id, now, now + sessionPeriod)
      ensures repos.accounts == old(repos.accounts) && repos.audits == old(repos.audits)
    {
      s := new Session(account, sessionKey, sessionPeriod, now);
      repos.SaveNewSession(s);
    }

    /**
     * The successful end of both logins: a new session of the account stored
     * under `k`, and its last login set to `now`; `before` is the account as
     * it was, which the response reports.
     */
    method LogIn(k: string, a: Account, sessionKey: string, now: int) returns (before: AccountRecord)
      requires repos.Valid() && k in repos.accounts && repos.accounts[k] == a && sessionKey !in repos.sessions
      modifies repos, a`lastLoggedIn
      ensures repos.Valid()
      ensures before == old(repos.accounts[k].Record())
      ensures repos.accounts == old(repos.accounts) && repos.audits == old(repos.audits)
      ensures repos.accounts[k].Record() == before.(lastLoggedIn := Some(now))
      ensures sessionKey in repos.sessions && fresh(repos.sessions[sessionKey])
      ensures repos.sessions == old(repos.sessions)[sessionKey := repos.sessions[sessionKey]]
      ensures repos.sessions[sessionKey].Record() == SessionRecord(sessionKey, k, now, now + sessionPeriod)
    {
      before := a.Record();
      var session := OpenSession(a, sessionKey, now);
      a.SetLastLoggedIn(now);
    }

    /**
     * The account createAccount builds from the request: names and email
     * copied, the password hashed under a fresh salt and the base iteration
     * count, created and last logged in `now`.
     */
    method NewAccount(req: CreateAccountRequest, accountKey: string, salt: Bytes, now: int) returns (account: Account)
      requires |salt| == SALT_LENGTH
      ensures fresh(account)
      ensures account.Record() == AccountRecord(accountKey, req.firstName, req.lastName, req.email,
        Some(Digest(primitives, req.password, BASE_ITERATION_NUMBER, salt)), BASE_ITERATION_NUMBER, Some(salt), Some(now), None, now)
    {
      account := new Account(req, accountKey, now);
      CreateHash(account, req.password, salt);
      account.SetCreatedDTM(now);
      account.SetLastLoggedIn(now);
    }

    /**
     * The registration step of createAccount: a registration request for the
     * new account's email, with no FIDO id yet, whose user's id is bound to
     * the stored account.
     */
    method RegisterNewAccount(account: Account, sessionKey: string, c: Created) returns (o: Outcome<CreateAccountResponse>)
      modifies account`idXId, services`tenant
      ensures var (r, t) := RegRequest(old(services.tenant), account.email, None, c);
        && services.tenant == t
        && (r.Ok? ==>
              account.Record() == old(account.Record()).(idXId := Some(r.value.idXId))
              && o == Ok(CreateAccountResponse(sessionKey, Some(r.value.registrationChallenge.fidoRegistrationRequest),
                                               Some(r.value.registrationChallenge.href))))
        && (!r.Ok? ==> account.Record() == old(account.Record()) && o.Crashed?)
    {
      var r := services.CreateRegRequest(account.email, None, c);
      if r.Ok? {
        account.SetIdXId(r.value.idXId);
        o := Ok(CreateAccountResponse(sessionKey, Some(r.value.registrationChallenge.fidoRegistrationRequest),
                                      Some(r.value.registrationChallenge.href)));
      } else {
        o := Relay(r);
      }
    }

    /**
     * The body of createAccount's `try`: save the account, which the unique
     * email column refuses when the email is taken up to case; open a session;
     * register with the FIDO server when asked.
     */
    method SaveAccount(req: CreateAccountRequest, account: Account, sessionKey: string, c: Created, now: int)
      returns (o: Outcome<CreateAccountResponse>)
      requires repos.Valid()
      requires account.email == req.email && account.id !in repos.accounts && sessionKey !in repos.sessions
      modifies repos, account`idXId, services`tenant
      ensures repos.Valid() && repos.audits == old(repos.audits)
      ensures old(repos.KeyOfEmail(req.email)).Some? ==>
        && o == Raised(Some(AccountAlreadyExists))
        && repos.accounts == old(repos.accounts) && repos.sessions == old(repos.sessions)
        && services.tenant == old(services.tenant)
      ensures old(repos.KeyOfEmail(req.email)).None? ==>
        && repos.accounts == old(repos.accounts)[account.id := account]
        && sessionKey in repos.sessions && fresh(repos.sessions[sessionKey])
        && repos.sessions == old(repos.sessions)[sessionKey := repos.sessions[sessionKey]]
        && repos.sessions[sessionKey].Record() == SessionRecord(sessionKey, account.id, now, now + sessionPeriod)
        && (!req.registrationRequested ==>
              account.Record() == old(account.Record())
              && services.tenant == old(services.tenant)
              && o == Ok(CreateAccountResponse(sessionKey, None, None)))
        && (req.registrationRequested ==>
              var (r, t) := RegRequest(old(services.tenant), req.email, None, c);
              && services.tenant == t
              && (r.Ok? ==>
                    account.Record() == old(account.Record()).(idXId := Some(r.value.idXId))
                    && o == Ok(CreateAccountResponse(sessionKey, Some(r.value.registrationChallenge.fidoRegistrationRequest),
                                                     Some(r.value.registrationChallenge.href))))
              && (!r.Ok? ==> account.Record() == old(account.Record()) && o.Crashed?))
    {
      ghost var taken := repos.KeyOfEmail(req.email);
      var saved := repos.SaveNewAccount(account);
      if !saved {
        assert taken.Some?;
        return Raised(Some(AccountAlreadyExists));
      }
      var session := OpenSession(account, sessionKey, now);
      if req.registrationRequested {
        o := RegisterNewAccount(account, sessionKey, c);
      } else {
        o := Ok(CreateAccountResponse(sessionKey, None, None));
      }
    }

    /**
     * createAccount. A missing field is refused before anything is written,
     * not even an audit record. Otherwise the new account is saved, unless its
     * email is taken up to case, with a session and, when asked for, a FIDO
     * registration request whose user's id is bound to the account. The audit
     * record is written in every other case.
     */
    method CreateAccount(req: CreateAccountRequest, salt: Bytes, accountKey: string, sessionKey: string, c: Created, now: int, finish: int)
      returns (o: Outcome<CreateAccountResponse>)
      requires repos.Valid()
      requires |salt| == SALT_LENGTH
      requires accountKey !in repos.accounts && sessionKey !in repos.sessions
      modifies repos, services`tenant
      ensures repos.Valid()
      ensures MissingField(req).Some? ==>
        && o == Raised(MissingField(req))
        && repos.accounts == old(repos.accounts) && repos.sessions == old(repos.sessions) && repos.audits == old(repos.audits)
        && services.tenant == old(services.tenant)
      ensures MissingField(req).None? ==>
        repos.AuditedOnce(old(repos.audits), AuditAction.CreateAccount, None, now, finish)
      ensures MissingField(req).None? && old(repos.KeyOfEmail(req.email)).Some? ==>
        && o == Raised(Some(AccountAlreadyExists))
        && repos.accounts == old(repos.accounts) && repos.sessions == old(repos.sessions)
        && services.tenant == old(services.tenant)
      ensures MissingField(req).None? && old(repos.KeyOfEmail(req.email)).None? ==>
        && accountKey in repos.accounts && fresh(repos.accounts[accountKey])
        && repos.accounts == old(repos.accounts)[accountKey := repos.accounts[accountKey]]
        && sessionKey in repos.sessions && fresh(repos.sessions[sessionKey])
        && repos.sessions == old(repos.sessions)[sessionKey := repos.sessions[sessionKey]]
        && repos.sessions[sessionKey].Record() == SessionRecord(sessionKey, accountKey, now, now + sessionPeriod)
        && var a := repos.accounts[accountKey].Record();
           && a == AccountRecord(accountKey, req.firstName, req.lastName, req.email,
                Some(Digest(primitives, req.password, BASE_ITERATION_NUMBER, salt)), BASE_ITERATION_NUMBER, Some(salt),
                Some(now), a.idXId, now)
           && (!req.registrationRequested ==>
                 a.idXId == None && services.tenant == old(services.tenant)
                 && o == Ok(CreateAccountResponse(sessionKey, None, None)))
           && (req.registrationRequested ==>
                 var (r, t) := RegRequest(old(services.tenant), req.email, None, c);
                 && services.tenant == t
                 && (r.Ok? ==>
                       a.idXId == Some(r.value.idXId)
                       && o == Ok(CreateAccountResponse(sessionKey, Some(r.value.registrationChallenge.fidoRegistrationRequest),
                                                        Some(r.value.registrationChallenge.href))))
                 && (!r.Ok? ==> a.idXId == None && o.Crashed?))
    {
      var missing := MissingField(req);
      if missing.Some? {
        return Raised(missing);
      }
      var account := NewAccount(req, accountKey, salt, now);
      o := SaveAccount(req, account, sessionKey, c, now);
      repos.WriteAudit(AuditAction.CreateAccount, None, now, finish);
    }

    /**
     * createSessionWithEmail: the answer is `EmailLogin` of the account the
     * email finds; on success the new session is stored and the account's last
     * login becomes `now`, after the response has taken the previous one.
     */
    method CreateSessionWithEmail(req: CreateSessionRequest, sessionKey: string, now: int) returns (o: Outcome<CreateSessionResponse>)
      requires repos.Valid() && sessionKey !in repos.sessions
      modifies repos, repos.EmailFrame(req.email)
      ensures repos.Valid()
      ensures o == EmailLogin(primitives, req, old(repos.RecordByEmail(req.email)), sessionKey)
      ensures repos.audits == old(repos.audits) && LoginDone(req.email, sessionKey, now, o)
    {
      ghost var found := repos.RecordByEmail(req.email);
      if req.password == "" {
        return Raised(Some(PasswordNotProvided));
      }
      var account := repos.FindByEmail(req.email);
      if account.None? {
        return Raised(Some(InvalidCredentials));
      }
      var valid := ValidatePassword(account.value, req.password);
      if !valid.Ok? {
        return Relay(valid);
      }
      if !valid.value {
        return Raised(Some(InvalidCredentials));
      }
      var before := LogIn(account.value.id, account.value, sessionKey, now);
      o := Ok(Opened(sessionKey, UsernamePassword, before));
    }

    /**
     * The end of createSessionWithFIDO once the provider has accepted the
     * response: the answer is `FidoCompletion` of the account the user's
     * userId finds; on success the new session is stored and the account's
     * last login becomes `now`.
     */
    method CompleteFidoLogin(request: AuthenticationRequest, sessionKey: string, now: int) returns (o: Outcome<CreateSessionResponse>)
      requires repos.Valid() && sessionKey !in repos.sessions
      modifies repos, repos.EmailFrame(UserIdOf(request))
      ensures repos.Valid()
      ensures o == FidoCompletion(request, old(repos.RecordByEmail(UserIdOf(request))), sessionKey)
      ensures repos.audits == old(repos.audits) && LoginDone(UserIdOf(request), sessionKey, now, o)
    {
      ghost var found := repos.RecordByEmail(UserIdOf(request));
      if request.user.None? {
        return Ok(CreateSessionResponse(None, None, None, None, None, None,
          Some(request.fidoAuthenticationResponse), request.fidoResponseCode, request.fidoResponseMsg));
      }
      var account := repos.FindByEmail(request.user.value.userId);
      if account.None? {
        return Raised(Some(FidoAuthCompleteAccountNotFound));
      }
      var before := LogIn(account.value.id, account.value, sessionKey, now);
      o := Ok(Opened(sessionKey, FidoAuthentication, before).(fidoAuthenticationResponse := Some(request.fidoAuthenticationResponse),
        fidoResponseCode := request.fidoResponseCode, fidoResponseMsg := request.fidoResponseMsg));
    }

    /**
     * The part of createSessionWithFIDO after the request id check: the answer
     * is `FidoVerdictLogin` of the provider's verdict and of the account found
     * by the authenticated user's userId; the verdict may write into the
     * shared error constants.
     */
    method VerifyFidoLogin(answer: Option<AuthenticationRequest>, sessionKey: string, now: int,
                           ghost userId: string, ghost key: Option<string>, ghost found: Option<AccountRecord>)
      returns (o: Outcome<CreateSessionResponse>)
      requires repos.Valid() && statics.Valid() && sessionKey !in repos.sessions
      requires userId == AuthenticatedUserId(services.tenant, answer)
      requires key == repos.KeyOfEmail(userId) && found == repos.RecordByEmail(userId)
      modifies repos, repos.EmailFrame(userId), statics
      ensures repos.Valid() && statics.Valid()
      ensures o == FidoVerdictLogin(AuthVerdict(services.tenant, answer), found, sessionKey)
      ensures statics.table == StaticsAfter(old(statics.table), AuthVerdict(services.tenant, answer))
      ensures repos.audits == old(repos.audits) && LoginDone(userId, sessionKey, now, o)
    {
      var v := services.ValidateAuthResponse(statics, answer);
      o := FinishFidoLogin(v, sessionKey, now, key, found);
    }

    /** What follows the provider's verdict `v`: its failures pass through, an acceptance completes the login. */
    method FinishFidoLogin(v: Outcome<AuthenticationRequest>, sessionKey: string, now: int, ghost key: Option<string>, ghost found: Option<AccountRecord>)
      returns (o: Outcome<CreateSessionResponse>)
      requires repos.Valid() && sessionKey !in repos.sessions
      requires key == repos.KeyOfEmail(VerdictUserId(v)) && found == repos.RecordByEmail(VerdictUserId(v))
      modifies repos, repos.EmailFrame(VerdictUserId(v))
      ensures repos.Valid()
      ensures o == FidoVerdictLogin(v, found, sessionKey)
      ensures repos.audits == old(repos.audits) && LoginDone(VerdictUserId(v), sessionKey, now, o)
    {
      if !v.Ok? {
        o := Relay(v);
      } else {
        o := CompleteFidoLogin(v.value, sessionKey, now);
      }
    }

    /**
     * createSessionWithFIDO: the answer is `FidoLogin` of the provider's verdict
     * and of the account found by the authenticated user's userId; without a
     * request id nothing is asked of the provider.
     */
    method CreateSessionWithFido(req: CreateSessionRequest, answer: Option<AuthenticationRequest>, sessionKey: string, now: int)
      returns (o: Outcome<CreateSessionResponse>)
      requires repos.Valid() && statics.Valid() && sessionKey !in repos.sessions
      modifies repos, repos.EmailFrame(AuthenticatedUserId(services.tenant, answer)), statics
      ensures repos.Valid() && statics.Valid()
      ensures o == FidoLogin(services.tenant, answer, req, old(repos.RecordByEmail(AuthenticatedUserId(services.tenant, answer))), sessionKey)
      ensures req.authenticationRequestId == "" ==> statics.table == old(statics.table)
      ensures req.authenticationRequestId != "" ==> statics.table == StaticsAfter(old(statics.table), AuthVerdict(services.tenant, answer))
      ensures repos.audits == old(repos.audits) && LoginDone(AuthenticatedUserId(services.tenant, answer), sessionKey, now, o)
    {
      if req.authenticationRequestId == "" {
        o := Raised(Some(AuthenticationRequestIdNotProvided));
      } else {
        ghost var userId := AuthenticatedUserId(services.tenant, answer);
        o := VerifyFidoLogin(answer, sessionKey, now, userId, repos.KeyOfEmail(userId), repos.RecordByEmail(userId));
      }
    }

    /**
     * The body of createSession's `try`: dispatch on the credentials supplied
     * (email first, then a FIDO response, otherwise insufficient credentials).
     */
    method Authenticate(req: CreateSessionRequest, answer: Option<AuthenticationRequest>, sessionKey: string, now: int)
      returns (o: Outcome<CreateSessionResponse>)
      requires repos.Valid() && statics.Valid() && sessionKey !in repos.sessions
      modifies repos, repos.EmailFrame(LoginEmail(req, services.tenant, answer)), statics
      ensures repos.Valid() && statics.Valid() && repos.audits == old(repos.audits)
      ensures SessionAnswer(primitives, services.tenant, req, answer, old(repos.RecordByEmail(req.email)),
                            old(repos.RecordByEmail(AuthenticatedUserId(services.tenant, answer))), sessionKey,
                            o, old(statics.table), statics.table)
      ensures LoginDone(LoginEmail(req, services.tenant, answer), sessionKey, now, o)
    {
      if req.email != "" {
        o := CreateSessionWithEmail(req, sessionKey, now);
      } else if req.fidoAuthenticationResponse != "" {
        o := CreateSessionWithFido(req, answer, sessionKey, now);
      } else {
        o := Raised(Some(InsufficientCredentials));
      }
    }

    /**
     * createSession: the answer of `Authenticate`, and one audit record
     * whatever the outcome.
     */
    method CreateSession(req: CreateSessionRequest, answer: Option<AuthenticationRequest>, sessionKey: string, now: int, finish: int)
      returns (o: Outcome<CreateSessionResponse>)
      requires repos.Valid() && statics.Valid() && sessionKey !in repos.sessions
      modifies repos, repos.EmailFrame(LoginEmail(req, services.tenant, answer)), statics
      ensures repos.Valid() && statics.Valid()
      ensures repos.AuditedOnce(old(repos.audits), AuditAction.CreateSession, None, now, finish)
      ensures SessionAnswer(primitives, services.tenant, req, answer, old(repos.RecordByEmail(req.email)),
                            old(repos.RecordByEmail(AuthenticatedUserId(services.tenant, answer))), sessionKey,
                            o, old(statics.table), statics.table)
      ensures LoginDone(LoginEmail(req, services.tenant, answer), sessionKey, now, o)
    {
      o := Authenticate(req, answer, sessionKey, now);
      label authenticated:
      repos.WriteAudit(AuditAction.CreateSession, None, now, finish);
      // the audit does not touch the shared constants
      assert statics.table == old@authenticated(statics.table);
    }

    /**
     * deleteSession (logout): validate the session first, so an unknown or
     * expired session is an error and deleting twice fails the second time;
     * then delete that session only.
     */
    method DeleteSession(sessionId: string, now: int, finish: int) returns (o: Outcome<()>)
      requires repos.Valid()
      modifies repos, repos.SessionFrame(sessionId)
      ensures repos.Valid()
      ensures repos.AuditedOnce(old(repos.audits), AuditAction.DeleteSession, None, now, finish)
      ensures repos.accounts == old(repos.accounts)
      ensures sessionId !in old(repos.sessions) ==>
        o == Raised(Some(UnknownSessionIdentifier)) && repos.sessions == old(repos.sessions)
      ensures sessionId in old(repos.sessions) && Expired(old(repos.sessions[sessionId].expiringDTM), now) ==>
        o == Raised(Some(ExpiredSession)) && repos.sessions == old(repos.sessions)
      ensures sessionId in old(repos.sessions) && !Expired(old(repos.sessions[sessionId].expiringDTM), now) ==>
        o == Ok(()) && repos.sessions == old(repos.sessions) - {sessionId}
    {
      var v := ValidateSession(sessionId, now);
      if v.Ok? {
        repos.DeleteSession(sessionId);
        o := Ok(());
      } else {
        o := Relay(v);
      }
      repos.WriteAudit(AuditAction.DeleteSession, None, now, finish);
    }

    /**
     * The registration step of createRegRequest for a stored account: ask the
     * provider for a challenge by the account's email and FIDO id, then bind
     * the returned user's id, which must agree with a FIDO id already bound.
     */
    method RequestRegistration(account: Account, c: Created) returns (o: Outcome<CreateRegRequestResponse>)
      modifies account`idXId, services`tenant
      ensures RegistrationRequested(old(services.tenant), c, old(account.Record()), o, services.tenant, account.Record())
    {
      var r := services.CreateRegRequest(account.email, account.idXId, c);
      if !r.Ok? {
        return Relay(r);
      }
      var bound := BindFidoId(account.idXId, r.value.idXId);
      if !bound.Ok? {
        return Relay(bound);
      }
      if account.idXId.None? {
        account.SetIdXId(r.value.idXId);
      }
      o := Ok(CreateRegRequestResponse(r.value.registrationChallenge.href, r.value.registrationChallenge.fidoRegistrationRequest));
    }

    /**
     * createRegRequest's try block: the session is validated and its account
     * asks for a registration; `audited` is the account the audit names.
     */
    method RegisterSessionAccount(sessionId: string, c: Created, now: int)
      returns (o: Outcome<CreateRegRequestResponse>, audited: Option<string>)
      requires repos.Valid()
      modifies repos.SessionFrame(sessionId), repos.SessionAccountFrame(sessionId), services`tenant
      ensures repos.Valid()
      ensures audited == old(SessionAccountKey(sessionId, now))
      ensures sessionId !in old(repos.sessions) ==>
        o == Raised(Some(UnknownSessionIdentifier)) && services.tenant == old(services.tenant)
      ensures sessionId in old(repos.sessions) && Expired(old(repos.sessions[sessionId].expiringDTM), now) ==>
        o == Raised(Some(ExpiredSession)) && services.tenant == old(services.tenant)
      ensures sessionId in old(repos.sessions) && !Expired(old(repos.sessions[sessionId].expiringDTM), now) ==>
        Renewed(old(repos.sessions[sessionId].Record()), repos.sessions[sessionId].Record(), now)
      ensures sessionId in old(repos.sessions) && !Expired(old(repos.sessions[sessionId].expiringDTM), now)
              && old(SessionAccountKey(sessionId, now)).None? ==>
        o.Crashed? && services.tenant == old(services.tenant)
      ensures old(SessionAccountKey(sessionId, now)).Some? ==>
        var k := old(SessionAccountKey(sessionId, now)).value;
        RegistrationRequested(old(services.tenant), c, old(repos.accounts[k].Record()), o, services.tenant, repos.accounts[k].Record())
    {
      audited := None;
      var v := ValidateSession(sessionId, now);
      label validated:
      if !v.Ok? {
        o := Relay(v);
      } else {
        var found := repos.AccountById(v.value.accountId);
        if found.None? {
          o := Crashed("null account");
        } else {
          audited := Some(found.value.id);
          // validation renews the session and leaves the account as it was
          assert found.value.Record() == old(found.value.Record());
          o := RequestRegistration(found.value, c);
          assert v.value.Record() == old@validated(v.value.Record());
        }
      }
    }

    /**
     * createRegRequest: for the account of a valid session, ask the provider
     * for a registration challenge (by FIDO id when the account has one, by
     * email otherwise) and bind the returned user's id to the account. A
     * bound FIDO id is never replaced: a different one is a failure. One audit
     * is written whatever the outcome, naming the session's account if it has one.
     */
    method CreateRegRequest(sessionId: string, c: Created, now: int, finish: int) returns (o: Outcome<CreateRegRequestResponse>)
      requires repos.Valid()
      modifies repos, repos.SessionFrame(sessionId), repos.SessionAccountFrame(sessionId), services`tenant
      ensures repos.Valid()
      ensures repos.accounts == old(repos.accounts) && repos.sessions == old(repos.sessions)
      ensures repos.AuditedOnce(old(repos.audits), AuditAction.CreateRegRequest, old(SessionAccountKey(sessionId, now)), now, finish)
      ensures sessionId !in old(repos.sessions) ==>
        o == Raised(Some(UnknownSessionIdentifier)) && services.tenant == old(services.tenant)
      ensures sessionId in old(repos.sessions) && Expired(old(repos.sessions[sessionId].expiringDTM), now) ==>
        o == Raised(Some(ExpiredSession)) && services.tenant == old(services.tenant)
      ensures sessionId in old(repos.sessions) && !Expired(old(repos.sessions[sessionId].expiringDTM), now) ==>
        Renewed(old(repos.sessions[sessionId].Record()), repos.sessions[sessionId].Record(), now)
      ensures sessionId in old(repos.sessions) && !Expired(old(repos.sessions[sessionId].expiringDTM), now)
              && old(SessionAccountKey(sessionId, now)).None? ==>
        o.Crashed? && services.tenant == old(services.tenant)
      ensures old(SessionAccountKey(sessionId, now)).Some? ==>
        var k := old(SessionAccountKey(sessionId, now)).value;
        RegistrationRequested(old(services.tenant), c, old(repos.accounts[k].Record()), o, services.tenant, repos.accounts[k].Record())
    {
      var audited;
      o, audited := RegisterSessionAccount(sessionId, c, now);
      label registered:
      repos.WriteAudit(AuditAction.CreateRegRequest, audited, now, finish);
      // the audit touches neither the tenant nor the audited account
      assert services.tenant == old@registered(services.tenant);
      if audited.Some? {
        assert repos.accounts[audited.value].Record() == old@registered(repos.accounts[audited.value].Record());
      }
    }

    /**
     * The body of deleteAccountBySessionId once the account is found: deactivate
     * its FIDO user when it has one, then delete the account and the session.
     * A failure at the provider comes first, and then nothing local is deleted.
     */
    method DeleteAccountAndSession(account: Account, sessionId: string) returns (o: Outcome<DeleteAccountResponse>)
      requires repos.Valid() && services.Valid()
      requires account.id in repos.accounts
      modifies repos, services`tenant, services`authenticatorTypesCache, services`typeQueries
      ensures repos.Valid() && services.Valid() && repos.audits == old(repos.audits)
      ensures ProviderDeactivated(old(services.tenant), services.typeRepository, account.idXId, o, services.tenant)
      ensures o.Ok? ==> repos.accounts == old(repos.accounts) - {account.id} && repos.sessions == old(repos.sessions) - {sessionId}
      ensures !o.Ok? ==> repos.accounts == old(repos.accounts) && repos.sessions == old(repos.sessions)
    {
      var deregistrations: Option<seq<AuthenticatorInfo>> := None;
      if account.idXId.Some? {
        var r := services.DeactivateAndDelete(account.idXId.value);
        if !r.Ok? {
          return Relay(r);
        }
        deregistrations := Some(r.value);
      }
      repos.DeleteAccount(account.id);
      repos.DeleteSession(sessionId);
      o := Ok(DeleteAccountResponse(deregistrations));
    }

    /**
     * deleteAccountBySessionId: for the account of a valid session, first
     * deactivate its FIDO user at the provider (when it has one), then delete
     * the account and the presented session. Any failure comes before the
     * local deletes, so nothing local is deleted then. The account's other
     * sessions are not deleted.
     */
    method DeleteAccountBySessionId(sessionId: string, now: int, finish: int) returns (o: Outcome<DeleteAccountResponse>)
      requires repos.Valid() && services.Valid()
      modifies repos, repos.SessionFrame(sessionId), services`tenant, services`authenticatorTypesCache, services`typeQueries
      ensures repos.Valid() && services.Valid()
      ensures repos.AuditedOnce(old(repos.audits), AuditAction.DeleteAccount, if o.Ok? then old(SessionAccountKey(sessionId, now)) else None, now, finish)
      ensures sessionId !in old(repos.sessions) ==> o == Raised(Some(UnknownSessionIdentifier))
      ensures sessionId in old(repos.sessions) && Expired(old(repos.sessions[sessionId].expiringDTM), now) ==>
        o == Raised(Some(ExpiredSession))
      ensures sessionId in old(repos.sessions) && !Expired(old(repos.sessions[sessionId].expiringDTM), now)
              && old(SessionAccountKey(sessionId, now)).None? ==>
        o.Crashed?
      ensures old(SessionAccountKey(sessionId, now)).None? ==> services.tenant == old(services.tenant)
      ensures old(SessionAccountKey(sessionId, now)).Some? ==>
        ProviderDeactivated(old(services.tenant), services.typeRepository,
                            old(repos.accounts[SessionAccountKey(sessionId, now).value].idXId), o, services.tenant)
      ensures o.Ok? ==>
        && repos.accounts == old(repos.accounts) - {old(SessionAccountKey(sessionId, now)).value}
        && repos.sessions == old(repos.sessions) - {sessionId}
      ensures !o.Ok? ==> repos.accounts == old(repos.accounts) && repos.sessions == old(repos.sessions)
      // a live session that is not deleted has still been renewed
      ensures sessionId in old(repos.sessions) && !Expired(old(repos.sessions[sessionId].expiringDTM), now) && !o.Ok? ==>
        Renewed(old(repos.sessions[sessionId].Record()), repos.sessions[sessionId].Record(), now)
    {
      var audited: Option<string> := None;
      ghost var key := SessionAccountKey(sessionId, now);
      var v := ValidateSession(sessionId, now);
      if !v.Ok? {
        o := Relay(v);
      } else {
        var found := repos.AccountById(v.value.accountId);
        if found.None? {
          o := Crashed("null account");
        } else {
          o := DeleteAccountAndSession(found.value, sessionId);
          if o.Ok? {
            audited := Some(found.value.id);
          }
        }
      }
      label decided:
      repos.WriteAudit(AuditAction.DeleteAccount, audited, now, finish);
      // the audit touches neither the tenant nor a remaining session
      assert services.tenant == old@decided(services.tenant);
      if sessionId in repos.sessions {
        assert repos.sessions[sessionId].expiringDTM == old@decided(repos.sessions[sessionId].expiringDTM);
      }
    }
  }
}
