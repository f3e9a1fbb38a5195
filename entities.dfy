/**
 * The persistent entities (entity/Account.java, Session.java, Audit.java): mutable
 * objects that the controllers build, update through setters and hand to the
 * repositories. Each setter may change its own field and nothing else, which
 * the field-granular `modifies` clauses state.
 */
module Entities {
  import opened Wrappers
  import opened Bytes

  /** The body of a create-account request. An absent (null) field is the empty string. */
  datatype CreateAccountRequest = CreateAccountRequest(
    email: string,
    password: string,
    firstName: string,
    lastName: string,
    registrationRequested: bool)

  /** The operation an audit record is about (entity/AuditAction.java). */
  datatype AuditAction =
    | GetAccount | GetAccounts | CreateAccount | DeleteAccount | CreateSession | DeleteSession
    | GetSessions | RequestRegistration | CreateAuthRequest | CreateRegRequest | CreateAuthenticator
    | GetAudits | GetFacets | ListAuthenticators | GetAuthenticator | DeleteAuthenticator
    | CreateTransactionAuthRequest | ValidateTransactionAuth | GetPolicy

  /** How a session was obtained (controller/model/AuthenticationMethod.java). */
  datatype AuthenticationMethod = UsernamePassword | FidoAuthentication

  /** An ASCII capital letter as its lower-case letter; every other character as itself. */
  function Lower(c: char): (r: char)
    ensures 'A' <= c <= 'Z' ==> r as int == c as int + 32
    ensures !('A' <= c <= 'Z') ==> r == c
  {
    if 'A' <= c <= 'Z' then (c as int + 32) as char else c
  }

  /** The email column compares without regard to case; ASCII letters are folded. */
  function FoldCase(s: string): (r: string)
    ensures |r| == |s|
  {
    if s == [] then [] else FoldCase(s[..|s| - 1]) + [Lower(s[|s| - 1])]
  }

  /** Folding works character by character. */
  lemma {:induction false} FoldCaseAt(s: string, i: int)
    requires 0 <= i < |s|
    ensures FoldCase(s)[i] == Lower(s[i])
  {
    if i < |s| - 1 {
      FoldCaseAt(s[..|s| - 1], i);
    }
  }

  /** Two emails name the same account exactly when they agree up to case. */
  predicate SameEmail(a: string, b: string) {
    FoldCase(a) == FoldCase(b)
  }

  /** Every field of an account, as one value. */
  datatype AccountRecord = AccountRecord(
    id: string,
    firstName: string,
    lastName: string,
    email: string,
    hashedPassword: Option<Bytes>,
    iterations: int,
    salt: Option<Bytes>,
    lastLoggedIn: Option<int>,
    idXId: Option<string>,
    createdDTM: int)

  class Account {
    /** The key the id generator drew for this account. */
    const id: string
    var firstName: string
    var lastName: string
    /** The login name; nothing in the model changes it once the account exists. */
    const email: string
    var hashedPassword: Option<Bytes>
    var iterations: int
    var salt: Option<Bytes>
    var lastLoggedIn: Option<int>
    var idXId: Option<string>
    var createdDTM: int

    /** Copies the names and email of the request; FIDO id and credential stay unset. */
    constructor (req: CreateAccountRequest, key: string, now: int)
      ensures id == key
      ensures firstName == req.firstName && lastName == req.lastName && email == req.email
      ensures createdDTM == now
      ensures idXId == None && hashedPassword == None && salt == None
      ensures iterations == 0 && lastLoggedIn == None
    {
      id := key;
      firstName, lastName, email := req.firstName, req.lastName, req.email;
      createdDTM := now;
      idXId, hashedPassword, salt := None, None, None;
      iterations, lastLoggedIn := 0, None;
    }

    /** The account's fields as they stand. */
    function Record(): AccountRecord
      reads this
    {
      AccountRecord(id, firstName, lastName, email, hashedPassword, iterations, salt, lastLoggedIn, idXId, createdDTM)
    }

    method SetHashedPassword(v: Bytes)
      modifies this`hashedPassword
      ensures hashedPassword == Some(v)
    {
      hashedPassword := Some(v);
    }

    method SetIterations(v: int)
      modifies this`iterations
      ensures iterations == v
    {
      iterations := v;
    }

    method SetSalt(v: Bytes)
      modifies this`salt
      ensures salt == Some(v)
    {
      salt := Some(v);
    }

    method SetCreatedDTM(v: int)
      modifies this`createdDTM
      ensures createdDTM == v
    {
      createdDTM := v;
    }

    method SetLastLoggedIn(v: int)
      modifies this`lastLoggedIn
      ensures lastLoggedIn == Some(v)
    {
      lastLoggedIn := Some(v);
    }

    method SetIdXId(v: string)
      modifies this`idXId
      ensures idXId == Some(v)
    {
      idXId := Some(v);
    }
  }

  /** Milliseconds a session is extended by on each successful validation. */
  const DEFAULT_SESSION_PERIOD := 1000 * 900

  /** Every field of a session, as one value. */
  datatype SessionRecord = SessionRecord(id: string, accountId: string, createdDTM: int, expiringDTM: int)

  class Session {
    /** The key the id generator drew for this session. */
    const id: string
    const accountId: string
    var createdDTM: int
    var expiringDTM: int

    /** A session of `user` opened at `now`, expiring `sessionPeriod` later. */
    constructor (user: Account, key: string, sessionPeriod: int, now: int)
      ensures id == key && accountId == user.id
      ensures createdDTM == now && expiringDTM == now + sessionPeriod
    {
      id := key;
      accountId := user.id;
      createdDTM := now;
      expiringDTM := now + sessionPeriod;
    }

    /** The session's fields as they stand. */
    function Record(): SessionRecord
      reads this
    {
      SessionRecord(id, accountId, createdDTM, expiringDTM)
    }

    method SetExpiringDTM(v: int)
      modifies this`expiringDTM
      ensures expiringDTM == v
    {
      expiringDTM := v;
    }
  }

  class Audit {
    var operation: AuditAction
    var accountId: Option<string>
    var sessionId: Option<string>
    var duration: int
    var createdDTM: int

    /** An audit of `action` stamped at `now`; account, session and duration are not yet known. */
    constructor (action: AuditAction, now: int)
      ensures operation == action && createdDTM == now
      ensures accountId == None && sessionId == None && duration == 0
    {
      operation := action;
      createdDTM := now;
      accountId, sessionId, duration := None, None, 0;
    }

    method SetAccountId(v: string)
      modifies this`accountId
      ensures accountId == Some(v)
    {
      accountId := Some(v);
    }

    method SetSessionId(v: string)
      modifies this`sessionId
      ensures sessionId == Some(v)
    {
      sessionId := Some(v);
    }

    method SetDuration(v: int)
      modifies this`duration
      ensures duration == v
    {
      duration := v;
    }

    method SetCreatedDTM(v: int)
      modifies this`createdDTM
      ensures createdDTM == v
    {
      createdDTM := v;
    }
  }
}
