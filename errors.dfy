/**
 * The error catalogue of the relying party (controller/model/Error.java): a fixed
 * table of named constants, each a numeric code and a message, the `Error` value
 * returned to the client, and the shared, mutable static instances whose FIDO
 * fields the provider-response interpretation writes into.
 *
 * The module also fixes how operations end: normally, with a `ProcessingException`
 * carrying one of the constants (or null), or with any other exception, which the
 * controllers' catch-all handler answers with UNEXPECTED_ERROR.
 */
module Errors {
  import opened Wrappers

  /** The named constants of Error.java, in declaration order. */
  datatype ErrorKind =
    | UnexpectedError
    | MethodNotImplemented
    | AccountNotFound
    | InvalidCredentials
    | InsufficientCredentials
    | AuthenticationRequestTimedOut
    | UnknownAuthenticator
    | RevokedAuthenticator
    | AuthenticationRequestIdNotProvided
    | PasswordNotProvided
    | EmailNotProvided
    | FirstNameNotProvided
    | LastNameNotProvided
    | AccountAlreadyExists
    | FidoAuthCompleteAccountNotFound
    | UnknownSessionIdentifier
    | ExpiredSession
    | NonExistentSession
    | TransactionContentNotProvided

  function Code(k: ErrorKind): int {
    match k
    case UnexpectedError => 1
    case MethodNotImplemented => 2
    case AccountNotFound => 10
    case InvalidCredentials => 11
    case InsufficientCredentials => 12
    case AuthenticationRequestTimedOut => 13
    case UnknownAuthenticator => 14
    case RevokedAuthenticator => 15
    case AuthenticationRequestIdNotProvided => 100
    case PasswordNotProvided => 101
    case EmailNotProvided => 102
    case FirstNameNotProvided => 103
    case LastNameNotProvided => 104
    case AccountAlreadyExists => 105
    case FidoAuthCompleteAccountNotFound => 200
    case UnknownSessionIdentifier => 201
    case ExpiredSession => 202
    case NonExistentSession => 203
    case TransactionContentNotProvided => 303
  }

  function Message(k: ErrorKind): string {
    match k
    case UnexpectedError => "An unexpected error occurred.  Please see the log files."
    case MethodNotImplemented => "The method has not been implemented"
    case AccountNotFound => "Account not found"
    case InvalidCredentials => "Invalid credentials provided - the user could not be authenticated"
    case InsufficientCredentials => "The user cannot be authenticated - please supply a username and password or a FIDO authentication response"
    case AuthenticationRequestTimedOut => "The authentication request timed out - please retry."
    case UnknownAuthenticator => "This authenticator is not known by the server."
    case RevokedAuthenticator => "This authenticator has been deregistered.  It is no longer acceptable"
    case AuthenticationRequestIdNotProvided => "The authentication request ID must be provided"
    case PasswordNotProvided => "The password must be provided"
    case EmailNotProvided => "The email must be provided"
    case FirstNameNotProvided => "The first name must be provided"
    case LastNameNotProvided => "The last name must be provided"
    case AccountAlreadyExists => "An account with this email address already exists"
    case FidoAuthCompleteAccountNotFound => "The user was authenticated by FIDO but this account is not in the system"
    case UnknownSessionIdentifier => "Unknown session identifier"
    case ExpiredSession => "The specified session has expired"
    case NonExistentSession => "The specified session does not exist"
    case TransactionContentNotProvided => "Transaction data must be provided"
  }

  /** Every constant of the table. */
  function AllKinds(): set<ErrorKind> {
    {UnexpectedError, MethodNotImplemented, AccountNotFound, InvalidCredentials,
     InsufficientCredentials, AuthenticationRequestTimedOut, UnknownAuthenticator,
     RevokedAuthenticator, AuthenticationRequestIdNotProvided, PasswordNotProvided,
     EmailNotProvided, FirstNameNotProvided, LastNameNotProvided, AccountAlreadyExists,
     FidoAuthCompleteAccountNotFound, UnknownSessionIdentifier, ExpiredSession,
     NonExistentSession, TransactionContentNotProvided}
  }

  lemma AllKindsComplete(k: ErrorKind)
    ensures k in AllKinds()
  {
    match k
    case UnexpectedError | MethodNotImplemented | AccountNotFound | InvalidCredentials
      | InsufficientCredentials | AuthenticationRequestTimedOut | UnknownAuthenticator
      | RevokedAuthenticator | AuthenticationRequestIdNotProvided | PasswordNotProvided
      | EmailNotProvided | FirstNameNotProvided | LastNameNotProvided | AccountAlreadyExists
      | FidoAuthCompleteAccountNotFound | UnknownSessionIdentifier | ExpiredSession
      | NonExistentSession | TransactionContentNotProvided =>
  }

  /** The constant a client can recover from a numeric code, if any. */
  function KindOfCode(c: int): (r: Option<ErrorKind>)
    ensures r.Some? ==> Code(r.value) == c
  {
    match c
    case 1 => Some(UnexpectedError)
    case 2 => Some(MethodNotImplemented)
    case 10 => Some(AccountNotFound)
    case 11 => Some(InvalidCredentials)
    case 12 => Some(InsufficientCredentials)
    case 13 => Some(AuthenticationRequestTimedOut)
    case 14 => Some(UnknownAuthenticator)
    case 15 => Some(RevokedAuthenticator)
    case 100 => Some(AuthenticationRequestIdNotProvided)
    case 101 => Some(PasswordNotProvided)
    case 102 => Some(EmailNotProvided)
    case 103 => Some(FirstNameNotProvided)
    case 104 => Some(LastNameNotProvided)
    case 105 => Some(AccountAlreadyExists)
    case 200 => Some(FidoAuthCompleteAccountNotFound)
    case 201 => Some(UnknownSessionIdentifier)
    case 202 => Some(ExpiredSession)
    case 203 => Some(NonExistentSession)
    case 303 => Some(TransactionContentNotProvided)
    case _ => None
  }

  /** A code identifies its constant: no two named constants share a code. */
  lemma CodeIdentifiesKind(k: ErrorKind)
    ensures KindOfCode(Code(k)) == Some(k)
  {
  }

  lemma CodesDistinct(a: ErrorKind, b: ErrorKind)
    requires a != b
    ensures Code(a) != Code(b)
  {
    CodeIdentifiesKind(a);
    CodeIdentifiesKind(b);
  }

  /** The client-visible error of Error.java. */
  datatype Error = Error(
    code: int,
    message: string,
    fidoMessage: Option<string>,
    fidoResponseCode: Option<int>,
    fidoResponseMsg: Option<string>)
  {
    /** "Code: <code> Message: <message>" */
    function ToString(): string {
      "Code: " + IntToString(code) + " Message: " + message
    }
  }

  /** The two-argument constructor: the FIDO fields stay null. */
  function NewError(code: int, message: string): (e: Error)
    ensures e.code == code && e.message == message
    ensures e.fidoMessage == None && e.fidoResponseCode == None && e.fidoResponseMsg == None
  {
    Error(code, message, None, None, None)
  }

  // ---------------------------------------------------------------------------
  // Decimal rendering of the code, as Java's string concatenation does it

  function DigitChar(d: int): (c: char)
    requires 0 <= d < 10
    ensures '0' <= c <= '9' && DigitValue(c) == d
  {
    ('0' as int + d) as char
  }

  function DigitValue(c: char): int {
    if '0' <= c <= '9' then c as int - '0' as int else 0
  }

  function NatToString(n: nat): (s: string)
    ensures |s| >= 1
    ensures forall i :: 0 <= i < |s| ==> '0' <= s[i] <= '9'
    decreases n
  {
    if n < 10 then [DigitChar(n)] else NatToString(n / 10) + [DigitChar(n % 10)]
  }

  function IntToString(n: int): string {
    if n < 0 then "-" + NatToString(-n) else NatToString(n)
  }

  function ParseNat(s: string): int
    decreases |s|
  {
    if s == [] then 0 else 10 * ParseNat(s[..|s| - 1]) + DigitValue(s[|s| - 1])
  }

  function ParseInt(s: string): int {
    if |s| > 0 && s[0] == '-' then -ParseNat(s[1..]) else ParseNat(s)
  }

  lemma {:induction false} ParseNatToString(n: nat)
    ensures ParseNat(NatToString(n)) == n
    decreases n
  {
    var s := NatToString(n);
    if n >= 10 {
      var q, d := n / 10, n % 10;
      assert s == NatToString(q) + [DigitChar(d)];
      assert s[..|s| - 1] == NatToString(q);
      ParseNatToString(q);
      assert ParseNat(s) == 10 * q + d;
    }
  }

  lemma ParseIntToString(n: int)
    ensures ParseInt(IntToString(n)) == n
  {
    if n < 0 {
      ParseNatToString(-n);
      assert IntToString(n)[1..] == NatToString(-n);
    } else {
      ParseNatToString(n);
    }
  }

  /**
   * `ToString` can be read back: after "Code: " come the decimal digits of the
   * code, then " Message: ", then the message itself.
   */
  lemma ToStringReadsBack(e: Error)
    ensures var s, k := e.ToString(), |IntToString(e.code)|;
      && |s| == 16 + k + |e.message|
      && s[..6] == "Code: "
      && ParseInt(s[6..6 + k]) == e.code
      && s[6 + k..16 + k] == " Message: "
      && s[16 + k..] == e.message
  {
    var d := IntToString(e.code);
    var s := e.ToString();
    assert s == "Code: " + d + " Message: " + e.message;
    assert s[6..6 + |d|] == d;
    ParseIntToString(e.code);
  }

  // ---------------------------------------------------------------------------
  // The static instances

  /**
   * The public static constants of Error.java. They are shared objects: a FIDO
   * field written into one (as the provider-response interpretation does) is
   * seen by every later use of that constant, by any request.
   */
  class ErrorStatics {
    var table: map<ErrorKind, Error>
    /** The constants as class initialisation built them. */
    ghost const initial: map<ErrorKind, Error>

    /** Every constant was built with the two-argument constructor from its code and message. */
    ghost predicate InitialIsConstants() {
      forall k: ErrorKind :: k in initial && initial[k] == NewError(Code(k), Message(k))
    }

    /** Every constant exists and keeps the code and message it was built with. */
    ghost predicate Valid()
      reads this
    {
      && (forall k: ErrorKind :: k in table)
      && (forall k: ErrorKind :: k in initial)
      && (forall k: ErrorKind {:trigger table[k]} :: k in table ==> k in initial && table[k].code == initial[k].code && table[k].message == initial[k].message)
    }

    /** Class initialisation: every constant built with the two-argument constructor. */
    constructor ()
      ensures Valid() && InitialIsConstants()
      ensures forall k: ErrorKind :: table[k] == NewError(Code(k), Message(k))
    {
      table := map k | k in AllKinds() :: NewError(Code(k), Message(k));
      initial := map k | k in AllKinds() :: NewError(Code(k), Message(k));
      new;
      forall k: ErrorKind ensures k in table && k in initial {
        AllKindsComplete(k);
      }
    }

    /** What a reader of the constant `k` sees now. */
    function Get(k: ErrorKind): (e: Error)
      reads this
      requires Valid()
      ensures e.code == initial[k].code && e.message == initial[k].message
      ensures InitialIsConstants() ==> e.code == Code(k) && e.message == Message(k)
    {
      table[k]
    }

    method SetFidoResponseCode(k: ErrorKind, c: int)
      requires Valid()
      modifies this
      ensures Valid()
      ensures table == old(table)[k := old(table[k]).(fidoResponseCode := Some(c))]
    {
      table := table[k := table[k].(fidoResponseCode := Some(c))];
    }

    method SetFidoResponseMsg(k: ErrorKind, msg: string)
      requires Valid()
      modifies this
      ensures Valid()
      ensures table == old(table)[k := old(table[k]).(fidoResponseMsg := Some(msg))]
    {
      table := table[k := table[k].(fidoResponseMsg := Some(msg))];
    }
  }

  /**
   * How an operation ends: `Ok`; `Raised`, a ProcessingException whose error is
   * the named constant (or null: `None`); or `Crashed`, any other exception.
   */
  datatype Outcome<+T> = Ok(value: T) | Raised(error: Option<ErrorKind>) | Crashed(reason: string)

  /**
   * The Error the controllers' exception handlers send back: the constant a
   * ProcessingException carries (possibly null), and UNEXPECTED_ERROR for any
   * other exception. `None` is a null body.
   */
  function Reply<T>(o: Outcome<T>): (r: Option<ErrorKind>)
    requires !o.Ok?
    ensures o.Crashed? ==> r == Some(UnexpectedError)
    ensures o.Raised? ==> r == o.error
  {
    if o.Raised? then o.error else Some(UnexpectedError)
  }
}
