/**
 * The remote IdentityX tenant as the relying party sees it through the SDK's
 * repositories: users, registrations, registration challenges and
 * authenticators, each reached by id or href. This stands in for the network:
 * every SDK call the services make becomes a lookup in, or an update of, a
 * `Tenant` value, and the values the server would assign to objects it creates
 * (ids, challenge contents) are parameters.
 */
module Tenants {
  import opened Wrappers

  /** An IdentityX user; `userId` is the business identifier (the account's email). */
  datatype User = User(id: string, userId: string, archived: bool)

  /** A registration of a user with the application; `userHref` points at its owner. */
  datatype Registration = Registration(id: string, href: string, userHref: string, registrationId: string)

  datatype RegistrationChallenge = RegistrationChallenge(
    href: string,
    registrationHref: string,
    fidoRegistrationRequest: string,
    fidoRegistrationResponse: Option<string>)

  datatype AuthenticatorType = AuthenticatorType(
    href: string,
    aaid: Option<string>,
    name: string,
    description: string,
    vendorName: string,
    icon: string)

  /** `kind` is the authenticator's type code ("FI" for FIDO); `status` its status name. */
  datatype Authenticator = Authenticator(
    id: string,
    userHref: string,
    status: string,
    kind: string,
    authenticatorType: AuthenticatorType,
    created: int,
    updated: int,
    fidoDeregistrationRequest: Option<string>)

  const ARCHIVED := "ARCHIVED"

  /** An application and a policy as the list queries return them. */
  datatype Application = Application(applicationId: string, href: string)

  datatype Policy = Policy(policyId: string, applicationHref: string, href: string)

  datatype AuthRequestStatus = CompletedSuccessful | CompletedFailure | OtherStatus(name: string)

  /**
   * An authentication request as the provider answers it once the client's
   * response has been attached: its status, the provider's response code and
   * message, and a reference to the authenticated user, if any.
   */
  datatype AuthenticationRequest = AuthenticationRequest(
    href: string,
    status: AuthRequestStatus,
    fidoAuthenticationResponse: string,
    fidoResponseCode: Option<int>,
    fidoResponseMsg: Option<string>,
    user: Option<User>)

  datatype Tenant = Tenant(
    applications: seq<Application>,
    policies: seq<Policy>,
    usersPath: string,
    users: seq<User>,
    registrations: seq<Registration>,
    challenges: seq<RegistrationChallenge>,
    authenticators: seq<Authenticator>)

  /** The href of the user with id `id`: the users collection path, '/', the id. */
  function UserHref(t: Tenant, id: string): string {
    t.usersPath + "/" + id
  }

  /** The first element satisfying `p`, if any. */
  function First<T(!new)>(s: seq<T>, p: T -> bool): (r: Option<T>)
    ensures r.Some? ==> r.value in s && p(r.value)
    ensures r.None? ==> forall x :: x in s ==> !p(x)
  {
    if s == [] then None else if p(s[0]) then Some(s[0]) else First(s[1..], p)
  }

  /** The elements satisfying `p`, in order: what a list query answers. */
  function Where<T(!new)>(s: seq<T>, p: T -> bool): (r: seq<T>)
    ensures |r| <= |s|
    ensures forall x :: x in r <==> x in s && p(x)
  {
    if s == [] then [] else (if p(s[0]) then [s[0]] else []) + Where(s[1..], p)
  }

  /** userRepo.getById: null when there is no such user. */
  function UserById(t: Tenant, id: string): (r: Option<User>)
    ensures r.Some? ==> r.value in t.users && r.value.id == id
    ensures r.None? ==> forall u :: u in t.users ==> u.id != id
  {
    UserWithId(t.users, id)
  }

  function UserWithId(users: seq<User>, id: string): (r: Option<User>)
    ensures r.Some? ==> r.value in users && r.value.id == id
    ensures r.None? ==> forall u :: u in users ==> u.id != id
  {
    if users == [] then None else if users[0].id == id then Some(users[0]) else UserWithId(users[1..], id)
  }

  /** userRepo.list with the userId search spec. */
  function UsersWithUserId(t: Tenant, userId: string): seq<User> {
    Where(t.users, (u: User) => u.userId == userId)
  }

  /** regRepo.list under the registrations of the user with id `userId`, with the registrationId search spec. */
  function RegistrationsOf(t: Tenant, userId: string, registrationId: string): seq<Registration> {
    Where(t.registrations, (r: Registration) => r.userHref == UserHref(t, userId) && r.registrationId == registrationId)
  }

  function RegistrationByHref(t: Tenant, href: string): Option<Registration> {
    First(t.registrations, (r: Registration) => r.href == href)
  }

  function ChallengeByHref(t: Tenant, href: string): Option<RegistrationChallenge> {
    First(t.challenges, (c: RegistrationChallenge) => c.href == href)
  }

  function AuthenticatorById(t: Tenant, id: string): Option<Authenticator> {
    First(t.authenticators, (a: Authenticator) => a.id == id)
  }

  /** The provider assigns authenticator ids: no two stored authenticators share one. */
  predicate UniqueAuthenticatorIds(t: Tenant) {
    forall i, j :: 0 <= i < j < |t.authenticators| ==> t.authenticators[i].id != t.authenticators[j].id
  }

  /** authRepo.list under a user's authenticators collection. */
  function AuthenticatorsOf(t: Tenant, user: User): seq<Authenticator> {
    Where(t.authenticators, (a: Authenticator) => a.userHref == UserHref(t, user.id))
  }

  /** regRepo.create: a registration of `user` under `registrationId`, with server-assigned id and href. */
  function AddRegistration(t: Tenant, user: User, registrationId: string, newId: string, newHref: string): (r: (Registration, Tenant))
    ensures r.0 == Registration(newId, newHref, UserHref(t, user.id), registrationId)
    ensures r.1 == t.(registrations := t.registrations + [r.0])
  {
    var reg := Registration(newId, newHref, UserHref(t, user.id), registrationId);
    (reg, t.(registrations := t.registrations + [reg]))
  }

  /** regChallengeRepo.create: a new challenge for `reg`, whose href and request the server assigns. */
  function AddRegistrationChallenge(t: Tenant, reg: Registration, newHref: string, request: string): (r: (RegistrationChallenge, Tenant))
    ensures r.0 == RegistrationChallenge(newHref, reg.href, request, None)
    ensures r.1 == t.(challenges := t.challenges + [r.0])
  {
    var ch := RegistrationChallenge(newHref, reg.href, request, None);
    (ch, t.(challenges := t.challenges + [ch]))
  }

  /** regChallengeRepo.update: the stored challenge with that href is replaced by `ch`. */
  function UpdateChallenge(t: Tenant, ch: RegistrationChallenge): (r: Tenant)
    ensures |r.challenges| == |t.challenges| && r.users == t.users
    ensures r.registrations == t.registrations && r.authenticators == t.authenticators
    ensures forall i :: 0 <= i < |t.challenges| ==>
      r.challenges[i] == if t.challenges[i].href == ch.href then ch else t.challenges[i]
  {
    t.(challenges := seq(|t.challenges|, i requires 0 <= i < |t.challenges| =>
      if t.challenges[i].href == ch.href then ch else t.challenges[i]))
  }

  /** userRepo.create: a new, active user with the server-assigned id `newId`. */
  function AddUser(t: Tenant, userId: string, newId: string): (r: (User, Tenant))
    ensures r.0.id == newId && r.0.userId == userId && !r.0.archived
    ensures r.1 == t.(users := t.users + [r.0])
  {
    var u := User(newId, userId, false);
    (u, t.(users := t.users + [u]))
  }

  /** userRepo.archive: every user record with that id becomes archived. */
  function ArchiveUser(t: Tenant, id: string): (r: Tenant)
    ensures |r.users| == |t.users| && r.registrations == t.registrations
    ensures r.authenticators == t.authenticators && r.challenges == t.challenges
    ensures forall i :: 0 <= i < |t.users| ==>
      r.users[i] == if t.users[i].id == id then t.users[i].(archived := true) else t.users[i]
  {
    t.(users := seq(|t.users|, i requires 0 <= i < |t.users| =>
      if t.users[i].id == id then t.users[i].(archived := true) else t.users[i]))
  }

  /** authRepo.archive: the stored authenticator with that id gets status ARCHIVED. */
  function ArchiveAuthenticator(t: Tenant, id: string): (r: Tenant)
    ensures |r.authenticators| == |t.authenticators| && r.users == t.users
    ensures r.registrations == t.registrations && r.challenges == t.challenges
    ensures forall i :: 0 <= i < |t.authenticators| ==>
      r.authenticators[i] == if t.authenticators[i].id == id then t.authenticators[i].(status := ARCHIVED) else t.authenticators[i]
  {
    t.(authenticators := seq(|t.authenticators|, i requires 0 <= i < |t.authenticators| =>
      if t.authenticators[i].id == id then t.authenticators[i].(status := ARCHIVED) else t.authenticators[i]))
  }
}
