/**
 * The relying party's side of the IdentityX provider (fido/IdentityXServices.java):
 * how it reads ids out of hrefs, how it interprets list queries and the
 * provider's verdict on an authentication, which authenticators it deactivates
 * and reports, whom it lets touch an authenticator or a registration, and the
 * memo of authenticator types it keeps between calls.
 *
 * The provider itself is a `Tenant` value (module Tenants); operations that
 * change it return the new tenant, and the service object holds the current one.
 */
module IdentityX {
  import opened Wrappers
  import opened Errors
  import opened Tenants

  const FIDO_AUTHENTICATOR_TYPE := "FI"

  // ---------------------------------------------------------------------------
  // Hrefs and ids

  /** String.lastIndexOf: the last position holding `c`, or -1. */
  function LastIndexOf(s: string, c: char): (r: int)
    ensures -1 <= r < |s|
    ensures r == -1 ==> c !in s
    ensures r >= 0 ==> s[r] == c && forall j :: r < j < |s| ==> s[j] != c
  {
    if s == [] then -1
    else if s[|s| - 1] == c then |s| - 1
    else LastIndexOf(s[..|s| - 1], c)
  }

  /**
   * getIdFromHref: what follows the last '/', or "" when there is none. The
   * result is the longest '/'-free suffix, preceded in the href by a '/'.
   */
  function GetIdFromHref(href: string): (r: string)
    ensures '/' !in href ==> r == ""
    ensures '/' in href ==> |r| < |href| && href[|href| - |r| - 1] == '/' && href[|href| - |r|..] == r
    ensures '/' !in r
  {
    var lastIndex := LastIndexOf(href, '/');
    if lastIndex < 0 || lastIndex > |href| then "" else href[lastIndex + 1..]
  }

  /** getIdFromHref undoes getHrefFromUserId for every id without a '/'. */
  lemma IdFromUserHref(t: Tenant, id: string)
    requires '/' !in id
    ensures GetIdFromHref(UserHref(t, id)) == id
  {
    var href := UserHref(t, id);
    var r := GetIdFromHref(href);
    assert href == t.usersPath + "/" + id;
    assert href[|href| - |id| - 1] == '/';
    assert '/' in href;
    assert href[|href| - |id|..] == id;
  }

  // ---------------------------------------------------------------------------
  // List queries: zero, one or many items

  /** findApplication / findPolicy: exactly one item, or a runtime failure. */
  function FindRequired<T>(items: seq<T>, what: string): (r: Outcome<T>)
    ensures r.Ok? <==> |items| == 1
    ensures r.Ok? ==> r.value == items[0]
    ensures !r.Raised?
  {
    if |items| == 0 then Crashed("Could not find " + what)
    else if |items| == 1 then Ok(items[0])
    else Crashed("More than one " + what)
  }

  /** findRegistration / findUser: null items or none is null, one is that item, more is a failure. */
  function FindOptional<T>(items: Option<seq<T>>, what: string): (r: Outcome<Option<T>>)
    ensures r.Ok? <==> items.None? || |items.value| <= 1
    ensures r.Ok? && r.value.None? <==> items.None? || |items.value| == 0
    ensures r.Ok? && r.value.Some? ==> items.Some? && r.value.value == items.value[0]
    ensures !r.Raised?
  {
    if items.None? then Ok(None)
    else if |items.value| == 0 then Ok(None)
    else if |items.value| == 1 then Ok(Some(items.value[0]))
    else Crashed("More than one " + what)
  }

  /** The configured application: the single one with that applicationId. */
  function FindApplication(t: Tenant, applicationId: string): (r: Outcome<Application>)
    ensures r.Ok? <==> |Where(t.applications, (a: Application) => a.applicationId == applicationId)| == 1
    ensures r.Ok? ==> r.value in t.applications && r.value.applicationId == applicationId
    ensures r.Ok? ==> forall a :: a in t.applications && a.applicationId == applicationId ==> a == r.value
    ensures !r.Raised?
  {
    var items := Where(t.applications, (a: Application) => a.applicationId == applicationId);
    var r := FindRequired(items, "application with that ApplicationId");
    assert r.Ok? ==> items == [r.value];
    r
  }

  /** A policy of the application, by policyId: the single one, or a failure. */
  function FindPolicy(t: Tenant, app: Application, policyId: string): (r: Outcome<Policy>)
    ensures r.Ok? <==> |Where(t.policies, (p: Policy) => p.applicationHref == app.href && p.policyId == policyId)| == 1
    ensures r.Ok? ==> r.value in t.policies && r.value.policyId == policyId && r.value.applicationHref == app.href
    ensures r.Ok? ==> forall p :: p in t.policies && p.policyId == policyId && p.applicationHref == app.href ==> p == r.value
    ensures !r.Raised?
  {
    var items := Where(t.policies, (p: Policy) => p.applicationHref == app.href && p.policyId == policyId);
    var r := FindRequired(items, "policy with that PolicyId");
    assert r.Ok? ==> items == [r.value];
    r
  }

  /** The user whose userId is `userId`: null when there is none, a failure when there are several. */
  function FindUser(t: Tenant, userId: string): (r: Outcome<Option<User>>)
    ensures r.Ok? <==> |UsersWithUserId(t, userId)| <= 1
    ensures r.Ok? && r.value.None? ==> forall u :: u in t.users ==> u.userId != userId
    ensures r.Ok? && r.value.Some? ==> UsersWithUserId(t, userId) == [r.value.value] && r.value.value in t.users
    ensures !r.Raised?
  {
    var items := UsersWithUserId(t, userId);
    var r := FindOptional(Some(items), "user with the same UserId");
    assert r.Ok? && r.value.Some? ==> items == [r.value.value];
    r
  }

  /** The user's registration with `registrationId`: null, the one, or a failure. */
  function FindRegistration(t: Tenant, user: User, registrationId: string): (r: Outcome<Option<Registration>>)
    ensures r.Ok? <==> |RegistrationsOf(t, user.id, registrationId)| <= 1
    ensures r.Ok? && r.value.None? ==> RegistrationsOf(t, user.id, registrationId) == []
    ensures r.Ok? && r.value.Some? ==> RegistrationsOf(t, user.id, registrationId) == [r.value.value]
    ensures !r.Raised?
  {
    var items := RegistrationsOf(t, user.id, registrationId);
    var r := FindOptional(Some(items), "registration with the same RegistrationId");
    assert r.Ok? && r.value.Some? ==> items == [r.value.value];
    r
  }

  // ---------------------------------------------------------------------------
  // Which authenticators are reported and deactivated

  predicate IsFido(a: Authenticator) {
    a.kind == FIDO_AUTHENTICATOR_TYPE
  }

  predicate IsActiveFido(a: Authenticator) {
    a.status != ARCHIVED && IsFido(a)
  }

  /** The authenticators that are not archived and of FIDO type, in their order. */
  function ActiveFido(s: seq<Authenticator>): (r: seq<Authenticator>)
    ensures |r| <= |s|
  {
    if s == [] then []
    else ActiveFido(s[..|s| - 1]) + (if IsActiveFido(s[|s| - 1]) then [s[|s| - 1]] else [])
  }

  lemma {:induction false} ActiveFidoExactly(s: seq<Authenticator>, x: Authenticator)
    ensures x in ActiveFido(s) <==> x in s && IsActiveFido(x)
  {
    if s != [] {
      ActiveFidoExactly(s[..|s| - 1], x);
      assert s == s[..|s| - 1] + [s[|s| - 1]];
    }
  }

  /** Filtering is done element by element: it distributes over concatenation, so order is kept. */
  lemma {:induction false} ActiveFidoAppend(s: seq<Authenticator>, u: seq<Authenticator>)
    ensures ActiveFido(s + u) == ActiveFido(s) + ActiveFido(u)
  {
    if u == [] {
      assert s + u == s;
    } else {
      var w := u[..|u| - 1];
      assert (s + u)[..|s + u| - 1] == s + w;
      ActiveFidoAppend(s, w);
    }
  }

  /** The abbreviated view of an authenticator sent to the app. */
  datatype AuthenticatorInfo = AuthenticatorInfo(
    id: string,
    created: int,
    lastUsed: int,
    name: string,
    description: string,
    vendorName: string,
    icon: string,
    fidoDeregistrationRequest: Option<string>,
    status: string,
    aaid: Option<string>)

  function Convert(a: Authenticator): AuthenticatorInfo {
    AuthenticatorInfo(a.id, a.created, a.updated, a.authenticatorType.name, a.authenticatorType.description,
      a.authenticatorType.vendorName, a.authenticatorType.icon, a.fidoDeregistrationRequest, a.status,
      a.authenticatorType.aaid)
  }

  /** The converted FIDO-type authenticators, in their order. */
  function FidoInfos(s: seq<Authenticator>): (r: seq<AuthenticatorInfo>)
    ensures |r| <= |s|
  {
    if s == [] then []
    else FidoInfos(s[..|s| - 1]) + (if IsFido(s[|s| - 1]) then [Convert(s[|s| - 1])] else [])
  }

  lemma {:induction false} FidoInfosExactly(s: seq<Authenticator>, y: AuthenticatorInfo)
    ensures y in FidoInfos(s) <==> exists x :: x in s && IsFido(x) && Convert(x) == y
  {
    if s != [] {
      var init, last := s[..|s| - 1], s[|s| - 1];
      FidoInfosExactly(init, y);
      assert s == init + [last];
      if y in FidoInfos(s) && y !in FidoInfos(init) {
        assert last in s && IsFido(last) && Convert(last) == y;
      }
      if exists x :: x in s && IsFido(x) && Convert(x) == y {
        var x :| x in s && IsFido(x) && Convert(x) == y;
        if x != last {
          assert x in init;
        }
      }
    }
  }

  lemma {:induction false} FidoInfosAppend(s: seq<Authenticator>, u: seq<Authenticator>)
    ensures FidoInfos(s + u) == FidoInfos(s) + FidoInfos(u)
  {
    if u == [] {
      assert s + u == s;
    } else {
      var w := u[..|u| - 1];
      assert (s + u)[..|s + u| - 1] == s + w;
      FidoInfosAppend(s, w);
    }
  }

  /** When every authenticator is of FIDO type, each one is reported, position for position. */
  lemma {:induction false} FidoInfosOfFido(s: seq<Authenticator>)
    requires forall i :: 0 <= i < |s| ==> IsFido(s[i])
    ensures |FidoInfos(s)| == |s|
    ensures forall i :: 0 <= i < |s| ==> FidoInfos(s)[i] == Convert(s[i])
  {
    if s != [] {
      FidoInfosOfFido(s[..|s| - 1]);
    }
  }

  /** convertToAuthenticatorInfo: the loop that collects the converted FIDO authenticators. */
  method ConvertToAuthenticatorInfo(authenticators: seq<Authenticator>) returns (infos: seq<AuthenticatorInfo>)
    ensures infos == FidoInfos(authenticators)
  {
    infos := [];
    for i := 0 to |authenticators|
      invariant infos == FidoInfos(authenticators[..i])
    {
      assert authenticators[..i + 1][..i] == authenticators[..i];
      if authenticators[i].kind == FIDO_AUTHENTICATOR_TYPE {
        infos := infos + [Convert(authenticators[i])];
      }
    }
    assert authenticators[..|authenticators|] == authenticators;
  }

  /** The filtering loop of getActiveFidoAuthenticators. */
  method SelectActiveFido(authenticators: seq<Authenticator>) returns (active: seq<Authenticator>)
    ensures active == ActiveFido(authenticators)
  {
    active := [];
    for i := 0 to |authenticators|
      invariant active == ActiveFido(authenticators[..i])
    {
      assert authenticators[..i + 1][..i] == authenticators[..i];
      if authenticators[i].status == ARCHIVED {
        continue;
      }
      if authenticators[i].kind != FIDO_AUTHENTICATOR_TYPE {
        continue;
      }
      active := active + [authenticators[i]];
    }
    assert authenticators[..|authenticators|] == authenticators;
  }

  /** An authenticator as the type repository completes it: its type replaced by the full record. */
  function Expand(s: seq<Authenticator>, types: string -> AuthenticatorType): (r: seq<Authenticator>)
    ensures |r| == |s|
    ensures forall i :: 0 <= i < |s| ==> r[i] == s[i].(authenticatorType := types(s[i].authenticatorType.href))
  {
    seq(|s|, i requires 0 <= i < |s| => s[i].(authenticatorType := types(s[i].authenticatorType.href)))
  }

  /** An AAID is looked up only when the authenticator's type has none (null or empty). */
  predicate NeedsAaid(a: Authenticator) {
    a.authenticatorType.aaid.None? || a.authenticatorType.aaid == Some("")
  }

  function WithAaid(a: Authenticator, types: string -> AuthenticatorType): Authenticator {
    if NeedsAaid(a) then a.(authenticatorType := a.authenticatorType.(aaid := types(a.authenticatorType.href).aaid)) else a
  }

  /** Filling AAIDs twice fills nothing more, and an AAID already present is never replaced. */
  lemma WithAaidKeepsPresent(a: Authenticator, types: string -> AuthenticatorType)
    ensures !NeedsAaid(a) ==> WithAaid(a, types) == a
    ensures WithAaid(WithAaid(a, types), types) == WithAaid(a, types)
    ensures WithAaid(a, types).id == a.id && WithAaid(a, types).kind == a.kind && WithAaid(a, types).status == a.status
  {
  }

  function FillAaids(s: seq<Authenticator>, types: string -> AuthenticatorType): (r: seq<Authenticator>)
    ensures |r| == |s|
    ensures forall i :: 0 <= i < |s| ==> r[i] == WithAaid(s[i], types)
  {
    seq(|s|, i requires 0 <= i < |s| => WithAaid(s[i], types))
  }

  /** The copy the provider returns when an authenticator is archived: its stored record, now ARCHIVED. */
  function ArchivedCopy(t: Tenant, a: Authenticator): (r: Authenticator)
    ensures r.status == ARCHIVED && r.id == a.id
  {
    AuthenticatorById(t, a.id).GetOr(a).(status := ARCHIVED)
  }

  /** deactivateFidoAuthenticators: archive each in turn, collecting what the provider returns. */
  function DeactivateAll(t: Tenant, s: seq<Authenticator>): (r: (Tenant, seq<Authenticator>))
  {
    if s == [] then (t, [])
    else
      var (t1, done) := DeactivateAll(t, s[..|s| - 1]);
      var a := s[|s| - 1];
      (ArchiveAuthenticator(t1, a.id), done + [ArchivedCopy(t1, a)])
  }

  /** The ids of a list of authenticators. */
  function IdsOf(s: seq<Authenticator>): set<string> {
    set a | a in s :: a.id
  }

  /**
   * Deactivation returns one ARCHIVED copy per authenticator, in order, and
   * changes nothing in the tenant but authenticator records.
   */
  lemma {:induction false} DeactivateAllShape(t: Tenant, s: seq<Authenticator>)
    ensures var (t', r) := DeactivateAll(t, s);
      && |r| == |s|
      && (forall i :: 0 <= i < |s| ==> r[i].id == s[i].id && r[i].status == ARCHIVED)
      && |t'.authenticators| == |t.authenticators|
      && t'.users == t.users && t'.registrations == t.registrations && t'.challenges == t.challenges
  {
    if s != [] {
      var init, last := s[..|s| - 1], s[|s| - 1];
      DeactivateAllShape(t, init);
      var (t1, done) := DeactivateAll(t, init);
      var r := done + [ArchivedCopy(t1, last)];
      assert DeactivateAll(t, s) == (ArchiveAuthenticator(t1, last.id), r);
      forall i | 0 <= i < |s| ensures r[i].id == s[i].id && r[i].status == ARCHIVED {
        if i < |init| {
          assert r[i] == done[i] && s[i] == init[i];
        } else {
          assert r[i] == ArchivedCopy(t1, last) && s[i] == last;
        }
      }
    }
  }

  /** After deactivation a stored record is ARCHIVED exactly when its id was in the list; otherwise it is untouched. */
  lemma {:induction false} DeactivateAllEffect(t: Tenant, s: seq<Authenticator>, j: int)
    requires 0 <= j < |t.authenticators|
    ensures var t' := DeactivateAll(t, s).0;
      && j < |t'.authenticators|
      && t'.authenticators[j] == if t.authenticators[j].id in IdsOf(s) then t.authenticators[j].(status := ARCHIVED) else t.authenticators[j]
  {
    if s != [] {
      var init, last := s[..|s| - 1], s[|s| - 1];
      DeactivateAllShape(t, init);
      DeactivateAllEffect(t, init, j);
      var x := t.authenticators[j];
      assert x.id in IdsOf(s) <==> x.id in IdsOf(init) || x.id == last.id by {
        assert s == init + [last];
      }
    }
  }

  /**
   * deactivateAndDelete on a tenant: the user's active FIDO authenticators are
   * archived, then the user; the archived authenticators are reported with
   * their AAIDs filled in. An unknown user is a failure that changes nothing.
   */
  function Deactivation(t: Tenant, types: string -> AuthenticatorType, idxId: string): (r: (Outcome<seq<AuthenticatorInfo>>, Tenant))
    ensures !r.0.Raised?
    ensures r.0.Ok? <==> UserById(t, idxId).Some?
    ensures !r.0.Ok? ==> r.1 == t
  {
    match UserById(t, idxId)
    case None => (Crashed("Unable to get the user"), t)
    case Some(user) =>
      var active := ActiveFido(Expand(AuthenticatorsOf(t, user), types));
      var (t1, inactive) := DeactivateAll(t, active);
      (Ok(FidoInfos(FillAaids(inactive, types))), ArchiveUser(t1, user.id))
  }

  /** The ids of the stored authenticators of user `idxId` that are active and of FIDO type. */
  function ActiveFidoIdsOf(t: Tenant, idxId: string): set<string> {
    set k | 0 <= k < |t.authenticators| && t.authenticators[k].userHref == UserHref(t, idxId) && IsActiveFido(t.authenticators[k])
      :: t.authenticators[k].id
  }

  /** The deactivation list names exactly the user's active FIDO authenticators. */
  lemma ActiveIdsOfUser(t: Tenant, types: string -> AuthenticatorType, user: User)
    ensures IdsOf(ActiveFido(Expand(AuthenticatorsOf(t, user), types))) == ActiveFidoIdsOf(t, user.id)
  {
    var mine := AuthenticatorsOf(t, user);
    var expanded := Expand(mine, types);
    var active := ActiveFido(expanded);
    forall id | id in IdsOf(active)
      ensures id in ActiveFidoIdsOf(t, user.id)
    {
      var e :| e in active && e.id == id;
      ActiveFidoExactly(expanded, e);
      var i :| 0 <= i < |expanded| && expanded[i] == e;
      assert mine[i] in mine;
      var k :| 0 <= k < |t.authenticators| && t.authenticators[k] == mine[i];
      assert IsActiveFido(t.authenticators[k]);
    }
    forall id | id in ActiveFidoIdsOf(t, user.id)
      ensures id in IdsOf(active)
    {
      var k :| 0 <= k < |t.authenticators| && t.authenticators[k].userHref == UserHref(t, user.id)
               && IsActiveFido(t.authenticators[k]) && t.authenticators[k].id == id;
      var x := t.authenticators[k];
      assert x in mine;
      var i :| 0 <= i < |mine| && mine[i] == x;
      var e := expanded[i];
      assert e.id == id && IsActiveFido(e);
      ActiveFidoExactly(expanded, e);
    }
  }

  /**
   * What deactivation leaves behind: a stored authenticator is archived
   * exactly when it shares its id with an active FIDO authenticator of the
   * user, and is otherwise untouched (so the user's non-FIDO and archived
   * authenticators, and other users' ones, stay as they were); the user, and
   * no other user, is archived; registrations and challenges are untouched.
   */
  lemma DeactivationEffect(t: Tenant, types: string -> AuthenticatorType, idxId: string)
    requires UserById(t, idxId).Some?
    ensures var t' := Deactivation(t, types, idxId).1;
      && |t'.authenticators| == |t.authenticators| && |t'.users| == |t.users|
      && (forall j :: 0 <= j < |t.authenticators| ==>
            t'.authenticators[j] ==
              if t.authenticators[j].id in ActiveFidoIdsOf(t, idxId) then t.authenticators[j].(status := ARCHIVED)
              else t.authenticators[j])
      && (forall i :: 0 <= i < |t.users| ==>
            t'.users[i] == if t.users[i].id == idxId then t.users[i].(archived := true) else t.users[i])
      && t'.registrations == t.registrations && t'.challenges == t.challenges
  {
    var user := UserById(t, idxId).value;
    var active := ActiveFido(Expand(AuthenticatorsOf(t, user), types));
    ActiveIdsOfUser(t, types, user);
    DeactivateAllShape(t, active);
    var t1 := DeactivateAll(t, active).0;
    assert Deactivation(t, types, idxId).1 == ArchiveUser(t1, user.id);
    forall j | 0 <= j < |t.authenticators|
      ensures t1.authenticators[j] ==
        if t.authenticators[j].id in ActiveFidoIdsOf(t, idxId) then t.authenticators[j].(status := ARCHIVED) else t.authenticators[j]
    {
      DeactivateAllEffect(t, active, j);
    }
  }

  /** The i-th archived copy is taken once the first i authenticators have been archived. */
  lemma {:induction false} DeactivateAllAt(t: Tenant, s: seq<Authenticator>, i: int)
    requires 0 <= i < |s|
    ensures |DeactivateAll(t, s).1| == |s|
    ensures DeactivateAll(t, s).1[i] == ArchivedCopy(DeactivateAll(t, s[..i]).0, s[i])
  {
    DeactivateAllShape(t, s);
    var init := s[..|s| - 1];
    var (t1, done) := DeactivateAll(t, init);
    assert DeactivateAll(t, s).1 == done + [ArchivedCopy(t1, s[|s| - 1])];
    if i < |s| - 1 {
      DeactivateAllShape(t, init);
      DeactivateAllAt(t, init, i);
      assert init[..i] == s[..i];
    } else {
      assert init == s[..i];
    }
  }

  /**
   * With unique ids, the copy the provider returns for the i-th authenticator
   * is the stored record with that id, now ARCHIVED: archiving the earlier
   * ones changed only statuses.
   */
  lemma ArchivedCopyIsStored(t: Tenant, s: seq<Authenticator>, i: int, k: int)
    requires UniqueAuthenticatorIds(t)
    requires 0 <= i < |s| && 0 <= k < |t.authenticators| && t.authenticators[k].id == s[i].id
    ensures |DeactivateAll(t, s).1| == |s|
    ensures DeactivateAll(t, s).1[i] == t.authenticators[k].(status := ARCHIVED)
  {
    DeactivateAllAt(t, s, i);
    var ti := DeactivateAll(t, s[..i]).0;
    DeactivateAllShape(t, s[..i]);
    forall j | 0 <= j < |t.authenticators|
      ensures ti.authenticators[j] == t.authenticators[j] || ti.authenticators[j] == t.authenticators[j].(status := ARCHIVED)
    {
      DeactivateAllEffect(t, s[..i], j);
    }
    var found := AuthenticatorById(ti, s[i].id);
    assert ti.authenticators[k] in ti.authenticators;
    var j :| 0 <= j < |ti.authenticators| && ti.authenticators[j] == found.value;
    assert j == k;
  }

  /** The stored record behind the i-th of a user's active FIDO authenticators, as listed with full types. */
  lemma StoredOfActive(t: Tenant, types: string -> AuthenticatorType, user: User, i: int) returns (k: int)
    requires 0 <= i < |ActiveFido(Expand(AuthenticatorsOf(t, user), types))|
    ensures var active := ActiveFido(Expand(AuthenticatorsOf(t, user), types));
      && 0 <= k < |t.authenticators| && t.authenticators[k].id == active[i].id
      && active[i] == t.authenticators[k].(authenticatorType := types(t.authenticators[k].authenticatorType.href))
      && IsActiveFido(active[i])
  {
    var mine := AuthenticatorsOf(t, user);
    var expanded := Expand(mine, types);
    var active := ActiveFido(expanded);
    ActiveFidoExactly(expanded, active[i]);
    var m :| 0 <= m < |expanded| && expanded[m] == active[i];
    assert mine[m] in mine;
    k :| 0 <= k < |t.authenticators| && t.authenticators[k] == mine[m];
  }

  /** With unique ids, looking an authenticator up by its id finds it. */
  lemma FoundById(t: Tenant, k: int)
    requires UniqueAuthenticatorIds(t) && 0 <= k < |t.authenticators|
    ensures AuthenticatorById(t, t.authenticators[k].id) == Some(t.authenticators[k])
  {
    var found := AuthenticatorById(t, t.authenticators[k].id);
    assert t.authenticators[k] in t.authenticators;
    var j :| 0 <= j < |t.authenticators| && t.authenticators[j] == found.value;
    assert j == k;
  }

  /**
   * The i-th copy deactivation returns for a user's active FIDO authenticator
   * is its stored record, archived: the authenticator as listed is that record
   * with its full type, and the stored one is what the id finds.
   */
  lemma ReportedCopy(t: Tenant, types: string -> AuthenticatorType, user: User, i: int)
    requires UniqueAuthenticatorIds(t)
    requires 0 <= i < |ActiveFido(Expand(AuthenticatorsOf(t, user), types))|
    ensures var active := ActiveFido(Expand(AuthenticatorsOf(t, user), types));
      var inactive := DeactivateAll(t, active).1;
      && |inactive| == |active|
      && AuthenticatorById(t, active[i].id) == Some(inactive[i].(status := active[i].status))
      && inactive[i].status == ARCHIVED && IsFido(inactive[i])
      && active[i] == inactive[i].(authenticatorType := types(inactive[i].authenticatorType.href), status := active[i].status)
  {
    var active := ActiveFido(Expand(AuthenticatorsOf(t, user), types));
    var k := StoredOfActive(t, types, user, i);
    ArchivedCopyIsStored(t, active, i, k);
    FoundById(t, k);
  }

  /** The entry reported for the i-th of them, once its AAID is filled in. */
  lemma ReportedEntry(t: Tenant, types: string -> AuthenticatorType, user: User, i: int)
    requires UniqueAuthenticatorIds(t)
    requires 0 <= i < |ActiveFido(Expand(AuthenticatorsOf(t, user), types))|
    ensures var active := ActiveFido(Expand(AuthenticatorsOf(t, user), types));
      var inactive := DeactivateAll(t, active).1;
      && |inactive| == |active|
      && var e := Convert(WithAaid(inactive[i], types));
      && IsFido(WithAaid(inactive[i], types))
      && AuthenticatorById(t, active[i].id).Some?
      && var stored := AuthenticatorById(t, active[i].id).value;
      && e.id == active[i].id && e.status == ARCHIVED
      && e.created == active[i].created && e.lastUsed == active[i].updated
      && e.fidoDeregistrationRequest == active[i].fidoDeregistrationRequest
      && e.aaid == if NeedsAaid(stored) then active[i].authenticatorType.aaid else stored.authenticatorType.aaid
  {
    ReportedCopy(t, types, user, i);
  }

  /**
   * What deactivation reports for an existing user, with unique ids: one
   * entry per active FIDO authenticator of the user, in order, each with that
   * authenticator's id, dates and deregistration request, status ARCHIVED,
   * and its AAID filled in from the full type when the stored record lacks one.
   */
  lemma DeactivationReport(t: Tenant, types: string -> AuthenticatorType, idxId: string)
    requires UserById(t, idxId).Some? && UniqueAuthenticatorIds(t)
    ensures var active := ActiveFido(Expand(AuthenticatorsOf(t, UserById(t, idxId).value), types));
      var r := Deactivation(t, types, idxId).0;
      && r.Ok? && |r.value| == |active|
      && forall i :: 0 <= i < |active| ==>
           && AuthenticatorById(t, active[i].id).Some?
           && var stored := AuthenticatorById(t, active[i].id).value;
           && r.value[i].id == active[i].id && r.value[i].status == ARCHIVED
           && r.value[i].created == active[i].created && r.value[i].lastUsed == active[i].updated
           && r.value[i].fidoDeregistrationRequest == active[i].fidoDeregistrationRequest
           && r.value[i].aaid == if NeedsAaid(stored) then active[i].authenticatorType.aaid else stored.authenticatorType.aaid
  {
    var user := UserById(t, idxId).value;
    var active := ActiveFido(Expand(AuthenticatorsOf(t, user), types));
    var inactive := DeactivateAll(t, active).1;
    var filled := FillAaids(inactive, types);
    DeactivateAllShape(t, active);
    var infos := FidoInfos(filled);
    assert Deactivation(t, types, idxId).0 == Ok(infos);
    forall i | 0 <= i < |filled|
      ensures IsFido(filled[i])
    {
      ReportedEntry(t, types, user, i);
    }
    FidoInfosOfFido(filled);
    forall i | 0 <= i < |active|
      ensures infos[i] == Convert(WithAaid(inactive[i], types))
    {
    }
    forall i | 0 <= i < |active|
      ensures AuthenticatorById(t, active[i].id).Some?
      ensures var stored := AuthenticatorById(t, active[i].id).value;
        && infos[i].id == active[i].id && infos[i].status == ARCHIVED
        && infos[i].created == active[i].created && infos[i].lastUsed == active[i].updated
        && infos[i].fidoDeregistrationRequest == active[i].fidoDeregistrationRequest
        && infos[i].aaid == if NeedsAaid(stored) then active[i].authenticatorType.aaid else stored.authenticatorType.aaid
    {
      ReportedEntry(t, types, user, i);
    }
  }

  // ---------------------------------------------------------------------------
  // Interpreting the provider's verdict on an authentication

  /** Java's narrowing of a long to an int: the low 32 bits, read as two's complement. */
  function ToInt32(c: int): (r: int)
    ensures -0x8000_0000 <= r < 0x8000_0000
    ensures (c - r) % 0x1_0000_0000 == 0
    ensures -0x8000_0000 <= c < 0x8000_0000 ==> r == c
  {
    (c + 0x8000_0000) % 0x1_0000_0000 - 0x8000_0000
  }

  /**
   * The error a failed authentication is reported with: none when the provider
   * gave no response code; otherwise, after narrowing the code to an int,
   * 1481 is an unknown authenticator, 1493 a revoked one, anything else
   * invalid credentials.
   */
  function FailureError(code: Option<int>): (e: Option<ErrorKind>)
    ensures e.None? <==> code.None?
    ensures e == Some(UnknownAuthenticator) <==> code.Some? && ToInt32(code.value) == 1481
    ensures e == Some(RevokedAuthenticator) <==> code.Some? && ToInt32(code.value) == 1493
    ensures e.Some? ==> e.value in {UnknownAuthenticator, RevokedAuthenticator, InvalidCredentials}
  {
    match code
    case None => None
    case Some(c) =>
      match ToInt32(c)
      case 1481 => Some(UnknownAuthenticator)
      case 1493 => Some(RevokedAuthenticator)
      case _ => Some(InvalidCredentials)
  }

  /**
   * The shared error table once an authentication has been interpreted as `o`:
   * a raised UNKNOWN_AUTHENTICATOR or REVOKED_AUTHENTICATOR carries the
   * provider's code and a hint in its FIDO fields from then on; nothing else
   * is written.
   */
  function StaticsAfter<T>(table: map<ErrorKind, Error>, o: Outcome<T>): (r: map<ErrorKind, Error>)
    requires UnknownAuthenticator in table && RevokedAuthenticator in table
    ensures r.Keys == table.Keys
    ensures forall k :: k in table && o != Raised(Some(k)) ==> r[k] == table[k]
    ensures o == Raised(Some(UnknownAuthenticator)) ==>
      r[UnknownAuthenticator] == table[UnknownAuthenticator].(fidoResponseCode := Some(1481), fidoResponseMsg := Some(UNKNOWN_AUTHENTICATOR_FIDO_MSG))
    ensures o == Raised(Some(RevokedAuthenticator)) ==>
      r[RevokedAuthenticator] == table[RevokedAuthenticator].(fidoResponseCode := Some(1493), fidoResponseMsg := Some(REVOKED_AUTHENTICATOR_FIDO_MSG))
    ensures forall k :: k in table && k !in {UnknownAuthenticator, RevokedAuthenticator} ==> r[k] == table[k]
  {
    if o == Raised(Some(UnknownAuthenticator)) then
      table[UnknownAuthenticator := table[UnknownAuthenticator].(fidoResponseCode := Some(1481), fidoResponseMsg := Some(UNKNOWN_AUTHENTICATOR_FIDO_MSG))]
    else if o == Raised(Some(RevokedAuthenticator)) then
      table[RevokedAuthenticator := table[RevokedAuthenticator].(fidoResponseCode := Some(1493), fidoResponseMsg := Some(REVOKED_AUTHENTICATOR_FIDO_MSG))]
    else table
  }

  const UNKNOWN_AUTHENTICATOR_FIDO_MSG := "This authenticator is not known - please delete it"
  const REVOKED_AUTHENTICATOR_FIDO_MSG := "This authenticator is no longer valid - please delete it"

  /**
   * validateAuthResponse's decision on the request as the provider returned it
   * (None: the request was not found): a successful one is returned, with its
   * user re-read from the tenant; a failed one is a ProcessingException with
   * the mapped error; any other status is a runtime failure.
   */
  function AuthVerdict(t: Tenant, answer: Option<AuthenticationRequest>): (r: Outcome<AuthenticationRequest>)
    ensures answer.None? ==> r.Crashed?
    ensures r.Ok? <==> answer.Some? && answer.value.status == CompletedSuccessful
                       && (answer.value.user.None? || UserById(t, answer.value.user.value.id).Some?)
    ensures r.Ok? && answer.value.user.None? ==> r.value == answer.value
    ensures r.Ok? && answer.value.user.Some? ==> r.value == answer.value.(user := UserById(t, answer.value.user.value.id))
    ensures r.Raised? <==> answer.Some? && answer.value.status == CompletedFailure
    ensures r.Raised? ==> r.error == FailureError(answer.value.fidoResponseCode)
  {
    match answer
    case None => Crashed("Unable to find the authentication request")
    case Some(request) =>
      if request.status == CompletedSuccessful then
        if request.user.None? then Ok(request)
        else
          match UserById(t, request.user.value.id)
          case None => Crashed("Unable to get the user")
          case Some(u) => Ok(request.(user := Some(u)))
      else if request.status == CompletedFailure then
        Raised(FailureError(request.fidoResponseCode))
      else
        Crashed("Response could not be validated")
  }

  // ---------------------------------------------------------------------------
  // Ownership: a caller may only touch what belongs to its own IdentityX user

  /** The caller's IdentityX id (null: None) is the id in the owning user's href. */
  predicate Owns(fidoId: Option<string>, ownerHref: string) {
    fidoId.Some? && fidoId.value == GetIdFromHref(ownerHref)
  }

  /** A user owns what hangs off its own href, and no other '/'-free id does. */
  lemma OwnsExactlyOwnHref(t: Tenant, id: string, caller: string)
    requires '/' !in id
    ensures Owns(Some(caller), UserHref(t, id)) <==> caller == id
  {
    IdFromUserHref(t, id);
  }

  /** deleteAuthenticator: the authenticator's deregistration request, after archiving it. */
  function DeleteAuthenticator(t: Tenant, fidoId: Option<string>, authenticatorId: string): (r: (Outcome<Option<string>>, Tenant))
    ensures r.0.Ok? <==> AuthenticatorById(t, authenticatorId).Some? && Owns(fidoId, AuthenticatorById(t, authenticatorId).value.userHref)
    ensures r.0.Ok? ==> r.0.value == AuthenticatorById(t, authenticatorId).value.fidoDeregistrationRequest
                        && r.1 == ArchiveAuthenticator(t, authenticatorId)
    ensures !r.0.Ok? ==> r.1 == t && r.0.Crashed?
  {
    match AuthenticatorById(t, authenticatorId)
    case None => (Crashed("Unable to find the authenticator"), t)
    case Some(a) =>
      if fidoId.None? then (Crashed("null FIDO id"), t)
      else if fidoId.value != GetIdFromHref(a.userHref) then (Crashed("The authenticator does not belong to the user"), t)
      else (Ok(a.fidoDeregistrationRequest), ArchiveAuthenticator(t, authenticatorId))
  }

  /** getAuthenticator: the converted authenticator, when it belongs to the caller. */
  function GetAuthenticator(t: Tenant, fidoId: Option<string>, id: string): (r: Outcome<AuthenticatorInfo>)
    ensures r.Ok? <==> AuthenticatorById(t, id).Some? && Owns(fidoId, AuthenticatorById(t, id).value.userHref)
    ensures r.Ok? ==> r.value == Convert(AuthenticatorById(t, id).value)
    ensures !r.Raised?
  {
    match AuthenticatorById(t, id)
    case None => Crashed("null authenticator")
    case Some(a) =>
      if fidoId.None? then Crashed("null FIDO id")
      else if fidoId.value != GetIdFromHref(a.userHref) then Crashed("The authenticator does not belong to the user")
      else Ok(Convert(a))
  }

  /** processRegistrationResponse: attach the client's response to the caller's own challenge. */
  function ProcessRegistrationResponse(t: Tenant, fidoId: Option<string>, challengeHref: string, response: string)
    : (r: (Outcome<RegistrationChallenge>, Tenant))
    ensures r.0.Ok? <==> ChallengeByHref(t, challengeHref).Some?
                         && RegistrationByHref(t, ChallengeByHref(t, challengeHref).value.registrationHref).Some?
                         && Owns(fidoId, RegistrationByHref(t, ChallengeByHref(t, challengeHref).value.registrationHref).value.userHref)
    ensures r.0.Ok? ==> r.0.value == ChallengeByHref(t, challengeHref).value.(fidoRegistrationResponse := Some(response))
                        && r.1 == UpdateChallenge(t, r.0.value)
    ensures !r.0.Ok? ==> r.1 == t && r.0.Crashed?
  {
    match ChallengeByHref(t, challengeHref)
    case None => (Crashed("Unable to find the registration challenge"), t)
    case Some(ch) =>
      match RegistrationByHref(t, ch.registrationHref)
      case None => (Crashed("null registration"), t)
      case Some(reg) =>
        if fidoId.None? then (Crashed("null FIDO id"), t)
        else if fidoId.value != GetIdFromHref(reg.userHref) then (Crashed("The registration response does not belong to the user"), t)
        else
          var updated := ch.(fidoRegistrationResponse := Some(response));
          (Ok(updated), UpdateChallenge(t, updated))
  }

  // ---------------------------------------------------------------------------
  // Registration requests and user deletion

  /** The FIDO id of the user the challenge was made for, and the challenge. */
  datatype RegChallengeAndId = RegChallengeAndId(idXId: string, registrationChallenge: RegistrationChallenge)

  /** What the provider assigns to the objects it creates during one request. */
  datatype Created = Created(
    userId: string,
    registrationId: string,
    registrationHref: string,
    challengeHref: string,
    fidoRegistrationRequest: string)

  /**
   * The second half of createRegRequest, once the user is known: its
   * registration named by the email is reused when there is one and created
   * when there is none (several are a failure); then a new challenge for that
   * registration is added.
   */
  function RegisterWith(t: Tenant, user: User, email: string, c: Created): (r: (Outcome<RegChallengeAndId>, Tenant))
    ensures var regs := RegistrationsOf(t, user.id, email);
      && (r.0.Ok? <==> |regs| <= 1)
      && (!r.0.Ok? ==> r.0.Crashed? && r.1 == t)
      && (r.0.Ok? ==>
            var regHref := if |regs| == 1 then regs[0].href else c.registrationHref;
            && r.0.value == RegChallengeAndId(user.id, RegistrationChallenge(c.challengeHref, regHref, c.fidoRegistrationRequest, None))
            && r.1.challenges == t.challenges + [r.0.value.registrationChallenge]
            && r.1.registrations ==
                 if |regs| == 1 then t.registrations
                 else t.registrations + [Registration(c.registrationId, c.registrationHref, UserHref(t, user.id), email)])
      && r.1.users == t.users && r.1.authenticators == t.authenticators && r.1.usersPath == t.usersPath
  {
    var reg := FindRegistration(t, user, email);
    if !reg.Ok? then (Crashed("More than one registration with the same RegistrationId"), t)
    else
      var (registration, t1) :=
        if reg.value.Some? then (reg.value.value, t)
        else AddRegistration(t, user, email, c.registrationId, c.registrationHref);
      var (challenge, t2) := AddRegistrationChallenge(t1, registration, c.challengeHref, c.fidoRegistrationRequest);
      (Ok(RegChallengeAndId(user.id, challenge)), t2)
  }

  /**
   * createRegRequest, find-or-create: the user is looked up by FIDO id when one
   * is given and by email otherwise, and created under the email when not
   * found; the same for the user's registration (named by the email); then a
   * new challenge is always added.
   */
  function RegRequest(t: Tenant, email: string, fidoId: Option<string>, c: Created): (r: (Outcome<RegChallengeAndId>, Tenant))
    ensures !r.0.Raised?
    // a user found by FIDO id keeps that id, and no user is added
    ensures fidoId.Some? && UserById(t, fidoId.value).Some? ==>
      r.1.users == t.users && (r.0.Ok? <==> |RegistrationsOf(t, fidoId.value, email)| <= 1)
    ensures fidoId.Some? && UserById(t, fidoId.value).Some? && r.0.Ok? ==> r.0.value.idXId == fidoId.value
    // by email: the single user with that userId is reused, and no user is added
    ensures fidoId.None? && |UsersWithUserId(t, email)| == 1 ==>
      r.1.users == t.users && (r.0.Ok? <==> |RegistrationsOf(t, UsersWithUserId(t, email)[0].id, email)| <= 1)
      && (r.0.Ok? ==> r.0.value.idXId == UsersWithUserId(t, email)[0].id)
    // several users with that userId: a failure, and nothing is created
    ensures fidoId.None? && |UsersWithUserId(t, email)| > 1 ==> r.0.Crashed? && r.1 == t
    // no user found: exactly one new user, with the email as userId
    ensures (if fidoId.None? then |UsersWithUserId(t, email)| == 0 else UserById(t, fidoId.value).None?) ==>
      r.1.users == t.users + [User(c.userId, email, false)] && (r.0.Ok? <==> |RegistrationsOf(t, c.userId, email)| <= 1)
      && (r.0.Ok? ==> r.0.value.idXId == c.userId)
    // the user's registration named by the email is reused when it is the only one, and created when there is none
    ensures r.0.Ok? ==>
      var regs := RegistrationsOf(t, r.0.value.idXId, email);
      var regHref := if |regs| == 1 then regs[0].href else c.registrationHref;
      && |regs| <= 1
      && r.0.value.registrationChallenge == RegistrationChallenge(c.challengeHref, regHref, c.fidoRegistrationRequest, None)
      && r.1.registrations ==
           if |regs| == 1 then t.registrations
           else t.registrations + [Registration(c.registrationId, c.registrationHref, UserHref(t, r.0.value.idXId), email)]
    // on success exactly one challenge was added, and it is the one returned; a failure adds no registration or challenge
    ensures r.0.Ok? ==> r.1.challenges == t.challenges + [r.0.value.registrationChallenge]
    ensures !r.0.Ok? ==> r.0.Crashed? && r.1.registrations == t.registrations && r.1.challenges == t.challenges
    ensures r.1.authenticators == t.authenticators
  {
    var found := if fidoId.None? then FindUser(t, email) else Ok(UserById(t, fidoId.value));
    if !found.Ok? then (Crashed("More than one user with the same UserId"), t)
    else
      var (user, t1) := if found.value.Some? then (found.value.value, t) else AddUser(t, email, c.userId);
      assert RegistrationsOf(t1, user.id, email) == RegistrationsOf(t, user.id, email);
      RegisterWith(t1, user, email, c)
  }

  /**
   * deleteUser: nothing to do without a FIDO id; otherwise the user at
   * usersPath/fidoId is archived, and a user that does not exist is a failure.
   */
  function UserDeletion(t: Tenant, fidoId: Option<string>): (r: (Outcome<()>, Tenant))
    ensures fidoId.None? ==> r == (Ok(()), t)
    ensures fidoId.Some? ==> (r.0.Ok? <==> UserById(t, fidoId.value).Some?)
    ensures fidoId.Some? && r.0.Ok? ==> r.1 == ArchiveUser(t, fidoId.value)
    ensures !r.0.Ok? ==> r.1 == t && r.0.Crashed?
  {
    match fidoId
    case None => (Ok(()), t)
    case Some(id) =>
      if UserById(t, id).None? then (Crashed("An exception occurred while attempting to archive the user"), t)
      else (Ok(()), ArchiveUser(t, id))
  }

  /** Archiving a user by FIDO id archives exactly that user's records. */
  lemma DeleteUserArchivesOnlyThatUser(t: Tenant, id: string)
    requires UserById(t, id).Some?
    ensures var t' := UserDeletion(t, Some(id)).1;
      (forall i :: 0 <= i < |t.users| && t.users[i].id == id ==> t'.users[i].archived)
      && (forall i :: 0 <= i < |t.users| && t.users[i].id != id ==> t'.users[i] == t.users[i])
  {
  }

  // ---------------------------------------------------------------------------
  // The service object

  class IdentityXServices {
    /** The provider as it stands. */
    var tenant: Tenant
    /** The memo of authenticator types, by href. */
    var authenticatorTypesCache: map<string, AuthenticatorType>
    /** What the type repository answers for an href. */
    const typeRepository: string -> AuthenticatorType
    /** The hrefs sent to the type repository, in order. */
    ghost var typeQueries: seq<string>

    /** The memo only holds what the repository answers. */
    ghost predicate Valid()
      reads this
    {
      forall h :: h in authenticatorTypesCache ==> authenticatorTypesCache[h] == typeRepository(h)
    }

    constructor (t: Tenant, types: string -> AuthenticatorType)
      ensures Valid()
      ensures tenant == t && typeRepository == types
      ensures authenticatorTypesCache == map[] && typeQueries == []
    {
      tenant, typeRepository := t, types;
      authenticatorTypesCache, typeQueries := map[], [];
    }

    /**
     * getAuthenticatorType: a hit answers from the memo and queries nothing; a
     * miss queries the repository once and memoises the answer. No entry is
     * ever replaced.
     */
    method GetAuthenticatorType(href: string) returns (t: AuthenticatorType)
      requires Valid()
      modifies this`authenticatorTypesCache, this`typeQueries
      ensures Valid()
      ensures t == typeRepository(href)
      ensures href in old(authenticatorTypesCache) ==>
        authenticatorTypesCache == old(authenticatorTypesCache) && typeQueries == old(typeQueries)
      ensures href !in old(authenticatorTypesCache) ==>
        authenticatorTypesCache == old(authenticatorTypesCache)[href := t] && typeQueries == old(typeQueries) + [href]
    {
      if href in authenticatorTypesCache {
        t := authenticatorTypesCache[href];
      } else {
        t := typeRepository(href);
        typeQueries := typeQueries + [href];
        authenticatorTypesCache := authenticatorTypesCache[href := t];
      }
    }

    /** The memo only grows, and an href is queried at most once over its lifetime. */
    ghost predicate Extends(before: map<string, AuthenticatorType>)
      reads this
    {
      forall h :: h in before ==> h in authenticatorTypesCache && authenticatorTypesCache[h] == before[h]
    }

    /** getAuthenticators: the user's authenticators, each with its type completed through the memo. */
    method GetAuthenticators(user: User) returns (r: seq<Authenticator>)
      requires Valid()
      modifies this`authenticatorTypesCache, this`typeQueries
      ensures Valid() && Extends(old(authenticatorTypesCache))
      ensures r == Expand(AuthenticatorsOf(tenant, user), typeRepository)
      ensures forall a :: a in AuthenticatorsOf(tenant, user) ==> a.authenticatorType.href in authenticatorTypesCache
    {
      var items := AuthenticatorsOf(tenant, user);
      r := [];
      for i := 0 to |items|
        invariant Valid() && Extends(old(authenticatorTypesCache))
        invariant |r| == i
        invariant forall j :: 0 <= j < i ==> r[j] == items[j].(authenticatorType := typeRepository(items[j].authenticatorType.href))
        invariant forall j :: 0 <= j < i ==> items[j].authenticatorType.href in authenticatorTypesCache
      {
        var t := GetAuthenticatorType(items[i].authenticatorType.href);
        r := r + [items[i].(authenticatorType := t)];
      }
    }

    /** getActiveFidoAuthenticators: the user's authenticators that are FIDO and not archived, in order. */
    method GetActiveFidoAuthenticators(user: User) returns (active: seq<Authenticator>)
      requires Valid()
      modifies this`authenticatorTypesCache, this`typeQueries
      ensures Valid() && Extends(old(authenticatorTypesCache))
      ensures active == ActiveFido(Expand(AuthenticatorsOf(tenant, user), typeRepository))
    {
      var authenticators := GetAuthenticators(user);
      active := SelectActiveFido(authenticators);
    }

    /** deactivateFidoAuthenticators: archive each one, collecting the provider's answers. */
    method DeactivateFidoAuthenticators(active: seq<Authenticator>) returns (inactive: seq<Authenticator>)
      modifies this`tenant
      ensures (tenant, inactive) == DeactivateAll(old(tenant), active)
    {
      inactive := [];
      for i := 0 to |active|
        invariant (tenant, inactive) == DeactivateAll(old(tenant), active[..i])
      {
        assert active[..i + 1][..i] == active[..i];
        var archived := ArchivedCopy(tenant, active[i]);
        tenant := ArchiveAuthenticator(tenant, active[i].id);
        inactive := inactive + [archived];
      }
      assert active[..|active|] == active;
    }

    /** addAuthenticatorTypeAAID: fill in the AAID of each authenticator that has none. */
    method AddAuthenticatorTypeAAID(authenticators: seq<Authenticator>) returns (r: seq<Authenticator>)
      requires Valid()
      modifies this`authenticatorTypesCache, this`typeQueries
      ensures Valid() && Extends(old(authenticatorTypesCache))
      ensures r == FillAaids(authenticators, typeRepository)
      ensures forall h :: h in authenticatorTypesCache && h !in old(authenticatorTypesCache) ==>
        exists i :: 0 <= i < |authenticators| && NeedsAaid(authenticators[i]) && authenticators[i].authenticatorType.href == h
    {
      r := [];
      for i := 0 to |authenticators|
        invariant Valid() && Extends(old(authenticatorTypesCache))
        invariant |r| == i
        invariant forall j :: 0 <= j < i ==> r[j] == WithAaid(authenticators[j], typeRepository)
        invariant forall h :: h in authenticatorTypesCache && h !in old(authenticatorTypesCache) ==>
          exists j :: 0 <= j < i && NeedsAaid(authenticators[j]) && authenticators[j].authenticatorType.href == h
      {
        var a := authenticators[i];
        if a.authenticatorType.aaid.None? || a.authenticatorType.aaid == Some("") {
          var t := GetAuthenticatorType(a.authenticatorType.href);
          a := a.(authenticatorType := a.authenticatorType.(aaid := t.aaid));
        }
        r := r + [a];
      }
    }

    /**
     * deactivateAndDelete: archive the user's active FIDO authenticators, then
     * the user, and report the archived authenticators. An unknown user is a
     * failure that changes nothing.
     */
    method DeactivateAndDelete(idxId: string) returns (o: Outcome<seq<AuthenticatorInfo>>)
      requires Valid()
      modifies this`tenant, this`authenticatorTypesCache, this`typeQueries
      ensures Valid() && Extends(old(authenticatorTypesCache))
      ensures (o, tenant) == Deactivation(old(tenant), typeRepository, idxId)
    {
      var found := UserById(tenant, idxId);
      if found.None? {
        return Crashed("Unable to get the user");
      }
      var user := found.value;
      var active := GetActiveFidoAuthenticators(user);
      var inactive := DeactivateFidoAuthenticators(active);
      var filled := AddAuthenticatorTypeAAID(inactive);
      tenant := ArchiveUser(tenant, user.id);
      assert filled == FillAaids(inactive, typeRepository);
      var infos := ConvertToAuthenticatorInfo(filled);
      o := Ok(infos);
    }

    /** validateAuthResponse, including its writes into the shared error constants. */
    method ValidateAuthResponse(statics: ErrorStatics, answer: Option<AuthenticationRequest>)
      returns (o: Outcome<AuthenticationRequest>)
      requires statics.Valid()
      modifies statics
      ensures statics.Valid()
      ensures o == AuthVerdict(tenant, answer)
      ensures statics.table == StaticsAfter(old(statics.table), o)
    {
      o := AuthVerdict(tenant, answer);
      if o == Raised(Some(UnknownAuthenticator)) {
        statics.SetFidoResponseCode(UnknownAuthenticator, 1481);
        statics.SetFidoResponseMsg(UnknownAuthenticator, UNKNOWN_AUTHENTICATOR_FIDO_MSG);
      } else if o == Raised(Some(RevokedAuthenticator)) {
        statics.SetFidoResponseCode(RevokedAuthenticator, 1493);
        statics.SetFidoResponseMsg(RevokedAuthenticator, REVOKED_AUTHENTICATOR_FIDO_MSG);
      }
    }

    /** createRegRequest against the current tenant. */
    method CreateRegRequest(email: string, fidoId: Option<string>, c: Created) returns (o: Outcome<RegChallengeAndId>)
      modifies this`tenant
      ensures (o, tenant) == RegRequest(old(tenant), email, fidoId, c)
    {
      var (r, t) := RegRequest(tenant, email, fidoId, c);
      o, tenant := r, t;
    }

    /** deleteUser against the current tenant. */
    method DeleteUser(fidoId: Option<string>) returns (o: Outcome<()>)
      modifies this`tenant
      ensures (o, tenant) == UserDeletion(old(tenant), fidoId)
    {
      var (r, t) := UserDeletion(tenant, fidoId);
      o, tenant := r, t;
    }
  }
}
