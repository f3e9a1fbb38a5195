/**
 * TestController: the unprotected debugging interface under /test. It looks
 * accounts, sessions and audit records up, and deletes an account by email.
 * Every operation saves one audit record in its `finally` block, whatever
 * the outcome. The list queries take a pattern in which '*' is the wildcard;
 * it is turned into the SQL LIKE wildcard '%' before the query.
 */
module Debugging {
  import opened Wrappers
  import opened Errors
  import opened Entities
  import opened Stores
  import opened Tenants
  import opened IdentityX

  // ---------------------------------------------------------------------------
  // Patterns

  /** String.replace('*', '%') on one character. */
  function StarToPercent(c: char): char {
    if c == '*' then '%' else c
  }

  /** String.replace('*', '%'): every '*' becomes '%', every other character stays. */
  function ReplaceStars(s: string): (r: string)
    ensures |r| == |s|
    ensures forall i :: 0 <= i < |s| ==> r[i] == StarToPercent(s[i])
  {
    if s == [] then [] else ReplaceStars(s[..|s| - 1]) + [StarToPercent(s[|s| - 1])]
  }

  /**
   * The pattern getAccounts and getSessions send to the repository: a null or
   * empty parameter means "*", and then every '*' becomes '%'.
   */
  function NormalisePattern(p: string): (r: string)
    ensures p == "" ==> r == "%"
    ensures p != "" ==> |r| == |p| && forall i :: 0 <= i < |p| ==> r[i] == StarToPercent(p[i])
    ensures r != [] && '*' !in r
  {
    ReplaceStars(if p == "" then "*" else p)
  }

  /** Normalising a normalised pattern changes nothing. */
  lemma NormaliseIdempotent(p: string)
    ensures NormalisePattern(NormalisePattern(p)) == NormalisePattern(p)
  {
    var r := NormalisePattern(p);
    var rr := NormalisePattern(r);
    assert forall i :: 0 <= i < |r| ==> r[i] != '*';
    assert |rr| == |r|;
    assert forall i :: 0 <= i < |r| ==> rr[i] == r[i];
  }

  /**
   * SQL LIKE without an escape character: '%' matches any run of characters,
   * '_' any one character, and every other character itself.
   */
  predicate Like(s: string, p: string)
    decreases |s| + |p|
  {
    if p == [] then s == []
    else if p[0] == '%' then Like(s, p[1..]) || (s != [] && Like(s[1..], p))
    else s != [] && (p[0] == '_' || p[0] == s[0]) && Like(s[1..], p[1..])
  }

  /** A pattern with no wildcard in it. */
  predicate Literal(p: string) {
    forall i :: 0 <= i < |p| ==> p[i] != '%' && p[i] != '_'
  }

  /** "%" matches every string. */
  lemma {:induction false} LikeAnything(s: string)
    ensures Like(s, "%")
  {
    if s != [] {
      LikeAnything(s[1..]);
    }
  }

  /** A pattern without wildcards matches exactly itself. */
  lemma {:induction false} LikeLiteral(s: string, p: string)
    requires Literal(p)
    ensures Like(s, p) <==> s == p
  {
    if p != [] && s != [] {
      LikeLiteral(s[1..], p[1..]);
      if s[0] == p[0] && s[1..] == p[1..] {
        assert s == [s[0]] + s[1..] && p == [p[0]] + p[1..];
      }
    }
  }

  /** A literal followed by '%' matches exactly the strings it begins. */
  lemma {:induction false} LikePrefix(s: string, p: string)
    requires Literal(p)
    ensures Like(s, p + "%") <==> p <= s
  {
    if p == [] {
      assert p + "%" == "%";
      LikeAnything(s);
    } else {
      assert (p + "%")[0] == p[0];
      assert (p + "%")[1..] == p[1..] + "%";
      if s != [] {
        LikePrefix(s[1..], p[1..]);
      }
    }
  }

  /**
   * A pattern typed as a literal followed by '*' reaches the repository as
   * that literal followed by '%', and so lists exactly the strings it begins.
   */
  lemma StarSuffixMatchesPrefix(s: string, p: string)
    requires Literal(p) && '*' !in p
    ensures NormalisePattern(p + "*") == p + "%"
    ensures Like(s, NormalisePattern(p + "*")) <==> p <= s
  {
    var r := NormalisePattern(p + "*");
    assert forall i :: 0 <= i < |p| ==> (p + "*")[i] == p[i] && p[i] in p;
    assert r == p + "%";
    LikePrefix(s, p);
  }

  /**
   * findByEmailLike on the email column, which compares without regard to
   * case (as findByEmail does): both sides are folded.
   */
  predicate EmailLike(email: string, pattern: string) {
    Like(FoldCase(email), FoldCase(pattern))
  }

  /** An empty email parameter lists every account. */
  lemma EmptyEmailPatternListsAll(email: string)
    ensures EmailLike(email, NormalisePattern(""))
  {
    assert FoldCase("%") == "%" by {
      FoldCaseAt("%", 0);
    }
    LikeAnything(FoldCase(email));
  }

  // ---------------------------------------------------------------------------
  // Audit queries

  /** What is drawn from the tail of a list is drawn from the list. */
  lemma TailMembers<T>(s: seq<T>, r: seq<T>)
    requires s != [] && forall i :: 0 <= i < |r| ==> r[i] in s[1..]
    ensures forall i :: 0 <= i < |r| ==> r[i] in s
  {
    forall i | 0 <= i < |r|
      ensures r[i] in s
    {
      var j :| 0 <= j < |s| - 1 && s[1..][j] == r[i];
      assert s[j + 1] == r[i];
    }
  }

  /** findByCreatedDTMBefore: the audit records stamped strictly before the bound; a null bound matches none. */
  function AuditsBefore(audits: seq<Audit>, createdBefore: Option<int>): (r: seq<Audit>)
    reads set a | a in audits
    ensures forall i :: 0 <= i < |r| ==> r[i] in audits && createdBefore.Some? && r[i].createdDTM < createdBefore.value
    ensures forall j :: 0 <= j < |audits| && createdBefore.Some? && audits[j].createdDTM < createdBefore.value ==> audits[j] in r
    ensures |r| <= |audits|
  {
    if audits == [] then []
    else
      var rest := AuditsBefore(audits[1..], createdBefore);
      assert forall j :: 1 <= j < |audits| ==> audits[j] == audits[1..][j - 1];
      TailMembers(audits, rest);
      if createdBefore.Some? && audits[0].createdDTM < createdBefore.value then [audits[0]] + rest else rest
  }

  // ---------------------------------------------------------------------------
  // The controller

  class TestController {
    const repos: Repositories
    const services: IdentityXServices

    constructor (repos: Repositories, services: IdentityXServices)
      ensures this.repos == repos && this.services == services
    {
      this.repos, this.services := repos, services;
    }

    /**
     * getAccount: the account stored under the id; ACCOUNT_NOT_FOUND for an
     * unknown id. The audit names the requested id in either case.
     */
    method GetAccount(anId: string, start: int, finish: int) returns (o: Outcome<Account>)
      requires repos.Valid()
      modifies repos
      ensures repos.Valid()
      ensures anId in old(repos.accounts) ==> o == Ok(old(repos.accounts)[anId]) && o.value.id == anId
      ensures anId !in old(repos.accounts) ==> o == Raised(Some(AccountNotFound))
      ensures repos.AuditedOnce(old(repos.audits), AuditAction.GetAccount, Some(anId), start, finish)
      ensures repos.accounts == old(repos.accounts) && repos.sessions == old(repos.sessions)
    {
      var account := repos.AccountById(anId);
      if account.None? {
        o := Raised(Some(AccountNotFound));
      } else {
        o := Ok(account.value);
      }
      repos.WriteAudit(AuditAction.GetAccount, Some(anId), start, finish);
    }

    /**
     * getAccounts: the accounts whose email matches the normalised pattern;
     * an empty parameter lists them all. The audit names no account.
     */
    method GetAccounts(email: string, start: int, finish: int) returns (r: set<Account>)
      requires repos.Valid()
      modifies repos
      ensures repos.Valid()
      ensures forall a :: a in r <==> a in old(repos.accounts).Values && EmailLike(a.email, NormalisePattern(email))
      ensures email == "" ==> r == old(repos.accounts).Values
      ensures repos.AuditedOnce(old(repos.audits), AuditAction.GetAccounts, None, start, finish)
      ensures repos.accounts == old(repos.accounts) && repos.sessions == old(repos.sessions)
    {
      var pattern := NormalisePattern(email);
      r := set a | a in repos.accounts.Values && EmailLike(a.email, pattern);
      if email == "" {
        forall a | a in repos.accounts.Values
          ensures a in r
        {
          EmptyEmailPatternListsAll(a.email);
        }
      }
      repos.WriteAudit(AuditAction.GetAccounts, None, start, finish);
    }

    /**
     * getSessions: the sessions whose id matches the normalised pattern; an
     * empty parameter lists them all.
     */
    method GetSessions(id: string, start: int, finish: int) returns (r: set<Session>)
      requires repos.Valid()
      modifies repos
      ensures repos.Valid()
      ensures forall s :: s in r <==> s in old(repos.sessions).Values && Like(s.id, NormalisePattern(id))
      ensures id == "" ==> r == old(repos.sessions).Values
      ensures repos.AuditedOnce(old(repos.audits), AuditAction.GetSessions, None, start, finish)
      ensures repos.accounts == old(repos.accounts) && repos.sessions == old(repos.sessions)
    {
      var pattern := NormalisePattern(id);
      r := set s | s in repos.sessions.Values && Like(s.id, pattern);
      if id == "" {
        forall s | s in repos.sessions.Values
          ensures s in r
        {
          LikeAnything(s.id);
        }
      }
      repos.WriteAudit(AuditAction.GetSessions, None, start, finish);
    }

    /** The repository query findByCreatedDTMBefore, answered from the stored audits. */
    method FindAuditsBefore(stored: seq<Audit>, createdBefore: Option<int>) returns (r: seq<Audit>)
      ensures forall i :: 0 <= i < |r| ==> r[i] in stored && createdBefore.Some? && r[i].createdDTM < createdBefore.value
      ensures forall j :: 0 <= j < |stored| && createdBefore.Some? && stored[j].createdDTM < createdBefore.value ==>
        stored[j] in r
    {
      r := AuditsBefore(stored, createdBefore);
      forall i | 0 <= i < |r|
        ensures r[i] in stored
        ensures createdBefore.Some? && r[i].createdDTM < createdBefore.value
      {
      }
    }

    /**
     * getAudits: the audit records stamped before the bound. The query runs
     * before this operation's own audit is saved, so that audit is never
     * among the results.
     */
    method GetAudits(createdBefore: Option<int>, start: int, finish: int) returns (r: seq<Audit>)
      requires repos.Valid()
      modifies repos
      ensures repos.Valid()
      ensures forall i :: 0 <= i < |r| ==> r[i] in old(repos.audits) && createdBefore.Some? && old(r[i].createdDTM) < createdBefore.value
      ensures forall j :: 0 <= j < |old(repos.audits)| && createdBefore.Some? && old(repos.audits[j].createdDTM) < createdBefore.value ==>
        old(repos.audits[j]) in r
      ensures repos.AuditedOnce(old(repos.audits), AuditAction.GetAudits, None, start, finish)
      ensures repos.audits[|old(repos.audits)|] !in r
      ensures repos.accounts == old(repos.accounts) && repos.sessions == old(repos.sessions)
    {
      r := FindAuditsBefore(repos.audits, createdBefore);
      repos.WriteAudit(AuditAction.GetAudits, None, start, finish);
    }

    /**
     * deleteAccountByEmail as the source writes it: the account is found by
     * email and deleted, and then `deleteUser` is given the EMAIL where it
     * expects the account's IdentityX id. The audit names the account once
     * it is found, even when the provider then fails.
     */
    method DeleteAccountByEmailAsWritten(email: string, start: int, finish: int) returns (o: Outcome<()>)
      requires repos.Valid()
      modifies repos, services`tenant
      ensures repos.Valid()
      ensures old(repos.KeyOfEmail(email)).None? ==>
        o == Raised(Some(AccountNotFound)) && services.tenant == old(services.tenant)
        && repos.accounts == old(repos.accounts)
        && repos.AuditedOnce(old(repos.audits), AuditAction.DeleteAccount, None, start, finish)
      ensures old(repos.KeyOfEmail(email)).Some? ==>
        && (o, services.tenant) == UserDeletion(old(services.tenant), Some(email))
        && repos.accounts == old(repos.accounts) - {old(repos.KeyOfEmail(email)).value}
        && repos.AuditedOnce(old(repos.audits), AuditAction.DeleteAccount, old(repos.KeyOfEmail(email)), start, finish)
      ensures repos.sessions == old(repos.sessions)
    {
      var audited: Option<string> := None;
      var found := repos.FindByEmail(email);
      if found.None? {
        o := Raised(Some(AccountNotFound));
      } else {
        var account := found.value;
        audited := Some(account.id);
        repos.DeleteAccount(account.id);
        o := services.DeleteUser(Some(email));
      }
      repos.WriteAudit(AuditAction.DeleteAccount, audited, start, finish);
    }

    /**
     * deleteAccountByEmail as intended: the account found by email is deleted
     * and its own IdentityX user, when it has one, is archived. Only a
     * failure at the provider is an error once the account is found; the
     * local delete has happened by then.
     */
    method DeleteAccountByEmail(email: string, start: int, finish: int) returns (o: Outcome<()>)
      requires repos.Valid()
      modifies repos, services`tenant
      ensures repos.Valid()
      ensures old(repos.KeyOfEmail(email)).None? ==>
        o == Raised(Some(AccountNotFound)) && services.tenant == old(services.tenant)
        && repos.accounts == old(repos.accounts)
        && repos.AuditedOnce(old(repos.audits), AuditAction.DeleteAccount, None, start, finish)
      ensures old(repos.KeyOfEmail(email)).Some? ==>
        var k := old(repos.KeyOfEmail(email)).value;
        && (o, services.tenant) == UserDeletion(old(services.tenant), old(repos.accounts[k].idXId))
        && repos.accounts == old(repos.accounts) - {k}
        && repos.AuditedOnce(old(repos.audits), AuditAction.DeleteAccount, Some(k), start, finish)
      ensures repos.sessions == old(repos.sessions)
    {
      var audited: Option<string> := None;
      var found := repos.FindByEmail(email);
      if found.None? {
        o := Raised(Some(AccountNotFound));
      } else {
        var account := found.value;
        audited := Some(account.id);
        repos.DeleteAccount(account.id);
        o := services.DeleteUser(account.idXId);
      }
      repos.WriteAudit(AuditAction.DeleteAccount, audited, start, finish);
    }
  }

  /**
   * The provider's user ids are its own, while a user's userId holds the
   * email. When no user has the email as id, the written deleteAccountByEmail
   * fails at the provider and leaves every user as it was, while the account's
   * own user (its IdentityX id) exists and would have been archived.
   */
  lemma EmailIsNotTheFidoId(t: Tenant, email: string, idXId: string)
    requires UserById(t, idXId).Some? && UserById(t, email).None?
    ensures UserDeletion(t, Some(email)).0.Crashed? && UserDeletion(t, Some(email)).1 == t
    ensures UserDeletion(t, Some(idXId)).0.Ok?
    ensures UserDeletion(t, Some(idXId)).1 == ArchiveUser(t, idXId)
  {
  }

  /** A concrete provider where it happens: one active user, registered with its email as userId. */
  lemma EmailIsNotTheFidoIdWitness()
    ensures var t := Tenant([], [], "/users", [User("u1", "a@b.c", false)], [], [], []);
      && UserDeletion(t, Some("a@b.c")).1.users[0] == User("u1", "a@b.c", false)
      && UserDeletion(t, Some("u1")).1.users[0].archived
  {
    var t := Tenant([], [], "/users", [User("u1", "a@b.c", false)], [], [], []);
    assert UserById(t, "u1") == Some(t.users[0]);
    assert UserById(t, "a@b.c").None? by {
      assert t.users[0].id != "a@b.c";
    }
    DeleteUserArchivesOnlyThatUser(t, "u1");
  }
}
