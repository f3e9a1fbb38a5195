/**
 * The three JPA repositories (AccountRepository, SessionRepository,
 * AuditRepository) as one in-memory store of entity objects. Accounts and
 * sessions are keyed by the identifier the id generator gave them; the email
 * column is unique without regard to case. Saving an entity that is already
 * stored writes nothing here: the stored object is the one the controller has
 * been updating in place.
 */
module Stores {
  import opened Wrappers
  import opened Entities

  class Repositories {
    var accounts: map<string, Account>
    var sessions: map<string, Session>
    var audits: seq<Audit>

    /** Every stored entity carries its own key, and no two accounts share an email up to case. */
    ghost predicate Valid()
      reads this
    {
      && (forall k :: k in accounts ==> accounts[k].id == k)
      && (forall k :: k in sessions ==> sessions[k].id == k)
      && (forall k, k' :: k in accounts && k' in accounts && SameEmail(accounts[k].email, accounts[k'].email) ==> k == k')
    }

    constructor ()
      ensures Valid()
      ensures accounts == map[] && sessions == map[] && audits == []
    {
      accounts, sessions, audits := map[], map[], [];
    }

    /** The session stored under `id`, as a frame: nothing when there is none. */
    function SessionFrame(id: string): set<Session>
      reads this
    {
      if id in sessions then {sessions[id]} else {}
    }

    /** findById: the account stored under the key, null (None) for an unknown key. */
    function AccountById(id: string): (r: Option<Account>)
      reads this
      ensures r.Some? <==> id in accounts
      ensures r.Some? ==> r.value == accounts[id]
    {
      if id in accounts then Some(accounts[id]) else None
    }

    /** The key of the account whose email agrees with `email` up to case (unique when Valid). */
    ghost function KeyOfEmail(email: string): (r: Option<string>)
      reads this
      ensures r.Some? ==> r.value in accounts && SameEmail(accounts[r.value].email, email)
      ensures r.None? ==> forall k :: k in accounts ==> !SameEmail(accounts[k].email, email)
    {
      if exists k :: k in accounts && SameEmail(accounts[k].email, email) then
        Some(var k :| k in accounts && SameEmail(accounts[k].email, email); k)
      else None
    }

    /** The fields of the account with that email, if there is one. */
    ghost function RecordByEmail(email: string): Option<AccountRecord>
      reads this, accounts.Values
    {
      match KeyOfEmail(email)
      case None => None
      case Some(k) => Some(accounts[k].Record())
    }

    /** The account with that email, as a frame: nothing when there is none. */
    function EmailFrame(email: string): set<Account>
      reads this
    {
      set a | a in accounts.Values && SameEmail(a.email, email)
    }

    /** The account a session belongs to, as a frame. */
    function SessionAccountFrame(id: string): set<Account>
      reads this
    {
      if id in sessions && sessions[id].accountId in accounts then {accounts[sessions[id].accountId]} else {}
    }

    /** findByEmail on the case-insensitive column: the one account whose email agrees up to case. */
    method FindByEmail(email: string) returns (r: Option<Account>)
      requires Valid()
      ensures r.None? <==> KeyOfEmail(email).None?
      ensures r.Some? ==> r.value == accounts[KeyOfEmail(email).value]
      ensures r.Some? ==> SameEmail(r.value.email, email) && r.value in EmailFrame(email)
    {
      if k :| k in accounts && SameEmail(accounts[k].email, email) {
        var k' := KeyOfEmail(email).value;
        assert SameEmail(accounts[k].email, accounts[k'].email);
        r := Some(accounts[k]);
      } else {
        r := None;
      }
    }

    /**
     * Saves a new account under its generated key. The unique email column
     * refuses an account whose email matches a stored one up to case: then
     * nothing is written and `ok` is false.
     */
    method SaveNewAccount(a: Account) returns (ok: bool)
      requires Valid() && a.id !in accounts
      modifies this
      ensures Valid()
      ensures ok <==> forall k :: k in old(accounts) ==> !SameEmail(old(accounts)[k].email, a.email)
      ensures ok ==> accounts == old(accounts)[a.id := a]
      ensures !ok ==> accounts == old(accounts)
      ensures sessions == old(sessions) && audits == old(audits)
    {
      if k :| k in accounts && SameEmail(accounts[k].email, a.email) {
        ok := false;
      } else {
        accounts := accounts[a.id := a];
        ok := true;
      }
    }

    /** Saves a new session under its generated key. */
    method SaveNewSession(s: Session)
      requires Valid() && s.id !in sessions
      modifies this
      ensures Valid()
      ensures sessions == old(sessions)[s.id := s]
      ensures accounts == old(accounts) && audits == old(audits)
    {
      sessions := sessions[s.id := s];
    }

    /** delete(id) on the account repository. */
    method DeleteAccount(id: string)
      requires Valid()
      modifies this
      ensures Valid()
      ensures accounts == old(accounts) - {id}
      ensures sessions == old(sessions) && audits == old(audits)
    {
      accounts := accounts - {id};
    }

    /** delete(session) on the session repository. */
    method DeleteSession(id: string)
      requires Valid()
      modifies this
      ensures Valid()
      ensures sessions == old(sessions) - {id}
      ensures accounts == old(accounts) && audits == old(audits)
    {
      sessions := sessions - {id};
    }

    /** save(audit): audit records are only ever appended. */
    method SaveAudit(a: Audit)
      requires Valid()
      modifies this`audits
      ensures Valid()
      ensures audits == old(audits) + [a]
      ensures accounts == old(accounts) && sessions == old(sessions)
    {
      audits := audits + [a];
    }

    /**
     * The `finally` block of every audited operation: an audit record of
     * `action`, naming the account it acted on when it got that far, timed
     * from `start` to `finish`, saved.
     */
    method WriteAudit(action: AuditAction, accountId: Option<string>, start: int, finish: int)
      requires Valid()
      modifies this`audits
      ensures Valid()
      ensures AuditedOnce(old(audits), action, accountId, start, finish) && fresh(audits[|old(audits)|])
      ensures accounts == old(accounts) && sessions == old(sessions)
    {
      var audit := new Audit(action, start);
      if accountId.Some? {
        audit.SetAccountId(accountId.value);
      }
      audit.SetDuration(finish - start);
      audit.SetCreatedDTM(finish);
      SaveAudit(audit);
    }

    /**
     * The audit log grew by exactly one record, for `action`, naming `accountId`
     * and no session, whose duration runs from `start` to `finish` and which is
     * stamped `finish`: what every operation's `finally` block writes.
     */
    ghost predicate AuditedOnce(before: seq<Audit>, action: AuditAction, accountId: Option<string>, start: int, finish: int)
      reads this, audits
    {
      && |audits| == |before| + 1
      && audits[..|before|] == before
      && var a := audits[|before|];
         a.operation == action && a.accountId == accountId && a.sessionId == None
         && a.duration == finish - start && a.createdDTM == finish
    }
  }
}
