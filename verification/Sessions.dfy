/** The reservation table of `BrokerApplication`: how sessions are admitted and released
    (src/broker/BrokerApplication.cpp). */
module Sessions {
  import opened Wrappers

  const MAXIMUM_SESSIONS: nat := 4
  const MAXIMUM_SESSIONS_PER_ACCOUNT: nat := 2

  /** An account name up to case, as `AccountNameLess` compares names. */
  type AccountName = nat

  /** A read scope, as far as the table cares: does it still have un-restored ACEs? */
  datatype Scope = Scope(dirty: bool)

  datatype AccountSessions = AccountSessions(count: nat, readScope: Option<Scope>)
  datatype Table = Table(accounts: map<AccountName, AccountSessions>, total: nat)

  function CountOf(t: Table, account: AccountName): nat {
    if account in t.accounts then t.accounts[account].count else 0
  }

  /** `BrokerReadScope::Restore` can fail only while there is something to restore. */
  predicate RestoreSucceeds(scope: Scope, fails: bool) {
    !scope.dirty || !fails
  }

  predicate MayReserve(t: Table, account: AccountName, restrict: bool) {
    && t.total < MAXIMUM_SESSIONS
    && (account in t.accounts ==>
          && t.accounts[account].count < MAXIMUM_SESSIONS_PER_ACCOUNT
          && t.accounts[account].readScope.Some? == restrict)
  }

  /** `TryReserveSession`, with `restoreFails` what a restoration it may need does. */
  function Reserve(t: Table, account: AccountName, restrict: bool, restoreFails: bool): (Table, bool) {
    if !MayReserve(t, account, restrict) then (t, false)
    else
      var found := if account in t.accounts then t.accounts[account] else AccountSessions(0, None);
      var scope := if restrict && found.readScope.None? then Some(Scope(false)) else found.readScope;
      if found.count == 0 && scope.Some? && !RestoreSucceeds(scope.value, restoreFails) then
        (t.(accounts := t.accounts[account := AccountSessions(0, scope)]), false)
      else
        var kept := if found.count == 0 && scope.Some? then Some(Scope(false)) else scope;
        (Table(t.accounts[account := AccountSessions(found.count + 1, kept)], t.total + 1), true)
  }

  /** `ReleaseSession`; the flag says that a restoration it needed failed. */
  function Release(t: Table, account: AccountName, restoreFails: bool): (Table, bool) {
    if CountOf(t, account) == 0 then (t, false)
    else
      var found := t.accounts[account];
      var total := if t.total > 0 then t.total - 1 else 0;
      if found.count > 1 then (Table(t.accounts[account := found.(count := found.count - 1)], total), false)
      else if found.readScope.Some? && !RestoreSucceeds(found.readScope.value, restoreFails) then
        (Table(t.accounts[account := found.(count := 0)], total), true)
      else (Table(t.accounts - {account}, total), false)
  }

  /** `BrokerReadScope::Ensure` may leave ACEs behind whether it succeeds or not. */
  function Ensure(t: Table, account: AccountName): Table {
    if account in t.accounts && t.accounts[account].readScope.Some? then
      t.(accounts := t.accounts[account := t.accounts[account].(readScope := Some(Scope(true)))])
    else t
  }

  // ---- the admission invariant of the table alone ----

  ghost function Sum(accounts: map<AccountName, AccountSessions>): nat {
    if accounts == map[] then 0
    else
      var a :| a in accounts;
      accounts[a].count + Sum(accounts - {a})
  }

  lemma {:induction false} SumWithout(accounts: map<AccountName, AccountSessions>, a: AccountName)
    requires a in accounts
    ensures Sum(accounts) == accounts[a].count + Sum(accounts - {a})
    decreases |accounts|
  {
    var b :| b in accounts && Sum(accounts) == accounts[b].count + Sum(accounts - {b});
    if a != b {
      SumWithout(accounts - {b}, a);
      SumWithout(accounts - {a}, b);
      assert accounts - {a} - {b} == accounts - {b} - {a};
    }
  }

  lemma SumSet(accounts: map<AccountName, AccountSessions>, a: AccountName, s: AccountSessions)
    ensures Sum(accounts[a := s]) == s.count + Sum(accounts - {a})
    ensures Sum(accounts) == (if a in accounts then accounts[a].count else 0) + Sum(accounts - {a})
  {
    SumWithout(accounts[a := s], a);
    assert accounts[a := s] - {a} == accounts - {a};
    if a in accounts {
      SumWithout(accounts, a);
    } else {
      assert accounts - {a} == accounts;
    }
  }

  predicate GoodEntry(s: AccountSessions) {
    && s.count <= MAXIMUM_SESSIONS_PER_ACCOUNT
    && (s.count == 0 ==> s.readScope == Some(Scope(true)))
  }

  /** At most four sessions, at most two per account, the total is the sum, and an entry without
      sessions exists only while its scope has un-restored ACEs. */
  ghost predicate Admissible(t: Table) {
    && t.total == Sum(t.accounts) && t.total <= MAXIMUM_SESSIONS
    && forall a :: a in t.accounts ==> GoodEntry(t.accounts[a])
  }

  /** Admission is refused only at a limit, on a different `restrictAccess`, or while the account's
      scope cannot be restored; a first restricted session starts with a restored scope. */
  lemma ReserveKeepsAdmissible(t: Table, account: AccountName, restrict: bool, restoreFails: bool)
    requires Admissible(t)
    ensures var (t', ok) := Reserve(t, account, restrict, restoreFails);
            && Admissible(t')
            && (ok <==> MayReserve(t, account, restrict) &&
                        !(account in t.accounts && t.accounts[account].count == 0 && restoreFails))
            && (!ok ==> t' == t)
            && (ok && restrict && CountOf(t, account) == 0 ==> t'.accounts[account].readScope == Some(Scope(false)))
            && (ok ==> t'.total == t.total + 1 && CountOf(t', account) == CountOf(t, account) + 1 &&
                       account in t'.accounts && t'.accounts[account].readScope.Some? == restrict &&
                       (account in t.accounts ==> t.accounts[account].readScope.Some? == restrict))
            && forall a :: a != account ==> (a in t'.accounts <==> a in t.accounts) &&
                                            (a in t.accounts ==> t'.accounts[a] == t.accounts[a])
  {
    var (t', ok) := Reserve(t, account, restrict, restoreFails);
    if MayReserve(t, account, restrict) {
      SumSet(t.accounts, account, t'.accounts[account]);
      if !ok {
        assert t'.accounts == t.accounts;
      }
    }
  }

  /** Only the last session's restoration can fail, and then the entry stays without sessions. */
  lemma ReleaseKeepsAdmissible(t: Table, account: AccountName, restoreFails: bool)
    requires Admissible(t) && CountOf(t, account) > 0
    ensures var (t', failed) := Release(t, account, restoreFails);
            && Admissible(t')
            && t'.total == t.total - 1 && CountOf(t', account) == CountOf(t, account) - 1
            && (account in t'.accounts ==> t'.accounts[account].readScope == t.accounts[account].readScope)
            && (account in t'.accounts && CountOf(t', account) == 0 <==> failed)
            && (failed <==>
                  CountOf(t, account) == 1 && t.accounts[account].readScope == Some(Scope(true)) && restoreFails)
            && forall a :: a != account ==> (a in t'.accounts <==> a in t.accounts) &&
                                            (a in t.accounts ==> t'.accounts[a] == t.accounts[a])
  {
    var (t', failed) := Release(t, account, restoreFails);
    SumSet(t.accounts, account, if account in t'.accounts then t'.accounts[account] else AccountSessions(0, None));
  }

  lemma EnsureKeepsAdmissible(t: Table, account: AccountName)
    requires Admissible(t)
    ensures Admissible(Ensure(t, account)) && Ensure(t, account).total == t.total
    ensures Ensure(t, account).accounts.Keys == t.accounts.Keys
    ensures forall a :: a in t.accounts ==>
              && Ensure(t, account).accounts[a].count == t.accounts[a].count
              && Ensure(t, account).accounts[a].readScope.Some? == t.accounts[a].readScope.Some?
  {
    if account in t.accounts && t.accounts[account].readScope.Some? {
      SumSet(t.accounts, account, Ensure(t, account).accounts[account]);
    }
  }

  /** A release undoes its reservation: with nothing left to restore, the table is as before. */
  lemma ReserveThenRelease(t: Table, account: AccountName, restrict: bool, restoreFails: bool)
    requires Admissible(t) && account !in t.accounts && t.total < MAXIMUM_SESSIONS
    ensures var (t', ok) := Reserve(t, account, restrict, restoreFails);
            ok && Release(t', account, restoreFails) == (t, false)
  {
    var (t', ok) := Reserve(t, account, restrict, restoreFails);
    assert t'.accounts - {account} == t.accounts;
  }

  /** The same decisions as methods over the object's own fields, each run under `sessionMutex_`. */
  class SessionTable {
    var sessionsByAccount: map<AccountName, AccountSessions>
    var sessionCount: nat

    constructor ()
      ensures Contents() == Table(map[], 0) && Valid()
    {
      sessionsByAccount, sessionCount := map[], 0;
    }

    ghost function Contents(): Table
      reads this
    {
      Table(sessionsByAccount, sessionCount)
    }

    ghost predicate Valid()
      reads this
    {
      Admissible(Contents())
    }

    method Restore(scope: Scope) returns (fails: bool)
      ensures !scope.dirty ==> !fails
    {
      fails := *;
      fails := fails && scope.dirty;
    }

    method TryReserveSession(account: AccountName, restrict: bool) returns (ok: bool)
      requires Valid()
      modifies this
      ensures Valid()
      ensures (Contents(), ok) == Reserve(old(Contents()), account, restrict, false) ||
              (Contents(), ok) == Reserve(old(Contents()), account, restrict, true)
    {
      ReserveKeepsAdmissible(Contents(), account, restrict, false);
      ReserveKeepsAdmissible(Contents(), account, restrict, true);
      if sessionCount >= MAXIMUM_SESSIONS {
        return false;
      }
      if account in sessionsByAccount &&
         (sessionsByAccount[account].count >= MAXIMUM_SESSIONS_PER_ACCOUNT ||
          sessionsByAccount[account].readScope.Some? != restrict)
      {
        return false;
      }
      var sessions := if account in sessionsByAccount then sessionsByAccount[account] else AccountSessions(0, None);
      if restrict && sessions.readScope.None? {
        sessions := sessions.(readScope := Some(Scope(false)));
      }
      if sessions.count == 0 && sessions.readScope.Some? {
        var fails := Restore(sessions.readScope.value);
        if fails {
          sessionsByAccount := sessionsByAccount[account := sessions];
          return false;
        }
        sessions := sessions.(readScope := Some(Scope(false)));
      }
      sessionsByAccount := sessionsByAccount[account := sessions.(count := sessions.count + 1)];
      sessionCount := sessionCount + 1;
      return true;
    }

    method ReleaseSession(account: AccountName) returns (failed: bool)
      requires Valid()
      modifies this
      ensures Valid()
      ensures (Contents(), failed) == Release(old(Contents()), account, false) ||
              (Contents(), failed) == Release(old(Contents()), account, true)
    {
      if account !in sessionsByAccount || sessionsByAccount[account].count == 0 {
        return false;
      }
      ReleaseKeepsAdmissible(Contents(), account, false);
      ReleaseKeepsAdmissible(Contents(), account, true);
      var sessions := sessionsByAccount[account];
      sessions := sessions.(count := sessions.count - 1);
      sessionCount := sessionCount - 1;
      if sessions.count == 0 {
        if sessions.readScope.Some? {
          var fails := Restore(sessions.readScope.value);
          if fails {
            sessionsByAccount := sessionsByAccount[account := sessions];
            return true;
          }
        }
        sessionsByAccount := sessionsByAccount - {account};
      } else {
        sessionsByAccount := sessionsByAccount[account := sessions];
      }
      return false;
    }

    method HasActiveSession(account: AccountName) returns (active: bool)
      requires Valid()
      ensures CountOf(Contents(), account) > 0 ==> active
      ensures active <==> account in sessionsByAccount
    {
      active := account in sessionsByAccount;
    }
  }
}
