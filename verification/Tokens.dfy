/** Session tokens: login, authentication, logout and the database trigger that revokes an
    employee's tokens when the employee is disabled.

    The tables are values; every SQL statement, together with the triggers it fires, is one atomic
    function on them.  A run is any sequence of events; a Login may be one event, or two with
    anything in between: the read of the employee row and the insert of the token. */
module Tokens {
  import opened Text

  type Time = int
  type EmployeeId = nat
  type TokenId = nat
  type SessionId = nat

  datatype EmployeeStatus = Enabled | Disabled

  datatype Employee = Employee(
    email: string, passwordHash: string, role: string, status: EmployeeStatus, deletedAt: Option<Time>)

  datatype Token = Token(
    employee: EmployeeId, hash: string, expiresAt: Time,
    revokedAt: Option<Time>, revokedReason: string, lastUsedAt: Option<Time>)

  datatype Db = Db(employees: map<EmployeeId, Employee>, tokens: map<TokenId, Token>)

  const EMPLOYEE_DISABLED := "employee disabled"
  const USER_LOGOUT := "user logout"

  // ---------------------------------------------------------------- SQL statements

  /** UPDATE employees SET status = ..., with sync_deleted_at_employees before it and
      revoke_tokens_on_employee_disable after it. */
  function StatusUpdated(db: Db, e: EmployeeId, status: EmployeeStatus, now: Time): Db {
    if e !in db.employees || db.employees[e].status == status then db
    else
      var row := db.employees[e].(status := status, deletedAt := if status == Disabled then Some(now) else None);
      Db(db.employees[e := row], if status == Disabled then AllRevoked(db.tokens, e, now) else db.tokens)
  }

  function AllRevoked(tokens: map<TokenId, Token>, e: EmployeeId, now: Time): (r: map<TokenId, Token>)
    ensures r.Keys == tokens.Keys
    ensures forall id :: id in tokens ==> RowKept(tokens[id], r[id])
    ensures forall id :: id in tokens ==> r[id].revokedAt == None ==> tokens[id].employee != e
  {
    map id | id in tokens ::
      if tokens[id].employee == e && tokens[id].revokedAt == None
      then tokens[id].(revokedAt := Some(now), revokedReason := EMPLOYEE_DISABLED) else tokens[id]
  }

  /** A row keeps its owner, hash and expiry, and once it is revoked neither the time nor the reason
      ever changes. */
  predicate RowKept(t: Token, t': Token) {
    && t'.employee == t.employee && t'.hash == t.hash && t'.expiresAt == t.expiresAt
    && (t.revokedAt != None ==> t'.revokedAt == t.revokedAt && t'.revokedReason == t.revokedReason)
  }

  /** INSERT INTO employees: the primary key and the e-mail are unique. */
  function EmployeeInserted(db: Db, e: EmployeeId, row: Employee): Db {
    if e in db.employees || exists f :: f in db.employees && db.employees[f].email == row.email then db
    else db.(employees := db.employees[e := row])
  }

  /** The constraints of an INSERT INTO auth_tokens: primary key, unique hash, foreign key. */
  predicate Insertable(db: Db, id: TokenId, e: EmployeeId, hash: string) {
    id !in db.tokens && e in db.employees && forall i :: i in db.tokens ==> db.tokens[i].hash != hash
  }

  function TokenInserted(db: Db, id: TokenId, e: EmployeeId, hash: string, expiresAt: Time): Db {
    if Insertable(db, id, e, hash)
    then db.(tokens := db.tokens[id := Token(e, hash, expiresAt, None, "", None)]) else db
  }

  /** UPDATE auth_tokens SET revoked_at ... WHERE id = ... AND revoked_at IS NULL */
  function Revoked(db: Db, id: TokenId, reason: string, now: Time): Db {
    if id in db.tokens && db.tokens[id].revokedAt == None
    then db.(tokens := db.tokens[id := db.tokens[id].(revokedAt := Some(now), revokedReason := reason)]) else db
  }

  function Touched(db: Db, id: TokenId, now: Time): Db {
    if id in db.tokens then db.(tokens := db.tokens[id := db.tokens[id].(lastUsedAt := Some(now))]) else db
  }

  /** The row that FindActiveByHash joins, if any. */
  ghost predicate Finds(db: Db, hash: string, id: TokenId) {
    id in db.tokens && db.tokens[id].hash == hash && db.tokens[id].employee in db.employees
  }

  // ---------------------------------------------------------------- Authenticate

  datatype AuthResult =
    | Principal(employee: EmployeeId, token: TokenId, role: string)
    | TokenInvalid | TokenRevoked | TokenExpired | EmployeeDisabled

  function Judge(db: Db, id: TokenId, now: Time): AuthResult
    requires id in db.tokens && db.tokens[id].employee in db.employees
  {
    var t := db.tokens[id];
    if t.revokedAt != None then TokenRevoked
    else if !(now < t.expiresAt) then TokenExpired
    else if db.employees[t.employee].status != Enabled then EmployeeDisabled
    else Principal(t.employee, id, db.employees[t.employee].role)
  }

  ghost function Verdict(db: Db, hash: string, now: Time): AuthResult {
    if exists id :: Finds(db, hash, id) then
      var id :| Finds(db, hash, id);
      Judge(db, id, now)
    else TokenInvalid
  }

  // ---------------------------------------------------------------- events and runs

  /** pending: logins that have read an enabled employee, checked the password, and not yet
      inserted their token. */
  datatype Sys = Sys(db: Db, pending: map<SessionId, EmployeeId>)

  datatype Event =
    | AddEmployee(e: EmployeeId, row: Employee)
    | SetStatus(e: EmployeeId, status: EmployeeStatus, now: Time)
    | LoginRead(session: SessionId, e: EmployeeId)
    | LoginInsert(session: SessionId, id: TokenId, hash: string, expiresAt: Time)
    | LoginAtOnce(e: EmployeeId, id: TokenId, hash: string, expiresAt: Time)
    | Logout(id: TokenId, now: Time)
    | Touch(id: TokenId, now: Time)

  predicate IsEnabled(db: Db, e: EmployeeId) { e in db.employees && db.employees[e].status == Enabled }

  /** Employee.IsActive: what a login asks for. */
  predicate IsActive(db: Db, e: EmployeeId) { IsEnabled(db, e) && db.employees[e].deletedAt == None }

  predicate IsDisabled(db: Db, e: EmployeeId) { e in db.employees && db.employees[e].status == Disabled }

  function Next(s: Sys, ev: Event): Sys {
    match ev
    case AddEmployee(e, row) => s.(db := EmployeeInserted(s.db, e, row))
    case SetStatus(e, status, now) => s.(db := StatusUpdated(s.db, e, status, now))
    case LoginRead(session, e) => if IsActive(s.db, e) then s.(pending := s.pending[session := e]) else s
    case LoginInsert(session, id, hash, expiresAt) =>
      if session in s.pending
      then Sys(TokenInserted(s.db, id, s.pending[session], hash, expiresAt), s.pending - {session}) else s
    case LoginAtOnce(e, id, hash, expiresAt) =>
      if IsActive(s.db, e) then s.(db := TokenInserted(s.db, id, e, hash, expiresAt)) else s
    case Logout(id, now) => s.(db := Revoked(s.db, id, USER_LOGOUT, now))
    case Touch(id, now) => s.(db := Touched(s.db, id, now))
  }

  function Run(events: seq<Event>): Sys {
    if events == [] then Sys(Db(map[], map[]), map[])
    else Next(Run(events[..|events| - 1]), events[|events| - 1])
  }

  /** Stepping from one prefix of a run to the next. */
  lemma RunStep(events: seq<Event>, k: nat)
    requires k < |events|
    ensures Run(events[..k + 1]) == Next(Run(events[..k]), events[k])
  {
    assert events[..k + 1][..k] == events[..k];
  }

  // ---------------------------------------------------------------- table invariants

  ghost predicate UniqueEmails(db: Db) {
    forall e, f :: e in db.employees && f in db.employees && db.employees[e].email == db.employees[f].email ==> e == f
  }

  /** Foreign key, unique hashes, unique e-mails. */
  ghost predicate Consistent(db: Db) {
    && UniqueEmails(db)
    && (forall id :: id in db.tokens ==> db.tokens[id].employee in db.employees)
    && (forall i, j :: i in db.tokens && j in db.tokens && db.tokens[i].hash == db.tokens[j].hash ==> i == j)
  }

  lemma StatusKeepsConsistent(db: Db, e: EmployeeId, status: EmployeeStatus, now: Time)
    requires Consistent(db)
    ensures Consistent(StatusUpdated(db, e, status, now))
  {
    var db' := StatusUpdated(db, e, status, now);
    assert forall id :: id in db.tokens ==> RowKept(db.tokens[id], db'.tokens[id]);
    assert forall f :: f in db.employees ==> db'.employees[f].email == db.employees[f].email;
  }

  lemma InsertKeepsConsistent(db: Db, id: TokenId, e: EmployeeId, hash: string, expiresAt: Time)
    requires Consistent(db)
    ensures Consistent(TokenInserted(db, id, e, hash, expiresAt))
  {}

  lemma RunsAreConsistentStep(s: Sys, ev: Event)
    requires Consistent(s.db)
    ensures Consistent(Next(s, ev).db)
  {
    match ev
    case AddEmployee(_, _) =>
    case SetStatus(e, status, now) => StatusKeepsConsistent(s.db, e, status, now);
    case LoginRead(_, _) =>
    case LoginInsert(session, id, hash, expiresAt) =>
      if session in s.pending {
        InsertKeepsConsistent(s.db, id, s.pending[session], hash, expiresAt);
      }
    case LoginAtOnce(e, id, hash, expiresAt) => InsertKeepsConsistent(s.db, id, e, hash, expiresAt);
    case Logout(_, _) =>
    case Touch(_, _) =>
  }

  lemma {:induction false} RunsAreConsistent(events: seq<Event>)
    ensures Consistent(Run(events).db)
  {
    if events != [] {
      RunsAreConsistent(events[..|events| - 1]);
      RunsAreConsistentStep(Run(events[..|events| - 1]), events[|events| - 1]);
    }
  }

  /** Two triggers keep deleted_at in step with status, so in a run whose inserted rows start out in
      step, being enabled and being active are the same thing. */
  predicate InStep(row: Employee) { row.status == Enabled <==> row.deletedAt == None }

  lemma {:induction false} StatusAndDeletionAgree(events: seq<Event>, e: EmployeeId)
    requires forall k :: 0 <= k < |events| && events[k].AddEmployee? ==> InStep(events[k].row)
    requires e in Run(events).db.employees
    ensures IsActive(Run(events).db, e) <==> IsEnabled(Run(events).db, e)
    ensures InStep(Run(events).db.employees[e])
  {
    var n := |events| - 1;
    if e in Run(events[..n]).db.employees {
      StatusAndDeletionAgree(events[..n], e);
    }
  }

  /** Authenticate accepts exactly the hashes of rows that are unrevoked, unexpired and owned by an
      employee who is ENABLED in the very state that was read; it then names that row's employee. */
  lemma AcceptsIff(db: Db, hash: string, now: Time, id: TokenId)
    requires Consistent(db)
    ensures
      Verdict(db, hash, now).Principal? && Verdict(db, hash, now).token == id
      <==>
      && Finds(db, hash, id) && db.tokens[id].revokedAt == None && now < db.tokens[id].expiresAt
      && IsEnabled(db, db.tokens[id].employee)
    ensures
      Verdict(db, hash, now).Principal? && Verdict(db, hash, now).token == id
      ==> Verdict(db, hash, now).employee == db.tokens[id].employee
  {
    if Finds(db, hash, id) {
      FoundIs(db, hash, now, id);
    }
  }

  /** With unique hashes the lookup has one answer. */
  lemma FoundIs(db: Db, hash: string, now: Time, id: TokenId)
    requires Consistent(db) && Finds(db, hash, id)
    ensures Verdict(db, hash, now) == Judge(db, id, now)
  {
    forall i | Finds(db, hash, i) ensures i == id {}
  }

  /** The reason of each answer, in the order in which the reasons are looked for; and the principal
      carries the role of the employee. */
  lemma AnswersAre(db: Db, hash: string, now: Time, id: TokenId)
    requires Consistent(db)
    ensures Verdict(db, hash, now) == TokenInvalid <==> forall i :: !Finds(db, hash, i)
    ensures Finds(db, hash, id) ==>
      var t := db.tokens[id];
      var v, owner := Verdict(db, hash, now), db.employees[t.employee];
      && (v == TokenRevoked <==> t.revokedAt != None)
      && (v == TokenExpired <==> t.revokedAt == None && t.expiresAt <= now)
      && (v == EmployeeDisabled <==> t.revokedAt == None && now < t.expiresAt && owner.status == Disabled)
      && (v.Principal? ==> v == Principal(t.employee, id, owner.role))
  {
    if i :| Finds(db, hash, i) {
      FoundIs(db, hash, now, i);
    }
  }

  /** What the statements write: a disable stamps the row and an enable clears the stamp, each only when
      the status changes; a touch stamps the token; every other column and row stays, tokens revoked by
      a disable aside. */
  lemma WhatIsWritten(s: Sys, e: EmployeeId, status: EmployeeStatus, id: TokenId, now: Time)
    requires e in s.db.employees && id in s.db.tokens
    ensures
      var was, db := s.db.employees[e], Next(s, SetStatus(e, status, now)).db;
      db.employees
      == s.db.employees[e :=
           if was.status == status then was
           else Employee(was.email, was.passwordHash, was.role, status, if status == Disabled then Some(now) else None)]
    ensures
      var t := s.db.tokens[id];
      Next(s, Touch(id, now)).db
      == s.db.(tokens := s.db.tokens[id :=
           Token(t.employee, t.hash, t.expiresAt, t.revokedAt, t.revokedReason, Some(now))])
  {
    assert s.db.employees[e := s.db.employees[e]] == s.db.employees;
  }

  // ---------------------------------------------------------------- what never changes

  lemma NextKeepsRows(s: Sys, ev: Event, id: TokenId)
    requires id in s.db.tokens
    ensures id in Next(s, ev).db.tokens && RowKept(s.db.tokens[id], Next(s, ev).db.tokens[id])
  {}

  lemma StepKeepsRows(events: seq<Event>, k: nat, id: TokenId)
    requires k < |events| && id in Run(events[..k]).db.tokens
    ensures id in Run(events[..k + 1]).db.tokens
    ensures RowKept(Run(events[..k]).db.tokens[id], Run(events[..k + 1]).db.tokens[id])
  {
    RunStep(events, k);
    NextKeepsRows(Run(events[..k]), events[k], id);
  }

  lemma {:induction false} RevocationIsFinal(events: seq<Event>, i: nat, j: nat, id: TokenId)
    requires i <= j <= |events| && id in Run(events[..i]).db.tokens
    ensures id in Run(events[..j]).db.tokens
    ensures RowKept(Run(events[..i]).db.tokens[id], Run(events[..j]).db.tokens[id])
    decreases j - i
  {
    if i < j {
      StepKeepsRows(events, i, id);
      RevocationIsFinal(events, i + 1, j, id);
    }
  }

  /** Every revocation in a run has its cause, one event that found the row unrevoked: a logout of
      this token, or a disable of its enabled owner; it gave the row its time and its reason. */
  lemma {:induction false} RevocationHasItsCause(events: seq<Event>, id: TokenId) returns (k: nat)
    requires id in Run(events).db.tokens && Run(events).db.tokens[id].revokedAt.Some?
    ensures k < |events| && id in Run(events[..k]).db.tokens && Run(events[..k]).db.tokens[id].revokedAt == None
    ensures
      var t, before := Run(events).db.tokens[id], Run(events[..k]).db;
      var at := t.revokedAt.value;
      || (events[k] == Event.Logout(id, at) && t.revokedReason == "user logout")
      || (&& events[k] == SetStatus(t.employee, Disabled, at) && IsEnabled(before, t.employee)
          && t.revokedReason == "employee disabled")
  {
    var n := |events| - 1;
    var before := Run(events[..n]);
    assert Run(events) == Next(before, events[n]);
    RunsAreConsistent(events[..n]);
    if id in before.db.tokens && before.db.tokens[id].revokedAt.Some? {
      NextKeepsRows(before, events[n], id);
      k := RevocationHasItsCause(events[..n], id);
      assert events[..n][..k] == events[..k];
    } else {
      k := n;
      RevokedNow(before, events[n], id);
    }
  }

  lemma RevokedNow(s: Sys, ev: Event, id: TokenId)
    requires Consistent(s.db) && id in Next(s, ev).db.tokens && Next(s, ev).db.tokens[id].revokedAt.Some?
    requires id in s.db.tokens ==> s.db.tokens[id].revokedAt == None
    ensures id in s.db.tokens
    ensures
      var t := Next(s, ev).db.tokens[id];
      var at := t.revokedAt.value;
      || (ev == Event.Logout(id, at) && t.revokedReason == "user logout")
      || (ev == SetStatus(t.employee, Disabled, at) && IsEnabled(s.db, t.employee)
          && t.revokedReason == "employee disabled")
  {}

  /** A token rejected as revoked is rejected as revoked in every later state of every run and at
      any clock reading; one rejected as expired is rejected at every later reading.  Re-enabling
      the employee in between changes nothing. */
  lemma RejectionIsFinal(events: seq<Event>, i: nat, j: nat, hash: string, now: Time, later: Time)
    requires i <= j <= |events|
    ensures Verdict(Run(events[..i]).db, hash, now) == TokenRevoked
            ==> Verdict(Run(events[..j]).db, hash, later) == TokenRevoked
    ensures Verdict(Run(events[..i]).db, hash, now) == TokenExpired && now <= later
            ==> Verdict(Run(events[..j]).db, hash, later) in {TokenRevoked, TokenExpired}
  {
    var before, after := Run(events[..i]).db, Run(events[..j]).db;
    RunsAreConsistent(events[..i]);
    RunsAreConsistent(events[..j]);
    if id :| Finds(before, hash, id) {
      FoundIs(before, hash, now, id);
      RevocationIsFinal(events, i, j, id);
      FoundIs(after, hash, later, id);
    }
  }

  // ---------------------------------------------------------------- the life of one token

  /** Event k stored token id for e: as a login at one stroke, or as the insert of a login that had
      read the employee before. */
  ghost predicate StoredAt(events: seq<Event>, k: nat, e: EmployeeId, id: TokenId, hash: string, expiresAt: Time) {
    && k < |events| && Stores(Run(events[..k]), events[k], e, id, hash, expiresAt)
  }

  predicate Stores(s: Sys, ev: Event, e: EmployeeId, id: TokenId, hash: string, expiresAt: Time) {
    && Insertable(s.db, id, e, hash)
    && ((ev == LoginAtOnce(e, id, hash, expiresAt) && IsActive(s.db, e))
        || (ev.LoginInsert? && ev == LoginInsert(ev.session, id, hash, expiresAt)
            && ev.session in s.pending && s.pending[ev.session] == e))
  }

  /** In state s the event ends the session id of employee e: a logout, or a disable that takes e
      from enabled to disabled. */
  predicate Ends(s: Sys, ev: Event, e: EmployeeId, id: TokenId) {
    (ev.Logout? && ev.id == id) || (ev.SetStatus? && ev.e == e && ev.status == Disabled && IsEnabled(s.db, e))
  }

  /** Nothing at positions from .. to - 1 ended the session. */
  predicate Undisturbed(events: seq<Event>, from: nat, to: nat, e: EmployeeId, id: TokenId) {
    forall k :: from <= k < to && k < |events| ==> !Ends(Run(events[..k]), events[k], e, id)
  }

  /** What one event does to a stored token of employee e. */
  lemma NextOnSession(s: Sys, ev: Event, e: EmployeeId, id: TokenId)
    requires id in s.db.tokens && s.db.tokens[id].employee == e && e in s.db.employees
    ensures
      var db' := Next(s, ev).db;
      && id in db'.tokens && RowKept(s.db.tokens[id], db'.tokens[id]) && e in db'.employees
      && (db'.tokens[id].revokedAt == None <==> s.db.tokens[id].revokedAt == None && !Ends(s, ev, e, id))
      && (IsEnabled(s.db, e) && IsDisabled(db', e) ==> Ends(s, ev, e, id))
  {}

  /** A stored token of e, unrevoked or not. */
  ghost predicate Held(db: Db, e: EmployeeId, id: TokenId, hash: string, expiresAt: Time, unrevoked: bool) {
    && Finds(db, hash, id) && db.tokens[id].employee == e && db.tokens[id].expiresAt == expiresAt
    && (unrevoked <==> db.tokens[id].revokedAt == None)
  }

  lemma HeldStep(s: Sys, ev: Event, e: EmployeeId, id: TokenId, hash: string, expiresAt: Time, unrevoked: bool)
    requires Held(s.db, e, id, hash, expiresAt, unrevoked)
    ensures Held(Next(s, ev).db, e, id, hash, expiresAt, unrevoked && !Ends(s, ev, e, id))
  {
    NextOnSession(s, ev, e, id);
  }

  lemma StoredIsHeld(s: Sys, ev: Event, e: EmployeeId, id: TokenId, hash: string, expiresAt: Time)
    requires Stores(s, ev, e, id, hash, expiresAt)
    ensures Held(Next(s, ev).db, e, id, hash, expiresAt, true)
    ensures Next(s, ev).db.employees == s.db.employees
  {}

  /** From its insert on a token is unrevoked exactly as long as nothing has ended its session. */
  lemma {:induction false} UnrevokedWhile(
    events: seq<Event>, k: nat, j: nat, e: EmployeeId, id: TokenId, hash: string, expiresAt: Time)
    requires StoredAt(events, k, e, id, hash, expiresAt) && k < j <= |events|
    ensures Held(Run(events[..j]).db, e, id, hash, expiresAt, Undisturbed(events, k + 1, j, e, id))
    decreases j
  {
    RunStep(events, j - 1);
    if k + 1 < j {
      UnrevokedWhile(events, k, j - 1, e, id, hash, expiresAt);
      HeldStep(Run(events[..j - 1]), events[j - 1], e, id, hash, expiresAt, Undisturbed(events, k + 1, j - 1, e, id));
      UndisturbedSnoc(events, k + 1, j - 1, e, id);
    } else {
      StoredIsHeld(Run(events[..k]), events[k], e, id, hash, expiresAt);
    }
  }

  lemma UndisturbedSnoc(events: seq<Event>, from: nat, to: nat, e: EmployeeId, id: TokenId)
    requires from <= to < |events|
    ensures Undisturbed(events, from, to + 1, e, id)
            <==> Undisturbed(events, from, to, e, id) && !Ends(Run(events[..to]), events[to], e, id)
  {}

  /** Every token of every run, however its login was interleaved with other events: it is accepted
      exactly while it has not expired, its employee is enabled, and since its insert there was no
      logout and no disable that took the employee from enabled to disabled. */
  lemma TokenAcceptedIff(
    events: seq<Event>, k: nat, j: nat, e: EmployeeId, id: TokenId, hash: string, expiresAt: Time, now: Time)
    requires StoredAt(events, k, e, id, hash, expiresAt) && k < j <= |events|
    ensures
      Verdict(Run(events[..j]).db, hash, now).Principal?
      <==> now < expiresAt && IsEnabled(Run(events[..j]).db, e) && Undisturbed(events, k + 1, j, e, id)
    ensures
      var verdict := Verdict(Run(events[..j]).db, hash, now);
      verdict.Principal? ==> verdict.employee == e && verdict.token == id
  {
    UnrevokedWhile(events, k, j, e, id, hash, expiresAt);
    RunsAreConsistent(events[..j]);
    FoundIs(Run(events[..j]).db, hash, now, id);
  }

  /** Once enabled, an employee is disabled only by a disable that ends its sessions. */
  lemma {:induction false} EnabledUntilDisabled(events: seq<Event>, i: nat, j: nat, e: EmployeeId, id: TokenId)
    requires i <= j <= |events| && IsEnabled(Run(events[..i]).db, e) && Undisturbed(events, i, j, e, id)
    ensures IsEnabled(Run(events[..j]).db, e)
    decreases j
  {
    if i < j {
      UndisturbedSnoc(events, i, j - 1, e, id);
      EnabledUntilDisabled(events, i, j - 1, e, id);
      EnabledStep(events, j - 1, e, id);
    }
  }

  lemma EnabledStep(events: seq<Event>, k: nat, e: EmployeeId, id: TokenId)
    requires k < |events| && IsEnabled(Run(events[..k]).db, e) && !Ends(Run(events[..k]), events[k], e, id)
    ensures IsEnabled(Run(events[..k + 1]).db, e)
  {
    RunStep(events, k);
  }

  /** No logout of id, and no attempt to disable e, at positions from .. to - 1. */
  predicate LeftAlone(events: seq<Event>, from: nat, to: nat, e: EmployeeId, id: TokenId) {
    forall k :: from <= k < to && k < |events| ==>
      && !(events[k].Logout? && events[k].id == id)
      && !(events[k].SetStatus? && events[k].e == e && events[k].status == Disabled)
  }

  /** For an employee enabled at position i, any later attempt to disable it means that by then some
      event has ended the session. */
  lemma DisableDisturbs(events: seq<Event>, i: nat, m: nat, j: nat, e: EmployeeId, id: TokenId)
    requires i <= m < j <= |events| && IsEnabled(Run(events[..i]).db, e)
    requires events[m].SetStatus? && events[m].e == e && events[m].status == Disabled
    ensures !Undisturbed(events, i, j, e, id)
  {
    if Undisturbed(events, i, m, e, id) {
      EnabledUntilDisabled(events, i, m, e, id);
      assert Ends(Run(events[..m]), events[m], e, id);
    }
  }

  /** When the employee was enabled at the insert, as in a login at one stroke, the token lives
      exactly until it expires, is logged out or its employee is disabled, whatever comes later. */
  lemma TokenLivesUntilEnded(
    events: seq<Event>, k: nat, j: nat, e: EmployeeId, id: TokenId, hash: string, expiresAt: Time, now: Time)
    requires StoredAt(events, k, e, id, hash, expiresAt) && k < j <= |events| && IsEnabled(Run(events[..k]).db, e)
    ensures
      Verdict(Run(events[..j]).db, hash, now).Principal? <==> now < expiresAt && LeftAlone(events, k + 1, j, e, id)
  {
    TokenAcceptedIff(events, k, j, e, id, hash, expiresAt, now);
    RunStep(events, k);
    StoredIsHeld(Run(events[..k]), events[k], e, id, hash, expiresAt);
    if LeftAlone(events, k + 1, j, e, id) {
      assert Undisturbed(events, k + 1, j, e, id);
      EnabledUntilDisabled(events, k + 1, j, e, id);
    }
    if m :| k + 1 <= m < j && events[m].SetStatus? && events[m].e == e && events[m].status == Disabled {
      DisableDisturbs(events, k + 1, m, j, e, id);
    }
  }

  // ---------------------------------------------------------------- logins that are atomic

  predicate Atomic(events: seq<Event>) {
    forall k :: 0 <= k < |events| ==> !events[k].LoginRead? && !events[k].LoginInsert?
  }

  /** No disabled employee holds an unrevoked token. */
  ghost predicate NoLiveTokenOfDisabled(db: Db) {
    forall id :: id in db.tokens && IsDisabled(db, db.tokens[id].employee) ==> db.tokens[id].revokedAt != None
  }

  lemma {:induction false} AtomicRunsRevoke(events: seq<Event>)
    requires Atomic(events)
    ensures NoLiveTokenOfDisabled(Run(events).db)
  {
    if events != [] {
      var n := |events| - 1;
      AtomicRunsRevoke(events[..n]);
      RunsAreConsistent(events[..n]);
      assert !events[n].LoginRead? && !events[n].LoginInsert?;
    }
  }

  /** Hence Authenticate's last check never decides anything in such runs. */
  lemma DisabledBranchUnreachable(events: seq<Event>, hash: string, now: Time)
    requires Atomic(events)
    ensures Verdict(Run(events).db, hash, now) != EmployeeDisabled
  {
    AtomicRunsRevoke(events);
  }

  // ---------------------------------------------------------------- logins that interleave

  /** At position i the session read e and found it active. */
  predicate ReadAt(events: seq<Event>, i: nat, session: SessionId, e: EmployeeId) {
    i < |events| && events[i] == LoginRead(session, e) && IsActive(Run(events[..i]).db, e)
  }

  /** At position k the session, which had read e, stored token id. */
  ghost predicate InsertedAt(events: seq<Event>, k: nat, session: SessionId, e: EmployeeId, id: TokenId) {
    && k < |events| && events[k].LoginInsert? && events[k].session == session
    && StoredAt(events, k, e, id, events[k].hash, events[k].expiresAt)
  }

  /** Position j is the latest disable of e: it took e from enabled to disabled, and e has been
      disabled ever since. */
  ghost predicate LatestDisable(events: seq<Event>, j: nat, e: EmployeeId) {
    && j < |events| && events[j].SetStatus? && events[j].e == e && events[j].status == Disabled
    && IsEnabled(Run(events[..j]).db, e)
    && forall m: nat :: j < m <= |events| ==> IsDisabled(Run(events[..m]).db, e)
  }

  predicate LoggedOutAfter(events: seq<Event>, k: nat, id: TokenId) {
    exists m :: k < m < |events| && events[m].Logout? && events[m].id == id
  }

  /** The session read the employee before the latest disable, stored its token after it, and nobody
      has logged that token out. */
  ghost predicate Straddles(
    events: seq<Event>, e: EmployeeId, id: TokenId, i: nat, j: nat, k: nat, session: SessionId)
  {
    && i < j < k && ReadAt(events, i, session, e) && LatestDisable(events, j, e)
    && InsertedAt(events, k, session, e, id)
    && !LoggedOutAfter(events, k, id)
  }

  lemma LaterEvents(events: seq<Event>, ev: Event)
    ensures forall m: nat :: m <= |events| ==> (events + [ev])[..m] == events[..m]
  {}

  lemma StillRead(events: seq<Event>, ev: Event, i: nat, session: SessionId, e: EmployeeId)
    requires ReadAt(events, i, session, e)
    ensures ReadAt(events + [ev], i, session, e)
  {
    LaterEvents(events, ev);
  }

  lemma StillLatest(events: seq<Event>, ev: Event, j: nat, e: EmployeeId)
    requires LatestDisable(events, j, e) && IsDisabled(Run(events + [ev]).db, e)
    ensures LatestDisable(events + [ev], j, e)
  {
    var all := events + [ev];
    LaterEvents(events, ev);
    forall m: nat | j < m <= |all| ensures IsDisabled(Run(all[..m]).db, e) {
      if m == |all| {
        assert all[..m] == all;
      } else {
        assert all[..m] == events[..m];
      }
    }
  }

  /** Every pending login read its employee enabled at some earlier position. */
  lemma {:induction false} PendingWasRead(events: seq<Event>, session: SessionId) returns (i: nat)
    requires session in Run(events).pending
    ensures ReadAt(events, i, session, Run(events).pending[session])
  {
    var n := |events| - 1;
    var ev, before := events[n], events[..n];
    assert events == before + [ev];
    if ev.LoginRead? && ev.session == session && IsActive(Run(before).db, ev.e) {
      i := n;
    } else {
      i := PendingWasRead(before, session);
      StillRead(before, ev, i, session, Run(before).pending[session]);
    }
  }

  /** An employee enabled at position i and disabled at the end was disabled in between. */
  lemma {:induction false} WasDisabled(events: seq<Event>, i: nat, e: EmployeeId) returns (j: nat)
    requires i <= |events| && IsEnabled(Run(events[..i]).db, e) && IsDisabled(Run(events).db, e)
    ensures i <= j && LatestDisable(events, j, e)
  {
    assert events[..|events|] == events;
    var n := |events| - 1;
    var ev, before := events[n], events[..n];
    assert events == before + [ev] && before[..i] == events[..i];
    if IsDisabled(Run(before).db, e) {
      j := WasDisabled(before, i, e);
      StillLatest(before, ev, j, e);
    } else {
      j := n;
      StillThere(events, i, n, e);
      assert forall m: nat :: j < m <= |events| ==> events[..m] == events;
    }
  }

  lemma StepKeepsEmployees(events: seq<Event>, k: nat, e: EmployeeId)
    requires k < |events| && e in Run(events[..k]).db.employees
    ensures e in Run(events[..k + 1]).db.employees
  {
    RunStep(events, k);
  }

  lemma {:induction false} StillThere(events: seq<Event>, i: nat, j: nat, e: EmployeeId)
    requires i <= j <= |events| && e in Run(events[..i]).db.employees
    ensures e in Run(events[..j]).db.employees
    decreases j - i
  {
    if i < j {
      StepKeepsEmployees(events, i, e);
      StillThere(events, i + 1, j, e);
    }
  }

  /** Only a login adds a token. */
  lemma NewTokenIs(s: Sys, ev: Event, id: TokenId)
    requires id !in s.db.tokens && id in Next(s, ev).db.tokens
    ensures var t := Next(s, ev).db.tokens[id]; Stores(s, ev, t.employee, id, t.hash, t.expiresAt)
  {}

  /** Every token was stored at some position. */
  lemma {:induction false} WasStored(events: seq<Event>, j: nat, id: TokenId) returns (k: nat)
    requires j <= |events| && id in Run(events[..j]).db.tokens
    ensures k < j
    ensures
      var t := Run(events[..j]).db.tokens[id];
      StoredAt(events, k, t.employee, id, t.hash, t.expiresAt)
    decreases j
  {
    RunStep(events, j - 1);
    if id in Run(events[..j - 1]).db.tokens {
      k := WasStored(events, j - 1, id);
      StepKeepsRows(events, j - 1, id);
    } else {
      k := j - 1;
      NewTokenIs(Run(events[..k]), events[k], id);
    }
  }

  /** A read seen from a longer run. */
  lemma ReadInPrefix(events: seq<Event>, k: nat, i: nat, session: SessionId, e: EmployeeId)
    requires k <= |events| && ReadAt(events[..k], i, session, e)
    ensures ReadAt(events, i, session, e) && i < k
  {
    assert events[..k][..i] == events[..i];
  }

  /** No disabled employee's token is unrevoked but for a login that straddles the latest disable. */
  lemma OnlyStraddlingLoginsSurvive(events: seq<Event>, id: TokenId)
    returns (i: nat, j: nat, k: nat, session: SessionId)
    requires id in Run(events).db.tokens && Run(events).db.tokens[id].revokedAt == None
    requires IsDisabled(Run(events).db, Run(events).db.tokens[id].employee)
    ensures Straddles(events, Run(events).db.tokens[id].employee, id, i, j, k, session)
  {
    var n := |events|;
    assert events[..n] == events;
    var t := Run(events).db.tokens[id];
    var e := t.employee;
    k := WasStored(events, n, id);
    UnrevokedWhile(events, k, n, e, id, t.hash, t.expiresAt);
    assert Undisturbed(events, k + 1, n, e, id);
    RunStep(events, k);
    StoredIsHeld(Run(events[..k]), events[k], e, id, t.hash, t.expiresAt);
    NotEnabledAt(events, k + 1, e, id);
    session := events[k].session;
    i := PendingWasRead(events[..k], session);
    ReadInPrefix(events, k, i, session, e);
    j := WasDisabled(events, i, e);
    assert j <= k || Ends(Run(events[..j]), events[j], e, id);
    forall m | k < m < n ensures !(events[m].Logout? && events[m].id == id) {
      assert !Ends(Run(events[..m]), events[m], e, id);
    }
  }

  /** Disabled at the end and never disturbed since position i: not enabled at i. */
  lemma NotEnabledAt(events: seq<Event>, i: nat, e: EmployeeId, id: TokenId)
    requires i <= |events| && IsDisabled(Run(events).db, e) && Undisturbed(events, i, |events|, e, id)
    ensures !IsEnabled(Run(events[..i]).db, e)
  {
    assert events[..|events|] == events;
    if IsEnabled(Run(events[..i]).db, e) {
      EnabledUntilDisabled(events, i, |events|, e, id);
    }
  }

  /** Conversely, such a login does leave a live token. */
  lemma StraddlingLoginsSurvive(
    events: seq<Event>, e: EmployeeId, id: TokenId, i: nat, j: nat, k: nat, session: SessionId)
    requires Straddles(events, e, id, i, j, k, session)
    ensures LiveTokenOfDisabled(Run(events).db, e, id)
  {
    var n := |events|;
    assert events[..n] == events;
    UnrevokedWhile(events, k, n, e, id, events[k].hash, events[k].expiresAt);
    forall m | k + 1 <= m < n ensures !Ends(Run(events[..m]), events[m], e, id) {
      assert IsDisabled(Run(events[..m]).db, e);
    }
    assert IsDisabled(Run(events[..n]).db, e);
  }

  predicate LiveTokenOfDisabled(db: Db, e: EmployeeId, id: TokenId) {
    IsDisabled(db, e) && id in db.tokens && db.tokens[id].employee == e && db.tokens[id].revokedAt == None
  }

  /** In any run at all, a disabled employee holds an unrevoked token if and only if some login read
      the employee before the latest disable, stored the token after it, and the token was not
      logged out since. */
  lemma LiveTokenOfDisabledIff(events: seq<Event>, e: EmployeeId, id: TokenId)
    ensures
      LiveTokenOfDisabled(Run(events).db, e, id)
      <==> exists i, j, k, session :: Straddles(events, e, id, i, j, k, session)
  {
    if LiveTokenOfDisabled(Run(events).db, e, id) {
      var i, j, k, session := OnlyStraddlingLoginsSurvive(events, id);
    }
    if i, j, k, session :| Straddles(events, e, id, i, j, k, session) {
      StraddlingLoginsSurvive(events, e, id, i, j, k, session);
    }
  }

  /** The race is real, and re-enabling the employee revives its token: read, disable, insert. */
  function RacingRun(row: Employee, hash: string, expiresAt: Time): seq<Event> {
    [AddEmployee(1, row), LoginRead(7, 1), SetStatus(1, Disabled, 0), LoginInsert(7, 1, hash, expiresAt)]
  }

  lemma RaceEnds(row: Employee, hash: string, expiresAt: Time)
    requires row.status == Enabled && row.deletedAt == None
    ensures
      Run(RacingRun(row, hash, expiresAt)).db
      == Db(map[1 := row.(status := Disabled, deletedAt := Some(0))],
            map[1 := Token(1, hash, expiresAt, None, "", None)])
  {
    var run := RacingRun(row, hash, expiresAt);
    RunStep(run, 0);
    RunStep(run, 1);
    RunStep(run, 2);
    RunStep(run, 3);
    assert run[..0] == [] && run[..4] == run;
    assert Run(run[..1]).db == Db(map[1 := row], map[]);
    assert Run(run[..2]) == Sys(Db(map[1 := row], map[]), map[7 := 1]);
    assert Run(run[..3]).db == Db(map[1 := row.(status := Disabled, deletedAt := Some(0))], map[]);
  }

  lemma RaceLeavesLiveToken(row: Employee, hash: string, expiresAt: Time, now: Time)
    requires row.status == Enabled && row.deletedAt == None && now < expiresAt
    ensures
      var run := RacingRun(row, hash, expiresAt);
      && !NoLiveTokenOfDisabled(Run(run).db)
      && Verdict(Run(run).db, hash, now) == EmployeeDisabled
      && Verdict(Run(run + [SetStatus(1, Enabled, 0)]).db, hash, now) == Principal(1, 1, row.role)
  {
    var run := RacingRun(row, hash, expiresAt);
    var more := run + [SetStatus(1, Enabled, 0)];
    RaceEnds(row, hash, expiresAt);
    assert more[..4] == run && more[..5] == more;
    RunStep(more, 4);
    RunsAreConsistent(run);
    RunsAreConsistent(more);
    FoundIs(Run(run).db, hash, now, 1);
    FoundIs(Run(more).db, hash, now, 1);
  }

  // ---------------------------------------------------------------- the service

  /** The two tables, changed in place by SQL statements. */
  class Database {
    var employees: map<EmployeeId, Employee>
    var tokens: map<TokenId, Token>

    ghost function View(): Db
      reads this
    {
      Db(employees, tokens)
    }

    constructor ()
      ensures View() == Db(map[], map[])
    {
      employees, tokens := map[], map[];
    }

    /** UPDATE employees SET status: the BEFORE trigger edits the row, the AFTER trigger revokes. */
    method UpdateStatus(e: EmployeeId, status: EmployeeStatus, now: Time)
      modifies this
      ensures View() == StatusUpdated(old(View()), e, status, now)
    {
      if e !in employees {
        return;
      }
      var was, row := employees[e].status, employees[e].(status := status);
      if status == Disabled && was != Disabled {
        row := row.(deletedAt := Some(now));
      } else if status == Enabled && was != Enabled {
        row := row.(deletedAt := None);
      }
      employees := employees[e := row];
      if status == Disabled && was != Disabled {
        tokens := map id | id in tokens ::
          if tokens[id].employee == e && tokens[id].revokedAt == None
          then tokens[id].(revokedAt := Some(now), revokedReason := EMPLOYEE_DISABLED) else tokens[id];
      }
    }

    method InsertToken(id: TokenId, e: EmployeeId, hash: string, expiresAt: Time) returns (ok: bool)
      modifies this`tokens
      ensures View() == TokenInserted(old(View()), id, e, hash, expiresAt)
      ensures ok <==> Insertable(old(View()), id, e, hash)
    {
      ok := id !in tokens && e in employees && forall i :: i in tokens ==> tokens[i].hash != hash;
      if ok {
        tokens := tokens[id := Token(e, hash, expiresAt, None, "", None)];
      }
    }

    method Revoke(id: TokenId, reason: string, now: Time)
      modifies this`tokens
      ensures View() == Revoked(old(View()), id, reason, now)
    {
      if id in tokens && tokens[id].revokedAt == None {
        tokens := tokens[id := tokens[id].(revokedAt := Some(now), revokedReason := reason)];
      }
    }

    method TouchLastUsed(id: TokenId, now: Time)
      modifies this`tokens
      ensures View() == Touched(old(View()), id, now)
    {
      if id in tokens {
        tokens := tokens[id := tokens[id].(lastUsedAt := Some(now))];
      }
    }
  }

  /** NotLoggedIn is any error other than ErrInvalidCredentials. */
  datatype LoginResult = LoggedIn(employee: EmployeeId, expiresAt: Time) | InvalidCredentials | NotLoggedIn

  /** Where the database, the hasher or the generator may fail for reasons of their own. */
  datatype LoginFault = ReadFails | VerifyFails | GenerateFails | InsertFails

  /** What Authenticate answers: a verdict on a stored token, or why there is none. */
  datatype AuthReply = Decided(verdict: AuthResult) | Unauthenticated | ReadFailed

  predicate HasEmail(db: Db, email: string, e: EmployeeId) { e in db.employees && db.employees[e].email == email }

  /** The employee with this e-mail may log in with this password. */
  ghost predicate MayLogIn(db: Db, verify: (string, string) -> bool, email: string, password: string, e: EmployeeId) {
    HasEmail(db, email, e) && verify(password, db.employees[e].passwordHash) && IsActive(db, e)
  }

  class AuthService {
    const db: Database
    const tokenTTL: nat
    const verify: (string, string) -> bool
    const hashToken: string -> string

    constructor (db: Database, tokenTTL: nat, verify: (string, string) -> bool, hashToken: string -> string)
      ensures this.db == db && this.tokenTTL == tokenTTL && this.verify == verify && this.hashToken == hashToken
    {
      this.db, this.tokenTTL, this.verify, this.hashToken := db, tokenTTL, verify, hashToken;
    }

    /** Login with nothing in between its read and its insert; email is already normalised, raw is
        the generated token and id the generated key. */
    method Login(email: string, password: string, id: TokenId, raw: string, now: Time, fault: Option<LoginFault>)
      returns (r: LoginResult)
      requires Consistent(db.View())
      modifies db
      ensures r == InvalidCredentials <==>
        || email == "" || password == ""
        || (&& fault != Some(ReadFails)
            && forall e :: HasEmail(old(db.View()), email, e) ==>
                 fault != Some(VerifyFails) && !MayLogIn(old(db.View()), verify, email, password, e))
      ensures r.LoggedIn? <==>
        && email != "" && password != "" && fault == None
        && exists e ::
             MayLogIn(old(db.View()), verify, email, password, e) && Insertable(old(db.View()), id, e, hashToken(raw))
      ensures r.LoggedIn? ==>
        && MayLogIn(old(db.View()), verify, email, password, r.employee) && r.expiresAt == now + tokenTTL
        && Stores(Sys(old(db.View()), map[]), LoginAtOnce(r.employee, id, hashToken(raw), r.expiresAt),
                  r.employee, id, hashToken(raw), r.expiresAt)
        && Sys(db.View(), map[])
           == Next(Sys(old(db.View()), map[]), LoginAtOnce(r.employee, id, hashToken(raw), r.expiresAt))
      ensures !r.LoggedIn? ==> db.View() == old(db.View())
    {
      if email == "" || password == "" {
        return InvalidCredentials;
      }
      if fault == Some(ReadFails) {
        return NotLoggedIn;
      }
      if emp :| emp in db.employees && db.employees[emp].email == email {
        assert HasEmail(db.View(), email, emp);
        assert forall e :: HasEmail(db.View(), email, e) ==> e == emp;
        if fault == Some(VerifyFails) {
          return NotLoggedIn;
        }
        if !verify(password, db.employees[emp].passwordHash) {
          return InvalidCredentials;
        }
        if !(db.employees[emp].status == Enabled && db.employees[emp].deletedAt == None) {
          return InvalidCredentials;
        }
        assert MayLogIn(db.View(), verify, email, password, emp);
        if fault == Some(GenerateFails) || fault == Some(InsertFails) {
          return NotLoggedIn;
        }
        assert fault == None by {
          if fault.Some? {
            match fault.value {
              case ReadFails =>
              case VerifyFails =>
              case GenerateFails =>
              case InsertFails =>
            }
          }
        }
        var ok := db.InsertToken(id, emp, hashToken(raw), now + tokenTTL);
        if !ok {
          return NotLoggedIn;
        }
        return LoggedIn(emp, now + tokenTTL);
      } else {
        return InvalidCredentials;
      }
    }

    /** readFails: the lookup failed for reasons of its own.  touched: the best-effort update of
        last_used_at, which runs on its own and may fail, has been done; done later, it is a Touch. */
    method Authenticate(rawToken: string, now: Time, readFails: bool, touched: bool) returns (r: AuthReply)
      requires Consistent(db.View())
      modifies db
      ensures r == Unauthenticated <==> Trim(rawToken) == ""
      ensures r == ReadFailed <==> Trim(rawToken) != "" && readFails
      ensures r.Decided? ==> r.verdict == Verdict(old(db.View()), hashToken(Trim(rawToken)), now)
      ensures
        if r.Decided? && r.verdict.Principal? && touched
        then Sys(db.View(), map[]) == Next(Sys(old(db.View()), map[]), Touch(r.verdict.token, now))
        else db.View() == old(db.View())
    {
      var raw := Trim(rawToken);
      if raw == "" {
        return Unauthenticated;
      }
      if readFails {
        return ReadFailed;
      }
      var hash := hashToken(raw);
      if id :| id in db.tokens && db.tokens[id].hash == hash {
        assert Finds(db.View(), hash, id);
        FoundIs(db.View(), hash, now, id);
        var row := db.tokens[id];
        if row.revokedAt != None {
          return Decided(TokenRevoked);
        }
        if !(now < row.expiresAt) {
          return Decided(TokenExpired);
        }
        if db.employees[row.employee].status != Enabled {
          return Decided(EmployeeDisabled);
        }
        r := Decided(Principal(row.employee, id, db.employees[row.employee].role));
        if touched {
          db.TouchLastUsed(id, now);
        }
      } else {
        return Decided(TokenInvalid);
      }
    }

    method Logout(id: TokenId, now: Time)
      modifies db
      ensures Sys(db.View(), map[]) == Next(Sys(old(db.View()), map[]), Event.Logout(id, now))
    {
      db.Revoke(id, USER_LOGOUT, now);
    }
  }
}
