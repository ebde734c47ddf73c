/** The registries table: create, update, soft delete and connection checks.

    A statement that breaks a constraint fails, and a failed statement ends its transaction with a
    rollback.  Unique names are checked over all rows, deleted ones included; the partial index
    idx_registries_single_default over the live default rows.  A transaction may also fail at any
    of its stages for reasons of its own. */
module Registries {
  import opened Text

  type Id = nat
  type Time = int

  /** Columns that the operations only copy. */
  datatype Info = Info(
    kind: string, url: string, username: string, password: string, email: string, namespace: string, insecure: bool)

  datatype Row = Row(
    name: string, info: Info, isDefault: bool, isActive: bool,
    lastCheckedAt: Option<Time>, lastStatus: string, lastError: string, deletedAt: Option<Time>)

  type Table = map<Id, Row>

  datatype Error = DuplicateKey | DuplicateName | SecondDefault | NotFound | Broken

  /** The stages of a transaction. */
  datatype Stage = Begin | Clear | Write | Commit

  datatype Op =
    | Create(id: Id, name: string, info: Info, isDefault: bool, isActive: bool, fault: Option<Stage>)
    | Update(id: Id, name: string, info: Info, isDefault: bool, isActive: bool, fault: Option<Stage>)
    | SoftDelete(id: Id, now: Time, fails: bool)
    | SetConnection(id: Id, status: string, message: string, now: Time, setActive: Option<bool>)

  // ---------------------------------------------------------------- statements

  predicate Live(t: Table, id: Id) { id in t && t[id].deletedAt == None }

  predicate LiveDefault(t: Table, id: Id) { Live(t, id) && t[id].isDefault }

  function LiveDefaults(t: Table): set<Id> { set id | id in t && LiveDefault(t, id) }

  predicate NameTaken(t: Table, name: string, except: Option<Id>) {
    exists id :: id in t && Some(id) != except && t[id].name == name
  }

  predicate DefaultTaken(t: Table, except: Option<Id>) {
    exists id :: id in t && Some(id) != except && LiveDefault(t, id)
  }

  /** UPDATE registries SET is_default = FALSE WHERE is_default AND deleted_at IS NULL [AND id <> ...] */
  function Cleared(t: Table, except: Option<Id>): Table {
    map id | id in t :: if LiveDefault(t, id) && Some(id) != except then t[id].(isDefault := false) else t[id]
  }

  function NewRow(op: Op): Row
    requires op.Create?
  {
    Row(op.name, op.info, op.isDefault, op.isActive, None, "", "", None)
  }

  function ChangedRow(row: Row, op: Op): Row
    requires op.Update?
  {
    row.(name := op.name, info := op.info, isDefault := op.isDefault, isActive := op.isActive)
  }

  /** What the constraints say about storing row under id; an insert wants a new key. */
  function Violation(t: Table, id: Id, row: Row, insert: bool): Option<Error> {
    if insert && id in t then Some(DuplicateKey)
    else if NameTaken(t, row.name, Some(id)) then Some(DuplicateName)
    else if row.isDefault && row.deletedAt == None && DefaultTaken(t, Some(id)) then Some(SecondDefault)
    else None
  }

  // ---------------------------------------------------------------- operations

  /** The working copy once the optional clearing statement has run. */
  function Prepared(t: Table, op: Op): Table
    requires op.Create? || op.Update?
  {
    if op.isDefault then Cleared(t, if op.Update? then Some(op.id) else None) else t
  }

  /** The table after an operation and the error it reports. */
  function Step(t: Table, op: Op): (Table, Option<Error>) {
    match op
    case Create(id, _, _, isDefault, _, fault) =>
      var work := Prepared(t, op);
      if fault == Some(Begin) || (fault == Some(Clear) && isDefault) || fault == Some(Write) then (t, Some(Broken))
      else if Violation(work, id, NewRow(op), true) != None then (t, Violation(work, id, NewRow(op), true))
      else if fault == Some(Commit) then (t, Some(Broken))
      else (work[id := NewRow(op)], None)
    case Update(id, _, _, isDefault, _, fault) =>
      var work := Prepared(t, op);
      if fault == Some(Begin) || (fault == Some(Clear) && isDefault) || fault == Some(Write) then (t, Some(Broken))
      else if !Live(work, id) then (t, Some(NotFound))
      else if Violation(work, id, ChangedRow(work[id], op), false) != None
      then (t, Violation(work, id, ChangedRow(work[id], op), false))
      else if fault == Some(Commit) then (t, Some(Broken))
      else (work[id := ChangedRow(work[id], op)], None)
    case SoftDelete(id, now, fails) =>
      if fails then (t, Some(Broken))
      else if !Live(t, id) then (t, Some(NotFound))
      else (t[id := t[id].(deletedAt := Some(now), isDefault := false)], None)
    case SetConnection(id, status, message, now, setActive) =>
      if !Live(t, id) then (t, None)
      else
        (t[id := t[id].(lastCheckedAt := Some(now), lastStatus := status, lastError := message,
                        isActive := if setActive.Some? then setActive.value else t[id].isActive)], None)
  }

  function Run(ops: seq<Op>): Table {
    if ops == [] then map[] else Step(Run(ops[..|ops| - 1]), ops[|ops| - 1]).0
  }

  // ---------------------------------------------------------------- the invariant of all runs

  /** Names are unique, at most one live row is default, deleted rows never are. */
  ghost predicate Sound(t: Table) {
    && (forall a, b :: a in t && b in t && t[a].name == t[b].name ==> a == b)
    && (forall a, b :: LiveDefault(t, a) && LiveDefault(t, b) ==> a == b)
    && (forall a :: a in t && t[a].isDefault ==> t[a].deletedAt == None)
  }

  lemma ClearedIsSound(t: Table, except: Option<Id>)
    requires Sound(t)
    ensures Sound(Cleared(t, except))
    ensures !DefaultTaken(Cleared(t, except), except)
  {
    var t' := Cleared(t, except);
    assert forall id :: id in t ==> t'[id].name == t[id].name && t'[id].deletedAt == t[id].deletedAt;
    assert forall id :: LiveDefault(t', id) ==> LiveDefault(t, id);
  }

  lemma StoredIsSound(t: Table, id: Id, row: Row, insert: bool)
    requires Sound(t) && Violation(t, id, row, insert) == None && (row.isDefault ==> row.deletedAt == None)
    ensures Sound(t[id := row])
  {
    var t' := t[id := row];
    forall a, b | a in t' && b in t' && t'[a].name == t'[b].name ensures a == b {
      assert a == id || t'[a] == t[a];
      assert b == id || t'[b] == t[b];
    }
    forall a, b | LiveDefault(t', a) && LiveDefault(t', b) ensures a == b {
      assert a == id || LiveDefault(t, a);
      assert b == id || LiveDefault(t, b);
    }
  }

  /** Row changes that keep the name and never set the default keep the table sound. */
  lemma TouchedIsSound(t: Table, id: Id, row: Row)
    requires Sound(t) && id in t && row.name == t[id].name
    requires row.isDefault ==> t[id].isDefault && row.deletedAt == None
    ensures Sound(t[id := row])
  {
    var t' := t[id := row];
    assert forall a :: LiveDefault(t', a) ==> LiveDefault(t, a);
    assert forall a :: a in t' ==> t'[a].name == t[a].name;
  }

  lemma PreparedIsSound(t: Table, op: Op)
    requires Sound(t) && (op.Create? || op.Update?)
    ensures Sound(Prepared(t, op))
    ensures op.isDefault ==> !DefaultTaken(Prepared(t, op), Some(op.id))
  {
    ClearedIsSound(t, if op.Update? then Some(op.id) else None);
  }

  lemma StepKeepsSound(t: Table, op: Op)
    requires Sound(t)
    ensures Sound(Step(t, op).0)
  {
    match op
    case Create(id, _, _, isDefault, _, _) =>
      PreparedIsSound(t, op);
      if Step(t, op).1 == None {
        StoredIsSound(Prepared(t, op), id, NewRow(op), true);
      }
    case Update(id, _, _, isDefault, _, _) =>
      PreparedIsSound(t, op);
      if Step(t, op).1 == None {
        StoredIsSound(Prepared(t, op), id, ChangedRow(Prepared(t, op)[id], op), false);
      }
    case SoftDelete(id, now, _) =>
      if Live(t, id) {
        TouchedIsSound(t, id, t[id].(deletedAt := Some(now), isDefault := false));
      }
    case SetConnection(id, _, _, _, _) =>
      if Live(t, id) {
        TouchedIsSound(t, id, Step(t, op).0[id]);
      }
  }

  lemma {:induction false} RunsAreSound(ops: seq<Op>)
    ensures Sound(Run(ops))
  {
    if ops != [] {
      RunsAreSound(ops[..|ops| - 1]);
      StepKeepsSound(Run(ops[..|ops| - 1]), ops[|ops| - 1]);
    }
  }

  /** The clearing statement makes room first, so the partial index itself never rejects anything. */
  lemma IndexNeverRejects(t: Table, op: Op)
    requires Sound(t)
    ensures Step(t, op).1 != Some(SecondDefault)
  {
    if op.Create? || op.Update? {
      PreparedIsSound(t, op);
    }
  }

  /** Whatever goes wrong, in whatever stage, nothing has changed: in particular the previous
      default is still the default. */
  lemma FailureChangesNothing(t: Table, op: Op)
    ensures Step(t, op).1 != None ==> Step(t, op).0 == t
  {}

  // ---------------------------------------------------------------- what success means

  predicate Faulty(op: Op)
    requires op.Create? || op.Update?
  {
    || op.fault == Some(Begin) || (op.fault == Some(Clear) && op.isDefault)
    || op.fault == Some(Write) || op.fault == Some(Commit)
  }

  lemma PreparedKeepsNames(t: Table, op: Op, but: Option<Id>)
    requires op.Create? || op.Update?
    ensures Prepared(t, op).Keys == t.Keys
    ensures NameTaken(Prepared(t, op), op.name, but) <==> NameTaken(t, op.name, but)
    ensures Live(Prepared(t, op), op.id) <==> Live(t, op.id)
  {
    var t' := Prepared(t, op);
    assert forall id :: id in t ==> t'[id].name == t[id].name && t'[id].deletedAt == t[id].deletedAt;
    if NameTaken(t, op.name, but) {
      var id :| id in t && Some(id) != but && t[id].name == op.name;
      assert t'[id].name == op.name;
    }
  }

  /** A create goes through exactly when its key is new and no row, live or deleted, has its name. */
  lemma CreateSucceedsIff(t: Table, op: Op)
    requires Sound(t) && op.Create?
    ensures Step(t, op).1 == None <==> !Faulty(op) && op.id !in t && !NameTaken(t, op.name, None)
  {
    IndexNeverRejects(t, op);
    PreparedKeepsNames(t, op, Some(op.id));
    if op.id !in t {
      assert NameTaken(t, op.name, None) <==> NameTaken(t, op.name, Some(op.id));
    }
  }

  /** An update goes through exactly when its row is live and no other row has the name. */
  lemma UpdateSucceedsIff(t: Table, op: Op)
    requires Sound(t) && op.Update?
    ensures Step(t, op).1 == None <==> !Faulty(op) && Live(t, op.id) && !NameTaken(t, op.name, Some(op.id))
  {
    IndexNeverRejects(t, op);
    PreparedKeepsNames(t, op, Some(op.id));
  }

  /** A soft delete goes through exactly when its statement does and its row is live. */
  lemma DeleteSucceedsIff(t: Table, id: Id, now: Time, fails: bool)
    ensures
      var (t', error) := Step(t, SoftDelete(id, now, fails));
      && (error == None <==> !fails && Live(t, id))
      && (error == Some(NotFound) <==> !fails && !Live(t, id)) && (error == Some(Broken) <==> fails)
      && (error == None ==> t'.Keys == t.Keys && t'[id].deletedAt == Some(now))
  {}

  /** Faults that come before the constraints are checked. */
  predicate FailsEarly(op: Op)
    requires op.Create? || op.Update?
  {
    op.fault == Some(Begin) || (op.fault == Some(Clear) && op.isDefault) || op.fault == Some(Write)
  }

  /** Which error a create or an update reports: the key before the name, a missing row before its
      name, and a fault of the commit only when nothing else is wrong. */
  lemma ErrorsAre(t: Table, op: Op)
    requires Sound(t)
    ensures op.Create? ==>
      var error, taken := Step(t, op).1, NameTaken(t, op.name, None);
      && (error == Some(DuplicateKey) <==> !FailsEarly(op) && op.id in t)
      && (error == Some(DuplicateName) <==> !FailsEarly(op) && op.id !in t && taken)
      && (error == Some(Broken) <==> FailsEarly(op) || (op.fault == Some(Commit) && op.id !in t && !taken))
      && error != Some(NotFound)
    ensures op.Update? ==>
      var error, taken := Step(t, op).1, NameTaken(t, op.name, Some(op.id));
      && (error == Some(NotFound) <==> !FailsEarly(op) && !Live(t, op.id))
      && (error == Some(DuplicateName) <==> !FailsEarly(op) && Live(t, op.id) && taken)
      && (error == Some(Broken) <==> FailsEarly(op) || (op.fault == Some(Commit) && Live(t, op.id) && !taken))
      && error != Some(DuplicateKey)
  {
    IndexNeverRejects(t, op);
    if op.Create? || op.Update? {
      PreparedKeepsNames(t, op, Some(op.id));
      if op.id !in t {
        assert NameTaken(t, op.name, None) <==> NameTaken(t, op.name, Some(op.id));
      }
    }
  }

  /** No operation touches any column of another row, except that a new default takes the flag
      from the old one. */
  lemma OtherRowsKept(t: Table, op: Op, other: Id)
    requires other in t && other != op.id
    ensures other in Step(t, op).0
    ensures
      var clears := (op.Create? || op.Update?) && op.isDefault && Step(t, op).1 == None && LiveDefault(t, other);
      Step(t, op).0[other] == if clears then t[other].(isDefault := false) else t[other]
  {}

  /** What a successful operation leaves in its own row: exactly the requested values, and for an
      update or a deletion every other column as before. */
  lemma SuccessStores(t: Table, op: Op)
    requires Step(t, op).1 == None && (op.SetConnection? ==> Live(t, op.id))
    ensures op.id in Step(t, op).0 && Live(Step(t, op).0, op.id) == !op.SoftDelete?
    ensures
      var row := Step(t, op).0[op.id];
      && (op.Create? || op.Update? ==>
            row.name == op.name && row.info == op.info && row.isDefault == op.isDefault && row.isActive == op.isActive)
      && (op.Create? ==> row.lastCheckedAt == None)
      && (op.Update? ==>
            row.lastCheckedAt == t[op.id].lastCheckedAt && row.lastStatus == t[op.id].lastStatus
            && row.lastError == t[op.id].lastError)
      && (op.SoftDelete? ==> row == t[op.id].(deletedAt := Some(op.now), isDefault := false))
      && (op.SetConnection? ==>
            row.name == t[op.id].name && row.info == t[op.id].info && row.isDefault == t[op.id].isDefault
            && row.lastStatus == op.status && row.lastCheckedAt == Some(op.now))
  {
    if op.Update? {
      PreparedKeepsNames(t, op, None);
    }
  }

  // ---------------------------------------------------------------- the default as one register

  /** The whole machinery of flags, index and clearing stands for one optional id. */
  function NextDefault(current: Option<Id>, op: Op, ok: bool): Option<Id> {
    if !ok || op.SetConnection? then current
    else if op.SoftDelete? then (if current == Some(op.id) then None else current)
    else if op.isDefault then Some(op.id)
    else if current == Some(op.id) then None
    else current
  }

  function DefaultAfter(ops: seq<Op>): Option<Id> {
    if ops == [] then None
    else
      var before := ops[..|ops| - 1];
      var op := ops[|ops| - 1];
      NextDefault(DefaultAfter(before), op, Step(Run(before), op).1 == None)
  }

  ghost predicate Holds(t: Table, current: Option<Id>) {
    forall id: Id :: LiveDefault(t, id) <==> current == Some(id)
  }

  lemma StepMovesDefault(t: Table, op: Op, current: Option<Id>)
    requires Sound(t) && Holds(t, current)
    ensures Holds(Step(t, op).0, NextDefault(current, op, Step(t, op).1 == None))
  {
    var t' := Step(t, op).0;
    var next := NextDefault(current, op, Step(t, op).1 == None);
    forall id: Id ensures LiveDefault(t', id) <==> next == Some(id) {
      if id != op.id && id in t {
        OtherRowsKept(t, op, id);
      }
      assert LiveDefault(t, id) <==> current == Some(id);
    }
  }

  lemma {:induction false} DefaultIsARegister(ops: seq<Op>)
    ensures LiveDefaults(Run(ops)) == if DefaultAfter(ops).Some? then {DefaultAfter(ops).value} else {}
    ensures Holds(Run(ops), DefaultAfter(ops))
  {
    if ops != [] {
      var n := |ops| - 1;
      DefaultIsARegister(ops[..n]);
      RunsAreSound(ops[..n]);
      StepMovesDefault(Run(ops[..n]), ops[n], DefaultAfter(ops[..n]));
    }
  }

  // ---------------------------------------------------------------- deletion is final

  lemma StepKeepsDeleted(t: Table, op: Op, id: Id)
    requires id in t && t[id].deletedAt != None
    ensures id in Step(t, op).0
    ensures !t[id].isDefault ==> Step(t, op).0[id] == t[id]
    ensures Step(t, op).0[id].deletedAt == t[id].deletedAt && Step(t, op).0[id].name == t[id].name
  {
    if id != op.id {
      OtherRowsKept(t, op, id);
    }
  }

  lemma RunSnoc(ops: seq<Op>, op: Op)
    ensures Run(ops + [op]) == Step(Run(ops), op).0
  {
    assert (ops + [op])[..|ops|] == ops;
  }

  /** A deleted row never changes again, in any run. */
  lemma {:induction false} DeletedIsFrozen(ops: seq<Op>, more: seq<Op>, id: Id)
    requires id in Run(ops) && Run(ops)[id].deletedAt != None
    ensures id in Run(ops + more) && Run(ops + more)[id] == Run(ops)[id]
    decreases |more|
  {
    if more == [] {
      assert ops + more == ops;
    } else {
      var next := Run(ops + [more[0]]);
      RunSnoc(ops, more[0]);
      RunsAreSound(ops);
      StepKeepsDeleted(Run(ops), more[0], id);
      assert ops + more == ops + [more[0]] + more[1..];
      DeletedIsFrozen(ops + [more[0]], more[1..], id);
    }
  }

  /** So its name is never free again: no create and no update of another row can take it. */
  lemma DeletedNameIsTaken(ops: seq<Op>, more: seq<Op>, id: Id, op: Op)
    requires id in Run(ops) && Run(ops)[id].deletedAt != None
    requires (op.Create? || op.Update?) && op.name == Run(ops)[id].name
    ensures Step(Run(ops + more), op).1 != None
  {
    var t := Run(ops + more);
    DeletedIsFrozen(ops, more, id);
    RunsAreSound(ops + more);
    if op.Create? {
      CreateSucceedsIff(t, op);
      assert NameTaken(t, op.name, None);
    } else {
      UpdateSucceedsIff(t, op);
      if op.id != id {
        assert NameTaken(t, op.name, Some(op.id));
      }
    }
  }

  // ---------------------------------------------------------------- connect and ping

  datatype Check = Check(connected: bool, status: string, message: string)

  /** The status update that a connect, or a ping, sends after its check. */
  function ConnectOp(id: Id, check: Check, now: Time): Op {
    if check.connected then SetConnection(id, check.status, "", now, Some(true))
    else SetConnection(id, check.status, check.message, now, None)
  }

  function PingOp(id: Id, check: Check, now: Time): Op {
    SetConnection(id, check.status, if check.connected then "" else check.message, now, Some(check.connected))
  }

  /** The table once the status update has gone through, or has failed and been logged. */
  function Recorded(t: Table, op: Op, stored: bool): Table { if stored then Step(t, op).0 else t }

  /** What a stored check leaves in a live row: its status, its time, and its message unless it
      connected.  Connect only ever raises the active flag, ping sets it to the outcome; no other
      column and no other row changes. */
  lemma CheckIsRecorded(t: Table, id: Id, check: Check, now: Time)
    requires Live(t, id)
    ensures
      var connect, ping := Recorded(t, ConnectOp(id, check, now), true), Recorded(t, PingOp(id, check, now), true);
      var error := if check.connected then "" else check.message;
      && connect == t[id := t[id].(lastCheckedAt := Some(now), lastStatus := check.status, lastError := error,
                                   isActive := t[id].isActive || check.connected)]
      && ping == t[id := t[id].(lastCheckedAt := Some(now), lastStatus := check.status, lastError := error,
                                isActive := check.connected)]
  {}

  /** Connect reads the row in one state and writes it in another, with any operations in between,
      and only logs a failed write.  It never deactivates, and what it reports is what the table then
      says exactly when the row was not deleted meanwhile and either a successful check was stored or
      the flag already is what is reported. */
  lemma ConnectTellsTheTruthIff(read: Table, t: Table, id: Id, check: Check, now: Time, stored: bool)
    requires Live(read, id)
    ensures
      var t' := Recorded(t, ConnectOp(id, check, now), stored);
      var reported := check.connected || read[id].isActive;
      && (id in t && t[id].isActive ==> t'[id].isActive)
      && ((Live(t', id) && t'[id].isActive == reported)
          <==> Live(t, id) && ((stored && check.connected) || t[id].isActive == reported))
  {}

  /** Ping switches both ways: its report is true exactly when the row is still there and the flag
      was stored or is already right. */
  lemma PingTellsTheTruthIff(read: Table, t: Table, id: Id, check: Check, now: Time, stored: bool)
    requires Live(read, id)
    ensures
      var t' := Recorded(t, PingOp(id, check, now), stored);
      (Live(t', id) && t'[id].isActive == check.connected)
      <==> Live(t, id) && (stored || t[id].isActive == check.connected)
  {}

  /** A row becomes inactive only by an update that says so or a failed ping. */
  lemma WhoDeactivates(t: Table, op: Op, id: Id)
    requires id in t && t[id].isActive && !Step(t, op).0[id].isActive
    ensures op.id == id && Live(t, id)
    ensures (op.Update? && !op.isActive) || (op.SetConnection? && op.setActive == Some(false))
  {
    if op.id != id {
      OtherRowsKept(t, op, id);
    }
  }

  // ---------------------------------------------------------------- the repository

  class RegistryRepository {
    var rows: Table

    constructor ()
      ensures rows == map[]
    {
      rows := map[];
    }

    /** One transaction: statements change a working copy, and only a commit publishes it. */
    method Create(op: Op) returns (error: Option<Error>)
      requires op.Create?
      modifies this
      ensures (rows, error) == Step(old(rows), op)
    {
      var work := rows;
      if op.fault == Some(Begin) {
        return Some(Broken);
      }
      if op.isDefault {
        if op.fault == Some(Clear) {
          return Some(Broken);
        }
        work := map id | id in work :: if LiveDefault(work, id) then work[id].(isDefault := false) else work[id];
        assert work == Cleared(rows, None);
      }
      if op.fault == Some(Write) {
        return Some(Broken);
      }
      var row := Row(op.name, op.info, op.isDefault, op.isActive, None, "", "", None);
      error := Violation(work, op.id, row, true);
      if error != None {
        return;
      }
      if op.fault == Some(Commit) {
        return Some(Broken);
      }
      rows := work[op.id := row];
    }

    method Update(op: Op) returns (error: Option<Error>)
      requires op.Update?
      modifies this
      ensures (rows, error) == Step(old(rows), op)
    {
      var work := rows;
      if op.fault == Some(Begin) {
        return Some(Broken);
      }
      if op.isDefault {
        if op.fault == Some(Clear) {
          return Some(Broken);
        }
        work := map id | id in work ::
          if LiveDefault(work, id) && id != op.id then work[id].(isDefault := false) else work[id];
        assert work == Cleared(rows, Some(op.id));
      }
      if op.fault == Some(Write) {
        return Some(Broken);
      }
      if op.id !in work || work[op.id].deletedAt != None {
        return Some(NotFound);
      }
      var row := work[op.id].(name := op.name, info := op.info, isDefault := op.isDefault, isActive := op.isActive);
      error := Violation(work, op.id, row, false);
      if error != None {
        return;
      }
      if op.fault == Some(Commit) {
        return Some(Broken);
      }
      rows := work[op.id := row];
    }

    /** fails: the statement fails for reasons of its own. */
    method SoftDelete(id: Id, now: Time, fails: bool) returns (error: Option<Error>)
      modifies this
      ensures (rows, error) == Step(old(rows), Op.SoftDelete(id, now, fails))
    {
      if fails {
        return Some(Broken);
      }
      if id !in rows || rows[id].deletedAt != None {
        return Some(NotFound);
      }
      rows := rows[id := rows[id].(deletedAt := Some(now), isDefault := false)];
      error := None;
    }

    method UpdateConnectionStatus(id: Id, status: string, message: string, now: Time, setActive: Option<bool>)
      modifies this
      ensures rows == Step(old(rows), SetConnection(id, status, message, now, setActive)).0
    {
      if id in rows && rows[id].deletedAt == None {
        var row := rows[id].(lastCheckedAt := Some(now), lastStatus := status, lastError := message);
        if setActive.Some? {
          row := row.(isActive := setActive.value);
        }
        rows := rows[id := row];
      }
    }

    method GetByID(id: Id) returns (row: Option<Row>)
      ensures row == if Live(rows, id) then Some(rows[id]) else None
    {
      if id in rows && rows[id].deletedAt == None {
        return Some(rows[id]);
      }
      return None;
    }
  }

  /** What ConnectRegistry and PingRegistry answer. */
  datatype Reply = InvalidId | ReadFailed | NoSuchRegistry | Undecryptable | Checked(active: bool)

  /** uuid.Nil */
  const NIL: Id := 0

  class RegistryService {
    const repo: RegistryRepository
    const decrypts: string -> bool

    constructor (repo: RegistryRepository, decrypts: string -> bool)
      ensures this.repo == repo && this.decrypts == decrypts
    {
      this.repo, this.decrypts := repo, decrypts;
    }

    /** Why there is nothing to check, if so. */
    function Refusal(t: Table, id: Id, readFails: bool): Option<Reply> {
      if id == NIL then Some(InvalidId)
      else if readFails then Some(ReadFailed)
      else if !Live(t, id) then Some(NoSuchRegistry)
      else if t[id].info.password != "" && !decrypts(t[id].info.password) then Some(Undecryptable)
      else None
    }

    /** check is the connector's answer for the stored row; stored says whether the status update
        went through, a failure of which is only logged. */
    method ConnectRegistry(id: Id, check: Row -> Check, now: Time, readFails: bool, stored: bool) returns (r: Reply)
      modifies repo
      ensures Refusal(old(repo.rows), id, readFails).Some? ==>
        Some(r) == Refusal(old(repo.rows), id, readFails) && repo.rows == old(repo.rows)
      ensures Refusal(old(repo.rows), id, readFails).None? ==>
        var was := old(repo.rows)[id];
        && r == Checked(check(was).connected || was.isActive)
        && repo.rows == Recorded(old(repo.rows), ConnectOp(id, check(was), now), stored)
    {
      if id == NIL {
        return InvalidId;
      }
      if readFails {
        return ReadFailed;
      }
      var row := repo.GetByID(id);
      if row.None? {
        return NoSuchRegistry;
      }
      if row.value.info.password != "" {
        if !decrypts(row.value.info.password) {
          return Undecryptable;
        }
      }
      var res := check(row.value);
      var message := "";
      if !res.connected {
        message := res.message;
      }
      var setActive := None;
      if res.connected {
        setActive := Some(true);
      }
      if stored {
        repo.UpdateConnectionStatus(id, res.status, message, now, setActive);
      }
      return Checked(res.connected || row.value.isActive);
    }

    method PingRegistry(id: Id, check: Row -> Check, now: Time, readFails: bool, stored: bool) returns (r: Reply)
      modifies repo
      ensures Refusal(old(repo.rows), id, readFails).Some? ==>
        Some(r) == Refusal(old(repo.rows), id, readFails) && repo.rows == old(repo.rows)
      ensures Refusal(old(repo.rows), id, readFails).None? ==>
        var was := old(repo.rows)[id];
        && r == Checked(check(was).connected)
        && repo.rows == Recorded(old(repo.rows), PingOp(id, check(was), now), stored)
    {
      if id == NIL {
        return InvalidId;
      }
      if readFails {
        return ReadFailed;
      }
      var row := repo.GetByID(id);
      if row.None? {
        return NoSuchRegistry;
      }
      if row.value.info.password != "" {
        if !decrypts(row.value.info.password) {
          return Undecryptable;
        }
      }
      var res := check(row.value);
      var message := "";
      if !res.connected {
        message := res.message;
      }
      if stored {
        repo.UpdateConnectionStatus(id, res.status, message, now, Some(res.connected));
      }
      return Checked(res.connected);
    }
  }
}
