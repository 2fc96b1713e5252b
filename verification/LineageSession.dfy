/**
  Models the session hooks of app/models.py that force audit lineage on payroll
  events and attendance invalidations. The hooks are methods of `LineageHooks`;
  the unit of work that calls them (pending and changed objects, flushes,
  savepoints, commits) is a transition system over the values they work on.
*/
module LineageSession {
  import opened Basics

  // ------------------------------------------------------------------------ rows

  datatype Table = PayrollEvents | AttendanceInvalidations | OtherTable

  /** Every column but the primary key and the lineage; all of them are protected. */
  datatype Facts = Facts(classId: string, eventType: string, rest: seq<string>)

  datatype Lineage = Lineage(eventId: Option<int>, token: Option<string>, version: Option<int>) {
    predicate Empty() { eventId.None? && token.None? && version.None? }
    predicate Complete() { eventId.Some? && token.Some? && version.Some? }
  }

  datatype Row = Row(facts: Facts, lineage: Lineage)

  datatype Operation = Insert | OtherOperation

  /** A collision-free digest of what was written: the written values themselves. */
  datatype Digest = Digest(table: Table, rowPk: int, operation: Operation, classId: string, facts: Facts)

  datatype Scope = ClassScope(classId: string) | OtherScope

  datatype AuditEvent =
    AuditEvent(table: Table, rowPk: int, classId: string, scope: Scope, operation: Operation, feat: string,
               signature: string, version: int, digest: Digest)

  datatype Db = Db(rows: map<int, Row>, audits: map<int, AuditEvent>)

  function DigestOf(table: Table, id: int, facts: Facts): Digest {
    Digest(table, id, Insert, facts.classId, facts)
  }

  /** The features that may create a row of the table. */
  predicate MayCreate(table: Table, feat: string, facts: Facts) {
    match table
    case PayrollEvents =>
      feat == "FEAT-PROD-003" || feat == "FEAT-PROD-004" || feat == "FEAT-PROD-005"
      || (feat == "FEAT-STOR-003" && facts.eventType == "manual_credit")
    case AttendanceInvalidations => feat == "FEAT-PROD-005"
    case OtherTable => false
  }

  /** The audit event describes exactly the creation of this row. */
  predicate Attests(table: Table, event: AuditEvent, id: int, row: Row) {
    && event.table == table && event.rowPk == id
    && event.classId == row.facts.classId && event.scope == ClassScope(row.facts.classId)
    && event.operation == Insert
    && Some(event.signature) == row.lineage.token && Some(event.version) == row.lineage.version
    && event.digest == DigestOf(table, id, row.facts)
    && MayCreate(table, event.feat, row.facts)
  }

  /** `_validate_payroll_lineage` and `_validate_invalidation_lineage`. */
  predicate LineageHolds(table: Table, audits: map<int, AuditEvent>, id: int, row: Row) {
    && row.lineage.Complete()
    && row.lineage.eventId.value in audits
    && Attests(table, audits[row.lineage.eventId.value], id, row)
  }

  /**
    What lineage says, column by column: the row names an audit event of its own creation, signed as the row has it,
    for its class and that class's chain, taken of exactly its values, by a feature that may create it.
   */
  predicate Proven(table: Table, audits: map<int, AuditEvent>, id: int, row: Row) {
    && row.lineage.eventId.Some? && row.lineage.eventId.value in audits
    && var event := audits[row.lineage.eventId.value];
    && event.table == table && event.rowPk == id && event.operation.Insert?
    && event.classId == row.facts.classId && event.scope == ClassScope(row.facts.classId)
    && row.lineage.token == Some(event.signature) && row.lineage.version == Some(event.version)
    && event.digest.table == table && event.digest.rowPk == id && event.digest.operation.Insert?
    && event.digest.classId == row.facts.classId && event.digest.facts == row.facts
    && match table
       case PayrollEvents =>
         || event.feat in ["FEAT-PROD-003", "FEAT-PROD-004", "FEAT-PROD-005"]
         || (event.feat == "FEAT-STOR-003" && row.facts.eventType == "manual_credit")
       case AttendanceInvalidations => event.feat == "FEAT-PROD-005"
       case OtherTable => false
  }

  /** The validators accept exactly proven rows. */
  lemma LineageExactly(table: Table, audits: map<int, AuditEvent>, id: int, row: Row)
    ensures LineageHolds(table, audits, id, row) <==> Proven(table, audits, id, row)
  {
    if table.PayrollEvents? && row.lineage.eventId.Some? && row.lineage.eventId.value in audits {
      var feats, feat := ["FEAT-PROD-003", "FEAT-PROD-004", "FEAT-PROD-005"], audits[row.lineage.eventId.value].feat;
      assert feats[0] == "FEAT-PROD-003" && feats[1] == "FEAT-PROD-004" && feats[2] == "FEAT-PROD-005";
      assert feat in feats <==> feat == feats[0] || feat == feats[1] || feat == feats[2];
    }
  }

  // ----------------------------------------------------------------------- hooks

  /** The open transaction as the hooks see it; `creator` is the root transaction an object was inserted in. */
  datatype Work = Work(table: Table, db: Db, created: set<int>, creator: map<int, int>, root: int)

  predicate MayInsert(w: Work, id: int, row: Row) {
    row.lineage.Empty() && id !in w.db.rows
  }

  function Inserted(w: Work, id: int, row: Row): Work {
    w.(db := w.db.(rows := w.db.rows[id := row]), created := w.created + {id}, creator := w.creator[id := w.root])
  }

  /** What before_update lets through: the one initialization of the lineage, in the creating transaction. */
  predicate MayUpdate(w: Work, id: int, candidate: Row) {
    && id in w.db.rows
    && DigestOf(w.table, id, candidate.facts) == DigestOf(w.table, id, w.db.rows[id].facts)
    && id in w.creator && w.creator[id] == w.root
    && w.db.rows[id].lineage.Empty()
    && candidate.lineage.Complete()
    && LineageHolds(w.table, w.db.audits, id, candidate)
  }

  /** An update passes exactly when it proves, once and in the creating transaction, a row whose facts stay. */
  lemma UpdateExactly(w: Work, id: int, candidate: Row)
    ensures MayUpdate(w, id, candidate)
            <==> && id in w.db.rows && candidate.facts == w.db.rows[id].facts
                 && w.db.rows[id].lineage == Lineage(None, None, None)
                 && id in w.creator && w.creator[id] == w.root
                 && Proven(w.table, w.db.audits, id, candidate)
  {
    LineageExactly(w.table, w.db.audits, id, candidate);
  }

  function Updated(w: Work, id: int, candidate: Row): Work {
    w.(db := w.db.(rows := w.db.rows[id := candidate]))
  }

  /** Every row this transaction created, and did not remove again, has its lineage. */
  predicate CreatedHaveLineage(w: Work) {
    forall id | id in w.created && id in w.db.rows :: LineageHolds(w.table, w.db.audits, id, w.db.rows[id])
  }

  /** The state that the hooks of one table change: session.info, the stored rows, the object attribute. */
  class LineageHooks {
    var table: Table
    var db: Db
    var created: set<int>
    var creator: map<int, int>
    var root: int

    function View(): Work
      reads this
    {
      Work(table, db, created, creator, root)
    }

    constructor (table: Table, db: Db)
      ensures View() == Work(table, db, {}, map[], 0)
    {
      this.table := table;
      this.db := db;
      created := {};
      creator := map[];
      root := 0;
    }

    /** before_insert, the INSERT and after_insert. */
    method InsertRow(id: int, row: Row) returns (ok: bool)
      modifies this
      ensures ok <==> MayInsert(old(View()), id, row)
      ensures View() == if ok then Inserted(old(View()), id, row) else old(View())
    {
      if row.lineage.eventId.Some? || row.lineage.token.Some? || row.lineage.version.Some? || id in db.rows {
        return false;
      }
      creator := creator[id := root];
      db := db.(rows := db.rows[id := row]);
      created := created + {id};
      return true;
    }

    /** before_update and the UPDATE. */
    method UpdateRow(id: int, candidate: Row) returns (ok: bool)
      modifies this`db
      ensures ok <==> MayUpdate(old(View()), id, candidate)
      ensures View() == if ok then Updated(old(View()), id, candidate) else old(View())
    {
      if id !in db.rows {
        return false;
      }
      var stored := db.rows[id];
      if DigestOf(table, id, candidate.facts) != DigestOf(table, id, stored.facts) {
        return false;
      }
      if id !in creator || creator[id] != root || !stored.lineage.Empty() || !candidate.lineage.Complete() {
        return false;
      }
      if !LineageHolds(table, db.audits, id, candidate) {
        return false;
      }
      db := db.(rows := db.rows[id := candidate]);
      return true;
    }

    /** The check loop of before_commit. */
    method RequireLineage() returns (ok: bool)
      ensures ok <==> CreatedHaveLineage(View())
    {
      var rest := created;
      while exists id :: id in rest
        invariant rest <= created
        invariant forall id | id in created && id !in rest && id in db.rows ::
                  LineageHolds(table, db.audits, id, db.rows[id])
        decreases rest
      {
        var id :| id in rest;
        if id in db.rows && !LineageHolds(table, db.audits, id, db.rows[id]) {
          return false;
        }
        rest := rest - {id};
      }
      return true;
    }

    /** after_transaction_end of the root transaction. */
    method RootEnded()
      modifies this
      ensures View() == Ended(old(View()), old(db))
    {
      created := {};
      root := root + 1;
    }
  }

  // ---------------------------------------------------------------- unit of work

  /** One session: what is committed, the open transaction, its savepoints, and objects not yet written. */
  datatype State =
    State(committed: Db, work: Work, savepoints: seq<Db>, pending: seq<Row>, changed: map<int, Row>)

  /** Primary keys that a flush is given by the database are part of the step. */
  datatype Step =
    | Add(row: Row)
    | Change(id: int, row: Row)
    | Flush(ids: seq<int>)
    | Record(auditId: int, event: AuditEvent)
    | Delete(id: int)
    | Begin(ids: seq<int>)
    | Release
    | Rollback
    | Commit(ids: seq<int>)

  function Start(table: Table, db: Db): State {
    State(db, Work(table, db, {}, map[], 0), [], [], map[])
  }

  function InsertAll(w: Work, rows: seq<Row>, ids: seq<int>): Option<Work>
    decreases |rows|
  {
    if rows == [] then Some(w)
    else if ids == [] || !MayInsert(w, ids[0], rows[0]) then None
    else InsertAll(Inserted(w, ids[0], rows[0]), rows[1..], ids[1..])
  }

  /** Updates of different rows do not touch each other, so they are written together. */
  function UpdateAll(w: Work, changed: map<int, Row>): Option<Work> {
    if forall id | id in changed :: MayUpdate(w, id, changed[id]) then
      Some(w.(db := w.db.(rows := w.db.rows + changed)))
    else None
  }

  /** An update of one row never decides another. */
  lemma UpdatesAreIndependent(w: Work, a: int, rowA: Row, b: int, rowB: Row)
    requires a != b && MayUpdate(w, a, rowA)
    ensures MayUpdate(Updated(w, a, rowA), b, rowB) <==> MayUpdate(w, b, rowB)
    ensures Updated(Updated(w, a, rowA), b, rowB).db.rows == w.db.rows + map[a := rowA, b := rowB]
  {
    assert w.db.rows[a := rowA][b := rowB] == w.db.rows + map[a := rowA, b := rowB];
  }

  /** The updates of one flush written one by one, in the given order. */
  function UpdateInOrder(w: Work, changed: map<int, Row>, ids: seq<int>): Option<Work>
    requires forall i | 0 <= i < |ids| :: ids[i] in changed
    decreases |ids|
  {
    if ids == [] then Some(w)
    else if !MayUpdate(w, ids[0], changed[ids[0]]) then None
    else UpdateInOrder(Updated(w, ids[0], changed[ids[0]]), changed, ids[1..])
  }

  predicate Distinct(ids: seq<int>) {
    forall i, j | 0 <= i < j < |ids| :: ids[i] != ids[j]
  }

  function Chosen(changed: map<int, Row>, ids: seq<int>): map<int, Row>
    requires forall i | 0 <= i < |ids| :: ids[i] in changed
  {
    map id | id in ids :: changed[id]
  }

  /** Whatever order a flush takes, writing its updates one by one comes to writing them together. */
  lemma {:induction false} UpdatesInAnyOrder(w: Work, changed: map<int, Row>, ids: seq<int>)
    requires Distinct(ids) && forall i | 0 <= i < |ids| :: ids[i] in changed
    ensures UpdateInOrder(w, changed, ids) == UpdateAll(w, Chosen(changed, ids))
    decreases |ids|
  {
    if ids == [] {
      NothingToUpdate(w);
    } else {
      var id, rest := ids[0], ids[1..];
      assert ids == [id] + rest && id !in rest;
      if MayUpdate(w, id, changed[id]) {
        UpdatesInAnyOrder(Updated(w, id, changed[id]), changed, rest);
        SplitUpdate(w, changed, id, rest);
      } else {
        assert id in Chosen(changed, ids);
      }
    }
  }

  lemma NothingToUpdate(w: Work)
    ensures UpdateAll(w, map[]) == Some(w)
  {
    assert w.db.rows + map[] == w.db.rows;
  }

  lemma FlushOrderIsFree(w: Work, changed: map<int, Row>, ids: seq<int>)
    requires forall i, j | 0 <= i < |ids| && 0 <= j < |ids| && ids[i] == ids[j] :: i == j
    requires forall i | 0 <= i < |ids| :: ids[i] in changed
    requires forall id | id in changed :: exists i | 0 <= i < |ids| :: ids[i] == id
    ensures UpdateInOrder(w, changed, ids) == UpdateAll(w, changed)
  {
    UpdatesInAnyOrder(w, changed, ids);
    var chosen := Chosen(changed, ids);
    forall id | id in changed
      ensures id in chosen
    {
      var i :| 0 <= i < |ids| && ids[i] == id;
    }
    forall id | id in chosen
      ensures id in changed
    {
      var i :| 0 <= i < |ids| && ids[i] == id;
    }
    assert chosen.Keys == changed.Keys;
    assert chosen == changed;
  }

  lemma SplitUpdate(w: Work, changed: map<int, Row>, id: int, rest: seq<int>)
    requires id in changed && id !in rest && forall i | 0 <= i < |rest| :: rest[i] in changed
    requires MayUpdate(w, id, changed[id])
    ensures UpdateAll(Updated(w, id, changed[id]), Chosen(changed, rest)) == UpdateAll(w, Chosen(changed, [id] + rest))
  {
    var next, all := Updated(w, id, changed[id]), Chosen(changed, [id] + rest);
    forall other | other in rest
      ensures MayUpdate(next, other, changed[other]) <==> MayUpdate(w, other, changed[other])
    {
      UpdatesAreIndependent(w, id, changed[id], other, changed[other]);
    }
    assert forall x :: x in all <==> x == id || x in rest;
    assert w.db.rows[id := changed[id]] + Chosen(changed, rest) == w.db.rows + all;
  }

  function Flushed(s: State, ids: seq<int>): Option<State> {
    var inserted := InsertAll(s.work, s.pending, ids);
    if inserted.None? then None
    else
      var updated := UpdateAll(inserted.value, s.changed);
      if updated.None? then None else Some(s.(work := updated.value, pending := [], changed := map[]))
  }

  function Ended(w: Work, db: Db): Work {
    w.(db := db, created := {}, root := w.root + 1)
  }

  /** Back to the innermost savepoint, or to what is committed; tracking ends with the root transaction only. */
  function RolledBack(s: State): State {
    if s.savepoints == [] then State(s.committed, Ended(s.work, s.committed), [], [], map[])
    else
      var n := |s.savepoints| - 1;
      State(s.committed, s.work.(db := s.savepoints[n]), s.savepoints[..n], [], map[])
  }

  /** before_commit: flush what is new, then, if anything was created, flush again and check it. */
  function BeforeCommit(s: State, ids: seq<int>): Option<State> {
    var s1 := if s.pending != [] then Flushed(s, ids) else Some(s);
    if s1.None? || s1.value.work.created == {} then s1 else Flushed(s1.value, [])
  }

  /** A failed flush rolls back; a failed check leaves the transaction open and nothing committed. */
  function Committed(s: State, ids: seq<int>): State {
    var s1 := BeforeCommit(s, ids);
    if s1.None? then RolledBack(s)
    else if s1.value.work.created != {} && !CreatedHaveLineage(s1.value.work) then s1.value
    else
      var s2 := Flushed(s1.value, []);
      if s2.None? then RolledBack(s1.value)
      else State(s2.value.work.db, Ended(s2.value.work, s2.value.work.db), [], [], map[])
  }

  function Execute(s: State, step: Step): State {
    match step
    case Add(row) => s.(pending := s.pending + [row])
    case Change(id, row) => if id in s.work.db.rows then s.(changed := s.changed[id := row]) else s
    case Flush(ids) => var f := Flushed(s, ids); if f.None? then RolledBack(s) else f.value
    case Record(auditId, event) =>
      if auditId in s.work.db.audits then s
      else s.(work := s.work.(db := s.work.db.(audits := s.work.db.audits[auditId := event])))
    case Delete(id) => s.(work := s.work.(db := s.work.db.(rows := s.work.db.rows - {id})))
    case Begin(ids) =>
      var f := Flushed(s, ids);
      if f.None? then RolledBack(s) else f.value.(savepoints := f.value.savepoints + [f.value.work.db])
    case Release => if s.savepoints == [] then s else s.(savepoints := s.savepoints[..|s.savepoints| - 1])
    case Rollback => RolledBack(s)
    case Commit(ids) => Committed(s, ids)
  }

  function Run(s: State, steps: seq<Step>): State {
    if steps == [] then s else Execute(Run(s, steps[..|steps| - 1]), steps[|steps| - 1])
  }

  // ------------------------------------------------------------------ invariants

  /** A version of the database inside the transaction: only rows created in it differ from what is committed. */
  ghost predicate Extends(committed: Db, created: set<int>, db: Db) {
    && (forall id | id in db.rows && id !in created :: id in committed.rows && db.rows[id] == committed.rows[id])
    && (forall a | a in committed.audits :: a in db.audits && db.audits[a] == committed.audits[a])
  }

  /** The attribute that names the creating transaction agrees with the tracking in session.info. */
  ghost predicate Tracked(w: Work) {
    forall id | id in w.creator :: w.creator[id] <= w.root && (w.creator[id] == w.root ==> id in w.created)
  }

  ghost predicate Consistent(s: State) {
    && Tracked(s.work)
    && Extends(s.committed, s.work.created, s.work.db)
    && forall i | 0 <= i < |s.savepoints| :: Extends(s.committed, s.work.created, s.savepoints[i])
  }

  /** Every committed row is attested, unless it stood in the database before the session began. */
  ghost predicate Attested(table: Table, origin: Db, db: Db) {
    forall id | id in db.rows ::
      (id in origin.rows && db.rows[id] == origin.rows[id]) || LineageHolds(table, db.audits, id, db.rows[id])
  }

  lemma {:induction false} InsertAllKeeps(committed: Db, w: Work, rows: seq<Row>, ids: seq<int>)
    decreases |rows|
    requires Tracked(w) && Extends(committed, w.created, w.db) && InsertAll(w, rows, ids).Some?
    ensures var r := InsertAll(w, rows, ids).value;
            && Tracked(r) && Extends(committed, r.created, r.db)
            && w.created <= r.created && r.table == w.table && r.db.audits == w.db.audits
            && forall id | id in w.db.rows :: id in r.db.rows && r.db.rows[id] == w.db.rows[id]
  {
    if rows != [] {
      InsertAllKeeps(committed, Inserted(w, ids[0], rows[0]), rows[1..], ids[1..]);
    }
  }

  lemma UpdateAllKeeps(committed: Db, w: Work, changed: map<int, Row>)
    requires Tracked(w) && Extends(committed, w.created, w.db) && UpdateAll(w, changed).Some?
    ensures var r := UpdateAll(w, changed).value;
            && Tracked(r) && Extends(committed, r.created, r.db)
            && r.created == w.created && r.table == w.table && r.db.audits == w.db.audits
            && forall id | id in w.db.rows ::
                 && id in r.db.rows && r.db.rows[id].facts == w.db.rows[id].facts
                 && (id !in w.created ==> r.db.rows[id] == w.db.rows[id])
  {
    forall id | id in w.db.rows && id in changed
      ensures id in w.created && changed[id].facts == w.db.rows[id].facts
    {
      assert MayUpdate(w, id, changed[id]);
    }
  }

  /** A flush touches a row that was already there at most once, from no lineage to the attested one. */
  lemma FlushInitializesOnce(s: State, ids: seq<int>, id: int)
    requires Consistent(s) && Flushed(s, ids).Some? && id in s.work.db.rows
    ensures var before, w := s.work.db.rows[id], Flushed(s, ids).value.work;
            && id in w.db.rows && w.db.rows[id].facts == before.facts
            && (w.db.rows[id] != before ==>
                  && id in s.work.created && before.lineage.Empty()
                  && LineageHolds(w.table, w.db.audits, id, w.db.rows[id]))
  {
    InsertAllKeeps(s.committed, s.work, s.pending, ids);
    var w := InsertAll(s.work, s.pending, ids).value;
    InsertAllTracksOnlyNew(s.work, s.pending, ids, id);
    if id in s.changed {
      assert MayUpdate(w, id, s.changed[id]);
    }
  }

  lemma {:induction false} InsertAllTracksOnlyNew(w: Work, rows: seq<Row>, ids: seq<int>, id: int)
    requires InsertAll(w, rows, ids).Some? && id in w.db.rows
    ensures id in InsertAll(w, rows, ids).value.created ==> id in w.created
    decreases |rows|
  {
    if rows != [] {
      InsertAllTracksOnlyNew(Inserted(w, ids[0], rows[0]), rows[1..], ids[1..], id);
    }
  }

  lemma ExtendsMore(committed: Db, created: set<int>, more: set<int>, db: Db)
    requires Extends(committed, created, db) && created <= more
    ensures Extends(committed, more, db)
  {
  }

  lemma FlushKeeps(s: State, ids: seq<int>)
    requires Consistent(s) && Flushed(s, ids).Some?
    ensures var r := Flushed(s, ids).value;
            Consistent(r) && r.committed == s.committed && r.savepoints == s.savepoints
            && r.work.table == s.work.table && r.pending == [] && r.changed == map[]
            && s.work.created <= r.work.created
  {
    InsertAllKeeps(s.committed, s.work, s.pending, ids);
    var w := InsertAll(s.work, s.pending, ids).value;
    UpdateAllKeeps(s.committed, w, s.changed);
    forall i | 0 <= i < |s.savepoints|
      ensures Extends(s.committed, w.created, s.savepoints[i])
    {
      ExtendsMore(s.committed, s.work.created, w.created, s.savepoints[i]);
    }
  }

  /** A savepoint is what its rollback returns to, and releasing it keeps what was written since. */
  lemma RollbackReturns(s: State, ids: seq<int>, later: State)
    requires Flushed(s, ids).Some? && later.savepoints == Execute(s, Begin(ids)).savepoints
    ensures Execute(later, Rollback).work.db == Flushed(s, ids).value.work.db
    ensures Execute(later, Rollback).savepoints == Flushed(s, ids).value.savepoints
    ensures Execute(later, Rollback).pending == [] && Execute(later, Rollback).changed == map[]
    ensures Execute(later, Release) == later.(savepoints := Flushed(s, ids).value.savepoints)
  {
  }

  lemma RollbackKeeps(s: State)
    requires Consistent(s)
    ensures Consistent(RolledBack(s)) && RolledBack(s).committed == s.committed
  {
  }

  lemma IdleFlush(s: State)
    requires s.pending == [] && s.changed == map[]
    ensures Flushed(s, []) == Some(s)
  {
    assert s.work.db.rows + map[] == s.work.db.rows;
  }

  /** Without a row created in this transaction there is nothing a flush may change. */
  lemma NothingCreatedNothingChanged(s: State)
    requires Consistent(s) && s.pending == [] && s.work.created == {} && Flushed(s, []).Some?
    ensures Flushed(s, []) == Some(s)
  {
    forall id | id in s.changed
      ensures id in s.work.created
    {
      assert MayUpdate(s.work, id, s.changed[id]);
    }
    assert s.changed == map[];
    IdleFlush(s);
  }

  lemma {:induction false} InsertedAreTracked(w: Work, rows: seq<Row>, ids: seq<int>)
    requires InsertAll(w, rows, ids).Some? && (rows != [] || w.created != {})
    ensures InsertAll(w, rows, ids).value.created != {}
    decreases |rows|
  {
    if rows != [] {
      assert ids[0] in Inserted(w, ids[0], rows[0]).created;
      InsertedAreTracked(Inserted(w, ids[0], rows[0]), rows[1..], ids[1..]);
    }
  }

  lemma BeforeCommitKeeps(s: State, ids: seq<int>)
    requires Consistent(s) && BeforeCommit(s, ids).Some?
    ensures var r := BeforeCommit(s, ids).value;
            && Consistent(r) && r.committed == s.committed && r.work.table == s.work.table
            && r.pending == [] && (r.work.created != {} ==> r.changed == map[])
  {
    if s.pending != [] {
      FlushKeeps(s, ids);
      InsertedAreTracked(s.work, s.pending, ids);
      FlushKeeps(Flushed(s, ids).value, []);
    } else if s.work.created != {} {
      FlushKeeps(s, []);
    }
  }

  /** What a commit makes durable: everything it created is attested and everything else is as it was. */
  lemma CommitKeeps(s: State, ids: seq<int>, origin: Db)
    requires Consistent(s) && Attested(s.work.table, origin, s.committed)
    ensures var r := Committed(s, ids);
            Consistent(r) && r.work.table == s.work.table && Attested(r.work.table, origin, r.committed)
  {
    RollbackKeeps(s);
    if BeforeCommit(s, ids).Some? {
      BeforeCommitKeeps(s, ids);
      var r := BeforeCommit(s, ids).value;
      if r.work.created == {} || CreatedHaveLineage(r.work) {
        RollbackKeeps(r);
        if r.work.created != {} {
          IdleFlush(r);
        } else if Flushed(r, []).Some? {
          NothingCreatedNothingChanged(r);
        }
        DurableIsAttested(r, origin);
      }
    }
  }

  lemma DurableIsAttested(s: State, origin: Db)
    requires Consistent(s) && Attested(s.work.table, origin, s.committed) && CreatedHaveLineage(s.work)
    ensures Attested(s.work.table, origin, s.work.db)
  {
    var db := s.work.db;
    forall id | id in db.rows
      ensures (id in origin.rows && db.rows[id] == origin.rows[id])
           || LineageHolds(s.work.table, db.audits, id, db.rows[id])
    {
      if id !in s.work.created {
        assert id in s.committed.rows;
        if LineageHolds(s.work.table, s.committed.audits, id, db.rows[id]) {
          var a := db.rows[id].lineage.eventId.value;
          assert db.audits[a] == s.committed.audits[a];
        }
      }
    }
  }

  lemma SmallStepKeeps(s: State, step: Step)
    requires Consistent(s) && !step.Flush? && !step.Begin? && !step.Rollback? && !step.Commit?
    ensures var r := Execute(s, step); Consistent(r) && r.work.table == s.work.table && r.committed == s.committed
  {
  }

  lemma StepKeeps(s: State, step: Step, origin: Db)
    requires Consistent(s) && Attested(s.work.table, origin, s.committed)
    ensures var r := Execute(s, step);
            Consistent(r) && r.work.table == s.work.table && Attested(r.work.table, origin, r.committed)
  {
    RollbackKeeps(s);
    match step
    case Flush(ids) => if Flushed(s, ids).Some? { FlushKeeps(s, ids); }
    case Begin(ids) => if Flushed(s, ids).Some? { FlushKeeps(s, ids); }
    case Rollback =>
    case Commit(ids) => CommitKeeps(s, ids, origin);
    case _ => SmallStepKeeps(s, step);
  }

  lemma {:induction false} RunKeeps(table: Table, origin: Db, steps: seq<Step>)
    ensures var r := Run(Start(table, origin), steps);
            Consistent(r) && r.work.table == table && Attested(table, origin, r.committed)
  {
    if steps != [] {
      var before := steps[..|steps| - 1];
      RunKeeps(table, origin, before);
      StepKeeps(Run(Start(table, origin), before), steps[|steps| - 1], origin);
    }
  }

  /**
    In every run of the session, whatever is added, changed, deleted, rolled back
    or committed in between: a row that became durable is proven, column by column,
    by an audit event of its creation.
  */
  lemma CommittedRowsHaveLineage(table: Table, origin: Db, steps: seq<Step>, id: int)
    requires id in Run(Start(table, origin), steps).committed.rows
    ensures var db := Run(Start(table, origin), steps).committed;
            || (id in origin.rows && db.rows[id] == origin.rows[id])
            || Proven(table, db.audits, id, db.rows[id])
  {
    RunKeeps(table, origin, steps);
    var db := Run(Start(table, origin), steps).committed;
    LineageExactly(table, db.audits, id, db.rows[id]);
  }

  // ------------------------------------------------------- nothing changes later

  /** A row as an earlier transaction committed it, in every version of the database the session can return to. */
  ghost predicate Settled(s: State, id: int, row: Row) {
    && id !in s.work.created
    && id in s.committed.rows && s.committed.rows[id] == row
    && id in s.work.db.rows && s.work.db.rows[id] == row
    && forall i | 0 <= i < |s.savepoints| :: id in s.savepoints[i].rows && s.savepoints[i].rows[id] == row
  }

  lemma FlushKeepsSettled(s: State, ids: seq<int>, id: int, row: Row)
    requires Consistent(s) && Settled(s, id, row) && Flushed(s, ids).Some?
    ensures Settled(Flushed(s, ids).value, id, row)
  {
    FlushKeeps(s, ids);
    FlushInitializesOnce(s, ids, id);
    InsertAllTracksOnlyNew(s.work, s.pending, ids, id);
  }

  lemma BeforeCommitKeepsSettled(s: State, ids: seq<int>, id: int, row: Row)
    requires Consistent(s) && Settled(s, id, row) && BeforeCommit(s, ids).Some?
    ensures Settled(BeforeCommit(s, ids).value, id, row)
  {
    if s.pending != [] {
      FlushKeeps(s, ids);
      FlushKeepsSettled(s, ids, id, row);
    }
    var s1 := if s.pending != [] then Flushed(s, ids).value else s;
    if s1.work.created != {} {
      FlushKeepsSettled(s1, [], id, row);
    }
  }

  lemma CommitKeepsSettled(s: State, ids: seq<int>, id: int, row: Row)
    requires Consistent(s) && Settled(s, id, row)
    ensures Settled(Committed(s, ids), id, row)
  {
    if BeforeCommit(s, ids).Some? {
      BeforeCommitKeeps(s, ids);
      BeforeCommitKeepsSettled(s, ids, id, row);
      var s1 := BeforeCommit(s, ids).value;
      if Flushed(s1, []).Some? {
        FlushKeepsSettled(s1, [], id, row);
      }
    }
  }

  lemma StepKeepsSettled(s: State, step: Step, id: int, row: Row)
    requires Consistent(s) && Settled(s, id, row) && step != Delete(id)
    ensures Settled(Execute(s, step), id, row)
  {
    match step
    case Flush(ids) => if Flushed(s, ids).Some? { FlushKeepsSettled(s, ids, id, row); }
    case Begin(ids) => if Flushed(s, ids).Some? { FlushKeepsSettled(s, ids, id, row); }
    case Commit(ids) => CommitKeepsSettled(s, ids, id, row);
    case _ =>
  }

  lemma {:induction false} CommittedRowsStaySettled(table: Table, origin: Db, steps: seq<Step>, later: seq<Step>,
                                                    id: int)
    requires var s := Run(Start(table, origin), steps);
             s.work.created == {} && s.savepoints == [] && s.work.db == s.committed && id in s.committed.rows
    requires forall i | 0 <= i < |later| :: later[i] != Delete(id)
    ensures var s := Run(Start(table, origin), steps);
            Settled(Run(Start(table, origin), steps + later), id, s.committed.rows[id])
  {
    var s := Run(Start(table, origin), steps);
    if later == [] {
      assert steps + later == steps;
    } else {
      var n := |later| - 1;
      CommittedRowsStaySettled(table, origin, steps, later[..n], id);
      RunKeeps(table, origin, steps + later[..n]);
      assert (steps + later)[..|steps + later| - 1] == steps + later[..n];
      StepKeepsSettled(Run(Start(table, origin), steps + later[..n]), later[n], id, s.committed.rows[id]);
    }
  }

  /** Once committed, a row keeps every field for as long as nothing deletes it. */
  lemma CommittedRowsNeverChange(table: Table, origin: Db, steps: seq<Step>, later: seq<Step>, id: int)
    requires var s := Run(Start(table, origin), steps);
             s.work.created == {} && s.savepoints == [] && s.work.db == s.committed && id in s.committed.rows
    requires forall i | 0 <= i < |later| :: later[i] != Delete(id)
    ensures var s, t := Run(Start(table, origin), steps), Run(Start(table, origin), steps + later);
            && id in t.committed.rows && t.committed.rows[id] == s.committed.rows[id]
            && id in t.work.db.rows && t.work.db.rows[id] == s.committed.rows[id]
  {
    CommittedRowsStaySettled(table, origin, steps, later, id);
  }

  lemma RunOneMore(s: State, steps: seq<Step>, step: Step)
    ensures Run(s, steps + [step]) == Execute(Run(s, steps), step)
  {
    assert (steps + [step])[..|steps|] == steps;
  }

  /** A row that is removed again in its creating transaction needs no lineage: nothing is left of it. */
  lemma RemovedRowsPass(table: Table, origin: Db, id: int, facts: Facts)
    requires id !in origin.rows
    ensures var bare := Row(facts, Lineage(None, None, None));
            Run(Start(table, origin), [Add(bare)] + [Flush([id])] + [Delete(id)] + [Commit([])])
            == Start(table, origin).(work := Start(table, origin).work.(creator := map[id := 0], root := 1))
  {
    var bare := Row(facts, Lineage(None, None, None));
    var s := Start(table, origin);
    RunOneMore(s, [], Add(bare));
    RunOneMore(s, [Add(bare)], Flush([id]));
    RunOneMore(s, [Add(bare)] + [Flush([id])], Delete(id));
    RunOneMore(s, [Add(bare)] + [Flush([id])] + [Delete(id)], Commit([]));
    assert [] + [Add(bare)] == [Add(bare)];
    AddAndFlush(s, id, bare);
    var s2 := s.(work := Inserted(s.work, id, bare));
    var s3 := Execute(s2, Delete(id));
    assert origin.rows[id := bare] - {id} == origin.rows;
    assert s3 == s.(work := s.work.(created := {id}, creator := map[id := 0]));
    IdleFlush(s3);
  }

  /** The lawful order of writes goes through: insert, record the creation, set the lineage, commit. */
  lemma CreationSucceeds(table: Table, origin: Db, id: int, facts: Facts, auditId: int, event: AuditEvent)
    requires id !in origin.rows && auditId !in origin.audits
    requires var row := Row(facts, Lineage(Some(auditId), Some(event.signature), Some(event.version)));
             Proven(table, map[auditId := event], id, row)
    ensures var row := Row(facts, Lineage(Some(auditId), Some(event.signature), Some(event.version)));
            var bare := Row(facts, Lineage(None, None, None));
            var steps := [Add(bare)] + [Flush([id])] + [Record(auditId, event)] + [Change(id, row)] + [Commit([])];
            Run(Start(table, origin), steps).committed == Db(origin.rows[id := row], origin.audits[auditId := event])
  {
    var row := Row(facts, Lineage(Some(auditId), Some(event.signature), Some(event.version)));
    var bare := Row(facts, Lineage(None, None, None));
    var s := Start(table, origin);
    assert [] + [Add(bare)] == [Add(bare)];
    RunOneMore(s, [], Add(bare));
    RunOneMore(s, [Add(bare)], Flush([id]));
    RunOneMore(s, [Add(bare)] + [Flush([id])], Record(auditId, event));
    RunOneMore(s, [Add(bare)] + [Flush([id])] + [Record(auditId, event)], Change(id, row));
    RunOneMore(s, [Add(bare)] + [Flush([id])] + [Record(auditId, event)] + [Change(id, row)], Commit([]));
    LineageExactly(table, map[auditId := event], id, row);
    AddAndFlush(Start(table, origin), id, bare);
    var s2 := Start(table, origin).(work := Inserted(Start(table, origin).work, id, bare));
    RecordChangeCommit(s2, id, row, auditId, event);
  }

  lemma AddAndFlush(s: State, id: int, bare: Row)
    requires s.pending == [] && s.changed == map[] && MayInsert(s.work, id, bare)
    ensures Execute(Execute(s, Add(bare)), Flush([id])) == s.(work := Inserted(s.work, id, bare))
  {
    var s1 := s.(pending := [bare]);
    assert Execute(s, Add(bare)) == s1 by {
      assert s.pending + [bare] == [bare];
    }
    FlushOneNew(s1, id, bare);
    assert Execute(s1, Flush([id])) == Flushed(s1, [id]).value;
  }

  lemma RecordChangeCommit(s: State, id: int, row: Row, auditId: int, event: AuditEvent)
    requires s.pending == [] && s.changed == map[] && s.work.created == {id} && auditId !in s.work.db.audits
    requires var more := s.work.(db := s.work.db.(audits := s.work.db.audits[auditId := event]));
             MayUpdate(more, id, row)
    ensures Execute(Execute(Execute(s, Record(auditId, event)), Change(id, row)), Commit([])).committed
         == Db(s.work.db.rows[id := row], s.work.db.audits[auditId := event])
  {
    var s3 := s.(work := s.work.(db := s.work.db.(audits := s.work.db.audits[auditId := event])));
    assert Execute(s, Record(auditId, event)) == s3;
    ChangeOne(s3, id, row);
    CommitOneChanged(s3.(changed := map[id := row]), id, row);
  }

  lemma ChangeOne(s: State, id: int, row: Row)
    requires s.changed == map[] && id in s.work.db.rows
    ensures Execute(s, Change(id, row)) == s.(changed := map[id := row])
  {
  }

  lemma CommitOneChanged(s: State, id: int, row: Row)
    requires s.pending == [] && s.changed == map[id := row] && MayUpdate(s.work, id, row)
    requires s.work.created == {id}
    ensures Committed(s, []).committed == Updated(s.work, id, row).db
  {
    FlushOneChanged(s, id, row);
    IdleFlush(s.(work := Updated(s.work, id, row), changed := map[]));
  }

  lemma FlushOneNew(s: State, id: int, row: Row)
    requires s.pending == [row] && s.changed == map[] && MayInsert(s.work, id, row)
    ensures Flushed(s, [id]) == Some(s.(work := Inserted(s.work, id, row), pending := []))
  {
    var w := Inserted(s.work, id, row);
    assert InsertAll(w, s.pending[1..], [id][1..]) == Some(w);
    assert w.db.rows + map[] == w.db.rows;
  }

  lemma FlushOneChanged(s: State, id: int, row: Row)
    requires s.pending == [] && s.changed == map[id := row] && MayUpdate(s.work, id, row)
    ensures Flushed(s, []) == Some(s.(work := Updated(s.work, id, row), changed := map[]))
  {
    assert s.work.db.rows + map[id := row] == s.work.db.rows[id := row];
  }
}
