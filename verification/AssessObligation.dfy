/**
  Models assess_obligation (app/feats/assess_obligation_feat.py): check, insert
  under a savepoint, recover the winner's row. `ObligationSession.Assess` is the
  function in one session; the race is a transition system of any number of
  sessions at read-committed isolation, with the partial unique index on
  (internal_ref, correlation_id) of ASSESSMENT rows.
*/
module AssessObligation {
  import opened Basics

  /** PAYMENT, WAIVED and WITHDRAWN rows are settlements; the index does not see them. */
  datatype EventType = Assessment | Settlement

  datatype Row = Row(id: int, internalRef: string, correlationId: string, eventType: EventType)

  datatype Key = Key(internalRef: string, correlationId: string)

  predicate IsFor(row: Row, key: Key) {
    row.eventType.Assessment? && row.internalRef == key.internalRef && row.correlationId == key.correlationId
  }

  /** check_idempotency_assessment, and the query of the recovery. */
  predicate Assessed(rows: set<Row>, key: Key) {
    exists r | r in rows :: IsFor(r, key)
  }

  /** get_assessment_for_correlation: the first row, whichever it is, that has the correlation id. */
  predicate Correlated(rows: set<Row>, found: Row, key: Key) {
    found in rows && found.eventType.Assessment? && found.correlationId == key.correlationId
  }

  /** A key is assessed exactly when an ASSESSMENT row has its internal_ref and its correlation id. */
  lemma AssessedExactly(rows: set<Row>, key: Key)
    ensures Assessed(rows, key) <==>
              exists r | r in rows :: r == Row(r.id, key.internalRef, key.correlationId, Assessment)
    ensures forall r :: Correlated(rows, r, key) <==>
              r in rows && r == Row(r.id, r.internalRef, key.correlationId, Assessment)
  {
    if r :| r in rows && IsFor(r, key) {
      assert r == Row(r.id, key.internalRef, key.correlationId, Assessment);
    }
    if r :| r in rows && r == Row(r.id, key.internalRef, key.correlationId, Assessment) {
      assert IsFor(r, key);
    }
  }

  lemma AssessedInMore(rows: set<Row>, more: set<Row>, key: Key)
    requires rows <= more
    ensures Assessed(rows, key) ==> Assessed(more, key)
  {
  }

  predicate OnePerKey(rows: set<Row>) {
    forall r, q | r in rows && q in rows && r.eventType.Assessment? && q.eventType.Assessment?
                  && r.internalRef == q.internalRef && r.correlationId == q.correlationId :: r == q
  }

  // ------------------------------------------------------------------ one session

  datatype Request = Request(seatId: int, classId: string, internalRef: string, correlationId: string,
                             obligationType: string)

  function KeyOf(request: Request): Key { Key(request.internalRef, request.correlationId) }

  predicate HasInputs(request: Request) {
    request.seatId != 0 && request.classId != "" && request.internalRef != "" && request.correlationId != ""
    && request.obligationType != ""
  }

  datatype AssessError = MissingInput | Integrity

  /** What other sessions have committed, as each statement of the call sees it, and what the flush meets. */
  datatype Weather = Weather(atCheck: set<Row>, atFlush: set<Row>, atRecovery: set<Row>, newId: int,
                             otherViolation: bool)

  function NewRow(id: int, key: Key): Row { Row(id, key.internalRef, key.correlationId, Assessment) }

  /**
    What a call with all inputs comes to: a row that shares the correlation id where the check finds the key taken;
    the new row where nothing stands against it at the flush; otherwise a row for the key, if the recovery sees one,
    and the integrity error if it sees none. Only the new row is added to the session's rows.
   */
  predicate Assesses(key: Key, weather: Weather, before: set<Row>, r: Result<Row, AssessError>, after: set<Row>) {
    var inserts := !weather.otherViolation && !Assessed(weather.atFlush + before, key);
    && r != Failure(MissingInput)
    && (r == Failure(Integrity) <==> weather.otherViolation && !Assessed(weather.atRecovery + before, key))
    && (r.Success? ==>
          if Assessed(weather.atCheck + before, key) then Correlated(weather.atCheck + before, r.value, key)
          else if inserts then r.value == NewRow(weather.newId, key)
          else r.value in weather.atRecovery + before && IsFor(r.value, key))
    && after == if inserts then before + {NewRow(weather.newId, key)} else before
  }

  /** The same in the order of the statements, for other sessions that only ever add rows. */
  lemma AssessesExactly(key: Key, weather: Weather, before: set<Row>, r: Result<Row, AssessError>, after: set<Row>)
    requires weather.atCheck <= weather.atFlush <= weather.atRecovery
    ensures Assesses(key, weather, before, r, after) <==>
              if Assessed(weather.atCheck + before, key) then
                r.Success? && Correlated(weather.atCheck + before, r.value, key) && after == before
              else if !weather.otherViolation && !Assessed(weather.atFlush + before, key) then
                && r == Success(Row(weather.newId, key.internalRef, key.correlationId, Assessment))
                && after == before + {r.value}
              else if Assessed(weather.atRecovery + before, key) then
                && r.Success? && r.value in weather.atRecovery + before && after == before
                && r.value == Row(r.value.id, key.internalRef, key.correlationId, Assessment)
              else r == Failure(Integrity) && after == before
  {
    AssessedInMore(weather.atCheck + before, weather.atFlush + before, key);
    AssessedInMore(weather.atFlush + before, weather.atRecovery + before, key);
    match r
    case Success(row) =>
      assert IsFor(row, key) <==> row == Row(row.id, key.internalRef, key.correlationId, Assessment);
    case Failure(MissingInput) =>
    case Failure(Integrity) =>
  }

  class ObligationSession {
    var writes: set<Row>

    constructor ()
      ensures writes == {}
    {
      writes := {};
    }

    method Assess(request: Request, weather: Weather) returns (r: Result<Row, AssessError>)
      requires weather.atCheck <= weather.atFlush <= weather.atRecovery
      modifies this
      ensures r == Failure(MissingInput)
              <==> || request.seatId == 0 || request.classId == "" || request.internalRef == ""
                   || request.correlationId == "" || request.obligationType == ""
      ensures if HasInputs(request) then Assesses(KeyOf(request), weather, old(writes), r, writes)
              else writes == old(writes)
    {
      if !HasInputs(request) {
        return Failure(MissingInput);
      }
      var key := KeyOf(request);
      AssessedInMore(weather.atCheck + writes, weather.atFlush + writes, key);
      AssessedInMore(weather.atFlush + writes, weather.atRecovery + writes, key);
      if Assessed(weather.atCheck + writes, key) {
        ghost var own :| own in weather.atCheck + writes && IsFor(own, key);
        assert Correlated(weather.atCheck + writes, own, key);
        var existing :| Correlated(weather.atCheck + writes, existing, key);
        return Success(existing);
      }
      var assessment := NewRow(weather.newId, key);
      var savepoint := writes;
      writes := writes + {assessment};
      if !weather.otherViolation && !Assessed(weather.atFlush + savepoint, key) {
        return Success(assessment);
      }
      writes := savepoint;
      if Assessed(weather.atRecovery + writes, key) {
        var existing :| existing in weather.atRecovery + writes && IsFor(existing, key);
        return Success(existing);
      }
      return Failure(Integrity);
    }
  }

  // ------------------------------------------------------------- the race of many

  /** Where a session stands in its current call; a conflict is a breach of the partial index. */
  datatype Phase =
    | Idle
    | Called
    | Checked
    | InSavepoint
    | Broken(conflict: bool)
    | Recovering(conflict: bool)
    | Raised
    | Over

  datatype Outcome = Outcome(key: Key, row: Row)

  /** A session: its call, its uncommitted rows, its open savepoint, and what its calls have returned. */
  datatype Caller = Caller(key: Key, phase: Phase, writes: set<Row>, savepoint: Option<set<Row>>,
                           returned: set<Outcome>) {
    /** The rows that the index counts for this transaction: a failed insert counts for nothing. */
    function Live(): set<Row> {
      if savepoint.Some? then savepoint.value else writes
    }
  }

  datatype System = System(committed: set<Row>, callers: seq<Caller>)

  datatype Step =
    | Call(key: Key)
    | Check(found: Row)
    | OpenSavepoint
    | Flush(id: int, otherViolation: bool)
    | RollBackSavepoint
    | Recover(found: Row)
    | Caught
    | Settle(row: Row)
    | Commit
    | Abort

  function Sees(s: System, c: nat): set<Row>
    requires c < |s.callers|
  {
    s.committed + s.callers[c].writes
  }

  /** No other open transaction holds an uncommitted row with the key; otherwise the insert waits. */
  predicate Unblocked(s: System, c: nat, key: Key) {
    forall d | 0 <= d < |s.callers| && d != c :: !Assessed(s.callers[d].Live(), key)
  }

  predicate NewId(s: System, id: int) {
    (forall r | r in s.committed :: r.id != id)
    && forall d, r | 0 <= d < |s.callers| && r in s.callers[d].Live() :: r.id != id
  }

  /**
    One step of caller c. Who catches a re-raised error goes on, for the savepoint
    is already rolled back. A step that is not possible now leaves everything as it is.
   */
  function Stepped(s: System, c: nat, step: Step): Caller
    requires c < |s.callers|
  {
    var me := s.callers[c];
    match step
    case Call(key) => if me.phase.Idle? then me.(key := key, phase := Called) else me
    case Check(found) =>
      if !me.phase.Called? then me
      else if !Assessed(Sees(s, c), me.key) then me.(phase := Checked)
      else if Correlated(Sees(s, c), found, me.key) then Returns(me, found)
      else me
    case OpenSavepoint => if me.phase.Checked? then me.(phase := InSavepoint, savepoint := Some(me.writes)) else me
    case Flush(id, otherViolation) =>
      var assessment := NewRow(id, me.key);
      if !me.phase.InSavepoint? || !NewId(s, id) || !Unblocked(s, c, me.key) then me
      else if Assessed(Sees(s, c), me.key) || otherViolation then
        me.(phase := Broken(Assessed(Sees(s, c), me.key)), writes := me.writes + {assessment})
      else Returns(me.(writes := me.writes + {assessment}, savepoint := None), assessment)
    case RollBackSavepoint =>
      if me.phase.Broken? && me.savepoint.Some? then
        me.(phase := Recovering(me.phase.conflict), writes := me.savepoint.value, savepoint := None)
      else me
    case Recover(found) =>
      if !me.phase.Recovering? then me
      else if !Assessed(Sees(s, c), me.key) then me.(phase := Raised)
      else if found in Sees(s, c) && IsFor(found, me.key) then Returns(me, found)
      else me
    case Settle(row) =>
      if me.phase.Idle? && row.eventType.Settlement? && NewId(s, row.id) then me.(writes := me.writes + {row}) else me
    case Commit => if me.phase.Idle? then me.(phase := Over, writes := {}) else me
    case Caught => if me.phase.Raised? then me.(phase := Idle) else me
    case Abort => if me.phase.Over? then me else me.(phase := Over, writes := {}, savepoint := None, returned := {})
  }

  function Returns(me: Caller, row: Row): Caller {
    me.(phase := Idle, returned := me.returned + {Outcome(me.key, row)})
  }

  function Next(s: System, c: nat, step: Step): System {
    if c >= |s.callers| then s
    else
      var commits := step.Commit? && s.callers[c].phase.Idle?;
      var committed := if commits then s.committed + s.callers[c].writes else s.committed;
      System(committed, s.callers[c := Stepped(s, c, step)])
  }

  datatype Move = Move(caller: nat, step: Step)

  function Run(s: System, moves: seq<Move>): System {
    if moves == [] then s
    else
      var n := |moves| - 1;
      Next(Run(s, moves[..n]), moves[n].caller, moves[n].step)
  }

  // ------------------------------------------------------------------- invariants

  /** A savepoint is open exactly while an insert is tried, and a broken one holds what was there before. */
  predicate WellFormed(me: Caller) {
    && (me.savepoint.Some? <==> me.phase.InSavepoint? || me.phase.Broken?)
    && (me.phase.InSavepoint? ==> me.savepoint.value == me.writes)
  }

  /** The rows of two transactions, or of one and the committed ones, never share a key. */
  predicate Apart(a: set<Row>, b: set<Row>) {
    forall r, q | r in a && q in b && r.eventType.Assessment? && q.eventType.Assessment?
                  :: r.internalRef != q.internalRef || r.correlationId != q.correlationId
  }

  /** At most one ASSESSMENT row per key, counting every committed and every uncommitted row. */
  ghost predicate Exclusive(s: System) {
    && OnePerKey(s.committed)
    && (forall c | 0 <= c < |s.callers| :: WellFormed(s.callers[c]))
    && (forall c | 0 <= c < |s.callers| :: OnePerKey(s.callers[c].Live()) && Apart(s.callers[c].Live(), s.committed))
    && forall c, d | 0 <= c < d < |s.callers| :: Apart(s.callers[c].Live(), s.callers[d].Live())
  }

  function Initial(committed: set<Row>, sessions: nat): System {
    System(committed, seq(sessions, i => Caller(Key("", ""), Idle, {}, None, {})))
  }

  /** What one step does to the rows that count for the caller. */
  lemma StepOnLive(s: System, c: nat, step: Step)
    requires c < |s.callers| && WellFormed(s.callers[c])
    ensures WellFormed(Stepped(s, c, step))
    ensures var before, after, key := s.callers[c].Live(), Stepped(s, c, step).Live(), s.callers[c].key;
            || after == before
            || after == {}
            || (exists r :: after == before + {r} && r.eventType.Settlement?)
            || (exists r :: after == before + {r} && IsFor(r, key)
                            && Unblocked(s, c, key) && !Assessed(s.committed + before, key))
  {
    var me := s.callers[c];
    if step.Settle? && Stepped(s, c, step).Live() != me.Live() {
      assert Stepped(s, c, step).Live() == me.Live() + {step.row};
    } else if step.Flush? && Stepped(s, c, step).Live() != me.Live() {
      var r := NewRow(step.id, me.key);
      assert Stepped(s, c, step).Live() == me.Live() + {r} && IsFor(r, me.key);
    }
  }

  lemma ApartFromOne(a: set<Row>, b: set<Row>, r: Row, key: Key)
    requires Apart(a, b) && (r.eventType.Settlement? || (IsFor(r, key) && !Assessed(b, key)))
    ensures Apart(a + {r}, b) && Apart(b, a + {r})
  {
  }

  lemma OneMorePerKey(a: set<Row>, r: Row, key: Key)
    requires OnePerKey(a) && (r.eventType.Settlement? || (IsFor(r, key) && !Assessed(a, key)))
    ensures OnePerKey(a + {r})
  {
  }

  lemma AssessedInUnion(a: set<Row>, b: set<Row>, key: Key)
    ensures Assessed(a + b, key) <==> Assessed(a, key) || Assessed(b, key)
  {
    if r :| r in a && IsFor(r, key) { assert r in a + b; }
    if r :| r in b && IsFor(r, key) { assert r in a + b; }
  }

  /** The caller's rows may be replaced by any that keep apart from everyone else's. */
  lemma ReplaceCaller(s: System, c: nat, me: Caller)
    requires Exclusive(s) && c < |s.callers| && WellFormed(me)
    requires OnePerKey(me.Live()) && Apart(me.Live(), s.committed)
    requires forall d | 0 <= d < |s.callers| && d != c ::
               Apart(me.Live(), s.callers[d].Live()) && Apart(s.callers[d].Live(), me.Live())
    ensures Exclusive(System(s.committed, s.callers[c := me]))
  {
  }

  lemma ApartBothWays(s: System, c: nat, d: nat)
    requires Exclusive(s) && c < |s.callers| && d < |s.callers| && c != d
    ensures Apart(s.callers[c].Live(), s.callers[d].Live()) && Apart(s.callers[d].Live(), s.callers[c].Live())
  {
    if d < c {
      assert Apart(s.callers[d].Live(), s.callers[c].Live());
    } else {
      assert Apart(s.callers[c].Live(), s.callers[d].Live());
    }
  }

  lemma AddRow(s: System, c: nat, me: Caller, r: Row, key: Key)
    requires Exclusive(s) && c < |s.callers| && WellFormed(me) && me.Live() == s.callers[c].Live() + {r}
    requires r.eventType.Settlement?
          || (IsFor(r, key) && Unblocked(s, c, key) && !Assessed(s.committed + s.callers[c].Live(), key))
    ensures Exclusive(System(s.committed, s.callers[c := me]))
  {
    var live := s.callers[c].Live();
    AssessedInUnion(s.committed, live, key);
    OneMorePerKey(live, r, key);
    ApartFromOne(live, s.committed, r, key);
    forall d | 0 <= d < |s.callers| && d != c
      ensures Apart(me.Live(), s.callers[d].Live()) && Apart(s.callers[d].Live(), me.Live())
    {
      ApartBothWays(s, c, d);
      ApartFromOne(live, s.callers[d].Live(), r, key);
    }
    ReplaceCaller(s, c, me);
  }

  lemma KeepOrDropRows(s: System, c: nat, me: Caller)
    requires Exclusive(s) && c < |s.callers| && WellFormed(me) && me.Live() <= s.callers[c].Live()
    ensures Exclusive(System(s.committed, s.callers[c := me]))
  {
    forall d | 0 <= d < |s.callers| && d != c
      ensures Apart(me.Live(), s.callers[d].Live()) && Apart(s.callers[d].Live(), me.Live())
    {
      ApartBothWays(s, c, d);
    }
    ReplaceCaller(s, c, me);
  }

  lemma CommitRows(s: System, c: nat, me: Caller)
    requires Exclusive(s) && c < |s.callers| && WellFormed(me) && me.Live() == {}
    ensures Exclusive(System(s.committed + s.callers[c].Live(), s.callers[c := me]))
  {
    var live := s.callers[c].Live();
    assert OnePerKey(s.committed + live);
    forall d | 0 <= d < |s.callers| && d != c
      ensures Apart(s.callers[d].Live(), s.committed + live)
    {
      ApartBothWays(s, c, d);
    }
  }

  lemma StepIsExclusive(s: System, c: nat, step: Step)
    requires Exclusive(s)
    ensures Exclusive(Next(s, c, step))
  {
    if c < |s.callers| {
      var me, key := Stepped(s, c, step), s.callers[c].key;
      StepOnLive(s, c, step);
      if step.Commit? && s.callers[c].phase.Idle? {
        CommitRows(s, c, me);
      } else if me.Live() <= s.callers[c].Live() {
        KeepOrDropRows(s, c, me);
      } else if r :| me.Live() == s.callers[c].Live() + {r} && r.eventType.Settlement? {
        AddRow(s, c, me, r, key);
      } else {
        var r :| me.Live() == s.callers[c].Live() + {r} && IsFor(r, key)
                 && Unblocked(s, c, key) && !Assessed(s.committed + s.callers[c].Live(), key);
        AddRow(s, c, me, r, key);
      }
    }
  }

  lemma {:induction false} RunIsExclusive(s: System, moves: seq<Move>)
    requires Exclusive(s)
    ensures Exclusive(Run(s, moves)) && |Run(s, moves).callers| == |s.callers|
  {
    if moves != [] {
      var n := |moves| - 1;
      RunIsExclusive(s, moves[..n]);
      StepIsExclusive(Run(s, moves[..n]), moves[n].caller, moves[n].step);
    }
  }

  /** Committed, or not yet committed by a session whose transaction is still good. */
  ghost predicate Exists(s: System, r: Row) {
    r in s.committed || exists c | 0 <= c < |s.callers| :: r in s.callers[c].Live()
  }

  /** However many sessions race, at most one ASSESSMENT row exists for an internal_ref and correlation id. */
  lemma AtMostOneAssessment(committed: set<Row>, sessions: nat, moves: seq<Move>, r: Row, q: Row, key: Key)
    requires OnePerKey(committed)
    requires var s := Run(Initial(committed, sessions), moves); Exists(s, r) && Exists(s, q)
    requires r.eventType.Assessment? && r.internalRef == key.internalRef && r.correlationId == key.correlationId
    requires q.eventType.Assessment? && q.internalRef == key.internalRef && q.correlationId == key.correlationId
    ensures r == q
  {
    var s := Run(Initial(committed, sessions), moves);
    RunIsExclusive(Initial(committed, sessions), moves);
    OnlyOne(s, r, q, key);
  }

  lemma OnlyOne(s: System, r: Row, q: Row, key: Key)
    requires Exclusive(s) && Exists(s, r) && Exists(s, q) && IsFor(r, key) && IsFor(q, key)
    ensures r == q
  {
    if r !in s.committed && q !in s.committed {
      var c :| 0 <= c < |s.callers| && r in s.callers[c].Live();
      var d :| 0 <= d < |s.callers| && q in s.callers[d].Live();
      if c != d {
        ApartBothWays(s, c, d);
      }
    }
  }

  // ------------------------------------------------- the steps of one call are Assess

  /** What the statements of caller c's call have seen so far. */
  function Noticed(weather: Weather, s: System, c: nat, step: Step): Weather {
    if c >= |s.callers| then weather
    else
      var seen, phase := s.committed, s.callers[c].phase;
      match step
      case Check(_) => if phase.Called? then Weather(seen, seen, seen, 0, false) else weather
      case Flush(id, otherViolation) =>
        if phase.InSavepoint? then Weather(weather.atCheck, seen, seen, id, otherViolation) else weather
      case Recover(_) => if phase.Recovering? then weather.(atRecovery := seen) else weather
      case _ => weather
  }

  function WeatherOf(s: System, moves: seq<Move>, c: nat): Weather {
    if moves == [] then Weather(s.committed, s.committed, s.committed, 0, false)
    else
      var n := |moves| - 1;
      var before := WeatherOf(s, moves[..n], c);
      if moves[n].caller == c then Noticed(before, Run(s, moves[..n]), c, moves[n].step) else before
  }

  /** Between the call and its return, its error or the end of the transaction. */
  predicate InCall(phase: Phase) { !phase.Idle? && !phase.Raised? && !phase.Over? }

  /** The call has come to an end as `Assess` ends in this weather, with these rows in the session before it. */
  ghost predicate EndsAsAssess(start: Caller, weather: Weather, me: Caller) {
    && (me.phase.Raised? ==>
          me.returned == start.returned
          && Assesses(start.key, weather, start.writes, Failure(Integrity), me.writes))
    && (me.phase.Idle? ==>
          exists row :: me.returned == start.returned + {Outcome(start.key, row)}
                        && Assesses(start.key, weather, start.writes, Success(row), me.writes))
  }

  /** What a call that began as `start`, with `since` committed, has found out by the phase it has reached. */
  ghost predicate Underway(since: set<Row>, start: Caller, weather: Weather, me: Caller, committed: set<Row>) {
    && since <= weather.atCheck <= weather.atFlush <= weather.atRecovery <= committed
    && (InCall(me.phase) ==> me.key == start.key && me.returned == start.returned)
    && (me.phase.Called? || me.phase.Checked? || me.phase.InSavepoint? || me.phase.Recovering? ==>
          me.writes == start.writes)
    && (me.phase.InSavepoint? || me.phase.Broken? ==> me.savepoint == Some(start.writes))
    && (InCall(me.phase) && !me.phase.Called? ==> !Assessed(weather.atCheck + start.writes, start.key))
    && (me.phase.Broken? || me.phase.Recovering? ==>
          weather.otherViolation || Assessed(weather.atFlush + start.writes, start.key))
    && EndsAsAssess(start, weather, me)
  }

  lemma CheckIsAssess(since: set<Row>, start: Caller, weather: Weather, s: System, c: nat, found: Row)
    requires c < |s.callers| && s.callers[c].phase.Called?
    requires Underway(since, start, weather, s.callers[c], s.committed)
    ensures Underway(since, start, Noticed(weather, s, c, Check(found)), Stepped(s, c, Check(found)), s.committed)
  {
    var me := Stepped(s, c, Check(found));
    if me.phase.Idle? {
      assert me.returned == start.returned + {Outcome(start.key, found)};
      assert Assesses(start.key, Noticed(weather, s, c, Check(found)), start.writes, Success(found), me.writes);
    }
  }

  lemma FlushIsAssess(since: set<Row>, start: Caller, weather: Weather, s: System, c: nat, id: int,
                      otherViolation: bool)
    requires c < |s.callers| && s.callers[c].phase.InSavepoint?
    requires Underway(since, start, weather, s.callers[c], s.committed)
    ensures var step := Flush(id, otherViolation);
            Underway(since, start, Noticed(weather, s, c, step), Stepped(s, c, step), s.committed)
  {
    var step, row := Flush(id, otherViolation), NewRow(id, start.key);
    var me := Stepped(s, c, step);
    if me.phase.Idle? {
      assert me.returned == start.returned + {Outcome(start.key, row)};
      assert Assesses(start.key, Noticed(weather, s, c, step), start.writes, Success(row), me.writes);
    }
  }

  lemma RecoveryIsAssess(since: set<Row>, start: Caller, weather: Weather, s: System, c: nat, found: Row)
    requires c < |s.callers| && s.callers[c].phase.Recovering?
    requires Underway(since, start, weather, s.callers[c], s.committed)
    ensures Underway(since, start, Noticed(weather, s, c, Recover(found)), Stepped(s, c, Recover(found)), s.committed)
  {
    var me := Stepped(s, c, Recover(found));
    AssessedInMore(weather.atFlush + start.writes, s.committed + start.writes, start.key);
    if me.phase.Idle? {
      assert me.returned == start.returned + {Outcome(start.key, found)};
      assert Assesses(start.key, Noticed(weather, s, c, Recover(found)), start.writes, Success(found), me.writes);
    }
  }

  lemma StepIsAssess(since: set<Row>, start: Caller, weather: Weather, s: System, c: nat, actor: nat, step: Step)
    requires c < |s.callers| && InCall(s.callers[c].phase)
    requires Underway(since, start, weather, s.callers[c], s.committed)
    ensures var s' := Next(s, actor, step);
            Underway(since, start, if actor == c then Noticed(weather, s, c, step) else weather, s'.callers[c],
                     s'.committed)
  {
    if actor == c {
      if step.Check? && s.callers[c].phase.Called? {
        CheckIsAssess(since, start, weather, s, c, step.found);
      } else if step.Flush? && s.callers[c].phase.InSavepoint? {
        FlushIsAssess(since, start, weather, s, c, step.id, step.otherViolation);
      } else if step.Recover? && s.callers[c].phase.Recovering? {
        RecoveryIsAssess(since, start, weather, s, c, step.found);
      }
    }
  }

  lemma {:induction false} CallIsUnderway(s: System, moves: seq<Move>, c: nat)
    requires c < |s.callers| && s.callers[c].phase.Called?
    requires forall k | 0 <= k < |moves| ::
               c < |Run(s, moves[..k]).callers| && InCall(Run(s, moves[..k]).callers[c].phase)
    ensures c < |Run(s, moves).callers|
    ensures var after := Run(s, moves);
            Underway(s.committed, s.callers[c], WeatherOf(s, moves, c), after.callers[c], after.committed)
  {
    if moves != [] {
      var n := |moves| - 1;
      forall k | 0 <= k < n
        ensures c < |Run(s, moves[..n][..k]).callers| && InCall(Run(s, moves[..n][..k]).callers[c].phase)
      {
        assert moves[..n][..k] == moves[..k];
      }
      CallIsUnderway(s, moves[..n], c);
      StepIsAssess(s.committed, s.callers[c], WeatherOf(s, moves[..n], c), Run(s, moves[..n]), c, moves[n].caller,
                   moves[n].step);
    }
  }

  /**
    The steps of a call, interleaved with any steps of other sessions, end as `Assess` ends in the weather that they
    met: the same row or error, and the same rows in the session. That weather grew from what was committed at the
    call to what is committed now, as `Assess` demands.
   */
  lemma CallStepsAreAssess(s: System, moves: seq<Move>, c: nat)
    requires c < |s.callers| && s.callers[c].phase.Called?
    requires forall k | 0 <= k < |moves| ::
               c < |Run(s, moves[..k]).callers| && InCall(Run(s, moves[..k]).callers[c].phase)
    ensures c < |Run(s, moves).callers|
    ensures var start, after, weather := s.callers[c], Run(s, moves), WeatherOf(s, moves, c);
            var me := after.callers[c];
            && s.committed <= weather.atCheck <= weather.atFlush <= weather.atRecovery <= after.committed
            && (me.phase.Raised? ==>
                  me.returned == start.returned
                  && Assesses(start.key, weather, start.writes, Failure(Integrity), me.writes))
            && (me.phase.Idle? ==>
                  exists row :: me.returned == start.returned + {Outcome(start.key, row)}
                                && Assesses(start.key, weather, start.writes, Success(row), me.writes))
  {
    CallIsUnderway(s, moves, c);
  }

  // ----------------------------------------------------------- what callers get

  lemma StepKeepsWrites(s: System, c: nat, actor: nat, step: Step, r: Row)
    requires c < |s.callers| && WellFormed(s.callers[c]) && r in s.callers[c].Live()
    ensures var s' := Next(s, actor, step);
            r in s'.committed || r in s'.callers[c].Live() || (actor == c && step.Abort?)
  {
    if actor == c && !step.Abort? && !(step.Commit? && s.callers[c].phase.Idle?) {
      StepKeepsLive(s, c, step, r);
    }
  }

  lemma StepKeepsLive(s: System, c: nat, step: Step, r: Row)
    requires c < |s.callers| && WellFormed(s.callers[c]) && r in s.callers[c].Live() && !step.Abort?
    requires !(step.Commit? && s.callers[c].phase.Idle?)
    ensures r in Stepped(s, c, step).Live()
  {
  }

  lemma {:induction false} LiveRowsStay(s: System, later: seq<Move>, c: nat, r: Row)
    requires Exclusive(s) && c < |s.callers| && r in s.callers[c].Live() && Move(c, Abort) !in later
    ensures |Run(s, later).callers| == |s.callers|
    ensures r in Run(s, later).committed || r in Run(s, later).callers[c].Live()
  {
    RunIsExclusive(s, later);
    if later != [] {
      var n := |later| - 1;
      LiveRowsStay(s, later[..n], c, r);
      RunIsExclusive(s, later[..n]);
      if r in Run(s, later[..n]).callers[c].Live() {
        StepKeepsWrites(Run(s, later[..n]), c, later[n].caller, later[n].step, r);
      }
    }
  }

  /**
    A row is lost only with its session's whole transaction: whatever moves follow, without an abort of it the row
    is committed or still counts for the session, lost races of its later calls included.
   */
  lemma WritesAreKept(committed: set<Row>, sessions: nat, written: seq<Move>, later: seq<Move>, c: nat, r: Row)
    requires c < sessions && OnePerKey(committed) && Move(c, Abort) !in later
    requires var s := Run(Initial(committed, sessions), written);
             |s.callers| == sessions && r in s.callers[c].Live()
    ensures var s := Run(Run(Initial(committed, sessions), written), later);
            |s.callers| == sessions && (r in s.committed || r in s.callers[c].Live())
  {
    RunIsExclusive(Initial(committed, sessions), written);
    LiveRowsStay(Run(Initial(committed, sessions), written), later, c, r);
  }

  /** The insert that met the index: the row it met is still there, for this session to find. */
  predicate ConflictStands(committed: set<Row>, me: Caller) {
    (me.phase == Broken(true) || me.phase == Recovering(true)) ==> Assessed(committed + me.Live(), me.key)
  }

  lemma StepKeepsConflict(s: System, c: nat, actor: nat, step: Step)
    requires c < |s.callers| && WellFormed(s.callers[c]) && ConflictStands(s.committed, s.callers[c])
    ensures var s' := Next(s, actor, step); ConflictStands(s'.committed, s'.callers[c])
  {
    var s', me := Next(s, actor, step), s.callers[c];
    if actor == c && step.Flush? && me.phase.InSavepoint? {
      assert Sees(s, c) == s.committed + me.Live();
    }
    AssessedInUnion(s.committed, me.Live(), me.key);
    AssessedInUnion(s'.committed, me.Live(), me.key);
    if actor != c && actor < |s.callers| && step.Commit? && s.callers[actor].phase.Idle? {
      AssessedInUnion(s.committed, s.callers[actor].writes, me.key);
    }
  }

  lemma {:induction false} ConflictsStand(committed: set<Row>, sessions: nat, moves: seq<Move>, c: nat)
    requires c < sessions && OnePerKey(committed)
    ensures var s := Run(Initial(committed, sessions), moves);
            |s.callers| == sessions && ConflictStands(s.committed, s.callers[c])
  {
    RunIsExclusive(Initial(committed, sessions), moves);
    if moves != [] {
      var n := |moves| - 1;
      ConflictsStand(committed, sessions, moves[..n], c);
      RunIsExclusive(Initial(committed, sessions), moves[..n]);
      StepKeepsConflict(Run(Initial(committed, sessions), moves[..n]), c, moves[n].caller, moves[n].step);
    }
  }

  /** A session that lost to the index never re-raises: whatever the recovery finds, it returns a row for the key. */
  lemma LosersRecover(committed: set<Row>, sessions: nat, moves: seq<Move>, c: nat, found: Row)
    requires c < sessions && OnePerKey(committed)
    requires var s := Run(Initial(committed, sessions), moves);
             |s.callers| == sessions && s.callers[c].phase == Recovering(true)
    ensures var s := Run(Initial(committed, sessions), moves);
            && Assessed(Sees(s, c), s.callers[c].key)
            && !Stepped(s, c, Recover(found)).phase.Raised?
  {
    ConflictsStand(committed, sessions, moves, c);
    RunIsExclusive(Initial(committed, sessions), moves);
  }

  lemma RunOneMore(s: System, moves: seq<Move>, c: nat, step: Step)
    ensures Run(s, moves + [Move(c, step)]) == Next(Run(s, moves), c, step)
  {
    assert (moves + [Move(c, step)])[..|moves|] == moves;
  }

  /** One more move, from a known state to a known state. */
  lemma Moves(start: System, moves: seq<Move>, s: System, c: nat, step: Step, me: Caller) returns (longer: seq<Move>)
    requires Run(start, moves) == s && c < |s.callers| && Stepped(s, c, step) == me && !step.Commit?
    ensures Run(start, longer) == System(s.committed, s.callers[c := me])
    ensures longer == moves + [Move(c, step)]
  {
    longer := moves + [Move(c, step)];
    RunOneMore(start, moves, c, step);
  }

  const FRESH := Caller(Key("", ""), Idle, {}, None, {})

  function Trying(key: Key): Caller { Caller(key, InSavepoint, {}, Some({}), {}) }

  /** Both sessions pass the check before either has flushed. */
  lemma BothTry(key: Key) returns (moves: seq<Move>)
    ensures Run(Initial({}, 2), moves) == System({}, [Trying(key), Trying(key)])
  {
    var start, none := Initial({}, 2), Row(0, "", "", Settlement);
    var called := FRESH.(key := key, phase := Called);
    var checked := called.(phase := Checked);
    assert start.callers == [FRESH, FRESH];
    moves := Moves(start, [], start, 0, Call(key), called);
    moves := Moves(start, moves, System({}, [called, FRESH]), 1, Call(key), called);
    moves := Moves(start, moves, System({}, [called, called]), 0, Check(none), checked);
    moves := Moves(start, moves, System({}, [checked, called]), 1, Check(none), checked);
    moves := Moves(start, moves, System({}, [checked, checked]), 0, OpenSavepoint, Trying(key));
    moves := Moves(start, moves, System({}, [Trying(key), checked]), 1, OpenSavepoint, Trying(key));
  }

  lemma OneWins(key: Key, a: int, before: seq<Move>) returns (moves: seq<Move>)
    requires Run(Initial({}, 2), before) == System({}, [Trying(key), Trying(key)])
    ensures var row := NewRow(a, key);
            Run(Initial({}, 2), moves)
            == System({row}, [Caller(key, Over, {}, None, {Outcome(key, row)}), Trying(key)])
  {
    var start, row := Initial({}, 2), NewRow(a, key);
    var won := Caller(key, Idle, {row}, None, {Outcome(key, row)});
    moves := Moves(start, before, System({}, [Trying(key), Trying(key)]), 0, Flush(a, false), won);
    RunOneMore(start, moves, 0, Commit);
    moves := moves + [Move(0, Commit)];
    assert {} + {row} == {row};
  }

  /** Both sessions pass the check; the second to flush meets the index and is given the first one's row. */
  lemma LoserGetsTheWinnersRow(key: Key, a: int, b: int) returns (moves: seq<Move>)
    requires a != b
    ensures var s, row := Run(Initial({}, 2), moves), NewRow(a, key);
            && s.committed == {row} && |s.callers| == 2
            && s.callers[0].returned == s.callers[1].returned == {Outcome(key, row)}
            && s.callers[1].writes == {}
  {
    var start, row, lost := Initial({}, 2), NewRow(a, key), NewRow(b, key);
    moves := BothTry(key);
    moves := OneWins(key, a, moves);
    var over := Caller(key, Over, {}, None, {Outcome(key, row)});
    var broken := Caller(key, Broken(true), {lost}, Some({}), {});
    var recovering := Caller(key, Recovering(true), {}, None, {});
    assert IsFor(row, key) && row in Sees(System({row}, [over, Trying(key)]), 1);
    moves := Moves(start, moves, System({row}, [over, Trying(key)]), 1, Flush(b, false), broken);
    moves := Moves(start, moves, System({row}, [over, broken]), 1, RollBackSavepoint, recovering);
    assert row in Sees(System({row}, [over, recovering]), 1);
    moves := Moves(start, moves, System({row}, [over, recovering]), 1, Recover(row),
                   Caller(key, Idle, {}, None, {Outcome(key, row)}));
  }

  lemma OneTries(key: Key, row: Row) returns (moves: seq<Move>)
    ensures moves == [Move(0, Call(key)), Move(0, Check(row)), Move(0, OpenSavepoint)]
    ensures Run(Initial({}, 1), moves) == System({}, [Trying(key)])
  {
    var start, called := Initial({}, 1), FRESH.(key := key, phase := Called);
    var checked := called.(phase := Checked);
    assert start.callers == [FRESH];
    moves := Moves(start, [], start, 0, Call(key), called);
    moves := Moves(start, moves, System({}, [called]), 0, Check(row), checked);
    moves := Moves(start, moves, System({}, [checked]), 0, OpenSavepoint, Trying(key));
  }

  lemma OneRaises(key: Key, a: int, row: Row, before: seq<Move>)
    requires Run(Initial({}, 1), before) == System({}, [Trying(key)])
    ensures Run(Initial({}, 1), before + [Move(0, Flush(a, true))] + [Move(0, RollBackSavepoint)]
                                + [Move(0, Recover(row))])
         == System({}, [Caller(key, Raised, {}, None, {})])
  {
    var start, recovering := Initial({}, 1), Caller(key, Recovering(false), {}, None, {});
    var broken := Caller(key, Broken(false), {NewRow(a, key)}, Some({}), {});
    var moves := Moves(start, before, System({}, [Trying(key)]), 0, Flush(a, true), broken);
    moves := Moves(start, moves, System({}, [broken]), 0, RollBackSavepoint, recovering);
    moves := Moves(start, moves, System({}, [recovering]), 0, Recover(row), recovering.(phase := Raised));
  }

  /** A call that breaks another constraint finds no row for its key and raises. */
  lemma OthersAreRaised(key: Key, a: int, row: Row)
    ensures Run(Initial({}, 1), [Move(0, Call(key)), Move(0, Check(row)), Move(0, OpenSavepoint),
                                 Move(0, Flush(a, true)), Move(0, RollBackSavepoint), Move(0, Recover(row))])
         == System({}, [Caller(key, Raised, {}, None, {})])
  {
    var moves := OneTries(key, row);
    OneRaises(key, a, row, moves);
    assert moves + [Move(0, Flush(a, true))] + [Move(0, RollBackSavepoint)] + [Move(0, Recover(row))]
        == [Move(0, Call(key)), Move(0, Check(row)), Move(0, OpenSavepoint), Move(0, Flush(a, true)),
            Move(0, RollBackSavepoint), Move(0, Recover(row))];
  }

  /** Who catches that error goes on: other rows of the session can still be written and committed. */
  lemma CaughtGoesOn(key: Key, before: seq<Move>, row: Row)
    requires Run(Initial({}, 1), before) == System({}, [Caller(key, Raised, {}, None, {})])
    requires row.eventType.Settlement?
    ensures Run(Initial({}, 1), before + [Move(0, Caught)] + [Move(0, Settle(row))] + [Move(0, Commit)])
         == System({row}, [Caller(key, Over, {}, None, {})])
  {
    var start, caught := Initial({}, 1), Caller(key, Idle, {}, None, {});
    var moves := Moves(start, before, System({}, [Caller(key, Raised, {}, None, {})]), 0, Caught, caught);
    moves := Moves(start, moves, System({}, [caught]), 0, Settle(row), caught.(writes := {row}));
    RunOneMore(start, moves, 0, Commit);
    assert {} + {row} == {row};
  }

  /** An abort drops every row that the session has not committed, and what its calls returned. */
  lemma AbortsDropEverything(s: System, c: nat)
    requires c < |s.callers|
    ensures var me := s.callers[c];
            Next(s, c, Abort)
            == System(s.committed, s.callers[c := if me.phase.Over? then me else Caller(me.key, Over, {}, None, {})])
  {
  }

  /** One internal_ref per correlation id, as the obligation domain promises. */
  predicate OneRef(refOf: string -> string, rows: set<Row>) {
    forall r | r in rows && r.eventType.Assessment? :: r.internalRef == refOf(r.correlationId)
  }

  /** What the session holds, asks for and was given keeps to one internal_ref per correlation id. */
  ghost predicate Served(refOf: string -> string, committed: set<Row>, me: Caller) {
    && OneRef(refOf, me.Live())
    && (!me.phase.Idle? && !me.phase.Over? ==> me.key.internalRef == refOf(me.key.correlationId))
    && forall o | o in me.returned :: IsFor(o.row, o.key) && (o.row in committed || o.row in me.Live())
  }

  lemma StepServes(refOf: string -> string, s: System, c: nat, step: Step)
    requires c < |s.callers| && WellFormed(s.callers[c])
    requires OneRef(refOf, s.committed) && Served(refOf, s.committed, s.callers[c])
    requires step.Call? ==> step.key.internalRef == refOf(step.key.correlationId)
    ensures Served(refOf, Next(s, c, step).committed, Next(s, c, step).callers[c])
    ensures OneRef(refOf, Next(s, c, step).committed)
  {
    var s', me, me' := Next(s, c, step), s.callers[c], Stepped(s, c, step);
    forall o | o in me'.returned
      ensures IsFor(o.row, o.key) && (o.row in s'.committed || o.row in me'.Live())
    {
      if o in me.returned && o.row in me.Live() {
        StepKeepsWrites(s, c, c, step, o.row);
      }
    }
  }

  lemma {:induction false} RunServes(refOf: string -> string, committed: set<Row>, sessions: nat, moves: seq<Move>,
                                     c: nat)
    requires c < sessions && OnePerKey(committed) && OneRef(refOf, committed)
    requires forall i | 0 <= i < |moves| && moves[i].step.Call? ::
               moves[i].step.key.internalRef == refOf(moves[i].step.key.correlationId)
    ensures var s := Run(Initial(committed, sessions), moves);
            |s.callers| == sessions && OneRef(refOf, s.committed) && Served(refOf, s.committed, s.callers[c])
  {
    RunIsExclusive(Initial(committed, sessions), moves);
    if moves != [] {
      var n := |moves| - 1;
      var s := Run(Initial(committed, sessions), moves[..n]);
      RunServes(refOf, committed, sessions, moves[..n], c);
      RunIsExclusive(Initial(committed, sessions), moves[..n]);
      var actor, step := moves[n].caller, moves[n].step;
      if actor < sessions {
        RunServes(refOf, committed, sessions, moves[..n], actor);
        StepServes(refOf, s, actor, step);
      }
    }
  }

  /**
    With one internal_ref per correlation id, every call that returns, in a
    transaction that was not aborted, gets the one row that exists for its key.
  */
  lemma EveryCallGetsTheRow(refOf: string -> string, committed: set<Row>, sessions: nat, moves: seq<Move>, c: nat,
                            o: Outcome)
    requires c < sessions && OnePerKey(committed) && OneRef(refOf, committed)
    requires forall i | 0 <= i < |moves| && moves[i].step.Call? ::
               moves[i].step.key.internalRef == refOf(moves[i].step.key.correlationId)
    requires var s := Run(Initial(committed, sessions), moves);
             |s.callers| == sessions && o in s.callers[c].returned
    ensures var s := Run(Initial(committed, sessions), moves);
            forall q :: q == o.row <==>
              && Exists(s, q) && q.eventType.Assessment?
              && q.internalRef == o.key.internalRef && q.correlationId == o.key.correlationId
  {
    RunServes(refOf, committed, sessions, moves, c);
    var s := Run(Initial(committed, sessions), moves);
    assert Exists(s, o.row) && IsFor(o.row, o.key);
    forall q | Exists(s, q) && IsFor(q, o.key)
      ensures q == o.row
    {
      AtMostOneAssessment(committed, sessions, moves, o.row, q, o.key);
    }
  }

  /**
    Whichever row the replay's query yields, it is the right one, exactly when no
    other internal_ref shares the correlation id.
   */
  lemma ReplayIsRightExactly(s: System, c: nat)
    requires c < |s.callers| && s.callers[c].phase.Called? && Assessed(Sees(s, c), s.callers[c].key)
    ensures var key := s.callers[c].key;
            (forall found | Stepped(s, c, Check(found)).phase.Idle? :: IsFor(found, key))
            <==> (forall r | r in Sees(s, c) && r.eventType.Assessment? && r.correlationId == key.correlationId
                    :: r.internalRef == key.internalRef)
  {
    var key := s.callers[c].key;
    forall r | r in Sees(s, c) && r.eventType.Assessment? && r.correlationId == key.correlationId
      ensures Stepped(s, c, Check(r)).phase.Idle?
    {
      assert Correlated(Sees(s, c), r, key);
    }
  }

  /** Without that promise a replay can hand back another obligation's row. */
  lemma SharedCorrelationMisleads()
    ensures var mine, other := Row(1, "rent-1", "corr", Assessment), Row(2, "rent-2", "corr", Assessment);
            var key := Key("rent-1", "corr");
            var s := Initial({mine, other}, 1);
            Next(Next(s, 0, Call(key)), 0, Check(other)).callers[0].returned == {Outcome(key, other)}
  {
    var mine, other := Row(1, "rent-1", "corr", Assessment), Row(2, "rent-2", "corr", Assessment);
    var key := Key("rent-1", "corr");
    var s := Next(Initial({mine, other}, 1), 0, Call(key));
    assert s.callers[0].phase == Called;
    assert mine in Sees(s, 0) && IsFor(mine, key);
    assert Correlated(Sees(s, 0), other, key);
  }
}
