/**
  Models IdempotencyVisitor (scripts/validate-migrations.py) over the statements
  of one migration function, and relates what it accepts to how such a function
  can run.
*/
module GuardAnalysis {
  import opened Basics

  /** A call on `op`; the table argument is None where it is not a string literal. */
  datatype Op =
    | CreateTable(table: Option<string>)
    | AddColumn
    | CreateIndex(table: Option<string>)
    | CreateForeignKey(table: Option<string>)
    | Execute
    | Unchecked

  datatype Call = Call(site: nat, op: Op)

  datatype Stmt =
    | Do(calls: seq<Call>)
    | Return(calls: seq<Call>)
    | Raise(calls: seq<Call>)
    | Break
    | Continue
    | If(id: nat, test: seq<Call>, body: seq<Stmt>, orelse: seq<Stmt>)
    | While(test: seq<Call>, body: seq<Stmt>, orelse: seq<Stmt>)
    | For(items: seq<Call>, body: seq<Stmt>, orelse: seq<Stmt>)
    | With(items: seq<Call>, body: seq<Stmt>)
    | Match(subject: seq<Call>, cases: Clauses)
    | Try(body: seq<Stmt>, handlers: Clauses, orelse: seq<Stmt>, final: seq<Stmt>)

  /** The except clauses of a try, or the cases of a match, in order: an exception class or a guard, and a body. */
  datatype Clauses = NoMore | Clause(head: seq<Call>, body: seq<Stmt>, rest: Clauses)

  /** A test that is known to have gone one way. */
  datatype Fact = Fact(id: nat, branch: bool)

  /** A call as the visitor meets it: what it knows there and which tables it has seen created. */
  datatype Occurrence = Occurrence(call: Call, known: seq<Fact>, created: set<string>)

  datatype Finding = Unguarded(site: nat) | ManualSql(site: nat)

  predicate Critical(op: Op) { op.AddColumn? || op.CreateForeignKey? || op.CreateIndex? }

  predicate SafeCreation(op: Op, created: set<string>) {
    (op.CreateIndex? || op.CreateForeignKey?) && op.table.Some? && op.table.value in created
  }

  predicate IsGuardClause(s: Stmt) {
    s.If? && s.body != [] && (s.body[|s.body| - 1].Return? || s.body[|s.body| - 1].Raise?)
  }

  // ----------------------------------------------------- the visit, as a sequence

  function CreatedByCall(op: Op, created: set<string>): set<string> {
    if op.CreateTable? && op.table.Some? && op.table.value != "" then created + {op.table.value} else created
  }

  function CreatedByCalls(calls: seq<Call>, created: set<string>): set<string> {
    if calls == [] then created else CreatedByCalls(calls[1..], CreatedByCall(calls[0].op, created))
  }

  function CallsMet(calls: seq<Call>, known: seq<Fact>, created: set<string>): seq<Occurrence> {
    if calls == [] then []
    else
      var now := CreatedByCall(calls[0].op, created);
      [Occurrence(calls[0], known, now)] + CallsMet(calls[1..], known, now)
  }

  function CreatedBy(s: Stmt, created: set<string>): set<string>
    decreases s
  {
    match s
    case Do(calls) => CreatedByCalls(calls, created)
    case Return(calls) => CreatedByCalls(calls, created)
    case Raise(calls) => CreatedByCalls(calls, created)
    case Break => created
    case Continue => created
    case If(_, test, body, orelse) => CreatedByAll(orelse, CreatedByAll(body, CreatedByCalls(test, created)))
    case While(test, body, orelse) => CreatedByAll(orelse, CreatedByAll(body, CreatedByCalls(test, created)))
    case For(items, body, orelse) => CreatedByAll(orelse, CreatedByAll(body, CreatedByCalls(items, created)))
    case With(items, body) => CreatedByAll(body, CreatedByCalls(items, created))
    case Match(subject, cases) => CreatedByClauses(cases, CreatedByCalls(subject, created))
    case Try(body, handlers, orelse, final) =>
      CreatedByAll(final, CreatedByAll(orelse, CreatedByClauses(handlers, CreatedByAll(body, created))))
  }

  function CreatedByClauses(clauses: Clauses, created: set<string>): set<string>
    decreases clauses
  {
    match clauses
    case NoMore => created
    case Clause(head, body, rest) => CreatedByClauses(rest, CreatedByAll(body, CreatedByCalls(head, created)))
  }

  function CreatedByAll(stmts: seq<Stmt>, created: set<string>): set<string>
    decreases stmts
  {
    if stmts == [] then created else CreatedByAll(stmts[1..], CreatedBy(stmts[0], created))
  }

  /** Calls met in a statement: an if adds what its branches know, everything else passes knowledge on. */
  function Met(s: Stmt, known: seq<Fact>, created: set<string>): seq<Occurrence>
    decreases s, 0
  {
    match s
    case Do(calls) => CallsMet(calls, known, created)
    case Return(calls) => CallsMet(calls, known, created)
    case Raise(calls) => CallsMet(calls, known, created)
    case Break => []
    case Continue => []
    case If(id, test, body, orelse) =>
      var afterTest := CreatedByCalls(test, created);
      CallsMet(test, known, created)
      + MetInBody(body, known + [Fact(id, true)], afterTest)
      + MetInBody(orelse, known + [Fact(id, false)], CreatedByAll(body, afterTest))
    case While(test, body, orelse) =>
      var afterTest := CreatedByCalls(test, created);
      CallsMet(test, known, created) + MetInAll(body, known, afterTest)
      + MetInAll(orelse, known, CreatedByAll(body, afterTest))
    case For(items, body, orelse) =>
      var afterItems := CreatedByCalls(items, created);
      CallsMet(items, known, created) + MetInAll(body, known, afterItems)
      + MetInAll(orelse, known, CreatedByAll(body, afterItems))
    case With(items, body) =>
      CallsMet(items, known, created) + MetInAll(body, known, CreatedByCalls(items, created))
    case Match(subject, cases) =>
      CallsMet(subject, known, created) + MetInClauses(cases, known, CreatedByCalls(subject, created))
    case Try(body, handlers, orelse, final) =>
      var afterBody := CreatedByAll(body, created);
      var afterHandlers := CreatedByClauses(handlers, afterBody);
      MetInAll(body, known, created) + MetInClauses(handlers, known, afterBody)
      + MetInAll(orelse, known, afterHandlers) + MetInAll(final, known, CreatedByAll(orelse, afterHandlers))
  }

  function MetInClauses(clauses: Clauses, known: seq<Fact>, created: set<string>): seq<Occurrence>
    decreases clauses, 0
  {
    match clauses
    case NoMore => []
    case Clause(head, body, rest) =>
      var afterHead := CreatedByCalls(head, created);
      CallsMet(head, known, created) + MetInAll(body, known, afterHead)
      + MetInClauses(rest, known, CreatedByAll(body, afterHead))
  }

  /** Statements visited one by one, without a guard-clause flag of their own. */
  function MetInAll(stmts: seq<Stmt>, known: seq<Fact>, created: set<string>): seq<Occurrence>
    decreases stmts, 0
  {
    if stmts == [] then []
    else Met(stmts[0], known, created) + MetInAll(stmts[1..], known, CreatedBy(stmts[0], created))
  }

  /** A body of a function or an if: after a guard clause its test is known to have failed. */
  function MetInBody(stmts: seq<Stmt>, known: seq<Fact>, created: set<string>): seq<Occurrence>
    decreases stmts, 0
  {
    if stmts == [] then []
    else
      var next := if IsGuardClause(stmts[0]) then known + [Fact(stmts[0].id, false)] else known;
      Met(stmts[0], known, created) + MetInBody(stmts[1..], next, CreatedBy(stmts[0], created))
  }

  predicate Accepted(o: Occurrence) {
    Critical(o.call.op) ==> o.known != [] || SafeCreation(o.call.op, o.created)
  }

  function FindingsOf(o: Occurrence): seq<Finding> {
    (if Accepted(o) then [] else [Unguarded(o.call.site)])
    + (if o.call.op.Execute? then [ManualSql(o.call.site)] else [])
  }

  /** The error list after the calls have been judged in order. */
  function Report(errors: seq<Finding>, os: seq<Occurrence>): seq<Finding>
    decreases os
  {
    if os == [] then errors else Report(errors + FindingsOf(os[0]), os[1..])
  }

  lemma {:induction false} ReportJoin(errors: seq<Finding>, a: seq<Occurrence>, b: seq<Occurrence>)
    ensures Report(errors, a + b) == Report(Report(errors, a), b)
    decreases a
  {
    if a == [] {
      assert a + b == b;
    } else {
      ReportJoin(errors + FindingsOf(a[0]), a[1..], b);
      assert (a + b)[1..] == a[1..] + b;
    }
  }

  lemma ReportJoin3(errors: seq<Finding>, a: seq<Occurrence>, b: seq<Occurrence>, c: seq<Occurrence>)
    ensures Report(errors, a + b + c) == Report(Report(Report(errors, a), b), c)
  {
    ReportJoin(errors, a + b, c);
    ReportJoin(errors, a, b);
  }

  // ---------------------------------------------------------------- the visitor

  datatype Parent = FunctionNode | IfNode

  class IdempotencyVisitor {
    var errors: seq<Finding>
    var parents: seq<Parent>
    var createdTables: set<string>
    var guardClauses: seq<bool>

    constructor ()
      ensures errors == [] && parents == [] && createdTables == {} && guardClauses == []
    {
      errors, parents, createdTables, guardClauses := [], [], {}, [];
    }

    predicate Guarded()
      reads this
    {
      IfNode in parents || true in guardClauses
    }

    method VisitCall(c: Call, ghost known: seq<Fact>)
      requires Guarded() <==> known != []
      modifies this`errors, this`createdTables
      ensures createdTables == CreatedByCall(c.op, old(createdTables))
      ensures errors == old(errors) + FindingsOf(Occurrence(c, known, createdTables))
    {
      if c.op.CreateTable? && c.op.table.Some? && c.op.table.value != "" {
        createdTables := createdTables + {c.op.table.value};
      }
      if Critical(c.op) {
        if !Guarded() && !SafeCreation(c.op, createdTables) {
          errors := errors + [Unguarded(c.site)];
        }
      }
      if c.op.Execute? {
        errors := errors + [ManualSql(c.site)];
      }
    }

    method VisitCalls(calls: seq<Call>, ghost known: seq<Fact>)
      requires Guarded() <==> known != []
      modifies this`errors, this`createdTables
      ensures createdTables == CreatedByCalls(calls, old(createdTables))
      ensures errors == Report(old(errors), CallsMet(calls, known, old(createdTables)))
    {
      for i := 0 to |calls|
        invariant Report(errors, CallsMet(calls[i..], known, createdTables))
               == Report(old(errors), CallsMet(calls, known, old(createdTables)))
        invariant CreatedByCalls(calls[i..], createdTables) == CreatedByCalls(calls, old(createdTables))
      {
        ghost var before := createdTables;
        VisitCall(calls[i], known);
        assert calls[i..][1..] == calls[i + 1..];
        ghost var o := Occurrence(calls[i], known, createdTables);
        assert CallsMet(calls[i..], known, before) == [o] + CallsMet(calls[i + 1..], known, createdTables);
        ghost var rest := CallsMet(calls[i + 1..], known, createdTables);
        assert ([o] + rest)[1..] == rest;
      }
    }

    /** Statements visited in order, with no guard-clause flag of their own. */
    method VisitAll(stmts: seq<Stmt>, ghost known: seq<Fact>)
      requires Guarded() <==> known != []
      modifies this
      ensures createdTables == CreatedByAll(stmts, old(createdTables))
      ensures errors == Report(old(errors), MetInAll(stmts, known, old(createdTables)))
      ensures parents == old(parents) && guardClauses == old(guardClauses)
      decreases stmts, 1
    {
      for i := 0 to |stmts|
        invariant parents == old(parents) && guardClauses == old(guardClauses)
        invariant Report(errors, MetInAll(stmts[i..], known, createdTables))
               == Report(old(errors), MetInAll(stmts, known, old(createdTables)))
        invariant CreatedByAll(stmts[i..], createdTables) == CreatedByAll(stmts, old(createdTables))
      {
        ghost var before, previous := createdTables, errors;
        VisitStmt(stmts[i], known);
        assert stmts[i..][1..] == stmts[i + 1..];
        ReportJoin(previous, Met(stmts[i], known, before), MetInAll(stmts[i + 1..], known, createdTables));
      }
    }

    /** A body with its own guard-clause flag, set once a guard clause has been passed. */
    method VisitBody(stmts: seq<Stmt>, ghost known: seq<Fact>)
      requires Guarded() <==> known != []
      modifies this
      ensures createdTables == CreatedByAll(stmts, old(createdTables))
      ensures errors == Report(old(errors), MetInBody(stmts, known, old(createdTables)))
      ensures parents == old(parents) && guardClauses == old(guardClauses)
      decreases stmts, 1
    {
      guardClauses := guardClauses + [false];
      ghost var now := known;
      for i := 0 to |stmts|
        invariant parents == old(parents)
        invariant |guardClauses| == |old(guardClauses)| + 1 && guardClauses[..|old(guardClauses)|] == old(guardClauses)
        invariant Guarded() <==> now != []
        invariant Report(errors, MetInBody(stmts[i..], now, createdTables))
               == Report(old(errors), MetInBody(stmts, known, old(createdTables)))
        invariant CreatedByAll(stmts[i..], createdTables) == CreatedByAll(stmts, old(createdTables))
      {
        ghost var before, previous := createdTables, errors;
        VisitStmt(stmts[i], now);
        ghost var next := if IsGuardClause(stmts[i]) then now + [Fact(stmts[i].id, false)] else now;
        assert stmts[i..][1..] == stmts[i + 1..];
        ReportJoin(previous, Met(stmts[i], now, before), MetInBody(stmts[i + 1..], next, createdTables));
        if IsGuardClause(stmts[i]) {
          guardClauses := guardClauses[|guardClauses| - 1 := true];
          assert guardClauses[|guardClauses| - 1];
        }
        now := next;
      }
      guardClauses := guardClauses[..|guardClauses| - 1];
    }

    method VisitIf(s: Stmt, ghost known: seq<Fact>)
      requires s.If? && (Guarded() <==> known != [])
      modifies this
      ensures createdTables == CreatedBy(s, old(createdTables))
      ensures errors == Report(old(errors), Met(s, known, old(createdTables)))
      ensures parents == old(parents) && guardClauses == old(guardClauses)
      decreases s, 0
    {
      VisitCalls(s.test, known);
      ghost var afterTest := createdTables;
      parents := parents + [IfNode];
      assert parents[|parents| - 1] == IfNode;
      VisitBody(s.body, known + [Fact(s.id, true)]);
      ghost var afterBody := createdTables;
      VisitBody(s.orelse, known + [Fact(s.id, false)]);
      parents := parents[..|parents| - 1];
      ghost var test := CallsMet(s.test, known, old(createdTables));
      ghost var body := MetInBody(s.body, known + [Fact(s.id, true)], afterTest);
      ReportJoin3(old(errors), test, body, MetInBody(s.orelse, known + [Fact(s.id, false)], afterBody));
    }

    method VisitStmt(s: Stmt, ghost known: seq<Fact>)
      requires Guarded() <==> known != []
      modifies this
      ensures createdTables == CreatedBy(s, old(createdTables))
      ensures errors == Report(old(errors), Met(s, known, old(createdTables)))
      ensures parents == old(parents) && guardClauses == old(guardClauses)
      decreases s, 1
    {
      ghost var created := createdTables;
      match s {
        case Do(calls) => VisitCalls(calls, known);
        case Return(calls) => VisitCalls(calls, known);
        case Raise(calls) => VisitCalls(calls, known);
        case Break =>
        case Continue =>
        case If(_, _, _, _) => VisitIf(s, known);
        case While(_, _, _) => VisitWhile(s, known);
        case For(_, _, _) => VisitFor(s, known);
        case With(items, body) =>
          VisitCalls(items, known);
          ReportJoin(old(errors), CallsMet(items, known, created), MetInAll(body, known, createdTables));
          VisitAll(body, known);
        case Match(subject, cases) =>
          VisitCalls(subject, known);
          ReportJoin(old(errors), CallsMet(subject, known, created), MetInClauses(cases, known, createdTables));
          VisitClauses(cases, known);
        case Try(_, _, _, _) => VisitTry(s, known);
      }
    }

    method VisitWhile(s: Stmt, ghost known: seq<Fact>)
      requires s.While? && (Guarded() <==> known != [])
      modifies this
      ensures createdTables == CreatedBy(s, old(createdTables))
      ensures errors == Report(old(errors), Met(s, known, old(createdTables)))
      ensures parents == old(parents) && guardClauses == old(guardClauses)
      decreases s, 0
    {
      ghost var first := CallsMet(s.test, known, createdTables);
      VisitCalls(s.test, known);
      ghost var second := MetInAll(s.body, known, createdTables);
      VisitAll(s.body, known);
      ReportJoin3(old(errors), first, second, MetInAll(s.orelse, known, createdTables));
      VisitAll(s.orelse, known);
    }

    method VisitFor(s: Stmt, ghost known: seq<Fact>)
      requires s.For? && (Guarded() <==> known != [])
      modifies this
      ensures createdTables == CreatedBy(s, old(createdTables))
      ensures errors == Report(old(errors), Met(s, known, old(createdTables)))
      ensures parents == old(parents) && guardClauses == old(guardClauses)
      decreases s, 0
    {
      ghost var first := CallsMet(s.items, known, createdTables);
      VisitCalls(s.items, known);
      ghost var second := MetInAll(s.body, known, createdTables);
      VisitAll(s.body, known);
      ReportJoin3(old(errors), first, second, MetInAll(s.orelse, known, createdTables));
      VisitAll(s.orelse, known);
    }

    method VisitClauses(clauses: Clauses, ghost known: seq<Fact>)
      requires Guarded() <==> known != []
      modifies this
      ensures createdTables == CreatedByClauses(clauses, old(createdTables))
      ensures errors == Report(old(errors), MetInClauses(clauses, known, old(createdTables)))
      ensures parents == old(parents) && guardClauses == old(guardClauses)
      decreases clauses, 0
    {
      match clauses {
        case NoMore =>
        case Clause(head, body, rest) =>
          ghost var first := CallsMet(head, known, createdTables);
          VisitCalls(head, known);
          ghost var second := MetInAll(body, known, createdTables);
          VisitAll(body, known);
          ghost var third := MetInClauses(rest, known, createdTables);
          VisitClauses(rest, known);
          ReportJoin3(old(errors), first, second, third);
      }
    }

    method VisitTry(s: Stmt, ghost known: seq<Fact>)
      requires s.Try? && (Guarded() <==> known != [])
      modifies this
      ensures createdTables == CreatedBy(s, old(createdTables))
      ensures errors == Report(old(errors), Met(s, known, old(createdTables)))
      ensures parents == old(parents) && guardClauses == old(guardClauses)
      decreases s, 0
    {
      ghost var first := MetInAll(s.body, known, createdTables);
      VisitAll(s.body, known);
      ghost var second := MetInClauses(s.handlers, known, createdTables);
      VisitClauses(s.handlers, known);
      ghost var third := MetInAll(s.orelse, known, createdTables);
      VisitAll(s.orelse, known);
      ghost var fourth := MetInAll(s.final, known, createdTables);
      VisitAll(s.final, known);
      ReportJoin3(old(errors), first, second, third);
      ReportJoin(old(errors), first + second + third, fourth);
    }

    /** The whole function: its parameters add no knowledge, so nothing is guarded at its start. */
    method VisitFunction(body: seq<Stmt>)
      requires parents == [] && guardClauses == []
      modifies this
      ensures errors == Report(old(errors), MetInBody(body, [], old(createdTables)))
      ensures parents == [] && guardClauses == []
    {
      parents := parents + [FunctionNode];
      VisitBody(body, []);
      parents := parents[..|parents| - 1];
    }
  }

  // ------------------------------------------------------ where calls stand in a function

  /** A call, and whether it stands in a branch of an if or after a guard clause of an enclosing list. */
  datatype Place = Place(call: Call, sheltered: bool)

  function Places(calls: seq<Call>, sheltered: bool): seq<Place> {
    seq(|calls|, i requires 0 <= i < |calls| => Place(calls[i], sheltered))
  }

  function PlacesOf(s: Stmt, sheltered: bool): seq<Place>
    decreases s, 0
  {
    match s
    case Do(calls) => Places(calls, sheltered)
    case Return(calls) => Places(calls, sheltered)
    case Raise(calls) => Places(calls, sheltered)
    case Break => []
    case Continue => []
    case If(_, test, body, orelse) =>
      Places(test, sheltered) + PlacesInBody(body, true) + PlacesInBody(orelse, true)
    case While(test, body, orelse) =>
      Places(test, sheltered) + PlacesInAll(body, sheltered) + PlacesInAll(orelse, sheltered)
    case For(items, body, orelse) =>
      Places(items, sheltered) + PlacesInAll(body, sheltered) + PlacesInAll(orelse, sheltered)
    case With(items, body) => Places(items, sheltered) + PlacesInAll(body, sheltered)
    case Match(subject, cases) => Places(subject, sheltered) + PlacesInClauses(cases, sheltered)
    case Try(body, handlers, orelse, final) =>
      PlacesInAll(body, sheltered) + PlacesInClauses(handlers, sheltered) + PlacesInAll(orelse, sheltered)
      + PlacesInAll(final, sheltered)
  }

  function PlacesInClauses(clauses: Clauses, sheltered: bool): seq<Place>
    decreases clauses, 0
  {
    match clauses
    case NoMore => []
    case Clause(head, body, rest) =>
      Places(head, sheltered) + PlacesInAll(body, sheltered) + PlacesInClauses(rest, sheltered)
  }

  function PlacesInAll(stmts: seq<Stmt>, sheltered: bool): seq<Place>
    decreases stmts, 0
  {
    if stmts == [] then [] else PlacesOf(stmts[0], sheltered) + PlacesInAll(stmts[1..], sheltered)
  }

  /** In the list of a function or an if, everything after an if whose body ends in return or raise is sheltered. */
  function PlacesInBody(stmts: seq<Stmt>, sheltered: bool): seq<Place>
    decreases stmts, 0
  {
    if stmts == [] then []
    else
      var leaves := stmts[0].If? && stmts[0].body != []
                    && (var last := stmts[0].body[|stmts[0].body| - 1]; last.Return? || last.Raise?);
      PlacesOf(stmts[0], sheltered) + PlacesInBody(stmts[1..], sheltered || leaves)
  }

  /** The tables that create_table calls name. */
  function TablesIn(places: seq<Place>): set<string> {
    set i | 0 <= i < |places| && places[i].call.op.CreateTable? && places[i].call.op.table.Some?
            && places[i].call.op.table.value != "" :: places[i].call.op.table.value
  }

  /** The calls met are those at these places; knowledge is shelter, and what was created is what was named so far. */
  predicate Accounts(met: seq<Occurrence>, places: seq<Place>, before: set<string>, after: set<string>) {
    && |met| == |places|
    && (forall i | 0 <= i < |met| :: MetAt(met[i], places, i, before))
    && after == before + TablesIn(places)
  }

  predicate MetAt(o: Occurrence, places: seq<Place>, i: nat, before: set<string>)
    requires i < |places|
  {
    && o.call == places[i].call && (o.known != [] <==> places[i].sheltered)
    && o.created == before + TablesIn(places[..i + 1])
  }

  lemma AccountsJoin(a: seq<Occurrence>, p: seq<Place>, b: seq<Occurrence>, q: seq<Place>, before: set<string>,
                     between: set<string>, after: set<string>)
    requires Accounts(a, p, before, between) && Accounts(b, q, between, after)
    ensures Accounts(a + b, p + q, before, after)
  {
    TablesJoin(p, q);
    forall i | 0 <= i < |a + b|
      ensures MetAt((a + b)[i], p + q, i, before)
    {
      if i < |a| {
        assert MetAt(a[i], p, i, before);
        assert (p + q)[..i + 1] == p[..i + 1];
      } else {
        assert MetAt(b[i - |a|], q, i - |a|, between);
        assert (p + q)[..i + 1] == p + q[..i - |a| + 1];
        TablesJoin(p, q[..i - |a| + 1]);
      }
    }
  }

  lemma TablesJoin(p: seq<Place>, q: seq<Place>)
    ensures TablesIn(p + q) == TablesIn(p) + TablesIn(q)
  {
    forall table
      ensures table in TablesIn(p + q) <==> table in TablesIn(p) || table in TablesIn(q)
    {
      if i :| 0 <= i < |q| && q[i].call.op.CreateTable? && q[i].call.op.table == Some(table) && table != "" {
        assert (p + q)[|p| + i] == q[i];
      }
      if i :| 0 <= i < |p| && p[i].call.op.CreateTable? && p[i].call.op.table == Some(table) && table != "" {
        assert (p + q)[i] == p[i];
      }
    }
  }

  lemma OneCallAccounts(c: Call, known: seq<Fact>, created: set<string>)
    ensures var now := CreatedByCall(c.op, created);
            Accounts([Occurrence(c, known, now)], [Place(c, known != [])], created, now)
  {
    var place := [Place(c, known != [])];
    assert place[..1] == place && place[0].call == c;
    forall table
      ensures table in TablesIn(place) <==> c.op == CreateTable(Some(table)) && table != ""
    {
      if c.op == CreateTable(Some(table)) && table != "" {
        assert place[0].call.op.table.value == table;
      }
    }
    assert CreatedByCall(c.op, created) == created + TablesIn(place);
  }

  lemma {:induction false} CallsAccount(calls: seq<Call>, known: seq<Fact>, created: set<string>)
    ensures Accounts(CallsMet(calls, known, created), Places(calls, known != []), created,
                     CreatedByCalls(calls, created))
  {
    if calls != [] {
      var now, first := CreatedByCall(calls[0].op, created), [Place(calls[0], known != [])];
      OneCallAccounts(calls[0], known, created);
      CallsAccount(calls[1..], known, now);
      AccountsJoin([Occurrence(calls[0], known, now)], first, CallsMet(calls[1..], known, now),
                   Places(calls[1..], known != []), created, now, CreatedByCalls(calls, created));
      assert first + Places(calls[1..], known != []) == Places(calls, known != []);
    }
  }

  lemma {:induction false} AllAccount(stmts: seq<Stmt>, known: seq<Fact>, created: set<string>)
    ensures Accounts(MetInAll(stmts, known, created), PlacesInAll(stmts, known != []), created,
                     CreatedByAll(stmts, created))
    decreases stmts, 0
  {
    if stmts != [] {
      var now := CreatedBy(stmts[0], created);
      StmtAccounts(stmts[0], known, created);
      AllAccount(stmts[1..], known, now);
      AccountsJoin(Met(stmts[0], known, created), PlacesOf(stmts[0], known != []), MetInAll(stmts[1..], known, now),
                   PlacesInAll(stmts[1..], known != []), created, now, CreatedByAll(stmts, created));
    }
  }

  lemma {:induction false} BodyAccounts(stmts: seq<Stmt>, known: seq<Fact>, created: set<string>)
    ensures Accounts(MetInBody(stmts, known, created), PlacesInBody(stmts, known != []), created,
                     CreatedByAll(stmts, created))
    decreases stmts, 0
  {
    if stmts != [] {
      var now := CreatedBy(stmts[0], created);
      var next := if IsGuardClause(stmts[0]) then known + [Fact(stmts[0].id, false)] else known;
      StmtAccounts(stmts[0], known, created);
      BodyAccounts(stmts[1..], next, now);
      AccountsJoin(Met(stmts[0], known, created), PlacesOf(stmts[0], known != []), MetInBody(stmts[1..], next, now),
                   PlacesInBody(stmts[1..], next != []), created, now, CreatedByAll(stmts, created));
    }
  }

  lemma {:induction false} ClausesAccount(clauses: Clauses, known: seq<Fact>, created: set<string>)
    ensures Accounts(MetInClauses(clauses, known, created), PlacesInClauses(clauses, known != []), created,
                     CreatedByClauses(clauses, created))
    decreases clauses, 0
  {
    if clauses.Clause? {
      var afterHead := CreatedByCalls(clauses.head, created);
      var afterBody := CreatedByAll(clauses.body, afterHead);
      ClausesAccount(clauses.rest, known, afterBody);
      CallsThenAll(clauses.head, clauses.body, known, created);
      AccountsJoin(CallsMet(clauses.head, known, created) + MetInAll(clauses.body, known, afterHead),
                   Places(clauses.head, known != []) + PlacesInAll(clauses.body, known != []),
                   MetInClauses(clauses.rest, known, afterBody), PlacesInClauses(clauses.rest, known != []),
                   created, afterBody, CreatedByClauses(clauses, created));
    }
  }

  lemma {:induction false} CallsThenAll(calls: seq<Call>, body: seq<Stmt>, known: seq<Fact>, created: set<string>)
    ensures var now := CreatedByCalls(calls, created);
            Accounts(CallsMet(calls, known, created) + MetInAll(body, known, now),
                     Places(calls, known != []) + PlacesInAll(body, known != []), created, CreatedByAll(body, now))
    decreases body, 1
  {
    var now := CreatedByCalls(calls, created);
    CallsAccount(calls, known, created);
    AllAccount(body, known, now);
    AccountsJoin(CallsMet(calls, known, created), Places(calls, known != []), MetInAll(body, known, now),
                 PlacesInAll(body, known != []), created, now, CreatedByAll(body, now));
  }

  lemma {:induction false} LoopAccounts(s: Stmt, head: seq<Call>, body: seq<Stmt>, orelse: seq<Stmt>, known: seq<Fact>,
                                        created: set<string>)
    requires s == While(head, body, orelse) || s == For(head, body, orelse)
    ensures var afterHead := CreatedByCalls(head, created);
            var afterBody := CreatedByAll(body, afterHead);
            Accounts(CallsMet(head, known, created) + MetInAll(body, known, afterHead)
                     + MetInAll(orelse, known, afterBody),
                     Places(head, known != []) + PlacesInAll(body, known != []) + PlacesInAll(orelse, known != []),
                     created, CreatedByAll(orelse, afterBody))
    decreases s, 0
  {
    var afterHead := CreatedByCalls(head, created);
    var afterBody := CreatedByAll(body, afterHead);
    CallsThenAll(head, body, known, created);
    AllAccount(orelse, known, afterBody);
    AccountsJoin(CallsMet(head, known, created) + MetInAll(body, known, afterHead),
                 Places(head, known != []) + PlacesInAll(body, known != []), MetInAll(orelse, known, afterBody),
                 PlacesInAll(orelse, known != []), created, afterBody, CreatedByAll(orelse, afterBody));
  }

  lemma {:induction false} IfAccounts(s: Stmt, known: seq<Fact>, created: set<string>)
    requires s.If?
    ensures Accounts(Met(s, known, created), PlacesOf(s, known != []), created, CreatedBy(s, created))
    decreases s, 0
  {
    var went, went' := known + [Fact(s.id, true)], known + [Fact(s.id, false)];
    var afterTest := CreatedByCalls(s.test, created);
    var afterBody := CreatedByAll(s.body, afterTest);
    CallsAccount(s.test, known, created);
    BodyAccounts(s.body, went, afterTest);
    BodyAccounts(s.orelse, went', afterBody);
    AccountsJoin(CallsMet(s.test, known, created), Places(s.test, known != []), MetInBody(s.body, went, afterTest),
                 PlacesInBody(s.body, true), created, afterTest, afterBody);
    AccountsJoin(CallsMet(s.test, known, created) + MetInBody(s.body, went, afterTest),
                 Places(s.test, known != []) + PlacesInBody(s.body, true), MetInBody(s.orelse, went', afterBody),
                 PlacesInBody(s.orelse, true), created, afterBody, CreatedBy(s, created));
  }

  lemma {:induction false} TryAccounts(s: Stmt, known: seq<Fact>, created: set<string>)
    requires s.Try?
    ensures Accounts(Met(s, known, created), PlacesOf(s, known != []), created, CreatedBy(s, created))
    decreases s, 0
  {
    var k, afterBody := known != [], CreatedByAll(s.body, created);
    var afterHandlers := CreatedByClauses(s.handlers, afterBody);
    var afterElse := CreatedByAll(s.orelse, afterHandlers);
    var m1, m2 := MetInAll(s.body, known, created), MetInClauses(s.handlers, known, afterBody);
    var m3, m4 := MetInAll(s.orelse, known, afterHandlers), MetInAll(s.final, known, afterElse);
    var p1, p2, p3 := PlacesInAll(s.body, k), PlacesInClauses(s.handlers, k), PlacesInAll(s.orelse, k);
    AllAccount(s.body, known, created);
    ClausesAccount(s.handlers, known, afterBody);
    AllAccount(s.orelse, known, afterHandlers);
    AllAccount(s.final, known, afterElse);
    AccountsJoin(m1, p1, m2, p2, created, afterBody, afterHandlers);
    AccountsJoin(m1 + m2, p1 + p2, m3, p3, created, afterHandlers, afterElse);
    AccountsJoin(m1 + m2 + m3, p1 + p2 + p3, m4, PlacesInAll(s.final, k), created, afterElse, CreatedBy(s, created));
  }

  lemma {:induction false} StmtAccounts(s: Stmt, known: seq<Fact>, created: set<string>)
    ensures Accounts(Met(s, known, created), PlacesOf(s, known != []), created, CreatedBy(s, created))
    decreases s, 1
  {
    match s
    case Do(calls) => CallsAccount(calls, known, created);
    case Return(calls) => CallsAccount(calls, known, created);
    case Raise(calls) => CallsAccount(calls, known, created);
    case Break =>
    case Continue =>
    case If(_, _, _, _) => IfAccounts(s, known, created);
    case While(test, body, orelse) => LoopAccounts(s, test, body, orelse, known, created);
    case For(items, body, orelse) => LoopAccounts(s, items, body, orelse, known, created);
    case With(items, body) => CallsThenAll(items, body, known, created);
    case Match(subject, cases) =>
      var afterSubject := CreatedByCalls(subject, created);
      CallsAccount(subject, known, created);
      ClausesAccount(cases, known, afterSubject);
      AccountsJoin(CallsMet(subject, known, created), Places(subject, known != []),
                   MetInClauses(cases, known, afterSubject), PlacesInClauses(cases, known != []), created, afterSubject,
                   CreatedBy(s, created));
    case Try(_, _, _, _) => TryAccounts(s, known, created);
  }

  // ------------------------------------------------------------ how functions run

  datatype Event = Tested(fact: Fact) | Called(site: nat)

  datatype Outcome = Normal | Returned | Raised | Broke | Continued

  /**
    One way through a statement. `made` are the positions of the calls that start,
    in the order in which they do: an expression may skip some, repeat some, and
    raise after any of them if `raised`. `branch` is the way a test goes, or whether
    an exception is caught or a case fits; `first`, `second` and `last` are the runs
    of nested statement lists in the order they run, and `rounds` the turns of a
    loop, the last one its end.
   */
  datatype Run = Run(made: seq<nat>, raised: bool, branch: bool, first: seq<Run>, second: seq<Run>, last: seq<Run>,
                     rounds: seq<Run>)

  datatype Trace = Trace(events: seq<Event>, outcome: Outcome)

  function Then(first: Trace, second: Option<Trace>): Option<Trace> {
    if second.None? then None else Some(Trace(first.events + second.value.events, second.value.outcome))
  }

  predicate Positions(made: seq<nat>, calls: seq<Call>) {
    forall k | 0 <= k < |made| :: made[k] < |calls|
  }

  function CalledEvents(calls: seq<Call>, made: seq<nat>): seq<Event>
    requires Positions(made, calls)
  {
    seq(|made|, k requires 0 <= k < |made| => Called(calls[made[k]].site))
  }

  /** Whichever calls of an expression start, it is evaluated to its end or raises. */
  function CallsTrace(calls: seq<Call>, r: Run): Option<Trace> {
    if Positions(r.made, calls) then Some(Trace(CalledEvents(calls, r.made), if r.raised then Raised else Normal))
    else None
  }

  /** Events and outcome of one run of a statement; None where the run does not fit it. */
  function TraceOf(s: Stmt, r: Run): Option<Trace>
    decreases r, 1
  {
    match s
    case Break => Some(Trace([], Broke))
    case Continue => Some(Trace([], Continued))
    case Do(calls) => CallsTrace(calls, r)
    case Return(calls) =>
      var t := CallsTrace(calls, r);
      if t.Some? && t.value.outcome.Normal? then Some(t.value.(outcome := Returned)) else t
    case Raise(calls) =>
      var t := CallsTrace(calls, r);
      if t.Some? then Some(t.value.(outcome := Raised)) else t
    case If(id, test, body, orelse) =>
      var t := CallsTrace(test, r);
      if t.None? || t.value.outcome.Raised? then t
      else Then(Trace(t.value.events + [Tested(Fact(id, r.branch))], Normal),
                TraceOfAll(if r.branch then body else orelse, r.first))
    case With(items, body) =>
      var t := CallsTrace(items, r);
      if t.None? || t.value.outcome.Raised? then t
      else
        var inner := Then(t.value, TraceOfAll(body, r.first));
        // a context manager may swallow the exception
        if inner.Some? && inner.value.outcome.Raised? && r.branch then Some(inner.value.(outcome := Normal)) else inner
    case While(test, body, orelse) => Rounds(test, body, orelse, r.rounds)
    case For(items, body, orelse) =>
      var t := CallsTrace(items, r);
      // the items are evaluated once; fetching the next of them may raise, but calls nothing
      if t.None? || t.value.outcome.Raised? then t else Then(t.value, Rounds([], body, orelse, r.rounds))
    case Match(subject, cases) =>
      var t := CallsTrace(subject, r);
      if t.None? || t.value.outcome.Raised? then t else Then(t.value, ChosenFrom(cases, r.second, Normal))
    case Try(body, handlers, orelse, final) =>
      var handled := Handled(body, handlers, orelse, r);
      if handled.None? then None
      else
        var ended := Then(handled.value, TraceOfAll(final, r.last));
        if ended.None? || !ended.value.outcome.Normal? then ended
        else Some(ended.value.(outcome := handled.value.outcome))
  }

  /** A try up to its finally: an exception goes to the except clauses, a normal end to the else branch. */
  function Handled(body: seq<Stmt>, handlers: Clauses, orelse: seq<Stmt>, r: Run): Option<Trace>
    decreases r, 0
  {
    var tried := TraceOfAll(body, r.first);
    if tried.None? then None
    else if tried.value.outcome.Raised? then Then(tried.value, ChosenFrom(handlers, r.second, Raised))
    else if tried.value.outcome.Normal? then Then(tried.value, TraceOfAll(orelse, r.second))
    else tried
  }

  /** Each turn makes the test, then runs the body, or the else branch and ends. */
  function Rounds(test: seq<Call>, body: seq<Stmt>, orelse: seq<Stmt>, rounds: seq<Run>): Option<Trace>
    decreases rounds, 0
  {
    if rounds == [] then None
    else
      var t := CallsTrace(test, rounds[0]);
      if t.None? || t.value.outcome.Raised? then t
      else if !rounds[0].branch then Then(t.value, TraceOfAll(orelse, rounds[0].first))
      else
        var turn := Then(t.value, TraceOfAll(body, rounds[0].first));
        if turn.None? then None
        else if turn.value.outcome.Normal? || turn.value.outcome.Continued? then
          Then(turn.value, Rounds(test, body, orelse, rounds[1..]))
        else if turn.value.outcome.Broke? then Some(turn.value.(outcome := Normal))
        else turn
  }

  /** The clauses are tried in order. Where none is chosen an exception goes on, and a match does nothing. */
  function ChosenFrom(clauses: Clauses, rs: seq<Run>, otherwise: Outcome): Option<Trace>
    decreases rs, 0
  {
    match clauses
    case NoMore => Some(Trace([], otherwise))
    case Clause(head, body, rest) =>
      if rs == [] then None
      else
        var t := CallsTrace(head, rs[0]);
        if t.None? || t.value.outcome.Raised? then t
        else Then(t.value, if rs[0].branch then TraceOfAll(body, rs[0].first) else ChosenFrom(rest, rs[1..], otherwise))
  }

  /** Statements run in order until one does not end normally. */
  function TraceOfAll(stmts: seq<Stmt>, rs: seq<Run>): Option<Trace>
    decreases rs, 0
  {
    if stmts == [] then Some(Trace([], Normal))
    else if rs == [] then None
    else
      var first := TraceOf(stmts[0], rs[0]);
      if first.None? || !first.value.outcome.Normal? then first
      else Then(first.value, TraceOfAll(stmts[1..], rs[1..]))
  }

  // The runs as rules: what there is to run, and with which events and outcome.

  /** An expression statement makes calls of its own, in any order, and ends normally or raises. */
  lemma CallsRule(calls: seq<Call>, r: Run)
    requires forall k | 0 <= k < |r.made| :: r.made[k] < |calls|
    ensures var t, outcome := TraceOf(Do(calls), r), if r.raised then Raised else Normal;
            && t.Some? && t.value.outcome == outcome && |t.value.events| == |r.made|
            && (forall k | 0 <= k < |r.made| :: t.value.events[k] == Called(calls[r.made[k]].site))
            && TraceOf(Return(calls), r) == Some(Trace(t.value.events, if r.raised then Raised else Returned))
            && TraceOf(Raise(calls), r) == Some(Trace(t.value.events, Raised))
    ensures TraceOf(Break, r) == Some(Trace([], Broke)) && TraceOf(Continue, r) == Some(Trace([], Continued))
  {
  }

  /** A list runs its first statement and, where that ends normally, the others. */
  lemma SequenceRule(s: Stmt, r: Run, rest: seq<Stmt>, rs: seq<Run>)
    requires TraceOf(s, r).Some? && TraceOfAll(rest, rs).Some?
    ensures TraceOfAll([], rs) == Some(Trace([], Normal))
    ensures var first, others := TraceOf(s, r).value, TraceOfAll(rest, rs).value;
            TraceOfAll([s] + rest, [r] + rs) ==
              if first.outcome.Normal? then Some(Trace(first.events + others.events, others.outcome)) else Some(first)
  {
    assert ([s] + rest)[1..] == rest && ([r] + rs)[1..] == rs;
  }

  /** An if makes its test and runs the branch; a with makes its calls and runs its body. */
  lemma BranchRule(id: nat, head: seq<Call>, body: seq<Stmt>, orelse: seq<Stmt>, r: Run)
    requires TraceOf(Do(head), r).Some? && !r.raised
    requires TraceOfAll(body, r.first).Some? && TraceOfAll(orelse, r.first).Some?
    ensures var made, chosen := TraceOf(Do(head), r).value.events, if r.branch then body else orelse;
            var t := TraceOfAll(chosen, r.first).value;
            TraceOf(If(id, head, body, orelse), r)
            == Some(Trace(made + [Tested(Fact(id, r.branch))] + t.events, t.outcome))
    ensures var made, t := TraceOf(Do(head), r).value.events, TraceOfAll(body, r.first).value;
            TraceOf(With(head, body), r)
            == Some(Trace(made + t.events, if t.outcome.Raised? && r.branch then Normal else t.outcome))
  {
  }

  /** A loop ends with its else branch after a failed test, with a break, or goes on to the next turn. */
  lemma LoopRule(test: seq<Call>, body: seq<Stmt>, orelse: seq<Stmt>, turn: Run, more: seq<Run>)
    requires TraceOf(Do(test), turn).Some? && !turn.raised
    requires TraceOfAll(if turn.branch then body else orelse, turn.first).Some?
    ensures var made, rest := TraceOf(Do(test), turn).value.events, Rounds(test, body, orelse, more);
            var t := TraceOfAll(if turn.branch then body else orelse, turn.first).value;
            Rounds(test, body, orelse, [turn] + more) ==
              if !turn.branch then Some(Trace(made + t.events, t.outcome))
              else if t.outcome.Normal? || t.outcome.Continued? then
                if rest.None? then None else Some(Trace(made + t.events + rest.value.events, rest.value.outcome))
              else Some(Trace(made + t.events, if t.outcome.Broke? then Normal else t.outcome))
  {
    assert ([turn] + more)[1..] == more;
  }

  /** A while makes its test in every turn, a for its items once before the first. */
  lemma LoopStartsRule(head: seq<Call>, body: seq<Stmt>, orelse: seq<Stmt>, r: Run)
    requires TraceOf(Do(head), r).Some? && !r.raised && Rounds([], body, orelse, r.rounds).Some?
    ensures TraceOf(While(head, body, orelse), r) == Rounds(head, body, orelse, r.rounds)
    ensures var made, rounds := TraceOf(Do(head), r).value.events, Rounds([], body, orelse, r.rounds).value;
            TraceOf(For(head, body, orelse), r) == Some(Trace(made + rounds.events, rounds.outcome))
  {
  }

  /** The first clause that fits runs; where none does, the outcome is the one given. */
  lemma ClauseRule(head: seq<Call>, body: seq<Stmt>, rest: Clauses, turn: Run, more: seq<Run>, otherwise: Outcome)
    requires TraceOf(Do(head), turn).Some? && !turn.raised
    requires TraceOfAll(body, turn.first).Some? && ChosenFrom(rest, more, otherwise).Some?
    ensures ChosenFrom(NoMore, more, otherwise) == Some(Trace([], otherwise))
    ensures var made, t := TraceOf(Do(head), turn).value.events,
                           if turn.branch then TraceOfAll(body, turn.first).value
                           else ChosenFrom(rest, more, otherwise).value;
            ChosenFrom(Clause(head, body, rest), [turn] + more, otherwise) == Some(Trace(made + t.events, t.outcome))
  {
    assert ([turn] + more)[1..] == more;
  }

  /** A try whose body raises goes on with its clauses, one whose body ends normally with its else branch. */
  lemma HandledRule(body: seq<Stmt>, handlers: Clauses, orelse: seq<Stmt>, r: Run)
    requires TraceOfAll(body, r.first).Some?
    requires ChosenFrom(handlers, r.second, Raised).Some? && TraceOfAll(orelse, r.second).Some?
    ensures var tried := TraceOfAll(body, r.first).value;
            var caught, others := ChosenFrom(handlers, r.second, Raised).value, TraceOfAll(orelse, r.second).value;
            Handled(body, handlers, orelse, r) == Some(
              if tried.outcome.Raised? then Trace(tried.events + caught.events, caught.outcome)
              else if tried.outcome.Normal? then Trace(tried.events + others.events, others.outcome)
              else tried)
  {
  }

  /** Then, whatever happened, comes the finally; unless that ends abruptly itself, the outcome stays. */
  lemma TryRule(body: seq<Stmt>, handlers: Clauses, orelse: seq<Stmt>, final: seq<Stmt>, r: Run)
    requires Handled(body, handlers, orelse, r).Some? && TraceOfAll(final, r.last).Some?
    ensures var handled, ended := Handled(body, handlers, orelse, r).value, TraceOfAll(final, r.last).value;
            TraceOf(Try(body, handlers, orelse, final), r)
            == Some(Trace(handled.events + ended.events,
                          if ended.outcome.Normal? then handled.outcome else ended.outcome))
  {
  }

  /** A match evaluates its subject and runs the case that fits, if one does. */
  lemma MatchRule(subject: seq<Call>, cases: Clauses, r: Run)
    requires TraceOf(Do(subject), r).Some? && !r.raised && ChosenFrom(cases, r.second, Normal).Some?
    ensures var made, chosen := TraceOf(Do(subject), r).value.events, ChosenFrom(cases, r.second, Normal).value;
            TraceOf(Match(subject, cases), r) == Some(Trace(made + chosen.events, chosen.outcome))
  {
  }

  // ------------------------------------------------------------ which ifs are tested

  predicate Contains(s: Stmt, id: nat)
    decreases s
  {
    match s
    case Do(_) => false
    case Return(_) => false
    case Raise(_) => false
    case Break => false
    case Continue => false
    case If(own, _, body, orelse) => own == id || AnyContains(body, id) || AnyContains(orelse, id)
    case While(_, body, orelse) => AnyContains(body, id) || AnyContains(orelse, id)
    case For(_, body, orelse) => AnyContains(body, id) || AnyContains(orelse, id)
    case With(_, body) => AnyContains(body, id)
    case Match(_, cases) => ClausesContain(cases, id)
    case Try(body, handlers, orelse, final) =>
      AnyContains(body, id) || ClausesContain(handlers, id) || AnyContains(orelse, id) || AnyContains(final, id)
  }

  predicate ClausesContain(clauses: Clauses, id: nat)
    decreases clauses
  {
    clauses.Clause? && (AnyContains(clauses.body, id) || ClausesContain(clauses.rest, id))
  }

  predicate AnyContains(stmts: seq<Stmt>, id: nat)
    decreases stmts
  {
    stmts != [] && (Contains(stmts[0], id) || AnyContains(stmts[1..], id))
  }

  /** Ids of ifs are places in the source: no if inside another one, or after it in its list, has its id. */
  predicate IfsDiffer(s: Stmt)
    decreases s
  {
    match s
    case Do(_) => true
    case Return(_) => true
    case Raise(_) => true
    case Break => true
    case Continue => true
    case If(id, _, body, orelse) =>
      !AnyContains(body, id) && !AnyContains(orelse, id) && AllIfsDiffer(body) && AllIfsDiffer(orelse)
    case While(_, body, orelse) => AllIfsDiffer(body) && AllIfsDiffer(orelse)
    case For(_, body, orelse) => AllIfsDiffer(body) && AllIfsDiffer(orelse)
    case With(_, body) => AllIfsDiffer(body)
    case Match(_, cases) => ClauseIfsDiffer(cases)
    case Try(body, handlers, orelse, final) =>
      AllIfsDiffer(body) && ClauseIfsDiffer(handlers) && AllIfsDiffer(orelse) && AllIfsDiffer(final)
  }

  predicate ClauseIfsDiffer(clauses: Clauses)
    decreases clauses
  {
    clauses.Clause? ==> AllIfsDiffer(clauses.body) && ClauseIfsDiffer(clauses.rest)
  }

  predicate AllIfsDiffer(stmts: seq<Stmt>)
    decreases stmts
  {
    stmts != [] ==>
      && IfsDiffer(stmts[0]) && AllIfsDiffer(stmts[1..])
      && (stmts[0].If? ==> !AnyContains(stmts[1..], stmts[0].id))
  }

  predicate NeverTests(events: seq<Event>, id: nat) {
    forall k | 0 <= k < |events| && events[k].Tested? :: events[k].fact.id != id
  }

  /** A run tests only the ifs that are in what it runs. */
  lemma {:induction false} StmtTestsOwn(s: Stmt, r: Run, id: nat)
    requires TraceOf(s, r).Some? && !Contains(s, id)
    ensures NeverTests(TraceOf(s, r).value.events, id)
    decreases r, 1
  {
    match s
    case Do(_) =>
    case Return(_) =>
    case Raise(_) =>
    case Break =>
    case Continue =>
    case If(_, test, body, orelse) =>
      if !r.raised {
        AllTestOwn(if r.branch then body else orelse, r.first, id);
      }
    case While(test, body, orelse) => RoundsTestOwn(test, body, orelse, r.rounds, id);
    case For(_, body, orelse) =>
      if !r.raised {
        RoundsTestOwn([], body, orelse, r.rounds, id);
      }
    case With(_, body) =>
      if !r.raised {
        AllTestOwn(body, r.first, id);
      }
    case Match(_, cases) =>
      if !r.raised {
        ClausesTestOwn(cases, r.second, Normal, id);
      }
    case Try(body, handlers, orelse, final) =>
      HandledTestsOwn(body, handlers, orelse, r, id);
      AllTestOwn(final, r.last, id);
  }

  lemma {:induction false} HandledTestsOwn(body: seq<Stmt>, handlers: Clauses, orelse: seq<Stmt>, r: Run, id: nat)
    requires Handled(body, handlers, orelse, r).Some?
    requires !AnyContains(body, id) && !ClausesContain(handlers, id) && !AnyContains(orelse, id)
    ensures NeverTests(Handled(body, handlers, orelse, r).value.events, id)
    decreases r, 0
  {
    var tried := TraceOfAll(body, r.first).value;
    AllTestOwn(body, r.first, id);
    if tried.outcome.Raised? {
      ClausesTestOwn(handlers, r.second, Raised, id);
    } else if tried.outcome.Normal? {
      AllTestOwn(orelse, r.second, id);
    }
  }

  lemma {:induction false} RoundsTestOwn(test: seq<Call>, body: seq<Stmt>, orelse: seq<Stmt>, rounds: seq<Run>, id: nat)
    requires Rounds(test, body, orelse, rounds).Some? && !AnyContains(body, id) && !AnyContains(orelse, id)
    ensures NeverTests(Rounds(test, body, orelse, rounds).value.events, id)
    decreases rounds, 0
  {
    if !rounds[0].raised {
      AllTestOwn(if rounds[0].branch then body else orelse, rounds[0].first, id);
      if rounds[0].branch && TraceOfAll(body, rounds[0].first).value.outcome in {Normal, Continued} {
        RoundsTestOwn(test, body, orelse, rounds[1..], id);
      }
    }
  }

  lemma {:induction false} ClausesTestOwn(clauses: Clauses, rs: seq<Run>, otherwise: Outcome, id: nat)
    requires ChosenFrom(clauses, rs, otherwise).Some? && !ClausesContain(clauses, id)
    ensures NeverTests(ChosenFrom(clauses, rs, otherwise).value.events, id)
    decreases rs, 0
  {
    if clauses.Clause? && !rs[0].raised {
      if rs[0].branch {
        AllTestOwn(clauses.body, rs[0].first, id);
      } else {
        ClausesTestOwn(clauses.rest, rs[1..], otherwise, id);
      }
    }
  }

  lemma {:induction false} AllTestOwn(stmts: seq<Stmt>, rs: seq<Run>, id: nat)
    requires TraceOfAll(stmts, rs).Some? && !AnyContains(stmts, id)
    ensures NeverTests(TraceOfAll(stmts, rs).value.events, id)
    decreases rs, 0
  {
    if stmts != [] {
      StmtTestsOwn(stmts[0], rs[0], id);
      if TraceOf(stmts[0], rs[0]).value.outcome.Normal? {
        AllTestOwn(stmts[1..], rs[1..], id);
      }
    }
  }

  // -------------------------------------------------------------------- soundness

  /** Which way an if went the last time it was tested. */
  function LastWay(past: seq<Event>, id: nat): Option<bool> {
    if past == [] then None
    else
      var last := past[|past| - 1];
      if last.Tested? && last.fact.id == id then Some(last.fact.branch) else LastWay(past[..|past| - 1], id)
  }

  /** Each of these tests has been made and went this way when it was made last. */
  predicate Holds(known: seq<Fact>, past: seq<Event>) {
    forall f | f in known :: LastWay(past, f.id) == Some(f.branch)
  }

  lemma {:induction false} LastWayStays(past: seq<Event>, events: seq<Event>, id: nat)
    requires NeverTests(events, id)
    ensures LastWay(past + events, id) == LastWay(past, id)
    decreases events
  {
    if events == [] {
      assert past + events == past;
    } else {
      var n := |events| - 1;
      assert (past + events)[..|past| + n] == past + events[..n];
      LastWayStays(past, events[..n], id);
    }
  }

  lemma LastWayIsNew(past: seq<Event>, f: Fact, events: seq<Event>)
    requires NeverTests(events, f.id)
    ensures LastWay(past + [Tested(f)] + events, f.id) == Some(f.branch)
  {
    LastWayStays(past + [Tested(f)], events, f.id);
  }

  /** What runs next tests none of the known ifs again. */
  predicate Untouched(known: seq<Fact>, events: seq<Event>) {
    forall f | f in known :: NeverTests(events, f.id)
  }

  lemma HoldsLater(known: seq<Fact>, past: seq<Event>, events: seq<Event>)
    requires Holds(known, past) && Untouched(known, events)
    ensures Holds(known, past + events)
  {
    forall f | f in known ensures LastWay(past + events, f.id) == Some(f.branch) {
      LastWayStays(past, events, f.id);
    }
  }

  /** The known ifs lie outside the statements. */
  predicate Outside(known: seq<Fact>, stmts: seq<Stmt>) {
    forall f | f in known :: !AnyContains(stmts, f.id)
  }

  lemma AllUntouched(stmts: seq<Stmt>, rs: seq<Run>, known: seq<Fact>)
    requires TraceOfAll(stmts, rs).Some? && Outside(known, stmts)
    ensures Untouched(known, TraceOfAll(stmts, rs).value.events)
  {
    forall f | f in known ensures NeverTests(TraceOfAll(stmts, rs).value.events, f.id) {
      AllTestOwn(stmts, rs, f.id);
    }
  }

  lemma StmtUntouched(s: Stmt, r: Run, known: seq<Fact>)
    requires TraceOf(s, r).Some? && forall f | f in known :: !Contains(s, f.id)
    ensures Untouched(known, TraceOf(s, r).value.events)
  {
    forall f | f in known ensures NeverTests(TraceOf(s, r).value.events, f.id) {
      StmtTestsOwn(s, r, f.id);
    }
  }

  /** Every call of the trace is one the visitor met, with everything it knew there still as last tested. */
  ghost predicate Explained(events: seq<Event>, past: seq<Event>, met: seq<Occurrence>) {
    forall k | 0 <= k < |events| && events[k].Called? :: Explains(events[k].site, past + events[..k], met)
  }

  ghost predicate Explains(site: nat, past: seq<Event>, met: seq<Occurrence>) {
    exists o | o in met :: o.call.site == site && Holds(o.known, past)
  }

  lemma ExplainedJoin(a: seq<Event>, b: seq<Event>, past: seq<Event>, met: seq<Occurrence>)
    requires Explained(a, past, met) && Explained(b, past + a, met)
    ensures Explained(a + b, past, met)
  {
    forall k | 0 <= k < |a + b| && (a + b)[k].Called? ensures Explains((a + b)[k].site, past + (a + b)[..k], met) {
      if k < |a| {
        assert (a + b)[..k] == a[..k];
        assert Explains(a[k].site, past + a[..k], met);
      } else {
        assert past + (a + b)[..k] == past + a + b[..k - |a|];
        assert Explains(b[k - |a|].site, past + a + b[..k - |a|], met);
      }
    }
  }

  /** Each call of an expression is met, with what is known there. */
  lemma {:induction false} CallIsMet(calls: seq<Call>, at: nat, known: seq<Fact>, created: set<string>)
    returns (o: Occurrence)
    requires at < |calls|
    ensures o in CallsMet(calls, known, created) && o.call == calls[at] && o.known == known
  {
    var now := CreatedByCall(calls[0].op, created);
    if at == 0 {
      o := Occurrence(calls[0], known, now);
    } else {
      o := CallIsMet(calls[1..], at - 1, known, now);
    }
  }

  lemma CallsTraceExplained(calls: seq<Call>, r: Run, known: seq<Fact>, created: set<string>, past: seq<Event>,
                            met: seq<Occurrence>)
    requires Holds(known, past) && CallsTrace(calls, r).Some?
    requires forall o | o in CallsMet(calls, known, created) :: o in met
    ensures Explained(CallsTrace(calls, r).value.events, past, met)
    ensures Holds(known, past + CallsTrace(calls, r).value.events)
  {
    var events := CallsTrace(calls, r).value.events;
    forall k | 0 <= k < |events| ensures Explains(events[k].site, past + events[..k], met) {
      var o := CallIsMet(calls, r.made[k], known, created);
      HoldsLater(known, past, events[..k]);
      assert o in met;
    }
    HoldsLater(known, past, events);
  }

  /** A list that ends in return or raise never ends normally. */
  lemma {:induction false} EndsAbruptly(stmts: seq<Stmt>, rs: seq<Run>)
    requires stmts != [] && (stmts[|stmts| - 1].Return? || stmts[|stmts| - 1].Raise?)
    requires TraceOfAll(stmts, rs).Some?
    ensures !TraceOfAll(stmts, rs).value.outcome.Normal?
  {
    if |stmts| > 1 && TraceOf(stmts[0], rs[0]).value.outcome.Normal? {
      EndsAbruptly(stmts[1..], rs[1..]);
    }
  }

  /** Whoever gets past a guard clause has seen its test fail, and nothing in the clause tests it again. */
  lemma PastGuardClause(s: Stmt, r: Run, past: seq<Event>)
    requires IsGuardClause(s) && IfsDiffer(s) && TraceOf(s, r).Some? && TraceOf(s, r).value.outcome.Normal?
    ensures LastWay(past + TraceOf(s, r).value.events, s.id) == Some(false)
  {
    if r.branch {
      EndsAbruptly(s.body, r.first);
    }
    var t, rest := CallsTrace(s.test, r).value, TraceOfAll(s.orelse, r.first).value.events;
    AllTestOwn(s.orelse, r.first, s.id);
    LastWayIsNew(past + t.events, Fact(s.id, false), rest);
    assert past + TraceOf(s, r).value.events == past + t.events + [Tested(Fact(s.id, false))] + rest;
  }

  lemma {:induction false} AllExplained(stmts: seq<Stmt>, rs: seq<Run>, known: seq<Fact>, created: set<string>,
                                        past: seq<Event>)
    requires Holds(known, past) && TraceOfAll(stmts, rs).Some? && AllIfsDiffer(stmts) && Outside(known, stmts)
    ensures Explained(TraceOfAll(stmts, rs).value.events, past, MetInAll(stmts, known, created))
    decreases rs, 0
  {
    if stmts != [] {
      var first, met := TraceOf(stmts[0], rs[0]).value, MetInAll(stmts, known, created);
      StmtExplained(stmts[0], rs[0], known, created, past);
      if first.outcome.Normal? {
        StmtUntouched(stmts[0], rs[0], known);
        HoldsLater(known, past, first.events);
        AllExplained(stmts[1..], rs[1..], known, CreatedBy(stmts[0], created), past + first.events);
        ExplainedJoin(first.events, TraceOfAll(stmts[1..], rs[1..]).value.events, past, met);
      }
    }
  }

  lemma {:induction false} BodyExplained(stmts: seq<Stmt>, rs: seq<Run>, known: seq<Fact>, created: set<string>,
                                         past: seq<Event>)
    requires Holds(known, past) && TraceOfAll(stmts, rs).Some? && AllIfsDiffer(stmts) && Outside(known, stmts)
    ensures Explained(TraceOfAll(stmts, rs).value.events, past, MetInBody(stmts, known, created))
    decreases rs, 0
  {
    if stmts != [] {
      var first, met := TraceOf(stmts[0], rs[0]).value, MetInBody(stmts, known, created);
      StmtExplained(stmts[0], rs[0], known, created, past);
      if first.outcome.Normal? {
        StmtUntouched(stmts[0], rs[0], known);
        HoldsLater(known, past, first.events);
        var next := known;
        if IsGuardClause(stmts[0]) {
          PastGuardClause(stmts[0], rs[0], past);
          next := known + [Fact(stmts[0].id, false)];
        }
        BodyExplained(stmts[1..], rs[1..], next, CreatedBy(stmts[0], created), past + first.events);
        ExplainedJoin(first.events, TraceOfAll(stmts[1..], rs[1..]).value.events, past, met);
      }
    }
  }

  lemma {:induction false} IfExplained(s: Stmt, r: Run, known: seq<Fact>, created: set<string>, past: seq<Event>)
    requires s.If? && Holds(known, past) && TraceOf(s, r).Some?
    requires IfsDiffer(s) && forall f | f in known :: !Contains(s, f.id)
    ensures Explained(TraceOf(s, r).value.events, past, Met(s, known, created))
    decreases r, 0
  {
    var t, met := CallsTrace(s.test, r).value, Met(s, known, created);
    CallsTraceExplained(s.test, r, known, created, past, met);
    if !t.outcome.Raised? {
      var fact := Fact(s.id, r.branch);
      var before, chosen := t.events + [Tested(fact)], if r.branch then s.body else s.orelse;
      var afterTest := CreatedByCalls(s.test, created);
      var start := if r.branch then afterTest else CreatedByAll(s.body, afterTest);
      ExplainedJoin(t.events, [Tested(fact)], past, met);
      HoldsLater(known, past + t.events, [Tested(fact)]);
      assert past + before == past + t.events + [Tested(fact)];
      BodyExplained(chosen, r.first, known + [fact], start, past + before);
      ExplainedJoin(before, TraceOfAll(chosen, r.first).value.events, past, met);
    }
  }

  /** Events that are explained, then one statement list that adds no knowledge. */
  lemma {:induction false} ThenAllExplained(first: seq<Event>, stmts: seq<Stmt>, rs: seq<Run>, known: seq<Fact>,
                                            created: set<string>, past: seq<Event>, met: seq<Occurrence>)
    requires Holds(known, past + first) && TraceOfAll(stmts, rs).Some? && Explained(first, past, met)
    requires AllIfsDiffer(stmts) && Outside(known, stmts)
    requires forall o | o in MetInAll(stmts, known, created) :: o in met
    ensures var events := TraceOfAll(stmts, rs).value.events;
            Explained(first + events, past, met) && Holds(known, past + (first + events))
    decreases rs, 1
  {
    var events := TraceOfAll(stmts, rs).value.events;
    AllExplained(stmts, rs, known, created, past + first);
    ExplainedJoin(first, events, past, met);
    AllUntouched(stmts, rs, known);
    HoldsLater(known, past + first, events);
    assert past + (first + events) == past + first + events;
  }

  /** Every turn of a loop meets the same calls with the same knowledge. */
  lemma {:induction false} RoundsExplained(test: seq<Call>, body: seq<Stmt>, orelse: seq<Stmt>, rounds: seq<Run>,
                                           known: seq<Fact>, beforeTest: set<string>, beforeBody: set<string>,
                                           beforeElse: set<string>, past: seq<Event>, met: seq<Occurrence>)
    requires Holds(known, past) && Rounds(test, body, orelse, rounds).Some?
    requires AllIfsDiffer(body) && AllIfsDiffer(orelse) && Outside(known, body) && Outside(known, orelse)
    requires forall o | o in CallsMet(test, known, beforeTest) :: o in met
    requires forall o | o in MetInAll(body, known, beforeBody) :: o in met
    requires forall o | o in MetInAll(orelse, known, beforeElse) :: o in met
    ensures Explained(Rounds(test, body, orelse, rounds).value.events, past, met)
    decreases rounds, 0
  {
    var t := CallsTrace(test, rounds[0]).value;
    CallsTraceExplained(test, rounds[0], known, beforeTest, past, met);
    if !t.outcome.Raised? {
      if !rounds[0].branch {
        ThenAllExplained(t.events, orelse, rounds[0].first, known, beforeElse, past, met);
      } else {
        ThenAllExplained(t.events, body, rounds[0].first, known, beforeBody, past, met);
        var turn := Then(t, TraceOfAll(body, rounds[0].first)).value;
        if turn.outcome.Normal? || turn.outcome.Continued? {
          RoundsExplained(test, body, orelse, rounds[1..], known, beforeTest, beforeBody, beforeElse,
                          past + turn.events, met);
          ExplainedJoin(turn.events, Rounds(test, body, orelse, rounds[1..]).value.events, past, met);
        }
      }
    }
  }

  lemma {:induction false} ForExplained(s: Stmt, r: Run, known: seq<Fact>, created: set<string>, past: seq<Event>)
    requires s.For? && Holds(known, past) && TraceOf(s, r).Some?
    requires IfsDiffer(s) && Outside(known, s.body) && Outside(known, s.orelse)
    ensures Explained(TraceOf(s, r).value.events, past, Met(s, known, created))
    decreases r, 0
  {
    var t, met, afterItems := CallsTrace(s.items, r).value, Met(s, known, created), CreatedByCalls(s.items, created);
    CallsTraceExplained(s.items, r, known, created, past, met);
    if !t.outcome.Raised? {
      RoundsExplained([], s.body, s.orelse, r.rounds, known, created, afterItems, CreatedByAll(s.body, afterItems),
                      past + t.events, met);
      ExplainedJoin(t.events, Rounds([], s.body, s.orelse, r.rounds).value.events, past, met);
    }
  }

  /** The known ifs lie outside the clauses. */
  predicate OutsideClauses(known: seq<Fact>, clauses: Clauses) {
    forall f | f in known :: !ClausesContain(clauses, f.id)
  }

  lemma {:induction false} ClausesExplained(clauses: Clauses, rs: seq<Run>, otherwise: Outcome, known: seq<Fact>,
                                            created: set<string>, past: seq<Event>, met: seq<Occurrence>)
    requires Holds(known, past) && ChosenFrom(clauses, rs, otherwise).Some?
    requires ClauseIfsDiffer(clauses) && OutsideClauses(known, clauses)
    requires forall o | o in MetInClauses(clauses, known, created) :: o in met
    ensures var events := ChosenFrom(clauses, rs, otherwise).value.events;
            Explained(events, past, met) && Holds(known, past + events)
    decreases rs, 0
  {
    if clauses.NoMore? {
      assert past + [] == past;
    } else {
      var t, afterHead := CallsTrace(clauses.head, rs[0]).value, CreatedByCalls(clauses.head, created);
      CallsTraceExplained(clauses.head, rs[0], known, created, past, met);
      if !t.outcome.Raised? {
        if rs[0].branch {
          ThenAllExplained(t.events, clauses.body, rs[0].first, known, afterHead, past, met);
        } else {
          var rest := ChosenFrom(clauses.rest, rs[1..], otherwise).value.events;
          ClausesExplained(clauses.rest, rs[1..], otherwise, known, CreatedByAll(clauses.body, afterHead),
                           past + t.events, met);
          ExplainedJoin(t.events, rest, past, met);
          assert past + (t.events + rest) == past + t.events + rest;
        }
      }
    }
  }

  lemma {:induction false} MatchExplained(s: Stmt, r: Run, known: seq<Fact>, created: set<string>, past: seq<Event>)
    requires s.Match? && Holds(known, past) && TraceOf(s, r).Some?
    requires IfsDiffer(s) && OutsideClauses(known, s.cases)
    ensures Explained(TraceOf(s, r).value.events, past, Met(s, known, created))
    decreases r, 0
  {
    var t, met := CallsTrace(s.subject, r).value, Met(s, known, created);
    CallsTraceExplained(s.subject, r, known, created, past, met);
    if !t.outcome.Raised? {
      ClausesExplained(s.cases, r.second, Normal, known, CreatedByCalls(s.subject, created), past + t.events, met);
      ExplainedJoin(t.events, ChosenFrom(s.cases, r.second, Normal).value.events, past, met);
    }
  }

  lemma {:induction false} HandledExplained(body: seq<Stmt>, handlers: Clauses, orelse: seq<Stmt>, r: Run,
                                            known: seq<Fact>, beforeBody: set<string>, beforeHandlers: set<string>,
                                            beforeElse: set<string>, past: seq<Event>, met: seq<Occurrence>)
    requires Holds(known, past) && Handled(body, handlers, orelse, r).Some?
    requires AllIfsDiffer(body) && ClauseIfsDiffer(handlers) && AllIfsDiffer(orelse)
    requires Outside(known, body) && OutsideClauses(known, handlers) && Outside(known, orelse)
    requires forall o | o in MetInAll(body, known, beforeBody) :: o in met
    requires forall o | o in MetInClauses(handlers, known, beforeHandlers) :: o in met
    requires forall o | o in MetInAll(orelse, known, beforeElse) :: o in met
    ensures var events := Handled(body, handlers, orelse, r).value.events;
            Explained(events, past, met) && Holds(known, past + events)
    decreases r, 0
  {
    var tried := TraceOfAll(body, r.first).value;
    assert [] + tried.events == tried.events && past + [] == past;
    ThenAllExplained([], body, r.first, known, beforeBody, past, met);
    if tried.outcome.Raised? {
      var caught := ChosenFrom(handlers, r.second, Raised).value.events;
      ClausesExplained(handlers, r.second, Raised, known, beforeHandlers, past + tried.events, met);
      ExplainedJoin(tried.events, caught, past, met);
      assert past + (tried.events + caught) == past + tried.events + caught;
    } else if tried.outcome.Normal? {
      ThenAllExplained(tried.events, orelse, r.second, known, beforeElse, past, met);
    }
  }

  lemma {:induction false} TryExplained(s: Stmt, r: Run, known: seq<Fact>, created: set<string>, past: seq<Event>)
    requires s.Try? && Holds(known, past) && TraceOf(s, r).Some? && IfsDiffer(s)
    requires Outside(known, s.body) && OutsideClauses(known, s.handlers)
    requires Outside(known, s.orelse) && Outside(known, s.final)
    ensures Explained(TraceOf(s, r).value.events, past, Met(s, known, created))
    decreases r, 1
  {
    var met, afterBody := Met(s, known, created), CreatedByAll(s.body, created);
    var afterHandlers := CreatedByClauses(s.handlers, afterBody);
    HandledExplained(s.body, s.handlers, s.orelse, r, known, created, afterBody, afterHandlers, past, met);
    ThenAllExplained(Handled(s.body, s.handlers, s.orelse, r).value.events, s.final, r.last, known,
                     CreatedByAll(s.orelse, afterHandlers), past, met);
  }

  /**
    Whatever a statement calls when it runs, the visitor met there, knowing only
    tests already made, each of which went that way when it was made last.
   */
  lemma {:induction false} StmtExplained(s: Stmt, r: Run, known: seq<Fact>, created: set<string>, past: seq<Event>)
    requires Holds(known, past) && TraceOf(s, r).Some?
    requires IfsDiffer(s) && forall f | f in known :: !Contains(s, f.id)
    ensures Explained(TraceOf(s, r).value.events, past, Met(s, known, created))
    decreases r, 2
  {
    match s
    case Break =>
    case Continue =>
    case Do(calls) => CallsTraceExplained(calls, r, known, created, past, Met(s, known, created));
    case Return(calls) => CallsTraceExplained(calls, r, known, created, past, Met(s, known, created));
    case Raise(calls) => CallsTraceExplained(calls, r, known, created, past, Met(s, known, created));
    case If(_, _, _, _) => IfExplained(s, r, known, created, past);
    case While(test, body, orelse) =>
      var afterTest := CreatedByCalls(test, created);
      RoundsExplained(test, body, orelse, r.rounds, known, created, afterTest, CreatedByAll(body, afterTest), past,
                      Met(s, known, created));
    case For(_, _, _) => ForExplained(s, r, known, created, past);
    case Match(_, _) => MatchExplained(s, r, known, created, past);
    case Try(_, _, _, _) => TryExplained(s, r, known, created, past);
    case With(items, body) =>
      var t, met := CallsTrace(items, r).value, Met(s, known, created);
      CallsTraceExplained(items, r, known, created, past, met);
      if !t.outcome.Raised? {
        ThenAllExplained(t.events, body, r.first, known, CreatedByCalls(items, created), past, met);
      }
  }

  /** Call sites are places in the source, so no two calls share one. */
  predicate SitesDiffer(places: seq<Place>) {
    forall i, j | 0 <= i < j < |places| :: places[i].call.site != places[j].call.site
  }

  /** Calls that need a guard. */
  predicate NeedsGuard(op: Op) {
    match op
    case AddColumn => true
    case CreateIndex(_) => true
    case CreateForeignKey(_) => true
    case CreateTable(_) => false
    case Execute => false
    case Unchecked => false
  }

  /** An index or foreign key on a table that an earlier call, or an earlier function, creates by that name. */
  predicate OnNewTable(places: seq<Place>, i: nat, created: set<string>)
    requires i < |places|
  {
    var op := places[i].call.op;
    && (op.CreateIndex? || op.CreateForeignKey?) && op.table.Some?
    && (op.table.value in created
        || (op.table.value != "" && exists j | 0 <= j < i :: places[j].call.op == CreateTable(op.table)))
  }

  /**
    Which calls of a function are reported, by where they stand: a call that needs a guard, stands neither in a branch
    of an if nor after a guard clause, and is not on a table created before it; and every execute.
   */
  lemma FindingsExactly(body: seq<Stmt>, created: set<string>, i: nat)
    requires i < |PlacesInBody(body, false)| && SitesDiffer(PlacesInBody(body, false))
    ensures var places, report := PlacesInBody(body, false), Report([], MetInBody(body, [], created));
            && (Unguarded(places[i].call.site) in report
                <==> NeedsGuard(places[i].call.op) && !places[i].sheltered && !OnNewTable(places, i, created))
            && (ManualSql(places[i].call.site) in report <==> places[i].call.op == Execute)
  {
    var met, places := MetInBody(body, [], created), PlacesInBody(body, false);
    BodyAccounts(body, [], created);
    assert MetAt(met[i], places, i, created);
    forall j | 0 <= j < |met|
      ensures met[j].call.site == places[i].call.site <==> j == i
    {
      assert MetAt(met[j], places, j, created);
    }
    ReportExactly([], met, Unguarded(places[i].call.site));
    ReportExactly([], met, ManualSql(places[i].call.site));
    ExcusedExactly(places, i, created);
  }

  lemma ExcusedExactly(places: seq<Place>, i: nat, created: set<string>)
    requires i < |places|
    ensures SafeCreation(places[i].call.op, created + TablesIn(places[..i + 1])) <==> OnNewTable(places, i, created)
  {
    var op := places[i].call.op;
    if op.CreateIndex? || op.CreateForeignKey? {
      if j :| 0 <= j < i && places[j].call.op == CreateTable(op.table) && op.table.Some? && op.table.value != "" {
        assert places[..i + 1][j] == places[j];
        assert op.table.value in TablesIn(places[..i + 1]);
      }
    }
  }

  /** A finding is reported exactly when some call met gives it. */
  lemma {:induction false} ReportExactly(errors: seq<Finding>, met: seq<Occurrence>, f: Finding)
    ensures f in Report(errors, met) <==> f in errors || exists i | 0 <= i < |met| :: f in FindingsOf(met[i])
    decreases met
  {
    if met != [] {
      ReportExactly(errors + FindingsOf(met[0]), met[1..], f);
      assert forall i | 0 < i < |met| :: met[i] == met[1..][i - 1];
    }
  }

  /**
    Soundness of the guard analysis. A call that needs a guard, is not reported, and
    is not on a table that an earlier create_table names, belongs to certain if
    tests: whenever the call runs, each of them has been made, and went one and the
    same way when it was made last.
   */
  lemma AcceptedCallsAreGuarded(body: seq<Stmt>, created: set<string>, i: nat) returns (guards: seq<Fact>)
    requires AllIfsDiffer(body)
    requires var places := PlacesInBody(body, false);
             && i < |places| && SitesDiffer(places)
             && NeedsGuard(places[i].call.op) && !OnNewTable(places, i, created)
             && Unguarded(places[i].call.site) !in Report([], MetInBody(body, [], created))
    ensures guards != []
    ensures var site := PlacesInBody(body, false)[i].call.site;
            forall rs, k | TraceOfAll(body, rs).Some? && 0 <= k < |TraceOfAll(body, rs).value.events|
                           && TraceOfAll(body, rs).value.events[k] == Called(site) ::
              Holds(guards, TraceOfAll(body, rs).value.events[..k])
  {
    var met, places := MetInBody(body, [], created), PlacesInBody(body, false);
    BodyAccounts(body, [], created);
    FindingsExactly(body, created, i);
    assert MetAt(met[i], places, i, created);
    guards := met[i].known;
    forall rs, k | TraceOfAll(body, rs).Some? && 0 <= k < |TraceOfAll(body, rs).value.events|
                   && TraceOfAll(body, rs).value.events[k] == Called(places[i].call.site)
      ensures Holds(guards, TraceOfAll(body, rs).value.events[..k])
    {
      var events := TraceOfAll(body, rs).value.events;
      BodyExplained(body, rs, [], created, []);
      assert Explains(events[k].site, [] + events[..k], met);
      var o :| o in met && o.call.site == events[k].site && Holds(o.known, [] + events[..k]);
      var j :| 0 <= j < |met| && met[j] == o;
      assert MetAt(met[j], places, j, created);
      assert j == i;
      assert [] + events[..k] == events[..k];
    }
  }
}
