/**
  Models the money rounding and the ledger write guards of app/models.py:
  `_quantize_currency`, the cents that `_enforce_transaction_integrity` derives
  from an amount, and `_guard_ledger_immutability`. The value of a Decimal, an
  integer or a float's decimal text is a real number.
*/
module LedgerGuards {
  import opened Basics

  // ------------------------------------------------------------------- rounding

  /** Rounds to an integer, a tie to the even neighbour. */
  function RoundHalfEven(x: real): int {
    var below := x.Floor;
    var rest := x - below as real;
    if rest < 0.5 then below
    else if rest > 0.5 then below + 1
    else if below % 2 == 0 then below
    else below + 1
  }

  /** What half-even rounding means: nearest, and even where two integers are equally near. */
  predicate IsHalfEven(x: real, n: int) {
    var error := x - n as real;
    -0.5 <= error <= 0.5 && (error == 0.5 || error == -0.5 ==> n % 2 == 0)
  }

  lemma RoundingIsHalfEven(x: real, n: int)
    ensures RoundHalfEven(x) == n <==> IsHalfEven(x, n)
  {
    var below := x.Floor;
    assert below as real <= x < (below + 1) as real;
    if IsHalfEven(x, n) {
      assert (below - 1) as real < n as real < (below + 2) as real;
      assert n == below || n == below + 1;
    }
  }

  lemma RoundingIsMonotone(x: real, y: real)
    requires x <= y
    ensures RoundHalfEven(x) <= RoundHalfEven(y)
  {
    var m, n := RoundHalfEven(x), RoundHalfEven(y);
    RoundingIsHalfEven(x, m);
    RoundingIsHalfEven(y, n);
    if x < y {
      assert n as real >= y - 0.5 > x - 0.5 >= m as real - 1.0;
    }
  }

  lemma RoundingIsOdd(x: real)
    ensures RoundHalfEven(-x) == -RoundHalfEven(x)
  {
    RoundingIsHalfEven(x, RoundHalfEven(x));
    RoundingIsHalfEven(-x, -RoundHalfEven(x));
  }

  datatype Money = Missing | NotFinite | Unparseable | Exact(value: real)

  /** Decimal arithmetic keeps at most 28 digits; a longer result is an error, which is answered with zero. */
  const MAX_COEFFICIENT := 1_0000_0000_0000_0000_0000_0000_0000

  predicate Fits(cents: int) { -MAX_COEFFICIENT < cents < MAX_COEFFICIENT }

  /** The currency value in hundredths: the coefficient of `_quantize_currency`. */
  function Cents(m: Money): int {
    if m.Exact? && Fits(RoundHalfEven(m.value * 100.0)) then RoundHalfEven(m.value * 100.0) else 0
  }

  function QuantizeCurrency(m: Money): real { Cents(m) as real / 100.0 }

  /** The amounts a Numeric(12, 2) column can hold. */
  predicate InColumn(m: Money) { m.Exact? && -99_9999_9999.99 <= m.value <= 99_9999_9999.99 }

  /** An amount the column can hold is rounded, never given up: half to even, at most half a cent away. */
  lemma QuantizeIsHalfEven(m: Money)
    requires InColumn(m)
    ensures IsHalfEven(m.value * 100.0, Cents(m))
    ensures -0.005 <= m.value - QuantizeCurrency(m) <= 0.005
  {
    RoundingIsHalfEven(m.value * 100.0, RoundHalfEven(m.value * 100.0));
  }

  /** A value already in cents is left as it is. */
  lemma QuantizeIsIdempotent(m: Money)
    ensures QuantizeCurrency(Exact(QuantizeCurrency(m))) == QuantizeCurrency(m)
    ensures m.Exact? && m.value == Cents(m) as real / 100.0 ==> QuantizeCurrency(m) == m.value
  {
    RoundingIsHalfEven(QuantizeCurrency(m) * 100.0, Cents(m));
  }

  /** Order is kept by every pair of amounts that both fit; only an amount too long to round breaks it. */
  lemma QuantizeIsMonotone(a: Money, b: Money)
    requires a.Exact? && b.Exact? && a.value <= b.value
    requires Fits(RoundHalfEven(a.value * 100.0)) && Fits(RoundHalfEven(b.value * 100.0))
    ensures Cents(a) <= Cents(b)
  {
    RoundingIsMonotone(a.value * 100.0, b.value * 100.0);
  }

  function Negated(m: Money): Money {
    if m.Exact? then Exact(-m.value) else m
  }

  /** A compensating entry of the negated amount carries exactly the negated cents. */
  lemma ReversalCancels(m: Money)
    ensures Cents(m) + Cents(Negated(m)) == 0
  {
    if m.Exact? {
      RoundingIsOdd(m.value * 100.0);
      assert -m.value * 100.0 == -(m.value * 100.0);
    }
  }

  // --------------------------------------------------------------------- guards

  datatype Field =
    // immutable
    | SeatId | TargetSeatId | ActorSeatId | ClassId | JoinCode | Mechanism | Amount | AmountCents | Timestamp
    | AccountType | EffectiveAt | DateFundsAvailable | Description | CorrelationId | OriginalTransactionId
    | PolicyId | Type | CompensationSubtype | CommandReservationId | PostingSequence | IdempotencyKey | FeatCode
    | ReversalTransactionId | CompensationOriginLocator | CompensationAmountCents | CorrectionIntentLocator
    // written once
    | PostedAt | LineageEventId | LineageToken | LineageVersion
    // not a column of the ledger
    | Elsewhere

  datatype Value = Null | Num(number: real) | Text(text: string)

  /** An attribute that is not set reads as Null. */
  type Row = map<Field, Value>

  function Get(row: Row, f: Field): Value {
    if f in row then row[f] else Null
  }

  predicate WriteOnce(f: Field) {
    f.PostedAt? || f.LineageEventId? || f.LineageToken? || f.LineageVersion?
  }

  predicate Guarded(f: Field) { !f.Elsewhere? }

  const GUARDED_FIELDS := set f: Field | Guarded(f)

  /** The money in a value; a text that is no number is refused by Decimal. */
  function AsMoney(v: Value): Money {
    match v
    case Null => Missing
    case Num(x) => Exact(x)
    case Text(_) => Unparseable
  }

  /** `_enforce_transaction_integrity`, step 1: the cents follow the amount before every write. */
  function WithCents(target: Row): (r: Row)
    ensures forall f | f != AmountCents :: Get(r, f) == Get(target, f)
    ensures Get(target, Amount) != Null ==> Get(r, AmountCents) == Num(Cents(AsMoney(Get(target, Amount))) as real)
  {
    if Get(target, Amount) == Null then target
    else target[AmountCents := Num(Cents(AsMoney(Get(target, Amount))) as real)]
  }

  /** A field an update may not hold: it differs from a stored fact that is not an empty write-once field. */
  predicate Violates(stored: Row, target: Row, f: Field) {
    Guarded(f) && Get(target, f) != Get(stored, f) && !(WriteOnce(f) && Get(stored, f) == Null)
  }

  /** The comparison loop of `_guard_ledger_immutability`. */
  method FindViolations(stored: Row, target: Row) returns (violations: set<Field>)
    ensures forall f :: f in violations <==> Violates(stored, target, f)
  {
    violations := {};
    var todo := GUARDED_FIELDS;
    while todo != {}
      invariant todo <= GUARDED_FIELDS
      invariant forall f :: f in violations <==> Guarded(f) && f !in todo && Violates(stored, target, f)
      decreases |todo|
    {
      var f :| f in todo;
      todo := todo - {f};
      var previous := Get(stored, f);
      if WriteOnce(f) && previous == Null {
        continue;
      }
      if Get(target, f) != previous {
        violations := violations + {f};
      }
    }
  }

  ghost predicate Accepts(stored: Row, target: Row) {
    forall f :: !Violates(stored, WithCents(target), f)
  }

  /** Both before_update hooks in their order; a refused update leaves the stored row. */
  method BeforeUpdate(stored: Row, target: Row) returns (written: Option<Row>)
    ensures written.Some? <==> Accepts(stored, target)
    ensures written.Some? ==> written.value == WithCents(target)
  {
    var synced := WithCents(target);
    var violations := FindViolations(stored, synced);
    if violations != {} {
      return None;
    }
    return Some(synced);
  }

  /** The columns that are settled at the insert, the derived cents apart. */
  predicate SettledAtInsert(f: Field) {
    match f
    case SeatId | TargetSeatId | ActorSeatId | ClassId | JoinCode | Mechanism | Amount | Timestamp | AccountType => true
    case EffectiveAt | DateFundsAvailable | Description | CorrelationId | OriginalTransactionId | PolicyId => true
    case Type | CompensationSubtype | CommandReservationId | PostingSequence | IdempotencyKey | FeatCode => true
    case ReversalTransactionId | CompensationOriginLocator | CompensationAmountCents => true
    case CorrectionIntentLocator => true
    case AmountCents => false
    case PostedAt | LineageEventId | LineageToken | LineageVersion => false
    case Elsewhere => false
  }

  /** The columns that are filled in once after the insert. */
  predicate FilledLater(f: Field) {
    match f
    case PostedAt | LineageEventId | LineageToken | LineageVersion => true
    case _ => false
  }

  lemma ViolatesExactly(stored: Row, target: Row, f: Field)
    ensures Violates(stored, WithCents(target), f) <==>
              || (f == AmountCents && Get(WithCents(target), f) != Get(stored, f))
              || (SettledAtInsert(f) && Get(target, f) != Get(stored, f))
              || (FilledLater(f) && Get(stored, f) != Null && Get(target, f) != Get(stored, f))
  {
  }

  /**
    An update is accepted exactly when each settled column is as stored, each write-once column as stored or still
    empty there, and the stored cents are those of the amount.
   */
  lemma UpdateAcceptedExactly(stored: Row, target: Row)
    ensures Accepts(stored, target) <==>
              && (forall f | SettledAtInsert(f) :: Get(target, f) == Get(stored, f))
              && (forall f | FilledLater(f) :: Get(stored, f) == Null || Get(target, f) == Get(stored, f))
              && Get(stored, AmountCents)
                 == match Get(stored, Amount)
                    case Null => Get(target, AmountCents)
                    case Num(x) => Num(Cents(Exact(x)) as real)
                    case Text(_) => Num(0.0)
  {
    var synced := WithCents(target);
    assert SettledAtInsert(Amount);
    forall f {
      ViolatesExactly(stored, target, f);
    }
    if Accepts(stored, target) {
      assert !Violates(stored, synced, Amount) && !Violates(stored, synced, AmountCents);
    }
  }

  /** What is written where nothing can be rounded: zero. */
  lemma NothingToRound(m: Money)
    ensures !m.Exact? ==> Cents(m) == 0
    ensures m.Exact? && m.value * 100.0 >= 1_0000_0000_0000_0000_0000_0000_0000.0 ==> Cents(m) == 0
    ensures m.Exact? && m.value * 100.0 <= -1_0000_0000_0000_0000_0000_0000_0000.0 ==> Cents(m) == 0
  {
    if m.Exact? {
      RoundingIsHalfEven(m.value * 100.0, RoundHalfEven(m.value * 100.0));
    }
  }

  datatype InsertError = NoPostingSequence | BadRecovery | FalseLineage

  /** The checks on a new row that need no context, and the row that is written. */
  function BeforeInsert(target: Row): Result<Row, InsertError> {
    var recovery := Get(target, CompensationAmountCents);
    if Get(target, PostingSequence) == Null then Failure(NoPostingSequence)
    else if !recovery.Num? || recovery.number < 0.0 || recovery.number.Floor as real != recovery.number then
      Failure(BadRecovery)
    else if recovery.number == 0.0
      && (Truthy(Get(target, CompensationOriginLocator)) || Truthy(Get(target, CorrectionIntentLocator))) then
      Failure(FalseLineage)
    else Success(WithCents(target))
  }

  /** A new row has a posting sequence and a whole, nonnegative recovery, with lineage only where it recovers. */
  lemma InsertAcceptedExactly(target: Row)
    ensures BeforeInsert(target).Success? <==>
              && Get(target, PostingSequence) != Null
              && var recovery := Get(target, CompensationAmountCents);
              && recovery.Num? && recovery.number >= 0.0 && recovery.number == recovery.number.Floor as real
              && (recovery.number == 0.0 ==>
                    && Get(target, CompensationOriginLocator) in {Null, Num(0.0), Text("")}
                    && Get(target, CorrectionIntentLocator) in {Null, Num(0.0), Text("")})
    ensures BeforeInsert(target).Success? ==> BeforeInsert(target).value == WithCents(target)
  {
  }

  predicate Truthy(v: Value) {
    match v
    case Null => false
    case Num(x) => x != 0.0
    case Text(t) => t != ""
  }

  // ----------------------------------------------------------------- whole runs

  /** The row after the first n attempted updates. */
  ghost function After(inserted: Row, targets: seq<Row>, n: nat): Row
    requires n <= |targets|
  {
    if n == 0 then inserted
    else
      var stored := After(inserted, targets, n - 1);
      if Accepts(stored, targets[n - 1]) then WithCents(targets[n - 1]) else stored
  }

  ghost predicate Changes(inserted: Row, targets: seq<Row>, n: nat, f: Field)
    requires n < |targets|
  {
    Get(After(inserted, targets, n + 1), f) != Get(After(inserted, targets, n), f)
  }

  lemma OneUpdate(inserted: Row, targets: seq<Row>, n: nat, f: Field)
    requires n < |targets| && Guarded(f)
    ensures Changes(inserted, targets, n, f) ==>
              && WriteOnce(f) && Get(After(inserted, targets, n), f) == Null
              && Get(After(inserted, targets, n + 1), f) != Null
  {
    var stored := After(inserted, targets, n);
    if Accepts(stored, targets[n]) {
      assert !Violates(stored, WithCents(targets[n]), f);
    }
  }

  lemma SettledOneStep(inserted: Row, targets: seq<Row>, n: nat, f: Field)
    requires n < |targets| && Guarded(f)
    requires WriteOnce(f) ==> Get(After(inserted, targets, n), f) != Null
    ensures Get(After(inserted, targets, n + 1), f) == Get(After(inserted, targets, n), f)
  {
    OneUpdate(inserted, targets, n, f);
  }

  /** A guarded fact that is settled, an immutable one from the start, keeps its value over any run of updates. */
  lemma {:induction false} SettledFactsStay(inserted: Row, targets: seq<Row>, i: nat, j: nat, f: Field)
    requires i <= j <= |targets| && Guarded(f)
    requires WriteOnce(f) ==> Get(After(inserted, targets, i), f) != Null
    ensures Get(After(inserted, targets, j), f) == Get(After(inserted, targets, i), f)
    decreases j - i
  {
    if i < j {
      SettledOneStep(inserted, targets, i, f);
      SettledFactsStay(inserted, targets, i + 1, j, f);
    }
  }

  /** No guarded field changes twice, and a field that is not write-once never changes. */
  lemma ChangesAtMostOnce(inserted: Row, targets: seq<Row>, i: nat, j: nat, f: Field)
    requires i < j < |targets| && Guarded(f) && Changes(inserted, targets, i, f)
    ensures !Changes(inserted, targets, j, f)
  {
    OneUpdate(inserted, targets, i, f);
    SettledFactsStay(inserted, targets, i + 1, j, f);
    OneUpdate(inserted, targets, j, f);
  }

  /** A write-once column can be filled: the first value that is tried there is written, and nothing else changes. */
  lemma FillsOnce(inserted: Row, f: Field, v: Value)
    requires FilledLater(f) && f !in inserted && Get(inserted, Amount) != Null
    requires AmountCents in inserted && inserted[AmountCents] == Num(Cents(AsMoney(inserted[Amount])) as real)
    ensures After(inserted, [inserted[f := v]], 1) == inserted[f := v]
  {
    var target := inserted[f := v];
    assert WithCents(target) == target;
    forall g
      ensures !Violates(inserted, target, g)
    {
      assert g != f ==> Get(target, g) == Get(inserted, g);
    }
    assert After(inserted, [target], 0) == inserted;
  }

  /** Whatever updates are tried on an inserted row, its amount and the cents derived from it never change or part. */
  lemma CentsFollowAmount(target: Row, targets: seq<Row>, n: nat)
    requires n <= |targets| && BeforeInsert(target).Success? && Get(target, Amount) != Null
    ensures var row := After(BeforeInsert(target).value, targets, n);
            Get(row, Amount) == Get(target, Amount)
            && Get(row, AmountCents) == Num(Cents(AsMoney(Get(target, Amount))) as real)
  {
    var inserted := BeforeInsert(target).value;
    SettledFactsStay(inserted, targets, 0, n, Amount);
    SettledFactsStay(inserted, targets, 0, n, AmountCents);
  }

  /** A stored row accepts an update at all exactly when its cents are those of its amount. */
  lemma UpdatableExactly(stored: Row)
    requires Get(stored, Amount) != Null
    ensures (exists target :: Accepts(stored, target))
        <==> Get(stored, AmountCents) == Num(Cents(AsMoney(Get(stored, Amount))) as real)
  {
    if target :| Accepts(stored, target) {
      assert !Violates(stored, WithCents(target), Amount);
      assert !Violates(stored, WithCents(target), AmountCents);
    }
    if Get(stored, AmountCents) == Num(Cents(AsMoney(Get(stored, Amount))) as real) {
      assert Accepts(stored, stored);
    }
  }

  /** A wrong value put in the cents attribute never reaches the row: an accepted update writes the stored cents. */
  lemma TamperedCentsAreOverwritten(stored: Row, target: Row, v: Value)
    requires Get(stored, Amount) != Null
    ensures Accepts(stored, target) <==> Accepts(stored, target[AmountCents := v])
    ensures Accepts(stored, target) ==>
              Get(WithCents(target[AmountCents := v]), AmountCents) == Get(stored, AmountCents)
  {
    var forged := target[AmountCents := v];
    if Get(target, Amount) == Null {
      assert Violates(stored, WithCents(target), Amount) && Violates(stored, WithCents(forged), Amount);
    } else {
      assert forall f :: Get(WithCents(forged), f) == Get(WithCents(target), f);
      if Accepts(stored, target) {
        assert !Violates(stored, WithCents(target), AmountCents);
      }
      assert forall f :: Violates(stored, WithCents(forged), f) == Violates(stored, WithCents(target), f);
    }
  }
}
