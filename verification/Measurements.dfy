/** Models status/measurements.py: the closed snapshot schema and its classification. */
module Measurements {
  import opened Basics
  import opened Vocabulary

  const WINDOW_SECONDS := 300
  const WINDOW := WINDOW_SECONDS * SECOND
  const MAX_SOURCE_LAG := 180 * SECOND
  const MAX_COUNT := 1_000_000_000
  const MAX_LATENCY_MS := 600_000.0
  const NOT_FOUND_FAILURE_MIN_COUNT := 3
  const RETENTION := 7 * DAY

  const COMPONENT_KEYS: seq<Word> := [Service, Login, Attendance, HallPass, Payroll, Roster, ClassroomEconomy]
  const LEGACY_COMPONENT_KEYS: seq<Word> := [Service, Login, Attendance, Payroll, Roster, ClassroomEconomy]
  const DIAGNOSTICS: set<Word> := {TransportUnavailable, AccessDenied, InvalidSnapshot, StaleSnapshot}

  datatype Schema = Current | Legacy {
    function Id(): Word { if Current? then RequestTelemetryV2 else RequestTelemetryV1 }

    function Keys(): seq<Word> { if Current? then COMPONENT_KEYS else LEGACY_COMPONENT_KEYS }

    predicate Has(key: Word) {
      match key
      case Service | Login | Attendance | Payroll | Roster | ClassroomEconomy => true
      case HallPass => Current?
      case _ => false
    }

    /** The field sets of the schemas differ in the failed-request count only. */
    predicate Fits(c: Component) {
      c.Component? && (c.failures404.Some? <==> Current?)
    }
  }

  function SchemaOf(v: Scalar): Option<Schema> {
    if v == Text(RequestTelemetryV2) then Some(Current)
    else if v == Text(RequestTelemetryV1) then Some(Legacy)
    else None
  }

  // ---------------------------------------------------------------- validity

  /** An unavailable component carries no measurement at all. */
  function UnavailableComponent(key: Word, schema: Schema): Component {
    Component(Text(key), Text(Unavailable), Null, Null, Null, Null, Null, Null, Null, Null,
              if schema.Current? then Some(Null) else None, Null, Null)
  }

  function CountFields(c: Component): seq<Scalar>
    requires c.Component?
  {
    [c.requests, c.http1xx, c.http2xx, c.http3xx, c.http4xx, c.http404, c.http500, c.http5xx]
    + (if c.failures404.Some? then [c.failures404.value] else [])
  }

  function Failures(c: Component): int
    requires c.Component?
  {
    if c.failures404.Some? then Count(c.failures404.value) else 0
  }

  predicate InRange(v: Scalar) {
    v.Int? && 0 <= v.num <= MAX_COUNT
  }

  predicate CountsInRange(c: Component)
    requires c.Component?
  {
    && InRange(c.requests) && InRange(c.http1xx) && InRange(c.http2xx) && InRange(c.http3xx) && InRange(c.http4xx)
    && InRange(c.http5xx) && InRange(c.http404) && InRange(c.http500)
    && (c.failures404.Some? ==> InRange(c.failures404.value))
  }

  predicate ResponsesPartition(c: Component)
    requires c.Component?
  {
    Count(c.http1xx) + Count(c.http2xx) + Count(c.http3xx) + Count(c.http4xx) + Count(c.http5xx) == Count(c.requests)
  }

  predicate SubsetsHold(c: Component)
    requires c.Component?
  {
    && Count(c.http404) <= Count(c.http4xx)
    && Count(c.http500) <= Count(c.http5xx)
    && Failures(c) <= Count(c.http404)
    && (c.key != Text(HallPass) ==> Failures(c) == 0)
  }

  predicate LatencyInRange(v: Scalar) {
    IsNumber(v) && 0.0 <= Number(v) <= MAX_LATENCY_MS
  }

  /** Quantiles exist exactly for windows that saw requests, and are ordered. */
  predicate LatenciesHold(c: Component)
    requires c.Component?
  {
    if Count(c.requests) == 0 then c.p80 == Null && c.p95 == Null
    else LatencyInRange(c.p80) && LatencyInRange(c.p95) && Number(c.p80) <= Number(c.p95)
  }

  predicate Measured(c: Component)
    requires c.Component?
  {
    CountsInRange(c) && ResponsesPartition(c) && SubsetsHold(c) && LatenciesHold(c)
  }

  predicate ValidComponent(c: Component, schema: Schema) {
    && schema.Fits(c)
    && c.key.Text? && schema.Has(c.key.word)
    && (c == UnavailableComponent(c.key.word, schema) || (c.state == Text(Ok) && Measured(c)))
  }

  predicate DistinctKeys(items: seq<Component>)
    requires forall i | 0 <= i < |items| :: items[i].Component?
  {
    forall i, j | 0 <= i < j < |items| :: items[i].key != items[j].key
  }

  predicate ValidComponents(items: seq<Component>, schema: Schema) {
    && |items| == |schema.Keys()|
    && (forall i | 0 <= i < |items| :: ValidComponent(items[i], schema))
    && DistinctKeys(items)
  }

  predicate ValidEnvelope(p: Payload) {
    && p.Snapshot?
    && SchemaOf(p.version).Some?
    && p.window == Int(WINDOW_SECONDS)
    && p.sampledAt.Stamp?
    && (p.latestAt.Null? || (p.latestAt.Stamp? && p.latestAt.at <= p.sampledAt.at))
    && p.components.Some?
  }

  predicate ValidSnapshot(p: Payload) {
    ValidEnvelope(p) && ValidComponents(p.components.value, SchemaOf(p.version).value)
  }

  function SnapshotSchema(p: Payload): Schema
    requires ValidSnapshot(p)
  {
    SchemaOf(p.version).value
  }

  function Latest(p: Payload): Option<int>
    requires ValidSnapshot(p)
  {
    if p.latestAt.Stamp? then Some(p.latestAt.at) else None
  }

  predicate Fresh(p: Payload, receivedAt: int)
    requires ValidSnapshot(p)
  {
    0 <= receivedAt - p.sampledAt.at <= WINDOW
  }

  method CheckCounts(c: Component) returns (ok: bool)
    requires c.Component?
    ensures ok == CountsInRange(c)
  {
    var fields := CountFields(c);
    for i := 0 to |fields|
      invariant forall j | 0 <= j < i :: InRange(fields[j])
    {
      if !fields[i].Int? || !(0 <= fields[i].num <= MAX_COUNT) {
        return false;
      }
    }
    assert forall j | 0 <= j < 8 :: InRange(fields[j]);
    assert InRange(fields[0]) && InRange(fields[1]) && InRange(fields[2]) && InRange(fields[3]);
    assert InRange(fields[4]) && InRange(fields[5]) && InRange(fields[6]) && InRange(fields[7]);
    assert c.failures404.Some? ==> fields[8] == c.failures404.value;
    return true;
  }

  method CheckAllNull(fields: seq<Scalar>) returns (ok: bool)
    ensures ok <==> forall j | 0 <= j < |fields| :: fields[j].Null?
  {
    for i := 0 to |fields|
      invariant forall j | 0 <= j < i :: fields[j].Null?
    {
      if !fields[i].Null? {
        return false;
      }
    }
    return true;
  }

  method CheckLatencies(c: Component) returns (ok: bool)
    requires c.Component?
    ensures ok == LatenciesHold(c)
  {
    var fields, count := [c.p80, c.p95], Count(c.requests);
    for i := 0 to |fields|
      invariant forall j | 0 <= j < i :: if count == 0 then fields[j].Null? else LatencyInRange(fields[j])
    {
      if count == 0 {
        if !fields[i].Null? {
          return false;
        }
      } else if !LatencyInRange(fields[i]) {
        return false;
      }
    }
    assert fields[0] == c.p80 && fields[1] == c.p95;
    return count == 0 || Number(c.p80) <= Number(c.p95);
  }

  method CheckMeasured(c: Component) returns (ok: bool)
    requires c.Component?
    ensures ok == Measured(c)
  {
    var counted := CheckCounts(c);
    if !counted {
      return false;
    }
    if c.http1xx.num + c.http2xx.num + c.http3xx.num + c.http4xx.num + c.http5xx.num != c.requests.num {
      return false;
    }
    if c.http404.num > c.http4xx.num || c.http500.num > c.http5xx.num {
      return false;
    }
    if Failures(c) > c.http404.num || (c.key != Text(HallPass) && Failures(c) != 0) {
      return false;
    }
    ok := CheckLatencies(c);
  }

  lemma UnavailableMeansAllNull(c: Component, schema: Schema)
    requires schema.Fits(c) && c.key.Text? && c.state == Text(Unavailable)
    ensures c == UnavailableComponent(c.key.word, schema)
       <==> forall j | 0 <= j < |CountFields(c) + [c.p80, c.p95]| :: (CountFields(c) + [c.p80, c.p95])[j].Null?
  {
    var all := CountFields(c) + [c.p80, c.p95];
    var n := |CountFields(c)|;
    assert all[0] == c.requests && all[1] == c.http1xx && all[2] == c.http2xx && all[3] == c.http3xx;
    assert all[4] == c.http4xx;
    assert all[5] == c.http404 && all[6] == c.http500 && all[7] == c.http5xx && all[n] == c.p80 && all[n + 1] == c.p95;
    assert c.failures404.Some? ==> all[8] == c.failures404.value;
  }

  method CheckComponent(c: Component, schema: Schema, seen: set<Word>) returns (ok: bool)
    ensures ok == (ValidComponent(c, schema) && c.key.word !in seen)
  {
    if !schema.Fits(c) {
      return false;
    }
    if !c.key.Text? || !schema.Has(c.key.word) || c.key.word in seen {
      return false;
    }
    if c.state == Text(Unavailable) {
      ok := CheckAllNull(CountFields(c) + [c.p80, c.p95]);
      UnavailableMeansAllNull(c, schema);
      return;
    }
    if c.state != Text(Ok) {
      return false;
    }
    ok := CheckMeasured(c);
  }

  /** The validator's loop over `seen` accepts exactly the declarative schema. */
  method ValidateSnapshot(payload: Payload) returns (ok: bool)
    ensures ok == ValidSnapshot(payload)
  {
    if !payload.Snapshot? {
      return false;
    }
    var schema := SchemaOf(payload.version);
    if schema.None? || payload.window != Int(WINDOW_SECONDS) {
      return false;
    }
    if !payload.sampledAt.Stamp? {
      return false;
    }
    if !payload.latestAt.Null? && (!payload.latestAt.Stamp? || payload.latestAt.at > payload.sampledAt.at) {
      return false;
    }
    if payload.components.None? || |payload.components.value| != |schema.value.Keys()| {
      return false;
    }
    ok := CheckComponents(payload.components.value, schema.value);
  }

  /** The first n components are valid, under distinct keys, and `seen` holds exactly their keys. */
  ghost predicate CheckedSoFar(items: seq<Component>, schema: Schema, n: nat, seen: set<Word>) {
    && n <= |items|
    && (forall j | 0 <= j < n :: ValidComponent(items[j], schema) && items[j].key.word in seen)
    && (forall w | w in seen :: exists j | 0 <= j < n :: items[j].Component? && items[j].key == Text(w))
    && forall a, b | 0 <= a < b < n :: items[a].key != items[b].key
  }

  lemma CheckedOneMore(items: seq<Component>, schema: Schema, n: nat, seen: set<Word>)
    requires CheckedSoFar(items, schema, n, seen) && n < |items|
    requires ValidComponent(items[n], schema) && items[n].key.word !in seen
    ensures CheckedSoFar(items, schema, n + 1, seen + {items[n].key.word})
  {
    forall w | w in seen + {items[n].key.word}
      ensures exists j | 0 <= j < n + 1 :: items[j].Component? && items[j].key == Text(w)
    {
      if w in seen {
        var j :| 0 <= j < n && items[j].Component? && items[j].key == Text(w);
        assert j < n + 1;
      } else {
        assert items[n].key == Text(w);
      }
    }
  }

  /** A component that fails on its own, or repeats a key, spoils the whole list. */
  lemma RefusedComponent(items: seq<Component>, schema: Schema, n: nat, seen: set<Word>)
    requires CheckedSoFar(items, schema, n, seen) && n < |items|
    requires !(ValidComponent(items[n], schema) && items[n].key.word !in seen)
    ensures !ValidComponents(items, schema)
  {
    if ValidComponent(items[n], schema) {
      var j :| 0 <= j < n && items[j].Component? && items[j].key == Text(items[n].key.word);
      assert items[j].key == items[n].key;
    }
  }

  method CheckComponents(items: seq<Component>, schema: Schema) returns (ok: bool)
    requires |items| == |schema.Keys()|
    ensures ok == ValidComponents(items, schema)
  {
    var seen := {};
    for i := 0 to |items|
      invariant CheckedSoFar(items, schema, i, seen)
    {
      var good := CheckComponent(items[i], schema, seen);
      if !good {
        RefusedComponent(items, schema, i, seen);
        return false;
      }
      CheckedOneMore(items, schema, i, seen);
      seen := seen + {items[i].key.word};
    }
    return true;
  }

  method ValidateFreshSnapshot(payload: Payload, receivedAt: int) returns (ok: bool)
    ensures ok == (ValidSnapshot(payload) && Fresh(payload, receivedAt))
  {
    ok := ValidateSnapshot(payload);
    if ok {
      var age := receivedAt - payload.sampledAt.at;
      ok := 0 <= age <= WINDOW;
    }
  }

  // ------------------------------------------------------ each key exactly once

  function KeySet(items: seq<Component>, n: nat): set<Scalar>
    requires n <= |items| && forall i | 0 <= i < n :: items[i].Component?
  {
    set i | 0 <= i < n :: items[i].key
  }

  lemma {:induction false} DistinctKeysFillTheirSet(items: seq<Component>, n: nat)
    requires n <= |items| && forall i | 0 <= i < |items| :: items[i].Component?
    requires DistinctKeys(items)
    ensures |KeySet(items, n)| == n
  {
    if n > 0 {
      DistinctKeysFillTheirSet(items, n - 1);
      assert KeySet(items, n) == KeySet(items, n - 1) + {items[n - 1].key};
      assert items[n - 1].key !in KeySet(items, n - 1);
    }
  }

  lemma SubsetOfEqualSizeIsAll<T>(a: set<T>, b: set<T>)
    requires a <= b && |a| == |b|
    ensures a == b
  {
    assert |b - a| == |b| - |a|;
    assert b - a == {};
  }

  function SchemaKeySet(schema: Schema): (keys: set<Scalar>)
    ensures |keys| == |schema.Keys()|
    ensures forall k :: k in keys <==> k.Text? && schema.Has(k.word)
  {
    var legacy := {Text(Service), Text(Login), Text(Attendance), Text(Payroll), Text(Roster), Text(ClassroomEconomy)};
    if schema.Current? then legacy + {Text(HallPass)} else legacy
  }

  /** A whole number that a window may count, up to a thousand million. */
  predicate Counted(v: Scalar) { v.Int? && 0 <= v.num <= 1_000_000_000 }

  /** What a reporting component must say of its requests: the limits and relations one by one. */
  lemma MeasuredExactly(c: Component)
    requires c.Component?
    ensures Measured(c) <==>
              && Counted(c.requests) && Counted(c.http1xx) && Counted(c.http2xx) && Counted(c.http3xx)
              && Counted(c.http4xx) && Counted(c.http5xx) && Counted(c.http404) && Counted(c.http500)
              && c.http1xx.num + c.http2xx.num + c.http3xx.num + c.http4xx.num + c.http5xx.num == c.requests.num
              && c.http404.num <= c.http4xx.num && c.http500.num <= c.http5xx.num
              && (c.failures404.Some? ==>
                    && Counted(c.failures404.value) && c.failures404.value.num <= c.http404.num
                    && (c.key != Text(HallPass) ==> c.failures404.value.num == 0))
              && (c.requests.num == 0 ==> c.p80 == Null && c.p95 == Null)
              && (c.requests.num > 0 ==>
                    && IsNumber(c.p80) && IsNumber(c.p95)
                    && 0.0 <= Number(c.p80) <= Number(c.p95) <= 600_000.0)
  {
  }

  /** The two schema versions by their keys and fields. */
  lemma SchemasExactly(c: Component, schema: Schema)
    ensures schema.Id() == if schema.Current? then RequestTelemetryV2 else RequestTelemetryV1
    ensures schema.Keys() == [Service, Login, Attendance] + (if schema.Current? then [HallPass] else [])
                             + [Payroll, Roster, ClassroomEconomy]
    ensures ValidComponent(c, schema) <==>
              && c.Component? && (c.failures404.Some? <==> schema.Current?)
              && c.key.Text? && c.key.word in schema.Keys()
              && ((c.state == Text(Ok) && Measured(c))
                  || (c.state == Text(Unavailable) && c.requests == c.http1xx == c.http2xx == c.http3xx == Null
                      && c.http4xx == c.http404 == c.http500 == c.http5xx == c.p80 == c.p95 == Null
                      && (schema.Current? ==> c.failures404.value == Null)))
  {
    KeysOf(schema);
  }

  /** A whole snapshot: its version, its window, its times, and one valid component for each of its keys. */
  lemma SnapshotExactly(p: Payload, schema: Schema)
    ensures ValidSnapshot(p) && SnapshotSchema(p) == schema <==>
              && p.Snapshot? && p.version == Text(if schema.Current? then RequestTelemetryV2 else RequestTelemetryV1)
              && p.window == Int(300) && p.sampledAt.Stamp?
              && (p.latestAt == Null || (p.latestAt.Stamp? && p.latestAt.at <= p.sampledAt.at))
              && p.components.Some? && |p.components.value| == (if schema.Current? then 7 else 6)
              && (forall i | 0 <= i < |p.components.value| :: ValidComponent(p.components.value[i], schema))
              && forall i, j | 0 <= i < j < |p.components.value| ::
                   p.components.value[i].key != p.components.value[j].key
  {
  }

  lemma KeysOf(schema: Schema)
    ensures forall key :: key in schema.Keys() <==> schema.Has(key)
  {
    var keys := schema.Keys();
    assert keys[0] == Service && keys[1] == Login && keys[2] == Attendance && keys[|keys| - 3] == Payroll;
    assert keys[|keys| - 2] == Roster && keys[|keys| - 1] == ClassroomEconomy;
    assert schema.Current? ==> keys[3] == HallPass;
  }

  /** An accepted snapshot names every component of its schema, each exactly once. */
  lemma EachKeyExactlyOnce(p: Payload, key: Word)
    requires ValidSnapshot(p) && SnapshotSchema(p).Has(key)
    ensures exists i | 0 <= i < |p.components.value| :: p.components.value[i].key == Text(key)
    ensures forall i, j | 0 <= i < j < |p.components.value| ::
            !(p.components.value[i].key == p.components.value[j].key == Text(key))
  {
    var items := p.components.value;
    DistinctKeysFillTheirSet(items, |items|);
    SubsetOfEqualSizeIsAll(KeySet(items, |items|), SchemaKeySet(SnapshotSchema(p)));
    assert Text(key) in KeySet(items, |items|);
  }

  // ------------------------------------------------------------ classification

  datatype RequestState = MonitorUnavailable | Stale | NoTraffic | Normal | ElevatedErrors | HighLatency {
    /** Counts towards the measured minutes of a day. */
    predicate Eligible() { Normal? || ElevatedErrors? || HighLatency? }
    /** Rests on evidence fresh enough to be kept as activity. */
    predicate Evidence() { !Stale? && !MonitorUnavailable? }
  }

  datatype Reason =
    | AheadOfTime | NoRecentEvidence | NotCollected | NoRequests
    | ServerErrors | HallPassNotFound | NotFound | SlowRequests | WithinThresholds

  /** What the page shows beside the state, as exact numbers; failed-request 404s for hall passes only. */
  datatype Percents = Percents(notFound: real, http500: real, http5xx: real, failures404: Option<real>)

  datatype Classification = Classification(state: RequestState, reasons: seq<Reason>, percents: Option<Percents>)

  /** q is the percentage that `part` is of `whole`. */
  predicate IsPercent(q: real, part: int, whole: int) { q * whole as real == 100.0 * part as real }

  predicate AheadOf(sampled: int, latest: Option<int>, now: int) {
    now < sampled || (latest.Some? && latest.value > now)
  }

  predicate OutOfDate(sampled: int, latest: Option<int>, now: int) {
    now - sampled > WINDOW || (latest.Some? && now - latest.value > MAX_SOURCE_LAG)
  }

  predicate ServerErrorsHigh(c: Component)
    requires c.Component?
  {
    100 * Count(c.http5xx) > 2 * Count(c.requests)
  }

  predicate NotFoundHigh(c: Component)
    requires c.Component?
  {
    100 * Count(c.http404) > 5 * Count(c.requests)
  }

  /** At least three failed-request 404s and more than 2% of the component's requests. */
  predicate NotFoundFailuresSignal(c: Component)
    requires c.Component?
  {
    Count(c.requests) != 0 && Failures(c) >= NOT_FOUND_FAILURE_MIN_COUNT && 100 * Failures(c) > 2 * Count(c.requests)
  }

  predicate Slow(c: Component)
    requires c.Component?
  {
    IsNumber(c.p95) && Number(c.p95) > 1500.0
  }

  /** What a component shows at `now`, as a decision table over evidence and thresholds. */
  function StateAt(c: Component, sampled: int, latest: Option<int>, now: int): RequestState
    requires c.Component?
  {
    if AheadOf(sampled, latest, now) then MonitorUnavailable
    else if OutOfDate(sampled, latest, now) then Stale
    else if latest.None? || c.state != Text(Ok) then MonitorUnavailable
    else if Count(c.requests) == 0 then NoTraffic
    else if ServerErrorsHigh(c) || NotFoundFailuresSignal(c) || NotFoundHigh(c) then ElevatedErrors
    else if Slow(c) then HighLatency
    else Normal
  }

  /**
    Each state by times, counts and percentages. A timestamp ahead of the clock goes first, then evidence more than
    five minutes old or more than three behind the source, then evidence that is missing.
   */
  lemma StateExactly(c: Component, sampled: int, latest: Option<int>, now: int)
    requires c.Component?
    ensures var state := StateAt(c, sampled, latest, now);
            var ahead := now < sampled || (latest.Some? && now < latest.value);
            var late := now - sampled > 300_000_000 || (latest.Some? && now - latest.value > 180_000_000);
            var missing := latest.None? || c.state != Text(Ok);
            && (state.MonitorUnavailable? <==> ahead || (!late && missing))
            && (state.Stale? <==> !ahead && late)
            && (!ahead && !late && !missing ==> StateOfTraffic(c, state))
  {
  }

  /** With evidence at hand: above 2% of 5xx, above 5% of 404, or three failed requests above 2%; then slowness. */
  predicate StateOfTraffic(c: Component, state: RequestState)
    requires c.Component?
  {
    var n, failed := Count(c.requests), if c.failures404.Some? then Count(c.failures404.value) else 0;
    var errors := 100 * Count(c.http5xx) > 2 * n || 100 * Count(c.http404) > 5 * n
                  || (failed >= 3 && 100 * failed > 2 * n);
    var slow := IsNumber(c.p95) && Number(c.p95) > 1500.0;
    && (state.NoTraffic? <==> n == 0)
    && (state.ElevatedErrors? <==> n != 0 && errors)
    && (state.HighLatency? <==> n != 0 && !errors && slow)
    && (state.Normal? <==> n != 0 && !errors && !slow)
  }

  function StateIn(p: Payload, c: Component, now: int): RequestState
    requires ValidSnapshot(p) && c.Component?
  {
    StateAt(c, p.sampledAt.at, Latest(p), now)
  }

  function Percent(part: int, whole: int): (q: real)
    requires whole > 0
    ensures IsPercent(q, part, whole)
  {
    100.0 * part as real / whole as real
  }

  /** Comparing the percentage is comparing the counts. */
  lemma PercentOver(part: int, whole: int, limit: int)
    requires whole > 0
    ensures Percent(part, whole) > limit as real <==> 100 * part > limit * whole
  {
    var q := Percent(part, whole);
    if q > limit as real {
      assert q * whole as real > limit as real * whole as real;
    } else {
      assert q * whole as real <= limit as real * whole as real;
    }
  }

  function PercentsOf(c: Component): Percents
    requires c.Component? && Count(c.requests) > 0
  {
    var n := Count(c.requests);
    Percents(Percent(Count(c.http404), n), Percent(Count(c.http500), n), Percent(Count(c.http5xx), n),
             if c.key == Text(HallPass) then Some(Percent(Failures(c), n)) else None)
  }

  /** The shown percentages are those of the component's own counts; failed requests are shown for hall passes only. */
  lemma PercentsExactly(c: Component)
    requires c.Component? && Count(c.requests) > 0
    ensures var p, n := PercentsOf(c), Count(c.requests) as real;
            && p.notFound * n == 100.0 * Count(c.http404) as real
            && p.http500 * n == 100.0 * Count(c.http500) as real
            && p.http5xx * n == 100.0 * Count(c.http5xx) as real
            && (p.failures404.Some? <==> c.key == Text(HallPass))
            && (p.failures404.Some? ==>
                  p.failures404.value * n
                  == if c.failures404.Some? then 100.0 * Count(c.failures404.value) as real else 0.0)
  {
  }

  lemma ThresholdsAreCounts(c: Component)
    requires c.Component? && Count(c.requests) > 0
    ensures PercentsOf(c).http5xx > 2.0 <==> ServerErrorsHigh(c)
    ensures PercentsOf(c).notFound > 5.0 <==> NotFoundHigh(c)
  {
    PercentOver(Count(c.http5xx), Count(c.requests), 2);
    PercentOver(Count(c.http404), Count(c.requests), 5);
  }

  method ClassifyComponent(c: Component, snapshot: Payload, now: int) returns (r: Classification)
    requires ValidSnapshot(snapshot) && ValidComponent(c, SnapshotSchema(snapshot))
    ensures r.state == StateIn(snapshot, c, now)
    ensures r.state.MonitorUnavailable? ==>
              r.reasons == [if AheadOf(snapshot.sampledAt.at, Latest(snapshot), now) then AheadOfTime else NotCollected]
    ensures r.state.Stale? ==> r.reasons == [NoRecentEvidence]
    ensures r.state.NoTraffic? ==> r.reasons == [NoRequests]
    ensures r.state.Normal? <==> r.reasons == [WithinThresholds]
    ensures r.reasons != []
    ensures r.percents == if r.state.Eligible() then Some(PercentsOf(c)) else None
    ensures r.state.Eligible() ==>
              && (ServerErrors in r.reasons <==> ServerErrorsHigh(c))
              && (HallPassNotFound in r.reasons <==> NotFoundFailuresSignal(c))
              && (NotFound in r.reasons <==> NotFoundHigh(c))
              && (SlowRequests in r.reasons <==> Slow(c))
  {
    var sampled, latest := snapshot.sampledAt.at, Latest(snapshot);
    if now - sampled < 0 || (latest.Some? && latest.value > now) {
      return Classification(MonitorUnavailable, [AheadOfTime], None);
    }
    if now - sampled > WINDOW || (latest.Some? && now - latest.value > MAX_SOURCE_LAG) {
      return Classification(Stale, [NoRecentEvidence], None);
    }
    if latest.None? || c.state != Text(Ok) {
      return Classification(MonitorUnavailable, [NotCollected], None);
    }
    var count := c.requests.num;
    if count == 0 {
      return Classification(NoTraffic, [NoRequests], None);
    }
    var state, reasons := JudgeTraffic(c, PercentsOf(c));
    return Classification(state, reasons, Some(PercentsOf(c)));
  }

  /** The thresholds, for a window that saw requests. */
  method JudgeTraffic(c: Component, percents: Percents) returns (state: RequestState, reasons: seq<Reason>)
    requires c.Component? && Count(c.requests) > 0 && percents == PercentsOf(c) && IsNumber(c.p95)
    ensures state == if ServerErrorsHigh(c) || NotFoundFailuresSignal(c) || NotFoundHigh(c) then ElevatedErrors
                     else if Slow(c) then HighLatency else Normal
    ensures reasons != []
    ensures state.Normal? ==> reasons == [WithinThresholds]
    ensures WithinThresholds in reasons <==> state.Normal?
    ensures ServerErrors in reasons <==> ServerErrorsHigh(c)
    ensures HallPassNotFound in reasons <==> NotFoundFailuresSignal(c)
    ensures NotFound in reasons <==> NotFoundHigh(c)
    ensures SlowRequests in reasons <==> Slow(c)
  {
    ThresholdsAreCounts(c);
    reasons := [];
    if percents.http5xx > 2.0 {
      reasons := reasons + [ServerErrors];
    }
    if NotFoundFailuresSignal(c) {
      reasons := reasons + [HallPassNotFound];
    }
    if percents.notFound > 5.0 {
      reasons := reasons + [NotFound];
    }
    state := if reasons != [] then ElevatedErrors else Normal;
    if Number(c.p95) > 1500.0 {
      reasons := reasons + [SlowRequests];
      if state != ElevatedErrors {
        state := HighLatency;
      }
    }
    if reasons == [] {
      reasons := [WithinThresholds];
    }
  }

  // --------------------------------------------------------- retained activity

  function EntrySchema(c: Component): Schema {
    if c.Component? && c.failures404.Some? then Current else Legacy
  }

  /** A snapshot in which one component reports and every other one is unavailable. */
  function Solo(key: Word, c: Component, schema: Schema, sampledAt: Scalar, latestAt: Scalar): Payload {
    var keys := schema.Keys();
    Snapshot(Text(schema.Id()), sampledAt, Int(WINDOW_SECONDS), latestAt,
             Some(seq(|keys|, i requires 0 <= i < |keys| =>
               if keys[i] == key then c else UnavailableComponent(keys[i], schema))))
  }

  function Position(schema: Schema, key: Word): (i: nat)
    requires schema.Has(key)
    ensures i < |schema.Keys()| && schema.Keys()[i] == key
  {
    var shift := if schema.Legacy? then 1 else 0;
    match key
    case Service => 0
    case Login => 1
    case Attendance => 2
    case HallPass => 3
    case Payroll => 4 - shift
    case Roster => 5 - shift
    case ClassroomEconomy => 6 - shift
  }

  lemma PositionsDiffer(schema: Schema, i: nat, j: nat)
    requires i < j < |schema.Keys()|
    ensures schema.Keys()[i] != schema.Keys()[j]
    ensures schema.Has(schema.Keys()[i]) && schema.Has(schema.Keys()[j])
  {
  }

  lemma OtherKey(schema: Schema, key: Word, i: nat)
    requires schema.Has(key) && i < |schema.Keys()| && i != Position(schema, key)
    ensures schema.Keys()[i] != key && schema.Has(schema.Keys()[i])
  {
    var at := Position(schema, key);
    if i < at {
      PositionsDiffer(schema, i, at);
    } else {
      PositionsDiffer(schema, at, i);
    }
  }

  lemma SoloItems(key: Word, c: Component, schema: Schema, sampledAt: Scalar, latestAt: Scalar, i: nat)
    requires schema.Has(key) && i < |schema.Keys()|
    ensures var items := Solo(key, c, schema, sampledAt, latestAt).components.value;
            if i == Position(schema, key) then items[i] == c
            else schema.Has(schema.Keys()[i]) && items[i] == UnavailableComponent(schema.Keys()[i], schema)
  {
    if i != Position(schema, key) {
      OtherKey(schema, key, i);
    }
  }

  lemma SoloIsValid(key: Word, c: Component, schema: Schema, sampledAt: Scalar, latestAt: Scalar)
    requires schema.Has(key) && ValidComponent(c, schema) && c.key == Text(key)
    ensures ValidComponents(Solo(key, c, schema, sampledAt, latestAt).components.value, schema)
  {
    var items := Solo(key, c, schema, sampledAt, latestAt).components.value;
    forall i | 0 <= i < |items|
      ensures ValidComponent(items[i], schema) && items[i].key == Text(schema.Keys()[i])
    {
      SoloItems(key, c, schema, sampledAt, latestAt, i);
    }
    forall i, j | 0 <= i < j < |items|
      ensures items[i].key != items[j].key
    {
      PositionsDiffer(schema, i, j);
    }
  }

  /** Under another key of the schema the component repeats that key. */
  lemma SoloNeedsItsKey(key: Word, c: Component, schema: Schema, sampledAt: Scalar, latestAt: Scalar)
    requires schema.Has(key) && ValidComponent(c, schema)
    requires ValidComponents(Solo(key, c, schema, sampledAt, latestAt).components.value, schema)
    ensures c.key == Text(key)
  {
    var items, at := Solo(key, c, schema, sampledAt, latestAt).components.value, Position(schema, key);
    SoloItems(key, c, schema, sampledAt, latestAt, at);
    var other := Position(schema, c.key.word);
    SoloItems(key, c, schema, sampledAt, latestAt, other);
    assert items[other].key == items[at].key;
  }

  /** The one reporting component decides: it must be valid and stand under its own key. */
  lemma SoloValidity(key: Word, c: Component, schema: Schema, sampledAt: Scalar, latestAt: Scalar)
    requires schema.Has(key)
    ensures ValidSnapshot(Solo(key, c, schema, sampledAt, latestAt))
       <==> ValidEnvelope(Solo(key, c, schema, sampledAt, latestAt)) && ValidComponent(c, schema) && c.key == Text(key)
  {
    if ValidComponents(Solo(key, c, schema, sampledAt, latestAt).components.value, schema) {
      SoloItems(key, c, schema, sampledAt, latestAt, Position(schema, key));
      SoloNeedsItsKey(key, c, schema, sampledAt, latestAt);
    }
    if ValidComponent(c, schema) && c.key == Text(key) {
      SoloIsValid(key, c, schema, sampledAt, latestAt);
    }
  }

  function Historical(key: Word, entry: Entry): Payload
    requires entry.Entry?
  {
    Solo(key, entry.component, EntrySchema(entry.component), entry.sampledAt, entry.latestAt)
  }

  /** An entry is kept while it still validates, is at most seven days old and shows requests on fresh evidence. */
  predicate Keeps(key: Word, entry: Entry, now: int) {
    && entry.Entry?
    && EntrySchema(entry.component).Has(key)
    && var h := Historical(key, entry);
       && ValidSnapshot(h)
       && 0 <= now - h.sampledAt.at <= RETENTION
       && entry.component.Component?
       && Count(entry.component.requests) != 0
       && StateIn(h, entry.component, h.sampledAt.at).Evidence()
  }

  function Retained(activity: Activity, now: int): map<Word, Entry> {
    if activity.Activities? then
      map key | key in activity.entries && Schema.Current.Has(key) && Keeps(key, activity.entries[key], now)
        :: activity.entries[key]
    else map[]
  }

  /** Which stored entries count: well-formed, of that component, with requests, in time and on fresh evidence. */
  lemma KeepsExactly(key: Word, entry: Entry, now: int)
    ensures Keeps(key, entry, now) <==>
              && entry.Entry? && entry.sampledAt.Stamp? && entry.latestAt.Stamp?
              && 0 <= entry.sampledAt.at - entry.latestAt.at <= 3 * 60 * 1_000_000
              && 0 <= now - entry.sampledAt.at <= 7 * 24 * 3600 * 1_000_000
              && var c := entry.component;
              && c.Component? && c.key == Text(key) && c.state == Text(Ok) && Count(c.requests) > 0
              && ValidComponent(c, if c.failures404.Some? then Current else Legacy)
  {
    if entry.Entry? && EntrySchema(entry.component).Has(key) {
      SoloValidity(key, entry.component, EntrySchema(entry.component), entry.sampledAt, entry.latestAt);
    }
  }

  method KeepsEntry(key: Word, value: Entry, now: int) returns (keep: bool)
    ensures keep == Keeps(key, value, now)
  {
    if !value.Entry? {
      return false;
    }
    if !EntrySchema(value.component).Has(key) {
      return false;
    }
    var historical := Historical(key, value);
    var valid := ValidateSnapshot(historical);
    if !valid {
      return false;
    }
    SoloValidity(key, value.component, EntrySchema(value.component), value.sampledAt, value.latestAt);
    var classified := ClassifyComponent(value.component, historical, historical.sampledAt.at);
    return 0 <= now - historical.sampledAt.at <= RETENTION
        && Count(value.component.requests) != 0
        && classified.state.Evidence();
  }

  /**
    What was written with requests and fresh evidence at its receipt is read back
    at any later time exactly until it is seven days old.
   */
  lemma WrittenActivityIsKept(p: Payload, i: nat, receivedAt: int, now: int)
    requires ValidSnapshot(p) && Fresh(p, receivedAt) && i < |p.components.value|
    requires Count(p.components.value[i].requests) != 0 && StateIn(p, p.components.value[i], receivedAt).Evidence()
    requires receivedAt <= now
    ensures var c := p.components.value[i];
            Keeps(c.key.word, Entry(p.sampledAt, p.latestAt, c), now) <==> now - p.sampledAt.at <= RETENTION
  {
    var c := p.components.value[i];
    assert ValidComponent(c, SnapshotSchema(p));
    assert EntrySchema(c) == SnapshotSchema(p);
    SoloValidity(c.key.word, c, SnapshotSchema(p), p.sampledAt, p.latestAt);
  }

  lemma KeysListed(key: Word)
    ensures Schema.Current.Has(key) <==> key in COMPONENT_KEYS
  {
    assert COMPONENT_KEYS[0] == Service && COMPONENT_KEYS[1] == Login && COMPONENT_KEYS[2] == Attendance;
    assert COMPONENT_KEYS[3] == HallPass && COMPONENT_KEYS[4] == Payroll && COMPONENT_KEYS[5] == Roster;
    assert COMPONENT_KEYS[6] == ClassroomEconomy;
  }

  /** The result holds the entries of these keys that are kept, as they were. */
  ghost predicate RetainedOf(result: map<Word, Entry>, entries: map<Word, Entry>, keys: seq<Word>, now: int) {
    && (forall key :: key in result <==> key in keys && key in entries && Keeps(key, entries[key], now))
    && (forall key | key in result :: result[key] == entries[key])
  }

  lemma RetainedOneMore(result: map<Word, Entry>, entries: map<Word, Entry>, keys: seq<Word>, key: Word, now: int)
    requires RetainedOf(result, entries, keys, now)
    ensures var more := if key in entries && Keeps(key, entries[key], now) then result[key := entries[key]] else result;
            RetainedOf(more, entries, keys + [key], now)
  {
  }

  method RetainedUnder(entries: map<Word, Entry>, keys: seq<Word>, now: int) returns (result: map<Word, Entry>)
    ensures RetainedOf(result, entries, keys, now)
  {
    result := map[];
    for i := 0 to |keys|
      invariant RetainedOf(result, entries, keys[..i], now)
    {
      RetainedOneMore(result, entries, keys[..i], keys[i], now);
      assert keys[..i + 1] == keys[..i] + [keys[i]];
      if keys[i] in entries {
        var keep := KeepsEntry(keys[i], entries[keys[i]], now);
        if keep {
          result := result[keys[i] := entries[keys[i]]];
        }
      }
    }
    assert keys[..|keys|] == keys;
  }

  /** Re-validates each entry on its own, so one corrupt entry cannot drop or admit another. */
  method RetainedActivity(activity: Activity, now: int) returns (result: map<Word, Entry>)
    ensures result == Retained(activity, now)
  {
    if !activity.Activities? {
      return map[];
    }
    result := RetainedUnder(activity.entries, COMPONENT_KEYS, now);
    forall key ensures Schema.Current.Has(key) <==> key in COMPONENT_KEYS {
      KeysListed(key);
    }
  }
}
