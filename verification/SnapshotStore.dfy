/**
  Models FirestoreNoticeStore.append_snapshot (status_service/store.py): one
  atomic step over source minutes, day counters, failure attempts and the
  current pointer, and what every run of such steps keeps.
*/
module SnapshotStore {
  import opened Basics
  import opened Vocabulary
  import opened Measurements

  datatype Receipt = Aware(at: int) | Naive

  datatype Delivery = Delivery(snapshot: Option<Payload>, receivedAt: Receipt, diagnostic: Option<Word>)

  datatype Wrapper = Wrapper(snapshot: Option<Payload>, receivedAt: int, diagnostic: Option<Word>)

  datatype StoredDoc = StoredDoc(wrapper: Wrapper, expiresAt: int)

  datatype CurrentDoc = CurrentDoc(wrapper: Wrapper, lastActivity: Activity)

  datatype Counters = Counters(sampled: nat, measured: nat, normal: nat, elevatedErrors: nat, highLatency: nat,
                               other: nat)

  datatype DayDoc = DayDoc(components: map<Word, Counters>, expiresAt: int)

  datatype StoreError = NaiveReceipt | OpenDiagnostic | DiagnosedSnapshot | RefusedSnapshot

  /** The three stored document families that carry evidence. The day counters are an index over `sources`. */
  datatype Telemetry = Telemetry(sources: map<int, StoredDoc>, attempts: seq<StoredDoc>, current: Option<CurrentDoc>)

  const EMPTY := Telemetry(map[], [], None)
  const NO_COUNTS := Counters(0, 0, 0, 0, 0, 0)

  // ------------------------------------------------------------------ one step

  function MinuteOf(at: int): int { at / MINUTE }
  function DayOf(minute: int): int { minute / 1440 }
  function FloorToMinute(at: int): int { MinuteOf(at) * MINUTE }

  function Accepted(d: Delivery): (r: Result<Wrapper, StoreError>)
    ensures r.Success? ==> GoodWrapper(r.value)
  {
    if d.receivedAt.Naive? then Failure(NaiveReceipt)
    else if d.snapshot.None? then
      if d.diagnostic.None? || d.diagnostic.value !in DIAGNOSTICS then Failure(OpenDiagnostic)
      else Success(Wrapper(None, d.receivedAt.at, d.diagnostic))
    else if d.diagnostic.Some? then Failure(DiagnosedSnapshot)
    else if ValidSnapshot(d.snapshot.value) && Fresh(d.snapshot.value, d.receivedAt.at) then
      Success(Wrapper(d.snapshot, d.receivedAt.at, None))
    else Failure(RefusedSnapshot)
  }

  predicate GoodWrapper(w: Wrapper) {
    w.snapshot.Some? ==> ValidSnapshot(w.snapshot.value) && Fresh(w.snapshot.value, w.receivedAt)
  }

  predicate HasSource(w: Wrapper) {
    w.snapshot.Some? && GoodWrapper(w)
  }

  function SourceAt(w: Wrapper): int
    requires HasSource(w)
  {
    w.snapshot.value.sampledAt.at
  }

  function SourceMinute(w: Wrapper): int
    requires HasSource(w)
  {
    MinuteOf(SourceAt(w))
  }

  predicate Good(t: Telemetry) {
    && (forall m | m in t.sources :: HasSource(t.sources[m].wrapper) && SourceMinute(t.sources[m].wrapper) == m)
    && (t.current.Some? ==> GoodWrapper(t.current.value.wrapper))
  }

  /** When an attempt replaces the current document; a duplicate minute never does, not even as the first attempt. */
  predicate Publishes(t: Telemetry, w: Wrapper)
    requires Good(t) && GoodWrapper(w)
  {
    && (w.snapshot.Some? ==> SourceMinute(w) !in t.sources)
    && (t.current.Some? ==>
          var previous := t.current.value.wrapper;
          && previous.receivedAt < w.receivedAt
          && (w.snapshot.Some? && previous.snapshot.Some? ==> SourceAt(previous) < SourceAt(w))
          && (w.snapshot.Some? && previous.snapshot.None? ==> FloorToMinute(previous.receivedAt) <= SourceAt(w)))
  }

  /** What each component of a snapshot shows at `now`. */
  function Grade(p: Payload, items: seq<Component>, now: int): map<Word, RequestState>
    requires ValidSnapshot(p) && forall i | 0 <= i < |items| :: ValidComponent(items[i], SnapshotSchema(p))
  {
    if items == [] then map[]
    else
      var last := |items| - 1;
      var c := items[last];
      assert ValidComponent(c, SnapshotSchema(p));
      Grade(p, items[..last], now)[c.key.word := StateIn(p, c, now)]
  }

  predicate ShowsActivity(p: Payload, c: Component, receivedAt: int)
    requires ValidSnapshot(p) && c.Component?
  {
    Count(c.requests) != 0 && StateIn(p, c, receivedAt).Evidence()
  }

  /** The components with requests on evidence fresh at receipt, as activity entries. */
  function Shown(p: Payload, items: seq<Component>, receivedAt: int): map<Word, Entry>
    requires ValidSnapshot(p) && forall i | 0 <= i < |items| :: ValidComponent(items[i], SnapshotSchema(p))
  {
    if items == [] then map[]
    else
      var last := |items| - 1;
      var c := items[last];
      assert ValidComponent(c, SnapshotSchema(p));
      var rest := Shown(p, items[..last], receivedAt);
      if ShowsActivity(p, c, receivedAt) then rest[c.key.word := Entry(p.sampledAt, p.latestAt, c)] else rest
  }

  function PreviousActivity(t: Telemetry): Activity {
    if t.current.Some? then t.current.value.lastActivity else NotADict
  }

  /** Kept entries, overridden by what this attempt shows; a failed attempt shows nothing. */
  function NextActivity(t: Telemetry, w: Wrapper): map<Word, Entry>
    requires GoodWrapper(w)
  {
    var kept := Retained(PreviousActivity(t), w.receivedAt);
    if w.snapshot.None? then kept else kept + Shown(w.snapshot.value, w.snapshot.value.components.value, w.receivedAt)
  }

  /** A new minute, or a failed attempt, is stored; a minute that is there already stays as it is. */
  function Stored(t: Telemetry, w: Wrapper): Telemetry
    requires Good(t) && GoodWrapper(w)
  {
    if w.snapshot.None? then t.(attempts := t.attempts + [StoredDoc(w, w.receivedAt + 7 * DAY)])
    else if SourceMinute(w) in t.sources then t
    else t.(sources := t.sources[SourceMinute(w) := StoredDoc(w, SourceAt(w) + 7 * DAY)])
  }

  /** One accepted attempt, as a transaction on the stored evidence. */
  function Next(t: Telemetry, w: Wrapper): Telemetry
    requires Good(t) && GoodWrapper(w)
  {
    if Publishes(t, w) then Stored(t, w).(current := Some(CurrentDoc(w, Activities(NextActivity(t, w)))))
    else Stored(t, w)
  }

  // ---------------------------------------------- day counters index the minutes

  function GradeOf(w: Wrapper): map<Word, RequestState>
    requires HasSource(w)
  {
    Grade(w.snapshot.value, w.snapshot.value.components.value, SourceAt(w))
  }

  type Grades = map<int, map<Word, RequestState>>

  /** Every stored minute with the classification of its components at the time of sampling. */
  function GradesOf(sources: map<int, StoredDoc>): Grades
    requires forall m | m in sources :: HasSource(sources[m].wrapper)
  {
    map m | m in sources :: GradeOf(sources[m].wrapper)
  }

  function Minutes(grades: Grades, day: int, key: Word, states: set<RequestState>): set<int> {
    set m | m in grades && DayOf(m) == day && key in grades[m] && grades[m][key] in states
  }

  const MEASURED := {Normal, ElevatedErrors, HighLatency}
  const UNMEASURED := {MonitorUnavailable, Stale, NoTraffic}

  /** Counters of a day and component, counted from the stored minutes. */
  function Tally(grades: Grades, day: int, key: Word): Counters {
    Counters(|Minutes(grades, day, key, MEASURED + UNMEASURED)|,
             |Minutes(grades, day, key, MEASURED)|,
             |Minutes(grades, day, key, {Normal})|,
             |Minutes(grades, day, key, {ElevatedErrors})|,
             |Minutes(grades, day, key, {HighLatency})|,
             |Minutes(grades, day, key, UNMEASURED)|)
  }

  /** sampled = measured + other and measured = normal + elevated_errors + high_latency, on every day. */
  lemma CountersPartition(grades: Grades, day: int, key: Word)
    ensures var t := Tally(grades, day, key);
            t.sampled == t.measured + t.other && t.measured == t.normal + t.elevatedErrors + t.highLatency
  {
    MinutesSplit(grades, day, key, MEASURED, UNMEASURED);
    MinutesSplit(grades, day, key, {Normal, ElevatedErrors}, {HighLatency});
    assert MEASURED == {Normal, ElevatedErrors} + {HighLatency};
    MinutesSplit(grades, day, key, {Normal}, {ElevatedErrors});
    assert {Normal, ElevatedErrors} == {Normal} + {ElevatedErrors};
  }

  lemma MinutesSplit(grades: Grades, day: int, key: Word, a: set<RequestState>, b: set<RequestState>)
    requires a !! b
    ensures |Minutes(grades, day, key, a + b)| == |Minutes(grades, day, key, a)| + |Minutes(grades, day, key, b)|
  {
    assert Minutes(grades, day, key, a + b) == Minutes(grades, day, key, a) + Minutes(grades, day, key, b);
  }

  lemma MinutesGrow(grades: Grades, m: int, grade: map<Word, RequestState>, day: int, key: Word,
                    states: set<RequestState>)
    requires m !in grades
    ensures |Minutes(grades[m := grade], day, key, states)|
         == |Minutes(grades, day, key, states)|
            + (if DayOf(m) == day && key in grade && grade[key] in states then 1 else 0)
  {
    var before, after := Minutes(grades, day, key, states), Minutes(grades[m := grade], day, key, states);
    if DayOf(m) == day && key in grade && grade[key] in states {
      assert after == before + {m};
    } else {
      assert after == before;
    }
  }

  function Bumped(c: Counters, state: RequestState): Counters {
    Counters(c.sampled + 1,
             c.measured + (if state.Eligible() then 1 else 0),
             c.normal + (if state.Normal? then 1 else 0),
             c.elevatedErrors + (if state.ElevatedErrors? then 1 else 0),
             c.highLatency + (if state.HighLatency? then 1 else 0),
             c.other + (if state.Eligible() then 0 else 1))
  }

  lemma TallyGrows(grades: Grades, m: int, grade: map<Word, RequestState>, day: int, key: Word)
    requires m !in grades
    ensures Tally(grades[m := grade], day, key)
         == if DayOf(m) == day && key in grade then Bumped(Tally(grades, day, key), grade[key])
            else Tally(grades, day, key)
  {
    MinutesGrow(grades, m, grade, day, key, MEASURED + UNMEASURED);
    MinutesGrow(grades, m, grade, day, key, MEASURED);
    MinutesGrow(grades, m, grade, day, key, {Normal});
    MinutesGrow(grades, m, grade, day, key, {ElevatedErrors});
    MinutesGrow(grades, m, grade, day, key, {HighLatency});
    MinutesGrow(grades, m, grade, day, key, UNMEASURED);
  }

  /** The day documents that the stored minutes call for, and nothing else. */
  ghost predicate DaysIndex(days: map<int, DayDoc>, grades: Grades) {
    && (forall m | m in grades :: DayOf(m) in days)
    && (forall day | day in days ::
          && (exists m | m in grades :: DayOf(m) == day)
          && days[day].expiresAt == (day + 90) * DAY
          && DayIndexes(days[day].components, grades, day))
  }

  ghost predicate DayIndexes(components: map<Word, Counters>, grades: Grades, day: int) {
    forall key :: CountsOf(components, key) == Tally(grades, day, key)
               && (key in components <==> Tally(grades, day, key).sampled != 0)
  }

  function CountsOf(components: map<Word, Counters>, key: Word): Counters {
    if key in components then components[key] else NO_COUNTS
  }

  /** The same of the stored documents: every counter record of every day splits up exactly. */
  lemma StoredCountersPartition(days: map<int, DayDoc>, grades: Grades, day: int, key: Word)
    requires DaysIndex(days, grades) && day in days && key in days[day].components
    ensures var c := days[day].components[key];
            && c.sampled > 0 && c.sampled == c.measured + c.other
            && c.measured == c.normal + c.elevatedErrors + c.highLatency
  {
    CountersPartition(grades, day, key);
    assert CountsOf(days[day].components, key) == Tally(grades, day, key);
  }

  /** The stored minutes leave the day documents no freedom. */
  lemma DaysAreDetermined(a: map<int, DayDoc>, b: map<int, DayDoc>, grades: Grades)
    requires DaysIndex(a, grades) && DaysIndex(b, grades)
    ensures a == b
  {
    forall day | day in a
      ensures day in b && a[day] == b[day]
    {
      var m :| m in grades && DayOf(m) == day;
    }
    forall day | day in b
      ensures day in a
    {
      var m :| m in grades && DayOf(m) == day;
    }
  }

  lemma OtherDay(components: map<Word, Counters>, grades: Grades, m: int, grade: map<Word, RequestState>, day: int)
    requires m !in grades && DayOf(m) != day && DayIndexes(components, grades, day)
    ensures DayIndexes(components, grades[m := grade], day)
  {
    forall key ensures Tally(grades[m := grade], day, key) == Tally(grades, day, key) {
      TallyGrows(grades, m, grade, day, key);
    }
  }

  /** Counters after the components in `grade` have each been counted once. */
  ghost predicate CountedOnce(before: map<Word, Counters>, grade: map<Word, RequestState>, after: map<Word, Counters>) {
    forall key ::
      && CountsOf(after, key) == (if key in grade then Bumped(CountsOf(before, key), grade[key])
                                  else CountsOf(before, key))
      && (key in after <==> key in before || key in grade)
  }

  lemma CountedOnceIndexes(before: map<Word, Counters>, grades: Grades, m: int, grade: map<Word, RequestState>,
                           after: map<Word, Counters>)
    requires m !in grades && DayIndexes(before, grades, DayOf(m)) && CountedOnce(before, grade, after)
    ensures DayIndexes(after, grades[m := grade], DayOf(m))
  {
    forall key
      ensures CountsOf(after, key) == Tally(grades[m := grade], DayOf(m), key)
      ensures key in after <==> Tally(grades[m := grade], DayOf(m), key).sampled != 0
    {
      TallyGrows(grades, m, grade, DayOf(m), key);
    }
  }

  method Counted(counters: Counters, state: RequestState) returns (c: Counters)
    ensures c == Bumped(counters, state)
  {
    c := counters.(sampled := counters.sampled + 1);
    if state.Eligible() {
      c := c.(measured := c.measured + 1);
    }
    match state {
      case Normal => c := c.(normal := c.normal + 1);
      case ElevatedErrors => c := c.(elevatedErrors := c.elevatedErrors + 1);
      case HighLatency => c := c.(highLatency := c.highLatency + 1);
      case _ => c := c.(other := c.other + 1);
    }
  }

  lemma GradeStep(p: Payload, items: seq<Component>, i: nat, now: int)
    requires ValidSnapshot(p) && items == p.components.value && i < |items|
    ensures Grade(p, items[..i + 1], now) == Grade(p, items[..i], now)[items[i].key.word := StateIn(p, items[i], now)]
  {
    assert items[..i + 1][..i] == items[..i];
  }

  /** The counter loop of the transaction: one pass over the snapshot's components. */
  method CountComponents(before: map<Word, Counters>, snapshot: Payload) returns (components: map<Word, Counters>)
    requires ValidSnapshot(snapshot)
    ensures CountedOnce(before, Grade(snapshot, snapshot.components.value, snapshot.sampledAt.at), components)
  {
    var items, sampled := snapshot.components.value, snapshot.sampledAt.at;
    components := before;
    for i := 0 to |items|
      invariant CountedOnce(before, Grade(snapshot, items[..i], sampled), components)
    {
      var key := items[i].key.word;
      var classified := ClassifyComponent(items[i], snapshot, sampled);
      var counters := Counted(CountsOf(components, key), classified.state);
      NotYetGraded(snapshot, items, i, sampled);
      GradeStep(snapshot, items, i, sampled);
      components := components[key := counters];
    }
    assert items[..|items|] == items;
  }

  lemma {:induction false} OnlyListedAreGraded(p: Payload, items: seq<Component>, now: int, key: Word)
    requires ValidSnapshot(p) && forall i | 0 <= i < |items| :: ValidComponent(items[i], SnapshotSchema(p))
    requires forall i | 0 <= i < |items| :: items[i].Component? && items[i].key != Text(key)
    ensures key !in Grade(p, items, now)
  {
    if items != [] {
      OnlyListedAreGraded(p, items[..|items| - 1], now, key);
      assert ValidComponent(items[|items| - 1], SnapshotSchema(p));
    }
  }

  lemma NotYetGraded(p: Payload, items: seq<Component>, i: nat, now: int)
    requires ValidSnapshot(p) && items == p.components.value && i < |items|
    ensures items[i].key.word !in Grade(p, items[..i], now)
  {
    assert ValidComponent(items[i], SnapshotSchema(p));
    assert forall j | 0 <= j < i :: items[j].Component? && items[j].key != items[i].key;
    OnlyListedAreGraded(p, items[..i], now, items[i].key.word);
  }

  // ------------------------------------------------------------- the transaction

  class TelemetryStore {
    var sources: map<int, StoredDoc>
    var days: map<int, DayDoc>
    var attempts: seq<StoredDoc>
    var current: Option<CurrentDoc>

    ghost function Contents(): Telemetry
      reads this
    {
      Telemetry(sources, attempts, current)
    }

    ghost predicate Valid()
      reads this
    {
      Good(Contents()) && DaysIndex(days, GradesOf(sources))
    }

    constructor ()
      ensures Valid() && Contents() == EMPTY && days == map[]
    {
      sources, days, attempts, current := map[], map[], [], None;
    }

    /**
      Refuses what the validator refuses and then changes nothing; otherwise the
      stored evidence takes one `Next` step and the day counters stay an exact
      index of the stored minutes.
     */
    method AppendSnapshot(d: Delivery) returns (r: Option<StoreError>)
      requires Valid()
      modifies this
      ensures Valid()
      ensures match Accepted(d)
              case Failure(e) => r == Some(e) && Contents() == old(Contents()) && days == old(days)
              case Success(w) => r == None && Contents() == Next(old(Contents()), w)
      ensures sources == old(sources) ==> days == old(days)
    {
      var refused := Refusal(d);
      if refused.Some? {
        return refused;
      }
      var w := Wrapper(d.snapshot, d.receivedAt.at, d.diagnostic);
      ghost var before := Contents();
      var known := StoreEvidence(w);
      var advance := Advances(before, w, known);
      if advance {
        var activity := ActivityNow(before, w);
        current := Some(CurrentDoc(w, Activities(activity)));
      }
      return None;
    }

    /** The writes that do not depend on the pointer; tells whether the minute was stored before. */
    method StoreEvidence(w: Wrapper) returns (known: bool)
      requires Valid() && GoodWrapper(w)
      modifies this`sources, this`days, this`attempts
      ensures Valid() && Contents() == Stored(old(Contents()), w)
      ensures sources == old(sources) ==> days == old(days)
      ensures known <==> w.snapshot.Some? && SourceMinute(w) in old(sources)
    {
      known := w.snapshot.Some? && SourceMinute(w) in sources;
      if w.snapshot.Some? && !known {
        RecordMinute(w);
      } else if w.snapshot.None? {
        RecordFailure(w);
      }
    }

    method RecordFailure(w: Wrapper)
      requires Valid() && GoodWrapper(w)
      modifies this`attempts
      ensures Valid() && attempts == old(attempts) + [StoredDoc(w, w.receivedAt + 7 * DAY)]
    {
      attempts := attempts + [StoredDoc(w, w.receivedAt + 7 * DAY)];
    }

    /** The checks made before the transaction. */
    method Refusal(d: Delivery) returns (r: Option<StoreError>)
      ensures match Accepted(d)
              case Failure(e) => r == Some(e)
              case Success(w) => r == None && w == Wrapper(d.snapshot, d.receivedAt.at, d.diagnostic)
    {
      if d.receivedAt.Naive? {
        return Some(NaiveReceipt);
      }
      if d.snapshot.None? {
        if d.diagnostic.None? || d.diagnostic.value !in DIAGNOSTICS {
          return Some(OpenDiagnostic);
        }
      } else {
        if d.diagnostic.Some? {
          return Some(DiagnosedSnapshot);
        }
        var admitted := ValidateFreshSnapshot(d.snapshot.value, d.receivedAt.at);
        if !admitted {
          return Some(RefusedSnapshot);
        }
      }
      return None;
    }

    /** The four clauses of the pointer rule, `before` being the evidence at the start of the transaction. */
    method Advances(ghost before: Telemetry, w: Wrapper, known: bool) returns (advance: bool)
      requires Good(before) && GoodWrapper(w) && current == before.current
      requires known <==> w.snapshot.Some? && SourceMinute(w) in before.sources
      ensures advance <==> Publishes(before, w)
    {
      advance := current.None? || w.receivedAt > current.value.wrapper.receivedAt;
      if w.snapshot.Some? && current.Some? && current.value.wrapper.snapshot.Some? {
        advance := advance && SourceAt(w) > SourceAt(current.value.wrapper);
      }
      if known {
        advance := false;
      }
      if w.snapshot.Some? && current.Some? && current.value.wrapper.snapshot.None? {
        advance := advance && SourceAt(w) >= FloorToMinute(current.value.wrapper.receivedAt);
      }
    }

    /** Re-validated activity, overridden by what the attempt shows. */
    method ActivityNow(ghost before: Telemetry, w: Wrapper) returns (activity: map<Word, Entry>)
      requires Good(before) && GoodWrapper(w) && current == before.current
      ensures activity == NextActivity(before, w)
    {
      activity := RetainedActivity(if current.Some? then current.value.lastActivity else NotADict, w.receivedAt);
      if w.snapshot.Some? {
        activity := AddShown(activity, w.snapshot.value, w.receivedAt);
      }
    }

    /** Stores a new source minute and brings its day document up to date. */
    method RecordMinute(w: Wrapper)
      requires Valid() && HasSource(w) && SourceMinute(w) !in sources
      modifies this`sources, this`days
      ensures Valid()
      ensures sources == old(sources)[SourceMinute(w) := StoredDoc(w, SourceAt(w) + 7 * DAY)]
    {
      var minute := SourceMinute(w);
      var doc := DayAfter(days, GradesOf(sources), w);
      GradesGrow(sources, w);
      sources := sources[minute := StoredDoc(w, SourceAt(w) + 7 * DAY)];
      days := days[DayOf(minute) := doc];
    }
  }

  lemma GradesGrow(sources: map<int, StoredDoc>, w: Wrapper)
    requires forall m | m in sources :: HasSource(sources[m].wrapper)
    requires HasSource(w)
    ensures GradesOf(sources[SourceMinute(w) := StoredDoc(w, SourceAt(w) + 7 * DAY)])
         == GradesOf(sources)[SourceMinute(w) := GradeOf(w)]
  {
  }

  /** The day document that counts one more minute. */
  method DayAfter(days: map<int, DayDoc>, ghost grades: Grades, w: Wrapper) returns (doc: DayDoc)
    requires DaysIndex(days, grades) && HasSource(w) && SourceMinute(w) !in grades
    ensures DaysIndex(days[DayOf(SourceMinute(w)) := doc], grades[SourceMinute(w) := GradeOf(w)])
  {
    var day := DayOf(SourceMinute(w));
    var before := if day in days then days[day].components else map[];
    var components := CountComponents(before, w.snapshot.value);
    DaysGrow(days, grades, SourceMinute(w), GradeOf(w), components);
    doc := DayDoc(components, (day + 90) * DAY);
  }

  lemma DaysGrow(days: map<int, DayDoc>, grades: Grades, m: int, grade: map<Word, RequestState>,
                 components: map<Word, Counters>)
    requires DaysIndex(days, grades) && m !in grades
    requires var before := if DayOf(m) in days then days[DayOf(m)].components else map[];
             DayIndexes(before, grades, DayOf(m)) && CountedOnce(before, grade, components)
    ensures DaysIndex(days[DayOf(m) := DayDoc(components, (DayOf(m) + 90) * DAY)], grades[m := grade])
  {
    var before := if DayOf(m) in days then days[DayOf(m)].components else map[];
    var after, grown := days[DayOf(m) := DayDoc(components, (DayOf(m) + 90) * DAY)], grades[m := grade];
    CountedOnceIndexes(before, grades, m, grade, components);
    forall day | day in after
      ensures DayIndexes(after[day].components, grown, day) && exists n | n in grown :: DayOf(n) == day
    {
      if day != DayOf(m) {
        OtherDay(days[day].components, grades, m, grade, day);
        var n :| n in grades && DayOf(n) == day;
        assert n in grown;
      } else {
        assert m in grown;
      }
    }
  }

  method AddShown(before: map<Word, Entry>, snapshot: Payload, receivedAt: int) returns (activity: map<Word, Entry>)
    requires ValidSnapshot(snapshot)
    ensures activity == before + Shown(snapshot, snapshot.components.value, receivedAt)
  {
    var items := snapshot.components.value;
    activity := before;
    for i := 0 to |items|
      invariant activity == before + Shown(snapshot, items[..i], receivedAt)
    {
      var classified := ClassifyComponent(items[i], snapshot, receivedAt);
      if Count(items[i].requests) != 0 && classified.state.Evidence() {
        activity := activity[items[i].key.word := Entry(snapshot.sampledAt, snapshot.latestAt, items[i])];
      }
      ShownStep(before, snapshot, items, i, receivedAt);
    }
    assert items[..|items|] == items;
  }

  lemma ShownStep(before: map<Word, Entry>, p: Payload, items: seq<Component>, i: nat, receivedAt: int)
    requires ValidSnapshot(p) && items == p.components.value && i < |items|
    ensures var shown, entry := before + Shown(p, items[..i], receivedAt), Entry(p.sampledAt, p.latestAt, items[i]);
            before + Shown(p, items[..i + 1], receivedAt)
            == if ShowsActivity(p, items[i], receivedAt) then shown[items[i].key.word := entry] else shown
  {
    assert items[..i + 1][..i] == items[..i];
  }
}
