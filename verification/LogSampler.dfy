/**
  Models status_service/log_sampler.py: reducing Loki replies to one snapshot.
  Whatever the replies look like, the snapshot passes the closed validator.
*/
module LogSampler {
  import opened Basics
  import opened Vocabulary
  import opened Measurements

  /** A text that float() reads, or a JSON number. */
  datatype Num = Finite(value: real) | Infinite | Unreadable

  datatype Label = Code(text: string) | NotText

  datatype Labels = NoLabels | OnlyStatus(status: Label) | OtherLabels

  datatype Sample = Sample(time: Num, number: Num) | MisshapenSample

  datatype Series = Series(labels: Labels, sample: Sample) | MisshapenSeries

  datatype Event = Event(nanoseconds: Option<int>, isEntry: bool) | MisshapenEvent

  /** One reply, after the common envelope check; every other outcome of the query is an error. */
  datatype Reply =
    | Vector(series: seq<Series>)
    | Streams(streams: seq<Option<seq<Event>>>)
    | QueryFails

  datatype Replies = Replies(counts: Reply, failures: Reply, covered: Reply, p80: Reply, p95: Reply)

  datatype Failed = Failed

  const MAX_CLOCK_SKEW := 0.001
  const LOOKBACK := 10 * MINUTE

  predicate OnTime(time: Num, sampledAt: int) {
    time.Finite? && -MAX_CLOCK_SKEW <= time.value - sampledAt as real / SECOND as real <= MAX_CLOCK_SKEW
  }

  /** An aggregate: no series is no value, one unlabelled nonnegative number is that value. */
  function Metric(reply: Reply, sampledAt: int): (r: Result<Option<real>, Failed>)
    ensures r.Success? && r.value.Some? ==> r.value.value >= 0.0
  {
    if !reply.Vector? then Failure(Failed)
    else if reply.series == [] then Success(None)
    else if |reply.series| != 1 || !reply.series[0].Series? || !reply.series[0].labels.NoLabels? then Failure(Failed)
    else
      var sample := reply.series[0].sample;
      if !sample.Sample? || !OnTime(sample.time, sampledAt) then Failure(Failed)
      else if !sample.number.Finite? || sample.number.value < 0.0 then Failure(Failed)
      else Success(Some(sample.number.value))
  }

  /** Which replies an aggregate can be read from: an empty vector, or one unlabelled number sampled on time. */
  lemma MetricExactly(reply: Reply, sampledAt: int, x: real)
    ensures Metric(reply, sampledAt) == Success(None) <==> reply == Vector([])
    ensures Metric(reply, sampledAt) == Success(Some(x))
            <==> exists time: real :: reply == Vector([Series(NoLabels, Sample(Finite(time), Finite(x)))])
                                      && x >= 0.0 && WithinAMillisecond(time, sampledAt)
  {
    if Metric(reply, sampledAt) == Success(Some(x)) {
      var time := reply.series[0].sample.time.value;
      assert reply.series == [Series(NoLabels, Sample(Finite(time), Finite(x)))];
    }
  }

  /** Seconds against microseconds. */
  predicate WithinAMillisecond(time: real, at: int) {
    -1000.0 <= 1_000_000.0 * time - at as real <= 1000.0
  }

  // ------------------------------------------------------------ the status fold

  datatype StatusCount = StatusCount(code: string, count: int)

  predicate IsDigit(c: char) { '0' <= c <= '9' }

  predicate IsStatus(code: string) {
    |code| == 3 && '1' <= code[0] <= '5' && IsDigit(code[1]) && IsDigit(code[2])
  }

  predicate IsCount(n: Num) {
    n.Finite? && 0.0 <= n.value <= MAX_COUNT as real && n.value.Floor as real == n.value
  }

  function Read(s: Series, sampledAt: int): (r: Option<StatusCount>)
    ensures r.Some? ==> IsStatus(r.value.code) && r.value.count >= 0
  {
    if s.Series? && s.labels.OnlyStatus? && s.labels.status.Code? && IsStatus(s.labels.status.text)
       && s.sample.Sample? && OnTime(s.sample.time, sampledAt) && IsCount(s.sample.number)
    then Some(StatusCount(s.labels.status.text, s.sample.number.value.Floor))
    else None
  }

  /** Which series is read as a count of a status: one label, a code from 100 to 599, a whole number, on time. */
  lemma ReadExactly(s: Series, sampledAt: int, code: string, n: int)
    ensures Read(s, sampledAt) == Some(StatusCount(code, n))
            <==> exists time: real :: s == Series(OnlyStatus(Code(code)), Sample(Finite(time), Finite(n as real)))
                                      && 0 <= n <= 1_000_000_000 && WithinAMillisecond(time, sampledAt)
                                      && |code| == 3 && '1' <= code[0] <= '5'
                                      && '0' <= code[1] <= '9' && '0' <= code[2] <= '9'
  {
    if Read(s, sampledAt) == Some(StatusCount(code, n)) {
      assert s == Series(OnlyStatus(Code(code)), Sample(Finite(s.sample.time.value), Finite(n as real)));
    }
  }

  predicate GoodCounts(series: seq<Series>, sampledAt: int) {
    && (forall i | 0 <= i < |series| :: Read(series[i], sampledAt).Some?)
    && (forall i, j | 0 <= i < j < |series| ::
          Read(series[i], sampledAt).value.code != Read(series[j], sampledAt).value.code)
  }

  function Reading(series: seq<Series>, sampledAt: int): seq<StatusCount>
    requires forall i | 0 <= i < |series| :: Read(series[i], sampledAt).Some?
  {
    seq(|series|, i requires 0 <= i < |series| => Read(series[i], sampledAt).value)
  }

  /** Total count of the codes that are selected. */
  function Sum(counts: seq<StatusCount>, select: string -> bool): int {
    if counts == [] then 0
    else
      var last := counts[|counts| - 1];
      Sum(counts[..|counts| - 1], select) + (if select(last.code) then last.count else 0)
  }

  function Starting(digit: char): string -> bool { (code: string) => code != "" && code[0] == digit }
  function Exactly(text: string): string -> bool { (code: string) => code == text }
  function Every(): string -> bool { (code: string) => true }

  /** The five response classes partition the requests; 404 and 500 are subsets of their classes. */
  lemma {:induction false} FoldPartitions(counts: seq<StatusCount>)
    requires forall i | 0 <= i < |counts| :: IsStatus(counts[i].code) && counts[i].count >= 0
    ensures Sum(counts, Every())
         == Sum(counts, Starting('1')) + Sum(counts, Starting('2')) + Sum(counts, Starting('3'))
          + Sum(counts, Starting('4')) + Sum(counts, Starting('5'))
    ensures Sum(counts, Starting('1')) >= 0 && Sum(counts, Starting('2')) >= 0 && Sum(counts, Starting('3')) >= 0
    ensures 0 <= Sum(counts, Exactly("404")) <= Sum(counts, Starting('4'))
    ensures 0 <= Sum(counts, Exactly("500")) <= Sum(counts, Starting('5'))
  {
    if counts != [] {
      FoldPartitions(counts[..|counts| - 1]);
      assert IsStatus(counts[|counts| - 1].code);
    }
  }

  datatype Tallies = Tallies(requests: int, byClass: map<char, int>, notFound: int, serverError: int)

  predicate TalliesOf(t: Tallies, counts: seq<StatusCount>) {
    && t.requests == Sum(counts, Every())
    && t.byClass.Keys == {'1', '2', '3', '4', '5'}
    && (forall digit | digit in t.byClass :: t.byClass[digit] == Sum(counts, Starting(digit)))
    && t.notFound == Sum(counts, Exactly("404"))
    && t.serverError == Sum(counts, Exactly("500"))
  }

  method AddCount(t: Tallies, ghost counts: seq<StatusCount>, c: StatusCount) returns (next: Tallies)
    requires IsStatus(c.code) && TalliesOf(t, counts)
    ensures TalliesOf(next, counts + [c])
  {
    var digit := c.code[0];
    next := t.(requests := t.requests + c.count, byClass := t.byClass[digit := t.byClass[digit] + c.count]);
    if c.code == "404" {
      next := next.(notFound := next.notFound + c.count);
    }
    if c.code == "500" {
      next := next.(serverError := next.serverError + c.count);
    }
    assert (counts + [c])[..|counts|] == counts;
  }

  predicate DistinctCodes(read: seq<StatusCount>) {
    forall a, b | 0 <= a < b < |read| :: read[a].code != read[b].code
  }

  /** The first series are regular, with these codes and counts, and `seen` holds exactly their codes. */
  ghost predicate ReadSoFar(series: seq<Series>, sampledAt: int, read: seq<StatusCount>, seen: set<string>) {
    && |read| <= |series|
    && (forall j | 0 <= j < |read| :: Read(series[j], sampledAt) == Some(read[j]) && read[j].code in seen)
    && (forall code | code in seen :: exists j | 0 <= j < |read| :: read[j].code == code)
    && DistinctCodes(read)
  }

  lemma ReadOneMore(series: seq<Series>, sampledAt: int, read: seq<StatusCount>, seen: set<string>, c: StatusCount)
    requires ReadSoFar(series, sampledAt, read, seen) && |read| < |series|
    requires Read(series[|read|], sampledAt) == Some(c) && c.code !in seen
    ensures ReadSoFar(series, sampledAt, read + [c], seen + {c.code})
  {
    var more := read + [c];
    forall code | code in seen + {c.code}
      ensures exists j | 0 <= j < |more| :: more[j].code == code
    {
      if code in seen {
        var j :| 0 <= j < |read| && read[j].code == code;
        assert more[j].code == code;
      } else {
        assert more[|read|].code == code;
      }
    }
  }

  lemma AllRead(series: seq<Series>, sampledAt: int, read: seq<StatusCount>, seen: set<string>)
    requires ReadSoFar(series, sampledAt, read, seen) && |read| == |series|
    ensures GoodCounts(series, sampledAt) && Reading(series, sampledAt) == read
  {
  }

  /** The status fold counts each code once and refuses the whole reply on any irregular series. */
  method FoldCounts(series: seq<Series>, sampledAt: int) returns (r: Result<Tallies, Failed>)
    ensures r.Success? <==> GoodCounts(series, sampledAt)
    ensures r.Success? ==> TalliesOf(r.value, Reading(series, sampledAt))
  {
    var t := Tallies(0, map['1' := 0, '2' := 0, '3' := 0, '4' := 0, '5' := 0], 0, 0);
    var seen: set<string> := {};
    ghost var read: seq<StatusCount> := [];
    for i := 0 to |series|
      invariant |read| == i && ReadSoFar(series, sampledAt, read, seen)
      invariant TalliesOf(t, read)
    {
      var c := Read(series[i], sampledAt);
      if c.None? || c.value.code in seen {
        return Failure(Failed);
      }
      ReadOneMore(series, sampledAt, read, seen, c.value);
      t := AddCount(t, read, c.value);
      seen := seen + {c.value.code};
      read := read + [c.value];
    }
    AllRead(series, sampledAt, read, seen);
    return Success(t);
  }

  // -------------------------------------------------------------- one component

  function Whole(r: Option<real>): Option<int> {
    if r.None? then Some(0) else if r.value.Floor as real == r.value then Some(r.value.Floor) else None
  }

  function Milliseconds(r: Option<real>): Scalar {
    if r.None? then Null else Real(r.value * 1000.0)
  }

  /** The record built from a regular reply, before it is validated. */
  function Record(key: Word, counts: seq<StatusCount>, failures: int, p80: Option<real>, p95: Option<real>): Component
  {
    Component(Text(key), Text(Ok), Int(Sum(counts, Every())),
              Int(Sum(counts, Starting('1'))), Int(Sum(counts, Starting('2'))),
              Int(Sum(counts, Starting('3'))), Int(Sum(counts, Starting('4'))),
              Int(Sum(counts, Exactly("404"))), Int(Sum(counts, Exactly("500"))),
              Int(Sum(counts, Starting('5'))), Some(Int(failures)), Milliseconds(p80), Milliseconds(p95))
  }

  /** A record counts each status in the total, in its class, and as a 404 or 500 where it is one. */
  lemma RecordCounts(key: Word, counts: seq<StatusCount>, c: StatusCount, failures: int, p80: Option<real>,
                     p95: Option<real>)
    requires IsStatus(c.code)
    ensures var before, after := Record(key, counts, failures, p80, p95), Record(key, counts + [c], failures, p80, p95);
            && after.key == Text(key) && after.state == Text(Ok) && after.failures404 == Some(Int(failures))
            && after.requests.num == before.requests.num + c.count
            && after.http1xx.num == before.http1xx.num + (if c.code[0] == '1' then c.count else 0)
            && after.http2xx.num == before.http2xx.num + (if c.code[0] == '2' then c.count else 0)
            && after.http3xx.num == before.http3xx.num + (if c.code[0] == '3' then c.count else 0)
            && after.http4xx.num == before.http4xx.num + (if c.code[0] == '4' then c.count else 0)
            && after.http5xx.num == before.http5xx.num + (if c.code[0] == '5' then c.count else 0)
            && after.http404.num == before.http404.num + (if c.code == "404" then c.count else 0)
            && after.http500.num == before.http500.num + (if c.code == "500" then c.count else 0)
            && after.p80 == (if p80.None? then Null else Real(1000.0 * p80.value))
            && after.p95 == (if p95.None? then Null else Real(1000.0 * p95.value))
  {
    assert (counts + [c])[..|counts|] == counts;
  }

  lemma EmptyRecord(key: Word, failures: int, p80: Option<real>, p95: Option<real>)
    ensures var r := Record(key, [], failures, p80, p95);
            && r.requests == r.http1xx == r.http2xx == r.http3xx == r.http4xx == Int(0)
            && r.http5xx == r.http404 == r.http500 == Int(0)
  {
  }

  function MetricOrZero(metric: Option<real>): real { if metric.None? then 0.0 else metric.value }

  /** Failed-request 404s: asked for hall passes only, and a whole number where present. */
  function FailureCount(key: Word, sampledAt: int, replies: Replies): Option<int> {
    if key != HallPass then Some(0)
    else
      var metric := Metric(replies.failures, sampledAt);
      if metric.Failure? then None else Whole(metric.value)
  }

  /** Regular replies, whose latencies cover every counted request. */
  predicate Complete(key: Word, sampledAt: int, replies: Replies) {
    && replies.counts.Vector?
    && GoodCounts(replies.counts.series, sampledAt)
    && FailureCount(key, sampledAt, replies).Some?
    && Metric(replies.covered, sampledAt).Success?
    && MetricOrZero(Metric(replies.covered, sampledAt).value)
       == Sum(Reading(replies.counts.series, sampledAt), Every()) as real
    && Metric(replies.p80, sampledAt).Success?
    && Metric(replies.p95, sampledAt).Success?
  }

  function RecordOf(key: Word, sampledAt: int, replies: Replies): Component
    requires Complete(key, sampledAt, replies)
  {
    Record(key, Reading(replies.counts.series, sampledAt), FailureCount(key, sampledAt, replies).value,
           Metric(replies.p80, sampledAt).value, Metric(replies.p95, sampledAt).value)
  }

  /** No latency where nothing was requested; otherwise both, in order and within the longest request timed. */
  predicate LatenciesFit(requests: int, p80: Option<real>, p95: Option<real>) {
    if requests == 0 then p80.None? && p95.None?
    else p80.Some? && p95.Some? && p80.value <= p95.value && 1000.0 * p95.value <= MAX_LATENCY_MS
  }

  /** Everything that one component's five replies must satisfy to count as evidence. */
  predicate Evidence(key: Word, sampledAt: int, replies: Replies) {
    && Complete(key, sampledAt, replies)
    && var counts := Reading(replies.counts.series, sampledAt);
    && Sum(counts, Every()) <= MAX_COUNT
    && FailureCount(key, sampledAt, replies).value <= Sum(counts, Exactly("404"))
    && LatenciesFit(Sum(counts, Every()), Metric(replies.p80, sampledAt).value, Metric(replies.p95, sampledAt).value)
  }

  /** The failed requests of a hall-pass window are a whole number or none; every other component has none. */
  lemma FailureCountExactly(key: Word, sampledAt: int, replies: Replies, n: int)
    ensures FailureCount(key, sampledAt, replies) == Some(n)
            <==> if key != HallPass then n == 0
                 else (Metric(replies.failures, sampledAt) == Success(None) && n == 0)
                      || Metric(replies.failures, sampledAt) == Success(Some(n as real))
  {
  }

  /** Evidence, reply by reply: regular counts, latencies measured of every request, failures among the 404s. */
  lemma EvidenceExactly(key: Word, sampledAt: int, replies: Replies)
    ensures Evidence(key, sampledAt, replies) <==>
              && replies.counts.Vector? && GoodCounts(replies.counts.series, sampledAt)
              && var counts := Reading(replies.counts.series, sampledAt);
              && var total := Sum(counts, Every());
              && var failures := FailureCount(key, sampledAt, replies);
              && failures.Some? && failures.value <= Sum(counts, Exactly("404"))
              && total <= 1_000_000_000
              && (Metric(replies.covered, sampledAt) == Success(Some(total as real))
                  || (total == 0 && Metric(replies.covered, sampledAt) == Success(None)))
              && var p80, p95 := Metric(replies.p80, sampledAt), Metric(replies.p95, sampledAt);
              && (total == 0 ==> p80 == Success(None) && p95 == Success(None))
              && (total != 0 ==>
                    && p80.Success? && p80.value.Some? && p95.Success? && p95.value.Some?
                    && p80.value.value <= p95.value.value <= 600.0)
  {
  }

  /** However the requests are spread over codes, the record of complete replies splits them and nests the subsets. */
  lemma CompleteRecordAddsUp(key: Word, sampledAt: int, replies: Replies)
    requires Complete(key, sampledAt, replies)
    ensures var c := RecordOf(key, sampledAt, replies);
            && ResponsesPartition(c)
            && 0 <= Count(c.http1xx) && 0 <= Count(c.http2xx) && 0 <= Count(c.http3xx)
            && 0 <= Count(c.http404) <= Count(c.http4xx)
            && 0 <= Count(c.http500) <= Count(c.http5xx)
  {
    FoldPartitions(Reading(replies.counts.series, sampledAt));
  }

  /**
    So the validator refuses the record of complete replies for three reasons only: too many requests in all,
    more failed requests than 404s, and latencies that do not fit.
  */
  lemma RecordIsMeasuredExactly(key: Word, sampledAt: int, replies: Replies)
    requires Complete(key, sampledAt, replies)
    ensures Measured(RecordOf(key, sampledAt, replies)) <==> Evidence(key, sampledAt, replies)
  {
    CompleteRecordAddsUp(key, sampledAt, replies);
  }

  /** The failed-request count, where the component's 404s can be failures. */
  method CountFailures(key: Word, sampledAt: int, replies: Replies) returns (failures: Option<int>)
    ensures failures == FailureCount(key, sampledAt, replies)
  {
    if key != HallPass {
      return Some(0);
    }
    var metric := Metric(replies.failures, sampledAt);
    if metric.Failure? {
      return None;
    }
    return Whole(metric.value);
  }

  /** The record as it stands before it is validated, where the replies are complete. */
  method GatherRecord(key: Word, sampledAt: int, replies: Replies) returns (record: Option<Component>)
    ensures record.Some? <==> Complete(key, sampledAt, replies)
    ensures record.Some? ==> record.value == RecordOf(key, sampledAt, replies)
  {
    if !replies.counts.Vector? {
      return None;
    }
    var folded := FoldCounts(replies.counts.series, sampledAt);
    if folded.Failure? {
      return None;
    }
    var t := folded.value;
    var failures := CountFailures(key, sampledAt, replies);
    if failures.None? {
      return None;
    }
    var covered := Metric(replies.covered, sampledAt);
    if covered.Failure? || MetricOrZero(covered.value) != t.requests as real {
      return None;
    }
    var p80, p95 := Metric(replies.p80, sampledAt), Metric(replies.p95, sampledAt);
    if p80.Failure? || p95.Failure? {
      return None;
    }
    return Some(Component(Text(key), Text(Ok), Int(t.requests), Int(t.byClass['1']), Int(t.byClass['2']),
                          Int(t.byClass['3']), Int(t.byClass['4']), Int(t.notFound), Int(t.serverError),
                          Int(t.byClass['5']), Some(Int(failures.value)), Milliseconds(p80.value),
                          Milliseconds(p95.value)));
  }

  /** Validating a record alone, among unavailable components, is checking those three reasons. */
  lemma RecordValidates(key: Word, sampledAt: int, replies: Replies)
    requires Schema.Current.Has(key) && Complete(key, sampledAt, replies)
    ensures var c := RecordOf(key, sampledAt, replies);
            && c.key == Text(key) && c.state == Text(Ok)
            && (ValidSnapshot(Solo(key, c, Schema.Current, Stamp(sampledAt), Null))
                <==> Evidence(key, sampledAt, replies))
            && (Evidence(key, sampledAt, replies) ==> ValidComponent(c, Schema.Current))
  {
    RecordIsMeasuredExactly(key, sampledAt, replies);
    SoloValidity(key, RecordOf(key, sampledAt, replies), Schema.Current, Stamp(sampledAt), Null);
  }

  /** Reports measurements exactly when the replies are complete evidence; the result is valid either way. */
  method CollectComponent(key: Word, sampledAt: int, replies: Replies) returns (c: Component)
    requires Schema.Current.Has(key)
    ensures ValidComponent(c, Schema.Current) && c.key == Text(key)
    ensures c.state == Text(Ok) <==> Evidence(key, sampledAt, replies)
    ensures c.state != Text(Ok) ==> c == UnavailableComponent(key, Schema.Current)
    ensures Evidence(key, sampledAt, replies) ==> c == RecordOf(key, sampledAt, replies)
  {
    c := UnavailableComponent(key, Schema.Current);
    var record := GatherRecord(key, sampledAt, replies);
    if record.Some? {
      RecordValidates(key, sampledAt, replies);
      var valid := ValidateSnapshot(Solo(key, record.value, Schema.Current, Stamp(sampledAt), Null));
      if valid {
        c := record.value;
      }
    }
  }

  // ---------------------------------------------------------- the whole snapshot

  function Flattened(streams: seq<Option<seq<Event>>>): Option<seq<Event>> {
    if streams == [] then Some([])
    else
      var rest := Flattened(streams[1..]);
      if streams[0].None? || rest.None? then None else Some(streams[0].value + rest.value)
  }

  lemma {:induction false} NothingFlattened(streams: seq<Option<seq<Event>>>)
    ensures Flattened(streams) == Some([]) <==> forall i | 0 <= i < |streams| :: streams[i] == Some([])
  {
    if streams != [] {
      NothingFlattened(streams[1..]);
      assert forall j | 0 < j < |streams| :: streams[j] == streams[1..][j - 1];
    }
  }

  /** Stream i holds the one event and the others hold nothing. */
  predicate HoldsOne(streams: seq<Option<seq<Event>>>, e: Event, i: nat) {
    && i < |streams| && streams[i] == Some([e])
    && forall j | 0 <= j < |streams| && j != i :: streams[j] == Some([])
  }

  lemma {:induction false} OneFlattened(streams: seq<Option<seq<Event>>>, e: Event)
    ensures Flattened(streams) == Some([e]) <==> exists i: nat :: HoldsOne(streams, e, i)
  {
    if streams != [] {
      var rest := streams[1..];
      NothingFlattened(rest);
      OneFlattened(rest, e);
      if Flattened(streams) == Some([e]) {
        var a, b := streams[0].value, Flattened(rest).value;
        assert |a| + |b| == 1;
        if |a| == 1 {
          assert a == [e] && b == [];
          assert forall j | 0 < j < |streams| :: streams[j] == rest[j - 1];
          assert HoldsOne(streams, e, 0);
        } else {
          assert a == [] && b == [e];
          var i: nat :| HoldsOne(rest, e, i);
          assert forall j | 0 < j < |streams| :: streams[j] == rest[j - 1];
          assert HoldsOne(streams, e, i + 1);
        }
      }
      if i: nat :| HoldsOne(streams, e, i) {
        if i > 0 {
          assert HoldsOne(rest, e, i - 1);
          assert streams[0].value + [e] == [e];
        } else {
          assert forall j | 0 <= j < |rest| :: rest[j] == streams[j + 1];
          assert [e] + [] == [e];
        }
      }
    }
  }

  /** The newest source event is told by exactly one event of the ten minutes before sampling. */
  lemma LatestEventExactly(streams: seq<Option<seq<Event>>>, sampledAt: int, at: int)
    ensures LatestEvent(Streams(streams), sampledAt) == Success(None)
            <==> forall i | 0 <= i < |streams| :: streams[i] == Some([])
    ensures LatestEvent(Streams(streams), sampledAt) == Success(Some(at))
            <==> exists nanoseconds, i: nat :: HoldsOne(streams, Event(Some(nanoseconds), true), i)
                   && 1000 * at <= nanoseconds < 1000 * (at + 1) && 0 <= sampledAt - at <= 10 * 60 * 1_000_000
  {
    NothingFlattened(streams);
    if LatestEvent(Streams(streams), sampledAt) == Success(Some(at)) {
      var e := Flattened(streams).value[0];
      assert Flattened(streams).value == [e] && e == Event(Some(e.nanoseconds.value), true);
      OneFlattened(streams, e);
    }
    forall nanoseconds, i: nat | HoldsOne(streams, Event(Some(nanoseconds), true), i)
      ensures Flattened(streams) == Some([Event(Some(nanoseconds), true)])
    {
      OneFlattened(streams, Event(Some(nanoseconds), true));
    }
  }

  /** The newest source event within the ten minutes before sampling; Failure where the source raises. */
  function LatestEvent(reply: Reply, sampledAt: int): (r: Result<Option<int>, Failed>)
    ensures r.Success? && r.value.Some? ==> sampledAt - LOOKBACK <= r.value.value <= sampledAt
  {
    if !reply.Streams? || Flattened(reply.streams).None? then Failure(Failed)
    else
      var events := Flattened(reply.streams).value;
      if events == [] then Success(None)
      else if |events| != 1 || !events[0].Event? || !events[0].isEntry then Failure(Failed)
      else if events[0].nanoseconds.None? then Failure(Failed)
      else
        var latest := events[0].nanoseconds.value / 1000;
        if latest > sampledAt || latest < sampledAt - LOOKBACK then Failure(Failed) else Success(Some(latest))
  }

  /** A component as it is collected from its replies: valid, the record of its replies exactly on evidence. */
  predicate Collected(c: Component, key: Word, sampledAt: int, replies: Replies) {
    && ValidComponent(c, Schema.Current) && c.key == Text(key)
    && (c.state == Text(Ok) <==> Evidence(key, sampledAt, replies))
    && c == if Evidence(key, sampledAt, replies) then RecordOf(key, sampledAt, replies)
            else UnavailableComponent(key, Schema.Current)
  }

  method CollectComponents(sampledAt: int, replies: map<Word, Replies>) returns (components: seq<Component>)
    requires forall key | key in COMPONENT_KEYS :: key in replies
    ensures |components| == |COMPONENT_KEYS| && ValidComponents(components, Schema.Current)
    ensures forall i | 0 <= i < |components| ::
              Collected(components[i], COMPONENT_KEYS[i], sampledAt, replies[COMPONENT_KEYS[i]])
  {
    var keys: seq<Word> := COMPONENT_KEYS;
    components := [];
    for i := 0 to |keys|
      invariant |components| == i
      invariant forall j | 0 <= j < i :: Collected(components[j], keys[j], sampledAt, replies[keys[j]])
    {
      KeysListed(keys[i]);
      var c := CollectComponent(keys[i], sampledAt, replies[keys[i]]);
      components := components + [c];
    }
  }

  /** Whatever Loki answers, the assembled snapshot is valid, names every component in order and is fresh. */
  method SampleSnapshot(now: int, newest: Reply, replies: map<Word, Replies>) returns (p: Payload)
    requires forall key | key in COMPONENT_KEYS :: key in replies
    ensures ValidSnapshot(p) && SnapshotSchema(p).Current? && Fresh(p, now)
    ensures p.sampledAt == Stamp(now / MINUTE * MINUTE)
    ensures var latest := LatestEvent(newest, p.sampledAt.at);
            Latest(p) == if latest.Success? then latest.value else None
    ensures forall i | 0 <= i < |COMPONENT_KEYS| ::
              Collected(p.components.value[i], COMPONENT_KEYS[i], p.sampledAt.at, replies[COMPONENT_KEYS[i]])
  {
    var sampledAt := now / MINUTE * MINUTE;
    var latest := LatestEvent(newest, sampledAt);
    var latestAt := if latest.Success? && latest.value.Some? then Stamp(latest.value.value) else Null;
    var components := CollectComponents(sampledAt, replies);
    p := Snapshot(Text(Schema.Current.Id()), Stamp(sampledAt), Int(WINDOW_SECONDS), latestAt, Some(components));
  }
}
