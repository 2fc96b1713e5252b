/**
  Models _calculate_active_seconds_for_range (app/attendance.py) and the
  elapsed_duration primitive it ends in (app/utils/canonical_temporal_resolver.py).
  Instants are microseconds; a log is sorted by (timestamp, id).
*/
module Attendance {
  import opened Basics

  datatype Mark = Active | Inactive | Other

  datatype Row = Row(status: Mark, at: int)

  datatype Interval = Interval(start: int, end: int)

  datatype ResolverError = EmptyList | EndBeforeStart | Overlapping

  predicate Sorted(log: seq<Row>) {
    forall i, j | 0 <= i < j < |log| :: log[i].at <= log[j].at
  }

  function Min(a: int, b: int): int { if a < b then a else b }
  function Max(a: int, b: int): int { if a < b then b else a }

  /** The rows the query returns for a range that ends at `end`. */
  function Before(log: seq<Row>, end: int): (rows: seq<Row>)
    ensures Sorted(log) ==> rows <= log && forall i | |rows| <= i < |log| :: log[i].at >= end
    ensures forall i | 0 <= i < |rows| :: rows[i].at < end
  {
    if log == [] then []
    else
      var n := |log| - 1;
      if log[n].at < end then Before(log[..n], end) + [log[n]] else Before(log[..n], end)
  }

  // ----------------------------------------------------------- elapsed_duration

  function Total(intervals: seq<Interval>): int {
    if intervals == [] then 0
    else
      var last := intervals[|intervals| - 1];
      Total(intervals[..|intervals| - 1]) + (last.end - last.start)
  }

  function Inserted(v: Interval, sorted: seq<Interval>): seq<Interval> {
    if sorted == [] || sorted[|sorted| - 1].start <= v.start then sorted + [v]
    else Inserted(v, sorted[..|sorted| - 1]) + [sorted[|sorted| - 1]]
  }

  function SortedByStart(intervals: seq<Interval>): seq<Interval> {
    if intervals == [] then [] else Inserted(intervals[|intervals| - 1], SortedByStart(intervals[..|intervals| - 1]))
  }

  predicate SomeBackwards(intervals: seq<Interval>) {
    exists i | 0 <= i < |intervals| :: intervals[i].end < intervals[i].start
  }

  predicate NeighboursOverlap(sorted: seq<Interval>) {
    exists i | 1 <= i < |sorted| :: sorted[i].start < sorted[i - 1].end
  }

  function ElapsedSeconds(intervals: seq<Interval>): Result<int, ResolverError> {
    if intervals == [] then Failure(EmptyList)
    else if SomeBackwards(intervals) then Failure(EndBeforeStart)
    else
      var sorted := SortedByStart(intervals);
      if NeighboursOverlap(sorted) then Failure(Overlapping) else Success(Total(sorted) / SECOND)
  }

  /** In order, disjoint and not backwards: what the resolver accepts unchanged. */
  predicate Orderly(intervals: seq<Interval>) {
    && (forall i | 0 <= i < |intervals| :: intervals[i].start <= intervals[i].end)
    && (forall i, j | 0 <= i < j < |intervals| :: intervals[i].end <= intervals[j].start)
  }

  lemma OrderlyIsRegular(intervals: seq<Interval>)
    requires Orderly(intervals)
    ensures !SomeBackwards(intervals) && !NeighboursOverlap(intervals)
  {
  }

  lemma LastStartsLater(intervals: seq<Interval>)
    requires Orderly(intervals) && |intervals| > 1
    ensures var n := |intervals| - 1; intervals[n - 1].start <= intervals[n].start
  {
    var n := |intervals| - 1;
    assert intervals[n - 1].start <= intervals[n - 1].end <= intervals[n].start;
  }

  lemma {:induction false} OrderlyIsSorted(intervals: seq<Interval>)
    requires Orderly(intervals)
    ensures SortedByStart(intervals) == intervals
  {
    if intervals != [] {
      var n := |intervals| - 1;
      var before, last := intervals[..n], intervals[n];
      OrderlyIsSorted(before);
      if n > 0 {
        LastStartsLater(intervals);
      }
      InsertsLast(last, before);
      assert intervals == before + [last];
    }
  }

  lemma InsertsLast(v: Interval, sorted: seq<Interval>)
    requires sorted != [] ==> sorted[|sorted| - 1].start <= v.start
    ensures Inserted(v, sorted) == sorted + [v]
  {
  }

  // ----------------------------------------------------- instants instead of sums

  predicate Within(v: Interval, t: int) { v.start <= t < v.end }

  function Instants(intervals: seq<Interval>): set<int> {
    if intervals == [] then {}
    else
      var last := intervals[|intervals| - 1];
      Instants(intervals[..|intervals| - 1]) + Range(last.start, last.end)
  }

  function Range(lo: int, hi: int): set<int> {
    set t | lo <= t < hi && Within(Interval(lo, hi), t)
  }

  lemma {:induction false} RangeSize(lo: int, hi: int)
    requires lo <= hi
    ensures |Range(lo, hi)| == hi - lo
    decreases hi - lo
  {
    if lo < hi {
      RangeSize(lo, hi - 1);
      assert Range(lo, hi) == Range(lo, hi - 1) + {hi - 1};
    }
  }

  lemma {:induction false} InstantsBounded(intervals: seq<Interval>, bound: int)
    requires forall i | 0 <= i < |intervals| :: intervals[i].end <= bound
    ensures forall t | t in Instants(intervals) :: t < bound
  {
    if intervals != [] {
      InstantsBounded(intervals[..|intervals| - 1], bound);
    }
  }

  /** For orderly intervals the sum of lengths is the number of instants they cover. */
  lemma {:induction false} TotalCountsInstants(intervals: seq<Interval>)
    requires Orderly(intervals)
    ensures Total(intervals) == |Instants(intervals)|
  {
    if intervals != [] {
      var n := |intervals| - 1;
      TotalCountsInstants(intervals[..n]);
      InstantsBounded(intervals[..n], intervals[n].start);
      RangeSize(intervals[n].start, intervals[n].end);
      assert Instants(intervals[..n]) !! Range(intervals[n].start, intervals[n].end);
    }
  }

  // ------------------------------------------------------- any list of intervals

  predicate ByStart(sorted: seq<Interval>) {
    forall i, j | 0 <= i < j < |sorted| :: sorted[i].start <= sorted[j].start
  }

  lemma {:induction false} InsertedMembers(v: Interval, sorted: seq<Interval>)
    ensures multiset(Inserted(v, sorted)) == multiset(sorted) + multiset{v}
  {
    var n := |sorted| - 1;
    if sorted != [] && sorted[n].start > v.start {
      InsertedMembers(v, sorted[..n]);
      assert sorted == sorted[..n] + [sorted[n]];
    }
  }

  lemma LastIsLatest(earlier: seq<Interval>, last: Interval)
    requires ByStart(earlier) && forall x | x in multiset(earlier) :: x.start <= last.start
    ensures ByStart(earlier + [last])
  {
    forall i | 0 <= i < |earlier|
      ensures earlier[i].start <= last.start
    {
      assert earlier[i] in multiset(earlier);
    }
  }

  lemma {:induction false} InsertedByStart(v: Interval, sorted: seq<Interval>)
    requires ByStart(sorted)
    ensures ByStart(Inserted(v, sorted))
  {
    var n := |sorted| - 1;
    if sorted == [] || sorted[n].start <= v.start {
    } else {
      var before := sorted[..n];
      InsertedByStart(v, before);
      InsertedMembers(v, before);
      forall x: Interval | x in multiset(before)
        ensures x.start <= sorted[n].start
      {
        assert x in before;
      }
      LastIsLatest(Inserted(v, before), sorted[n]);
    }
  }

  lemma {:induction false} SortedMembers(v: seq<Interval>)
    ensures multiset(SortedByStart(v)) == multiset(v)
  {
    if v != [] {
      var n := |v| - 1;
      SortedMembers(v[..n]);
      InsertedMembers(v[n], SortedByStart(v[..n]));
      assert v == v[..n] + [v[n]];
    }
  }

  lemma {:induction false} SortedInOrder(v: seq<Interval>)
    ensures ByStart(SortedByStart(v))
  {
    if v != [] {
      var n := |v| - 1;
      SortedInOrder(v[..n]);
      InsertedByStart(v[n], SortedByStart(v[..n]));
    }
  }

  predicate Covered(members: multiset<Interval>, t: int) {
    exists x | x in members :: Within(x, t)
  }

  lemma OneMoreMember(members: multiset<Interval>, v: Interval, t: int)
    ensures Covered(members + multiset{v}, t) <==> Covered(members, t) || Within(v, t)
  {
    assert v in members + multiset{v};
    assert forall x | x in members :: x in members + multiset{v};
  }

  lemma {:induction false} InstantsExactly(v: seq<Interval>, t: int)
    ensures t in Instants(v) <==> Covered(multiset(v), t)
  {
    if v != [] {
      var n := |v| - 1;
      InstantsExactly(v[..n], t);
      OneMoreMember(multiset(v[..n]), v[n], t);
      assert v == v[..n] + [v[n]];
    }
  }

  lemma SameMembersSameInstants(v: seq<Interval>, w: seq<Interval>)
    requires multiset(v) == multiset(w)
    ensures Instants(v) == Instants(w)
  {
    forall t
      ensures t in Instants(v) <==> t in Instants(w)
    {
      InstantsExactly(v, t);
      InstantsExactly(w, t);
    }
  }

  lemma NeighboursSuffice(sorted: seq<Interval>)
    requires ByStart(sorted) && !NeighboursOverlap(sorted)
    requires forall i | 0 <= i < |sorted| :: sorted[i].start <= sorted[i].end
    ensures Orderly(sorted)
  {
    forall i, j | 0 <= i < j < |sorted|
      ensures sorted[i].end <= sorted[j].start
    {
      assert !(sorted[i + 1].start < sorted[i + 1 - 1].end);
      assert sorted[i + 1].start <= sorted[j].start;
    }
  }

  lemma SortedForwards(v: seq<Interval>)
    ensures SomeBackwards(v) <==> SomeBackwards(SortedByStart(v))
  {
    var sorted := SortedByStart(v);
    SortedMembers(v);
    if i: nat :| i < |v| && v[i].end < v[i].start {
      assert v[i] in multiset(sorted);
    }
    if i: nat :| i < |sorted| && sorted[i].end < sorted[i].start {
      assert sorted[i] in multiset(v);
    }
  }

  /**
    A list is accepted exactly where it is not empty and lies in order once
    sorted, and then each of its instants is counted once.
  */
  lemma ElapsedExactly(v: seq<Interval>)
    ensures ElapsedSeconds(v) == Failure(EmptyList) <==> v == []
    ensures ElapsedSeconds(v) == Failure(EndBeforeStart) <==> exists x | x in v :: x.end < x.start
    ensures ElapsedSeconds(v).Success? <==> v != [] && Orderly(SortedByStart(v))
    ensures ElapsedSeconds(v).Success? ==> ElapsedSeconds(v).value == |Instants(v)| / SECOND
  {
    var sorted := SortedByStart(v);
    SortedMembers(v);
    SortedInOrder(v);
    SortedForwards(v);
    if ElapsedSeconds(v).Success? {
      NeighboursSuffice(sorted);
      SameMembersSameInstants(sorted, v);
      TotalCountsInstants(sorted);
    } else if Orderly(sorted) {
      OrderlyIsRegular(sorted);
    }
  }

  /** A log in order is one whose neighbours are. */
  lemma {:induction false} SortedExactly(log: seq<Row>)
    ensures Sorted(log) <==> forall i | 1 <= i < |log| :: log[i - 1].at <= log[i].at
  {
    if log != [] {
      var n := |log| - 1;
      SortedExactly(log[..n]);
      if forall i | 1 <= i < |log| :: log[i - 1].at <= log[i].at {
        assert forall i | 1 <= i < n :: log[..n][i - 1].at <= log[..n][i].at;
        assert forall i | 0 <= i < n :: log[..n][i].at <= log[..n][n - 1].at <= log[n].at;
      }
    }
  }

  // ------------------------------------------------------- what the rows account for

  /** Start of the interval that is still open after the rows. */
  function Open(rows: seq<Row>): Option<int> {
    if rows == [] then None
    else
      var last := rows[|rows| - 1];
      match last.status
      case Active => Some(last.at)
      case Inactive => None
      case Other => Open(rows[..|rows| - 1])
  }

  /** The instant lies between an active row and the inactive row that directly follows it. */
  predicate Closed(rows: seq<Row>, t: int) {
    rows != []
    && var before, last := rows[..|rows| - 1], rows[|rows| - 1];
       || Closed(before, t)
       || (last.status.Inactive? && Open(before).Some? && Open(before).value <= t < last.at)
  }

  /** The instant lies between an active row and an active row that directly follows it. */
  predicate Overwritten(rows: seq<Row>, t: int) {
    rows != []
    && var before, last := rows[..|rows| - 1], rows[|rows| - 1];
       || Overwritten(before, t)
       || (last.status.Active? && Open(before).Some? && Open(before).value <= t < last.at)
  }

  predicate Counted(rows: seq<Row>, t: int, now: int) {
    Closed(rows, t) || (Open(rows).Some? && Open(rows).value <= t < now)
  }

  /** The latest row at or before the instant says active. */
  predicate ActiveAt(rows: seq<Row>, t: int) {
    rows != []
    && var before, last := rows[..|rows| - 1], rows[|rows| - 1];
       if last.at <= t && !last.status.Other? then last.status.Active? else ActiveAt(before, t)
  }

  /** The latest row that says anything by the instant. */
  lemma {:induction false} ActiveExactly(rows: seq<Row>, t: int)
    ensures ActiveAt(rows, t) <==>
              exists i | 0 <= i < |rows| :: rows[i].status.Active? && rows[i].at <= t
                && forall k | i < k < |rows| && rows[k].at <= t :: rows[k].status.Other?
  {
    if rows != [] {
      ActiveExactly(rows[..|rows| - 1], t);
    }
  }

  /** Row j is the first after row i that says active or inactive; none does where j is the end. */
  predicate NextMark(rows: seq<Row>, i: nat, j: nat) {
    && i < j <= |rows|
    && (forall k | i < k < j :: rows[k].status.Other?)
    && (j < |rows| ==> !rows[j].status.Other?)
  }

  /** What active row i accounts for, by the row that follows it. */
  predicate AccountsFor(rows: seq<Row>, i: nat, j: nat, t: int, now: int)
    requires NextMark(rows, i, j)
  {
    rows[i].status.Active? && rows[i].at <= t
    && if j < |rows| then rows[j].status.Inactive? && t < rows[j].at else t < now
  }

  ghost predicate ClosedByPair(rows: seq<Row>, t: int) {
    exists i: nat, j: nat :: NextMark(rows, i, j) && j < |rows| && AccountsFor(rows, i, j, t, 0)
  }

  ghost predicate OpenSince(rows: seq<Row>, at: int) {
    exists i: nat :: NextMark(rows, i, |rows|) && rows[i].status.Active? && rows[i].at == at
  }

  lemma {:induction false} OpenExactly(rows: seq<Row>, at: int)
    ensures Open(rows) == Some(at) <==> OpenSince(rows, at)
  {
    if rows != [] {
      var n := |rows| - 1;
      var before := rows[..n];
      OpenExactly(before, at);
      if rows[n].status.Active? {
        assert NextMark(rows, n, |rows|);
      } else if i: nat :| NextMark(before, i, n) && before[i].status.Active? && before[i].at == at {
        if rows[n].status.Other? {
          assert NextMark(rows, i, |rows|);
        }
      }
      forall i: nat | NextMark(rows, i, |rows|) && i < n
        ensures NextMark(before, i, n) && before[i] == rows[i] && rows[n].status.Other?
      {
      }
    }
  }

  lemma {:induction false} ClosedExactly(rows: seq<Row>, t: int)
    ensures Closed(rows, t) <==> ClosedByPair(rows, t)
  {
    if rows != [] {
      var n := |rows| - 1;
      var before := rows[..n];
      ClosedExactly(before, t);
      if i: nat, j: nat :| NextMark(before, i, j) && j < n && AccountsFor(before, i, j, t, 0) {
        assert NextMark(rows, i, j) && AccountsFor(rows, i, j, t, 0);
      }
      if rows[n].status.Inactive? && Open(before).Some? && Open(before).value <= t < rows[n].at {
        OpenExactly(before, Open(before).value);
        var i: nat :| NextMark(before, i, n) && before[i].status.Active? && before[i].at == Open(before).value;
        assert NextMark(rows, i, n) && AccountsFor(rows, i, n, t, 0);
      }
      forall i: nat, j: nat | NextMark(rows, i, j) && j < |rows| && AccountsFor(rows, i, j, t, 0)
        ensures Closed(rows, t)
      {
        if j < n {
          assert NextMark(before, i, j) && AccountsFor(before, i, j, t, 0);
        } else {
          assert NextMark(before, i, n) && before[i] == rows[i];
          OpenExactly(before, rows[i].at);
        }
      }
    }
  }

  lemma PairIsCounted(rows: seq<Row>, i: nat, j: nat, t: int, until: int)
    requires NextMark(rows, i, j) && AccountsFor(rows, i, j, t, until)
    ensures Counted(rows, t, until)
  {
    if j < |rows| {
      assert AccountsFor(rows, i, j, t, 0);
      ClosedExactly(rows, t);
    } else {
      OpenExactly(rows, rows[i].at);
    }
  }

  lemma CountedHasPair(rows: seq<Row>, t: int, until: int) returns (i: nat, j: nat)
    requires Counted(rows, t, until)
    ensures NextMark(rows, i, j) && AccountsFor(rows, i, j, t, until)
  {
    if Closed(rows, t) {
      ClosedExactly(rows, t);
      i, j :| NextMark(rows, i, j) && j < |rows| && AccountsFor(rows, i, j, t, 0);
    } else {
      OpenExactly(rows, Open(rows).value);
      i :| NextMark(rows, i, |rows|) && rows[i].status.Active? && rows[i].at == Open(rows).value;
      j := |rows|;
    }
  }

  /**
    Which instants are counted, by pairs of rows: those from an active row to the inactive row that is the next to say
    anything, and those from a last active row to now.
   */
  lemma CountedExactly(log: seq<Row>, start: int, end: int, now: int, t: int)
    requires Sorted(log)
    ensures var rows := Before(log, end);
            t in CountedInstants(log, start, end, now)
            <==> start <= t < end && exists i: nat, j: nat :: NextMark(rows, i, j)
                                                             && AccountsFor(rows, i, j, t, Min(now, end))
  {
    var rows, until := Before(log, end), Min(now, end);
    if Counted(rows, t, until) {
      var i, j := CountedHasPair(rows, t, until);
    }
    forall i: nat, j: nat | NextMark(rows, i, j) && AccountsFor(rows, i, j, t, until)
      ensures Counted(rows, t, until)
    {
      PairIsCounted(rows, i, j, t, until);
    }
  }

  function CountedInstants(log: seq<Row>, start: int, end: int, now: int): set<int> {
    set t | start <= t < end && Counted(Before(log, end), t, Min(now, end))
  }

  // -------------------------------------------------------------------- the loop

  predicate InRange(intervals: seq<Interval>, start: int, end: int) {
    forall i | 0 <= i < |intervals| :: start <= intervals[i].start && intervals[i].end <= end
  }

  predicate EndBy(intervals: seq<Interval>, bound: int) {
    forall i | 0 <= i < |intervals| :: intervals[i].end <= bound
  }

  /** The intervals cover an instant exactly when it is in the range and counted. */
  ghost predicate CoversCounted(intervals: seq<Interval>, rows: seq<Row>, start: int, end: int, now: int) {
    forall t :: t in Instants(intervals) <==> start <= t < end && Counted(rows, t, now)
  }

  /** Appends the part of an interval that lies in the range, unless it would be backwards. */
  function Clipped(intervals: seq<Interval>, from: int, until: int, start: int, end: int): seq<Interval> {
    var v := Interval(Max(from, start), Min(until, end));
    if v.end < v.start then intervals else intervals + [v]
  }

  /** The clipped intervals from each active row to the inactive row that closes it. */
  function ClosedIntervals(rows: seq<Row>, start: int, end: int): seq<Interval> {
    if rows == [] then []
    else
      var before, last := rows[..|rows| - 1], rows[|rows| - 1];
      var earlier := ClosedIntervals(before, start, end);
      if last.status.Inactive? && Open(before).Some? then Clipped(earlier, Open(before).value, last.at, start, end)
      else earlier
  }

  /** The closed intervals and, where the last one is open, its part up to now. */
  function IntervalsOf(rows: seq<Row>, start: int, end: int, now: int): seq<Interval> {
    var closed, nowUtc := ClosedIntervals(rows, start, end), Min(now, end);
    if Open(rows).Some? && nowUtc >= start then Clipped(closed, Open(rows).value, nowUtc, start, end) else closed
  }

  /** Any log gives intervals that are orderly, inside the range, and cover exactly the counted instants. */
  method ActiveIntervals(rows: seq<Row>, start: int, end: int, now: int) returns (intervals: seq<Interval>)
    requires Sorted(rows)
    ensures intervals == IntervalsOf(rows, start, end, now)
    ensures Orderly(intervals) && InRange(intervals, start, end)
    ensures CoversCounted(intervals, rows, start, end, Min(now, end))
  {
    intervals := [];
    var activeStart: Option<int> := None;
    for k := 0 to |rows|
      invariant activeStart == Open(rows[..k])
      invariant intervals == ClosedIntervals(rows[..k], start, end)
    {
      var row := rows[k];
      assert rows[..k + 1][..k] == rows[..k];
      if row.status.Active? {
        activeStart := Some(row.at);
      } else if row.status.Inactive? && activeStart.Some? {
        intervals := Clipped(intervals, activeStart.value, row.at, start, end);
        activeStart := None;
      }
    }
    assert rows[..|rows|] == rows;
    var nowUtc := Min(now, end);
    if activeStart.Some? && nowUtc >= start {
      intervals := Clipped(intervals, activeStart.value, nowUtc, start, end);
    }
    IntervalsCover(rows, start, end, now);
  }

  lemma {:induction false} OpenIsPast(rows: seq<Row>)
    requires Sorted(rows) && Open(rows).Some?
    ensures rows != [] && Open(rows).value <= rows[|rows| - 1].at
  {
    var n := |rows| - 1;
    if rows[n].status.Other? {
      OpenIsPast(rows[..n]);
      assert rows[n - 1].at <= rows[n].at;
    }
  }

  lemma {:induction false} ClosedAreOrderly(rows: seq<Row>, start: int, end: int)
    requires Sorted(rows)
    ensures var v := ClosedIntervals(rows, start, end);
            && Orderly(v) && InRange(v, start, end)
            && (rows != [] ==> EndBy(v, rows[|rows| - 1].at))
            && (Open(rows).Some? ==> EndBy(v, Open(rows).value))
  {
    if rows != [] {
      var before, last := rows[..|rows| - 1], rows[|rows| - 1];
      ClosedAreOrderly(before, start, end);
      assert before != [] ==> before[|before| - 1].at <= last.at;
      if last.status.Inactive? && Open(before).Some? {
        OpenIsPast(before);
        var earlier := ClosedIntervals(before, start, end);
        ClippedIsOrderly(earlier, Open(before).value, last.at, start, end);
      } else if before != [] {
        EndByLater(ClosedIntervals(before, start, end), before[|before| - 1].at, last.at);
      }
    }
  }

  lemma {:induction false} ClosedInstants(rows: seq<Row>, start: int, end: int, t: int)
    ensures t in Instants(ClosedIntervals(rows, start, end)) <==> start <= t < end && Closed(rows, t)
  {
    if rows != [] {
      var before, last := rows[..|rows| - 1], rows[|rows| - 1];
      ClosedInstants(before, start, end, t);
      if last.status.Inactive? && Open(before).Some? {
        ClippedInstants(ClosedIntervals(before, start, end), Open(before).value, last.at, start, end, t);
      }
    }
  }

  lemma IntervalsCover(rows: seq<Row>, start: int, end: int, now: int)
    requires Sorted(rows)
    ensures var v := IntervalsOf(rows, start, end, now);
            Orderly(v) && InRange(v, start, end) && CoversCounted(v, rows, start, end, Min(now, end))
  {
    ClosedAreOrderly(rows, start, end);
    var closed, nowUtc := ClosedIntervals(rows, start, end), Min(now, end);
    if Open(rows).Some? && nowUtc >= start {
      ClippedIsOrderly(closed, Open(rows).value, nowUtc, start, end);
    }
    forall t
      ensures t in Instants(IntervalsOf(rows, start, end, now)) <==> start <= t < end && Counted(rows, t, nowUtc)
    {
      ClosedInstants(rows, start, end, t);
      if Open(rows).Some? {
        ClippedInstants(closed, Open(rows).value, nowUtc, start, end, t);
      }
    }
  }

  lemma AppendOrderly(intervals: seq<Interval>, v: Interval, start: int, end: int)
    requires Orderly(intervals) && EndBy(intervals, v.start) && InRange(intervals, start, end)
    requires start <= v.start <= v.end <= end
    ensures Orderly(intervals + [v]) && InRange(intervals + [v], start, end) && EndBy(intervals + [v], v.end)
  {
    var all := intervals + [v];
    forall i, j | 0 <= i < j < |all| ensures all[i].end <= all[j].start {
      if j == |intervals| {
        assert all[i] == intervals[i];
      }
    }
    forall i | 0 <= i < |all| ensures start <= all[i].start <= all[i].end <= v.end {
      if i < |intervals| {
        assert all[i] == intervals[i];
      }
    }
  }

  lemma EndByLater(intervals: seq<Interval>, bound: int, later: int)
    requires EndBy(intervals, bound) && bound <= later
    ensures EndBy(intervals, later)
  {
  }

  lemma ClippedIsOrderly(intervals: seq<Interval>, from: int, until: int, start: int, end: int)
    requires Orderly(intervals) && InRange(intervals, start, end) && EndBy(intervals, from)
    ensures var clipped := Clipped(intervals, from, until, start, end);
            Orderly(clipped) && InRange(clipped, start, end) && EndBy(clipped, Max(from, until))
  {
    var v := Interval(Max(from, start), Min(until, end));
    EndByLater(intervals, from, v.start);
    EndByLater(intervals, from, Max(from, until));
    if v.end >= v.start {
      AppendOrderly(intervals, v, start, end);
      EndByLater(intervals + [v], v.end, Max(from, until));
    }
  }

  lemma ClippedInstants(intervals: seq<Interval>, from: int, until: int, start: int, end: int, t: int)
    ensures t in Instants(Clipped(intervals, from, until, start, end))
       <==> t in Instants(intervals) || (start <= t < end && from <= t < until)
  {
    InstantsAppend(intervals, Interval(Max(from, start), Min(until, end)));
  }

  lemma InstantsAppend(intervals: seq<Interval>, v: Interval)
    ensures Instants(intervals + [v]) == Instants(intervals) + Range(v.start, v.end)
  {
    assert (intervals + [v])[..|intervals|] == intervals;
  }

  lemma IntervalsHoldCounted(log: seq<Row>, start: int, end: int, now: int)
    requires Sorted(log)
    ensures Instants(IntervalsOf(Before(log, end), start, end, now)) == CountedInstants(log, start, end, now)
    ensures Orderly(IntervalsOf(Before(log, end), start, end, now))
  {
    IntervalsCover(Before(log, end), start, end, now);
  }

  /** What the function returns for the intervals it has derived. */
  function SecondsOf(intervals: seq<Interval>): Result<int, ResolverError> {
    if intervals == [] then Success(0) else ElapsedSeconds(intervals)
  }

  /** The resolver takes orderly intervals as they are and counts their instants. */
  lemma SecondsCountInstants(intervals: seq<Interval>, counted: set<int>)
    requires Orderly(intervals) && Instants(intervals) == counted
    ensures SecondsOf(intervals) == Success(|counted| / SECOND)
  {
    TotalCountsInstants(intervals);
    OrderlyIsSorted(intervals);
    OrderlyIsRegular(intervals);
  }

  lemma SecondsAreCounted(log: seq<Row>, start: int, end: int, now: int)
    requires Sorted(log)
    ensures SecondsOf(IntervalsOf(Before(log, end), start, end, now))
         == Success(|CountedInstants(log, start, end, now)| / SECOND)
  {
    IntervalsHoldCounted(log, start, end, now);
    SecondsCountInstants(IntervalsOf(Before(log, end), start, end, now), CountedInstants(log, start, end, now));
  }

  /** Seconds are the counted instants, truncated once; the resolver never refuses the intervals. */
  method CalculateActiveSeconds(log: seq<Row>, start: int, end: int, now: int) returns (seconds: int)
    requires Sorted(log)
    ensures seconds == |CountedInstants(log, start, end, now)| / SECOND
    ensures 0 <= seconds * SECOND <= Max(0, end - start)
  {
    var rows := Before(log, end);
    var intervals := ActiveIntervals(rows, start, end, now);
    SecondsAreCounted(log, start, end, now);
    CountedFitRange(log, start, end, now);
    seconds := SecondsOf(intervals).value;
  }

  lemma CountedFitRange(log: seq<Row>, start: int, end: int, now: int)
    ensures |CountedInstants(log, start, end, now)| <= Max(0, end - start)
  {
    SubsetSize(CountedInstants(log, start, end, now), Range(start, end));
    if start <= end {
      RangeSize(start, end);
    } else {
      assert Range(start, end) == {};
    }
  }

  lemma SubsetSize(a: set<int>, b: set<int>)
    requires a <= b
    ensures |a| <= |b|
  {
    assert |b - a| == |b| - |a|;
  }

  // ------------------------------------------------- the per-instant meaning

  predicate NoRowAfter(rows: seq<Row>, now: int) {
    forall i | 0 <= i < |rows| :: rows[i].at <= now
  }

  lemma {:induction false} AccountedBounded(rows: seq<Row>, t: int)
    requires Sorted(rows) && (Closed(rows, t) || Overwritten(rows, t))
    ensures t < rows[|rows| - 1].at
  {
    var n := |rows| - 1;
    if Closed(rows[..n], t) || Overwritten(rows[..n], t) {
      AccountedBounded(rows[..n], t);
      assert rows[n - 1].at <= rows[n].at;
    }
  }

  /** An active instant is closed, overwritten or still open, and only one of the three. */
  lemma {:induction false} ActiveDecomposes(rows: seq<Row>, t: int)
    requires Sorted(rows)
    ensures ActiveAt(rows, t)
       <==> Closed(rows, t) || Overwritten(rows, t) || (Open(rows).Some? && Open(rows).value <= t)
    ensures !(Closed(rows, t) && Overwritten(rows, t))
    ensures Open(rows).Some? && Open(rows).value <= t ==> !Closed(rows, t) && !Overwritten(rows, t)
  {
    if rows != [] {
      var before := rows[..|rows| - 1];
      ActiveDecomposes(before, t);
      if Closed(before, t) || Overwritten(before, t) {
        AccountedBounded(before, t);
        assert before[|before| - 1].at <= rows[|rows| - 1].at;
      }
    }
  }

  lemma {:induction false} ActiveAtPrefix(rows: seq<Row>, more: seq<Row>, t: int)
    requires forall i | 0 <= i < |more| :: t < more[i].at
    ensures ActiveAt(rows + more, t) == ActiveAt(rows, t)
  {
    if more == [] {
      assert rows + more == rows;
    } else {
      var n := |more| - 1;
      assert (rows + more)[..|rows + more| - 1] == rows + more[..n];
      ActiveAtPrefix(rows, more[..n], t);
    }
  }

  /** Instants of the range, up to now, at which the latest row says active. */
  function ActiveInstants(log: seq<Row>, start: int, end: int, now: int): set<int> {
    set t | start <= t < Min(now, end) && ActiveAt(log, t)
  }

  /** Instants of the range that a second active row took away from the first one. */
  function OverwrittenInstants(log: seq<Row>, start: int, end: int): set<int> {
    set t | start <= t < end && Overwritten(Before(log, end), t)
  }

  lemma InstantAccounted(log: seq<Row>, end: int, now: int, t: int)
    requires Sorted(log) && NoRowAfter(Before(log, end), now) && t < end
    ensures Counted(Before(log, end), t, Min(now, end)) || Overwritten(Before(log, end), t)
       <==> ActiveAt(log, t) && t < Min(now, end)
    ensures !(Counted(Before(log, end), t, Min(now, end)) && Overwritten(Before(log, end), t))
  {
    var rows := Before(log, end);
    ActiveAtPrefix(rows, log[|rows|..], t);
    assert log == rows + log[|rows|..];
    ActiveDecomposes(rows, t);
    if Closed(rows, t) || Overwritten(rows, t) {
      AccountedBounded(rows, t);
    }
  }

  /**
    The counted time is the time at which the latest row says active, less what
    overlapping active rows overwrite. So it is exact precisely when no instant
    of the range is overwritten.
   */
  lemma CountedIsActiveLessOverwritten(log: seq<Row>, start: int, end: int, now: int)
    requires Sorted(log) && NoRowAfter(Before(log, end), now)
    ensures |CountedInstants(log, start, end, now)|
         == |ActiveInstants(log, start, end, now)| - |OverwrittenInstants(log, start, end)|
    ensures |CountedInstants(log, start, end, now)| == |ActiveInstants(log, start, end, now)|
       <==> OverwrittenInstants(log, start, end) == {}
  {
    var counted, lost := CountedInstants(log, start, end, now), OverwrittenInstants(log, start, end);
    forall t | start <= t < end
      ensures t in counted || t in lost <==> t in ActiveInstants(log, start, end, now)
      ensures !(t in counted && t in lost)
    {
      InstantAccounted(log, end, now, t);
    }
    assert counted + lost == ActiveInstants(log, start, end, now);
    assert counted !! lost;
  }

  /** No active row directly follows an active row. */
  predicate Alternates(rows: seq<Row>) {
    rows == []
    || (Alternates(rows[..|rows| - 1]) && (rows[|rows| - 1].status.Active? ==> Open(rows[..|rows| - 1]).None?))
  }

  lemma {:induction false} AlternatingIsNeverOverwritten(rows: seq<Row>, t: int)
    requires Alternates(rows)
    ensures !Overwritten(rows, t)
  {
    if rows != [] {
      AlternatingIsNeverOverwritten(rows[..|rows| - 1], t);
    }
  }

  lemma BeforeAll(log: seq<Row>, end: int)
    requires Sorted(log) && log != [] && log[|log| - 1].at < end
    ensures Before(log, end) == log
  {
    assert forall i | 0 <= i < |log| :: log[i].at < end;
  }

  lemma {:induction false} AlternatesBefore(log: seq<Row>, end: int)
    requires Sorted(log) && Alternates(log)
    ensures Alternates(Before(log, end))
  {
    if log != [] {
      var n := |log| - 1;
      if log[n].at < end {
        BeforeAll(log, end);
      } else {
        AlternatesBefore(log[..n], end);
      }
    }
  }

  /** On a log without consecutive active rows the seconds are the time at which the latest row says active. */
  lemma AlternatingLogIsExact(log: seq<Row>, start: int, end: int, now: int)
    requires Sorted(log) && Alternates(log) && NoRowAfter(Before(log, end), now)
    ensures |CountedInstants(log, start, end, now)| == |ActiveInstants(log, start, end, now)|
  {
    AlternatesBefore(log, end);
    forall t ensures !Overwritten(Before(log, end), t) {
      AlternatingIsNeverOverwritten(Before(log, end), t);
    }
    assert OverwrittenInstants(log, start, end) == {};
    CountedIsActiveLessOverwritten(log, start, end, now);
  }

  // --------------------------------------------------------- adjacent ranges

  /** The first row of a continuation that opens or closes anything. */
  function FirstMark(rows: seq<Row>): Mark {
    if rows == [] then Other else if !rows[0].status.Other? then rows[0].status else FirstMark(rows[1..])
  }

  lemma {:induction false} FirstMarkAppend(rows: seq<Row>, r: Row)
    ensures FirstMark(rows + [r]) == if FirstMark(rows).Other? then r.status else FirstMark(rows)
  {
    if rows != [] {
      FirstMarkAppend(rows[1..], r);
      assert (rows + [r])[1..] == rows[1..] + [r];
    }
  }

  /** Rows at or after `t` leave the closed instants before it alone, but settle what was open. */
  lemma {:induction false} ContinuationSettlesOpen(rows: seq<Row>, more: seq<Row>, t: int)
    requires Sorted(rows + more) && forall i | 0 <= i < |more| :: t < more[i].at
    ensures var open := Open(rows).Some? && Open(rows).value <= t;
            && (Closed(rows + more, t) <==> Closed(rows, t) || (open && FirstMark(more).Inactive?))
            && (Open(rows + more).Some? && Open(rows + more).value <= t <==> open && FirstMark(more).Other?)
  {
    if more == [] {
      assert rows + more == rows;
    } else {
      var n := |more| - 1;
      assert (rows + more)[..|rows + more| - 1] == rows + more[..n];
      ContinuationSettlesOpen(rows, more[..n], t);
      FirstMarkAppend(more[..n], more[n]);
      assert more == more[..n] + [more[n]];
    }
  }

  /** The rows that the longer range sees and the shorter one does not. */
  function Between(log: seq<Row>, b: int, c: int): seq<Row>
    requires Sorted(log) && b <= c
  {
    BeforePrefix(log, b, c);
    Before(log, c)[|Before(log, b)|..]
  }

  lemma BeforePrefix(log: seq<Row>, b: int, c: int)
    requires Sorted(log) && b <= c
    ensures |Before(log, b)| <= |Before(log, c)|
  {
    assert forall i | 0 <= i < |Before(log, b)| :: log[i].at < b;
  }

  /** The active row open at `b` is followed, within the longer range, by another active row. */
  predicate CutByActive(log: seq<Row>, b: int, c: int)
    requires Sorted(log) && b <= c
  {
    Open(Before(log, b)).Some? && FirstMark(Between(log, b, c)).Active?
  }

  function Surplus(log: seq<Row>, a: int, b: int, c: int): set<int>
    requires Sorted(log) && b <= c
  {
    if CutByActive(log, b, c) then Range(Max(a, Open(Before(log, b)).value), b) else {}
  }

  lemma {:induction false} MarkIsRow(rows: seq<Row>)
    requires !FirstMark(rows).Other?
    ensures exists i | 0 <= i < |rows| :: rows[i].status == FirstMark(rows)
  {
    if rows[0].status.Other? {
      MarkIsRow(rows[1..]);
      var i :| 0 <= i < |rows[1..]| && rows[1..][i].status == FirstMark(rows[1..]);
      assert rows[i + 1].status == FirstMark(rows);
    }
  }

  /** How rows at or after `b` change the account of an instant before it. */
  lemma SplitRows(rows: seq<Row>, more: seq<Row>, b: int, c: int, now: int, t: int)
    requires Sorted(rows + more) && t < b <= c
    requires forall i | 0 <= i < |more| :: b <= more[i].at < c && more[i].at <= now
    ensures var open, cut := Open(rows), Open(rows).Some? && FirstMark(more).Active?;
            && (Counted(rows, t, Min(now, b)) <==> Counted(rows + more, t, Min(now, c)) || (cut && open.value <= t))
            && (cut && open.value <= t ==> !Counted(rows + more, t, Min(now, c)))
  {
    ContinuationSettlesOpen(rows, more, t);
    assert Sorted(rows) by {
      assert forall i | 0 <= i < |rows| :: (rows + more)[i] == rows[i];
    }
    ActiveDecomposes(rows, t);
    if !FirstMark(more).Other? {
      MarkIsRow(more);
      assert b <= now;
    }
  }

  lemma BetweenRows(log: seq<Row>, b: int, c: int, now: int)
    requires Sorted(log) && b <= c && NoRowAfter(Before(log, c), now)
    ensures Before(log, c) == Before(log, b) + Between(log, b, c)
    ensures forall i | 0 <= i < |Between(log, b, c)| ::
              b <= Between(log, b, c)[i].at < c && Between(log, b, c)[i].at <= now
  {
    var rows, all := Before(log, b), Before(log, c);
    BeforePrefix(log, b, c);
    assert rows <= log && all <= log;
    forall i | |rows| <= i < |all| ensures b <= all[i].at {
      assert log[i] == all[i];
    }
  }

  lemma SplitInstant(log: seq<Row>, b: int, c: int, now: int, t: int)
    requires Sorted(log) && b <= c && NoRowAfter(Before(log, c), now) && t < b
    ensures var open, cut := Open(Before(log, b)), CutByActive(log, b, c);
            && (Counted(Before(log, b), t, Min(now, b))
                <==> Counted(Before(log, c), t, Min(now, c)) || (cut && open.value <= t))
            && (cut && open.value <= t ==> !Counted(Before(log, c), t, Min(now, c)))
  {
    BetweenRows(log, b, c, now);
    assert Before(log, c) <= log;
    SplitRows(Before(log, b), Between(log, b, c), b, c, now, t);
  }

  lemma {:induction false} OpenIsRow(rows: seq<Row>)
    requires Open(rows).Some?
    ensures exists i | 0 <= i < |rows| :: rows[i].at == Open(rows).value
  {
    var n := |rows| - 1;
    if rows[n].status.Other? {
      OpenIsRow(rows[..n]);
    }
  }

  /** An instant before the boundary is counted as in the whole range, or belongs to the surplus. */
  lemma FirstRangeInstant(log: seq<Row>, a: int, b: int, c: int, now: int, t: int)
    requires Sorted(log) && a <= b <= c && NoRowAfter(Before(log, c), now) && a <= t < b
    ensures t in CountedInstants(log, a, b, now)
       <==> t in CountedInstants(log, a, c, now) || t in Surplus(log, a, b, c)
    ensures !(t in CountedInstants(log, a, c, now) && t in Surplus(log, a, b, c))
  {
    SplitInstant(log, b, c, now, t);
  }

  /** Every instant of the two ranges is counted as in the whole one, or belongs to the surplus. */
  lemma RangesPartition(log: seq<Row>, a: int, b: int, c: int, now: int)
    requires Sorted(log) && a <= b <= c && NoRowAfter(Before(log, c), now)
    ensures CountedInstants(log, a, b, now) + CountedInstants(log, b, c, now)
         == CountedInstants(log, a, c, now) + Surplus(log, a, b, c)
    ensures CountedInstants(log, a, b, now) !! CountedInstants(log, b, c, now)
    ensures CountedInstants(log, a, c, now) !! Surplus(log, a, b, c)
  {
    forall t | a <= t < b
      ensures t in CountedInstants(log, a, b, now)
         <==> t in CountedInstants(log, a, c, now) || t in Surplus(log, a, b, c)
      ensures !(t in CountedInstants(log, a, c, now) && t in Surplus(log, a, b, c))
    {
      FirstRangeInstant(log, a, b, c, now, t);
    }
  }

  lemma SurplusExactly(log: seq<Row>, a: int, b: int, c: int)
    requires Sorted(log) && a <= b <= c
    ensures Surplus(log, a, b, c) == {} <==> !(CutByActive(log, b, c) && a < b)
  {
    if CutByActive(log, b, c) && a < b {
      OpenIsRow(Before(log, b));
      assert b - 1 in Surplus(log, a, b, c);
    }
  }

  lemma SizesAddUp(a: set<int>, b: set<int>, c: set<int>, d: set<int>)
    requires a + b == c + d && a !! b && c !! d
    ensures |a| + |b| == |c| + |d| && (|a| + |b| == |c| <==> d == {})
  {
    assert |a + b| == |a| + |b| && |c + d| == |c| + |d|;
  }

  /**
    Adjacent ranges add up exactly, except that an active row which is open at
    the boundary and overwritten after it is counted by the first range only.
   */
  lemma RangesAddUp(log: seq<Row>, a: int, b: int, c: int, now: int)
    requires Sorted(log) && a <= b <= c && NoRowAfter(Before(log, c), now)
    ensures |CountedInstants(log, a, b, now)| + |CountedInstants(log, b, c, now)|
         == |CountedInstants(log, a, c, now)| + |Surplus(log, a, b, c)|
    ensures |CountedInstants(log, a, b, now)| + |CountedInstants(log, b, c, now)| == |CountedInstants(log, a, c, now)|
       <==> !(CutByActive(log, b, c) && a < b)
  {
    RangesPartition(log, a, b, c, now);
    SurplusExactly(log, a, b, c);
    SizesAddUp(CountedInstants(log, a, b, now), CountedInstants(log, b, c, now), CountedInstants(log, a, c, now),
               Surplus(log, a, b, c));
  }

  lemma {:induction false} AlternatingContinuation(rows: seq<Row>, more: seq<Row>)
    requires Alternates(rows + more) && Open(rows).Some?
    ensures !FirstMark(more).Active?
    ensures FirstMark(more).Other? ==> Open(rows + more).Some?
  {
    if more == [] {
      assert rows + more == rows;
    } else {
      var n := |more| - 1;
      assert (rows + more)[..|rows + more| - 1] == rows + more[..n];
      AlternatingContinuation(rows, more[..n]);
      FirstMarkAppend(more[..n], more[n]);
      assert more == more[..n] + [more[n]];
    }
  }

  // ------------------------------------------------------------- whole seconds

  /** The sum of the sub-second parts of the ends less that of the starts. */
  function PhaseSum(intervals: seq<Interval>): int {
    if intervals == [] then 0
    else
      var n := |intervals| - 1;
      PhaseSum(intervals[..n]) + intervals[n].end % SECOND - intervals[n].start % SECOND
  }

  /** What truncation drops from a range, in terms of the sub-second parts of its clipped marks and bounds. */
  function Remainder(log: seq<Row>, start: int, end: int, now: int): int {
    PhaseSum(IntervalsOf(Before(log, end), start, end, now)) % SECOND
  }

  lemma SamePhase(a: int, b: int, c: int)
    requires a % SECOND == b % SECOND
    ensures (a + c) % SECOND == (b + c) % SECOND
  {
  }

  lemma {:induction false} TotalHasPhase(intervals: seq<Interval>)
    ensures Total(intervals) % SECOND == PhaseSum(intervals) % SECOND
  {
    if intervals != [] {
      var n := |intervals| - 1;
      var before, length := intervals[..n], intervals[n].end - intervals[n].start;
      var phases := intervals[n].end % SECOND - intervals[n].start % SECOND;
      TotalHasPhase(before);
      assert length % SECOND == phases % SECOND;
      SamePhase(Total(before), PhaseSum(before), length);
      SamePhase(length, phases, PhaseSum(before));
    }
  }

  /** The microseconds that truncation drops depend on the marks and bounds only through their sub-second parts. */
  lemma RemainderIsOfPhases(log: seq<Row>, start: int, end: int, now: int)
    requires Sorted(log)
    ensures |CountedInstants(log, start, end, now)| % SECOND == Remainder(log, start, end, now)
  {
    var intervals := IntervalsOf(Before(log, end), start, end, now);
    IntervalsHoldCounted(log, start, end, now);
    TotalCountsInstants(intervals);
    TotalHasPhase(intervals);
  }

  lemma AlternatingTimeAddsUp(log: seq<Row>, a: int, b: int, c: int, now: int)
    requires Sorted(log) && Alternates(log) && a <= b <= c && NoRowAfter(Before(log, c), now)
    ensures |CountedInstants(log, a, b, now)| + |CountedInstants(log, b, c, now)| == |CountedInstants(log, a, c, now)|
  {
    AlternatesBefore(log, c);
    BetweenRows(log, b, c, now);
    if Open(Before(log, b)).Some? {
      AlternatingContinuation(Before(log, b), Between(log, b, c));
    }
    RangesAddUp(log, a, b, c, now);
  }

  /**
    On a log without consecutive active rows, the seconds of two adjacent ranges
    add up exactly when the sub-second parts of their marks and bounds leave less
    than a second over; otherwise one second is missing, never more.
   */
  lemma AlternatingRangesAddUp(log: seq<Row>, a: int, b: int, c: int, now: int)
    requires Sorted(log) && Alternates(log) && a <= b <= c && NoRowAfter(Before(log, c), now)
    ensures var x, y := |CountedInstants(log, a, b, now)|, |CountedInstants(log, b, c, now)|;
            var z := |CountedInstants(log, a, c, now)|;
            var over := Remainder(log, a, b, now) + Remainder(log, b, c, now);
            && x + y == z
            && (x / SECOND + y / SECOND == z / SECOND <==> over < SECOND)
            && x / SECOND + y / SECOND == z / SECOND - (if over < SECOND then 0 else 1)
  {
    AlternatingTimeAddsUp(log, a, b, c, now);
    RemainderIsOfPhases(log, a, b, now);
    RemainderIsOfPhases(log, b, c, now);
  }

  /** Every mark has the same sub-second part. */
  predicate InPhase(rows: seq<Row>, phase: int) {
    forall i | 0 <= i < |rows| :: rows[i].at % SECOND == phase
  }

  predicate EndsInPhase(intervals: seq<Interval>, phase: int) {
    forall i | 0 <= i < |intervals| :: intervals[i].start % SECOND == phase && intervals[i].end % SECOND == phase
  }

  lemma {:induction false} OpenInPhase(rows: seq<Row>, phase: int)
    requires InPhase(rows, phase) && Open(rows).Some?
    ensures Open(rows).value % SECOND == phase
  {
    var n := |rows| - 1;
    if rows[n].status.Other? {
      OpenInPhase(rows[..n], phase);
    }
  }

  lemma {:induction false} ClosedInPhase(rows: seq<Row>, start: int, end: int, phase: int)
    requires InPhase(rows, phase) && start % SECOND == phase && end % SECOND == phase
    ensures EndsInPhase(ClosedIntervals(rows, start, end), phase)
  {
    if rows != [] {
      var before := rows[..|rows| - 1];
      ClosedInPhase(before, start, end, phase);
      if Open(before).Some? {
        OpenInPhase(before, phase);
      }
    }
  }

  lemma {:induction false} InPhaseSum(intervals: seq<Interval>, phase: int)
    requires EndsInPhase(intervals, phase)
    ensures PhaseSum(intervals) == 0
  {
    if intervals != [] {
      InPhaseSum(intervals[..|intervals| - 1], phase);
    }
  }

  lemma NothingIsDropped(log: seq<Row>, start: int, end: int, now: int)
    requires Sorted(log) && InPhase(Before(log, end), start % SECOND)
    requires end % SECOND == start % SECOND && Min(now, end) % SECOND == start % SECOND
    ensures Remainder(log, start, end, now) == 0
  {
    var rows, phase := Before(log, end), start % SECOND;
    ClosedInPhase(rows, start, end, phase);
    if Open(rows).Some? {
      OpenInPhase(rows, phase);
    }
    InPhaseSum(IntervalsOf(rows, start, end, now), phase);
  }

  /**
    Where the rows and the bounds share one sub-second part, as on whole seconds,
    and the clock is past the last bound or shares it too, the truncated seconds
    of adjacent ranges add up.
   */
  lemma WholeSecondsAddUp(log: seq<Row>, a: int, b: int, c: int, now: int)
    requires Sorted(log) && Alternates(log) && a <= b <= c && NoRowAfter(Before(log, c), now)
    requires a % SECOND == b % SECOND == c % SECOND && InPhase(Before(log, c), a % SECOND)
    requires now >= c || now % SECOND == a % SECOND
    ensures |CountedInstants(log, a, b, now)| / SECOND + |CountedInstants(log, b, c, now)| / SECOND
         == |CountedInstants(log, a, c, now)| / SECOND
  {
    BeforePrefix(log, b, c);
    assert forall i | 0 <= i < |Before(log, b)| :: Before(log, b)[i] == Before(log, c)[i];
    NothingIsDropped(log, a, b, now);
    NothingIsDropped(log, b, c, now);
    AlternatingRangesAddUp(log, a, b, c, now);
  }

  const ONE_SECOND_LOG := [Row(Active, 0), Row(Inactive, SECOND)]

  lemma OneSecondLog(start: int, end: int)
    requires 0 <= start <= end
    ensures Sorted(ONE_SECOND_LOG) && Alternates(ONE_SECOND_LOG)
    ensures start <= SECOND ==>
              |CountedInstants(ONE_SECOND_LOG, start, end, SECOND)| == Max(0, Min(end, SECOND) - start)
  {
    var log := ONE_SECOND_LOG;
    var first := [Row(Active, 0)];
    assert log[..|log| - 1] == first && first[..|first| - 1] == [];
    AlternatingLogIsExact(log, start, end, SECOND);
    assert forall t :: ActiveAt(first, t) <==> 0 <= t;
    assert forall t :: ActiveAt(log, t) <==> 0 <= t < SECOND;
    assert ActiveInstants(log, start, end, SECOND) == Range(start, Min(SECOND, end));
    if start <= Min(SECOND, end) {
      RangeSize(start, Min(SECOND, end));
    }
  }

  /** Half a second on each side of a boundary makes a whole one that neither range reports. */
  lemma SecondsNeedNotAddUp()
    ensures Sorted(ONE_SECOND_LOG) && Alternates(ONE_SECOND_LOG)
    ensures |CountedInstants(ONE_SECOND_LOG, 0, SECOND / 2, SECOND)| / SECOND == 0
    ensures |CountedInstants(ONE_SECOND_LOG, SECOND / 2, 2 * SECOND, SECOND)| / SECOND == 0
    ensures |CountedInstants(ONE_SECOND_LOG, 0, 2 * SECOND, SECOND)| / SECOND == 1
  {
    OneSecondLog(0, SECOND / 2);
    OneSecondLog(SECOND / 2, 2 * SECOND);
    OneSecondLog(0, 2 * SECOND);
  }
}
