/** What every run of append_snapshot keeps, whatever is late, duplicated, refused or failed on the way. */
module SnapshotRuns {
  import opened Basics
  import opened Vocabulary
  import opened Measurements
  import opened SnapshotStore

  function Step(t: Telemetry, d: Delivery): (next: Telemetry)
    requires Good(t)
    ensures Good(next)
  {
    var r := Accepted(d);
    if r.Success? then Next(t, r.value) else t
  }

  function Run(ds: seq<Delivery>): (t: Telemetry)
    ensures Good(t)
  {
    if ds == [] then EMPTY else Step(Run(ds[..|ds| - 1]), ds[|ds| - 1])
  }

  /** The attempts that became current, in order of publication. */
  function Published(ds: seq<Delivery>): (log: seq<Wrapper>)
    ensures forall i | 0 <= i < |log| :: GoodWrapper(log[i])
  {
    if ds == [] then []
    else
      var before, r := ds[..|ds| - 1], Accepted(ds[|ds| - 1]);
      if r.Success? && Publishes(Run(before), r.value) then Published(before) + [r.value] else Published(before)
  }

  // ------------------------------------------------- the pointer only moves on

  predicate ReceivedInOrder(log: seq<Wrapper>) {
    forall i, j | 0 <= i < j < |log| :: log[i].receivedAt < log[j].receivedAt
  }

  /** Published source snapshots have strictly increasing sampled minutes. */
  predicate MinutesIncrease(log: seq<Wrapper>)
    requires forall i | 0 <= i < |log| :: GoodWrapper(log[i])
  {
    forall i, j | 0 <= i < j < |log| && HasSource(log[i]) && HasSource(log[j]) ::
        SourceMinute(log[i]) < SourceMinute(log[j])
  }

  predicate PointerLog(t: Telemetry, log: seq<Wrapper>)
    requires Good(t) && forall i | 0 <= i < |log| :: GoodWrapper(log[i])
  {
    && (if log == [] then t.current.None? else t.current.Some? && t.current.value.wrapper == log[|log| - 1])
    && ReceivedInOrder(log)
    && MinutesIncrease(log)
    && (forall i | 0 <= i < |log| && HasSource(log[i]) :: SourceMinute(log[i]) in t.sources)
  }

  lemma MinuteMonotone(a: int, b: int)
    requires a <= b
    ensures MinuteOf(a) <= MinuteOf(b)
    ensures MinuteOf(FloorToMinute(a)) == MinuteOf(a)
  {
  }

  /** Freshness, minute de-duplication and the floor-to-minute rule each exclude one way back. */
  lemma PublicationMovesOn(t: Telemetry, log: seq<Wrapper>, w: Wrapper, i: nat)
    requires Good(t) && GoodWrapper(w) && forall j | 0 <= j < |log| :: GoodWrapper(log[j])
    requires PointerLog(t, log) && Publishes(t, w)
    requires i < |log| && HasSource(log[i]) && HasSource(w)
    ensures SourceMinute(log[i]) < SourceMinute(w)
  {
    var last := log[|log| - 1];
    assert SourceMinute(log[i]) != SourceMinute(w);
    if last.snapshot.Some? {
      assert HasSource(last);
      MinuteMonotone(SourceAt(last), SourceAt(w));
    } else {
      assert log[i].receivedAt < last.receivedAt;
      MinuteMonotone(SourceAt(log[i]), log[i].receivedAt);
      MinuteMonotone(log[i].receivedAt, last.receivedAt);
      MinuteMonotone(FloorToMinute(last.receivedAt), SourceAt(w));
    }
  }

  lemma PointerLogKept(t: Telemetry, log: seq<Wrapper>, w: Wrapper)
    requires Good(t) && GoodWrapper(w) && forall j | 0 <= j < |log| :: GoodWrapper(log[j])
    requires PointerLog(t, log)
    ensures PointerLog(Next(t, w), if Publishes(t, w) then log + [w] else log)
  {
    if Publishes(t, w) {
      forall i | 0 <= i < |log| && HasSource(log[i]) && HasSource(w)
        ensures SourceMinute(log[i]) < SourceMinute(w)
      {
        PublicationMovesOn(t, log, w, i);
      }
      AppendMinute(log, w);
      AppendReceived(log, w);
    }
  }

  lemma AppendMinute(log: seq<Wrapper>, w: Wrapper)
    requires GoodWrapper(w) && (forall j | 0 <= j < |log| :: GoodWrapper(log[j])) && MinutesIncrease(log)
    requires forall i | 0 <= i < |log| && HasSource(log[i]) && HasSource(w) :: SourceMinute(log[i]) < SourceMinute(w)
    ensures MinutesIncrease(log + [w])
  {
  }

  lemma AppendReceived(log: seq<Wrapper>, w: Wrapper)
    requires ReceivedInOrder(log) && (log != [] ==> log[|log| - 1].receivedAt < w.receivedAt)
    ensures ReceivedInOrder(log + [w])
  {
  }

  lemma {:induction false} RunKeepsPointerLog(ds: seq<Delivery>)
    ensures PointerLog(Run(ds), Published(ds))
  {
    if ds != [] {
      var before, r := ds[..|ds| - 1], Accepted(ds[|ds| - 1]);
      RunKeepsPointerLog(before);
      if r.Success? {
        PointerLogKept(Run(before), Published(before), r.value);
      }
    }
  }

  /** In every run the current pointer never goes back to an earlier or equal sampled minute. */
  lemma CurrentMinutesStrictlyIncrease(ds: seq<Delivery>)
    ensures MinutesIncrease(Published(ds))
    ensures ReceivedInOrder(Published(ds))
    ensures Run(ds).current.Some? <==> Published(ds) != []
    ensures Published(ds) != [] ==> Run(ds).current.value.wrapper == Published(ds)[|Published(ds)| - 1]
  {
    RunKeepsPointerLog(ds);
  }

  // ------------------------------------------- the transaction, told by deliveries alone

  /** A failed collection that is admitted. */
  predicate IsFailure(d: Delivery) {
    && d.receivedAt.Aware? && d.snapshot.None? && d.diagnostic.Some?
    && (d.diagnostic.value.TransportUnavailable? || d.diagnostic.value.AccessDenied?
        || d.diagnostic.value.InvalidSnapshot? || d.diagnostic.value.StaleSnapshot?)
  }

  /** A sample that is admitted: valid and received within five minutes after it was taken. */
  predicate IsSample(d: Delivery) {
    && d.receivedAt.Aware? && d.snapshot.Some? && d.diagnostic.None?
    && ValidSnapshot(d.snapshot.value)
    && 0 <= d.receivedAt.at - d.snapshot.value.sampledAt.at <= 5 * 60 * 1_000_000
  }

  function MinuteSampled(d: Delivery): int
    requires IsSample(d)
  {
    d.snapshot.value.sampledAt.at / 60_000_000
  }

  /** Which deliveries are admitted, as what, and why the others are not. */
  lemma AdmittedExactly(d: Delivery)
    ensures Accepted(d).Success? <==> IsFailure(d) || IsSample(d)
    ensures Accepted(d).Success? ==> Accepted(d).value == Wrapper(d.snapshot, d.receivedAt.at, d.diagnostic)
    ensures Accepted(d) == Failure(NaiveReceipt) <==> d.receivedAt.Naive?
    ensures Accepted(d) == Failure(DiagnosedSnapshot)
            <==> d.receivedAt.Aware? && d.snapshot.Some? && d.diagnostic.Some?
    ensures Accepted(d) == Failure(OpenDiagnostic) <==> d.receivedAt.Aware? && d.snapshot.None? && !IsFailure(d)
  {
  }

  /** A minute is stored exactly when some delivery brought a sample of it. */
  lemma {:induction false} StoredMinutesExactly(ds: seq<Delivery>, minute: int)
    ensures minute in Run(ds).sources <==> exists i | 0 <= i < |ds| :: IsSample(ds[i]) && MinuteSampled(ds[i]) == minute
  {
    if ds != [] {
      var before, d := ds[..|ds| - 1], ds[|ds| - 1];
      StoredMinutesExactly(before, minute);
      AdmittedExactly(d);
      assert forall i | 0 <= i < |before| :: before[i] == ds[i];
    }
  }

  /** The first sample of a minute is what stays stored for it, for seven days. */
  lemma FirstSampleIsStored(before: seq<Delivery>, d: Delivery, later: seq<Delivery>)
    requires IsSample(d)
    requires forall j | 0 <= j < |before| && IsSample(before[j]) :: MinuteSampled(before[j]) != MinuteSampled(d)
    ensures var sources := Run(before + [d] + later).sources;
            && MinuteSampled(d) in sources
            && sources[MinuteSampled(d)] == StoredDoc(Wrapper(d.snapshot, d.receivedAt.at, None),
                                                      d.snapshot.value.sampledAt.at + 7 * 24 * 3600 * 1_000_000)
  {
    StoredMinutesExactly(before, MinuteSampled(d));
    NewSampleIsStored(before, d);
    FirstEvidenceStays(before + [d], later, MinuteSampled(d));
  }

  lemma NewSampleIsStored(ds: seq<Delivery>, d: Delivery)
    requires IsSample(d) && MinuteSampled(d) !in Run(ds).sources
    ensures MinuteSampled(d) in Run(ds + [d]).sources
         && Run(ds + [d]).sources[MinuteSampled(d)]
            == StoredDoc(Wrapper(d.snapshot, d.receivedAt.at, None),
                         d.snapshot.value.sampledAt.at + 7 * 24 * 3600 * 1_000_000)
  {
    assert (ds + [d])[..|ds|] == ds;
    AdmittedExactly(d);
  }

  /** Every failed collection is kept for seven days, in order of arrival, and nothing else is. */
  lemma AttemptsExactly(ds: seq<Delivery>, d: Delivery)
    ensures Run(ds + [d]).attempts == if IsFailure(d) then
              Run(ds).attempts + [StoredDoc(Wrapper(None, d.receivedAt.at, d.diagnostic),
                                            d.receivedAt.at + 7 * 24 * 3600 * 1_000_000)]
            else Run(ds).attempts
  {
    assert (ds + [d])[..|ds|] == ds;
    AdmittedExactly(d);
  }

  /**
    When a delivery becomes current. It must be received after the last one that did; a sample must be the first of
    its minute, and taken later than the current sample, or not in a minute before that of a current failure's receipt.
   */
  predicate BecomesCurrent(ds: seq<Delivery>, log: seq<Wrapper>, d: Delivery)
    requires forall i | 0 <= i < |log| :: GoodWrapper(log[i])
  {
    && (IsFailure(d) || IsSample(d))
    && (log != [] ==> log[|log| - 1].receivedAt < d.receivedAt.at)
    && (IsSample(d) ==>
          && (forall i | 0 <= i < |ds| && IsSample(ds[i]) :: MinuteSampled(ds[i]) != MinuteSampled(d))
          && (log != [] ==>
                var last := log[|log| - 1];
                assert GoodWrapper(last);
                if last.snapshot.Some? then last.snapshot.value.sampledAt.at < d.snapshot.value.sampledAt.at
                else last.receivedAt / 60_000_000 <= MinuteSampled(d)))
  }

  lemma PublishedExactly(ds: seq<Delivery>, d: Delivery)
    ensures Published(ds + [d]) == if BecomesCurrent(ds, Published(ds), d) then
              Published(ds) + [Wrapper(d.snapshot, d.receivedAt.at, d.diagnostic)]
            else Published(ds)
  {
    assert (ds + [d])[..|ds|] == ds;
    AdmittedExactly(d);
    RunKeepsPointerLog(ds);
    if IsSample(d) {
      StoredMinutesExactly(ds, MinuteSampled(d));
      LastFloor(Published(ds), d);
    }
  }

  lemma LastFloor(log: seq<Wrapper>, d: Delivery)
    requires IsSample(d)
    ensures log != [] ==>
              var last := log[|log| - 1];
              FloorToMinute(last.receivedAt) <= d.snapshot.value.sampledAt.at
              <==> last.receivedAt / 60_000_000 <= MinuteSampled(d)
  {
    if log != [] {
      FloorExactly(log[|log| - 1].receivedAt, d.snapshot.value.sampledAt.at);
    }
  }

  /** A failed attempt becomes current exactly when it was received after the current one. */
  lemma FailurePublishes(ds: seq<Delivery>, w: Wrapper)
    requires w.snapshot.None?
    ensures Publishes(Run(ds), w) <==>
              Published(ds) == [] || Published(ds)[|Published(ds)| - 1].receivedAt < w.receivedAt
  {
    RunKeepsPointerLog(ds);
  }

  /** New evidence is not held back: a sample from a later minute than the current receipt always becomes current. */
  lemma LaterMinutePublishes(ds: seq<Delivery>, w: Wrapper)
    requires HasSource(w) && SourceMinute(w) !in Run(ds).sources
    requires Published(ds) != [] ==> MinuteOf(Published(ds)[|Published(ds)| - 1].receivedAt) < SourceMinute(w)
    ensures Publishes(Run(ds), w)
  {
    RunKeepsPointerLog(ds);
    LaterMinuteMayPublish(Run(ds), w);
  }

  lemma LaterMinuteMayPublish(t: Telemetry, w: Wrapper)
    requires Good(t) && HasSource(w) && SourceMinute(w) !in t.sources
    requires t.current.Some? ==> MinuteOf(t.current.value.wrapper.receivedAt) < SourceMinute(w)
    ensures Publishes(t, w)
  {
    if t.current.Some? {
      LaterMinuteIsLater(t.current.value.wrapper.receivedAt, SourceAt(w));
    }
  }

  lemma LaterMinuteIsLater(a: int, b: int)
    requires MinuteOf(a) < MinuteOf(b)
    ensures FloorToMinute(a) <= a < b
  {
  }

  /** A failure does not poison its own minute: a sample of that minute that arrives next still becomes current. */
  lemma FailureDoesNotPoisonItsMinute(ds: seq<Delivery>, w: Wrapper)
    requires Published(ds) != [] && HasSource(w) && SourceMinute(w) !in Run(ds).sources
    requires var last := Published(ds)[|Published(ds)| - 1];
             last.snapshot.None? && last.receivedAt < w.receivedAt
    ensures Publishes(Run(ds), w) <==> MinuteOf(Published(ds)[|Published(ds)| - 1].receivedAt) <= SourceMinute(w)
  {
    RunKeepsPointerLog(ds);
    AfterFailureExactly(Run(ds), w);
  }

  lemma AfterFailureExactly(t: Telemetry, w: Wrapper)
    requires Good(t) && HasSource(w) && SourceMinute(w) !in t.sources
    requires t.current.Some? && t.current.value.wrapper.snapshot.None?
    requires t.current.value.wrapper.receivedAt < w.receivedAt
    ensures Publishes(t, w) <==> MinuteOf(t.current.value.wrapper.receivedAt) <= SourceMinute(w)
  {
    FloorExactly(t.current.value.wrapper.receivedAt, SourceAt(w));
  }

  lemma FloorExactly(a: int, b: int)
    ensures FloorToMinute(a) <= b <==> MinuteOf(a) <= MinuteOf(b)
  {
    if FloorToMinute(a) <= b {
      MinuteMonotone(FloorToMinute(a), b);
      MinuteMonotone(a, a);
    }
  }

  /** The day documents as every run keeps them: exactly those that the stored minutes call for. */
  ghost predicate DaysAfter(ds: seq<Delivery>, days: map<int, DayDoc>) {
    DaysIndex(days, GradesOf(Run(ds).sources))
  }

  /** Delivering any snapshot for an already stored minute changes nothing at all, the day counters included. */
  lemma StoredMinuteIsIdempotent(ds: seq<Delivery>, d: Delivery, days: map<int, DayDoc>, after: map<int, DayDoc>)
    requires Accepted(d).Success? && HasSource(Accepted(d).value)
    requires SourceMinute(Accepted(d).value) in Run(ds).sources
    requires DaysAfter(ds, days) && DaysAfter(ds + [d], after)
    ensures Run(ds + [d]) == Run(ds) && Published(ds + [d]) == Published(ds) && after == days
  {
    assert (ds + [d])[..|ds|] == ds;
    DaysAreDetermined(days, after, GradesOf(Run(ds).sources));
  }

  /** Every accepted minute is stored once and for all, with the evidence that came first. */
  lemma {:induction false} FirstEvidenceStays(ds: seq<Delivery>, more: seq<Delivery>, minute: int)
    requires minute in Run(ds).sources
    ensures minute in Run(ds + more).sources && Run(ds + more).sources[minute] == Run(ds).sources[minute]
  {
    if more == [] {
      assert ds + more == ds;
    } else {
      FirstEvidenceStays(ds, more[..|more| - 1], minute);
      assert (ds + more)[..|ds + more| - 1] == ds + more[..|more| - 1];
    }
  }

  // ------------------------------------------------------------ last activity

  function ShownBy(w: Wrapper): map<Word, Entry>
    requires GoodWrapper(w)
  {
    if w.snapshot.None? then map[] else Shown(w.snapshot.value, w.snapshot.value.components.value, w.receivedAt)
  }

  /** The newest published attempt that showed requests of a component on fresh evidence. */
  function Newest(log: seq<Wrapper>, key: Word): (w: Option<Wrapper>)
    requires forall i | 0 <= i < |log| :: GoodWrapper(log[i])
    ensures w.Some? ==> GoodWrapper(w.value) && key in ShownBy(w.value)
  {
    if log == [] then None
    else if key in ShownBy(log[|log| - 1]) then Some(log[|log| - 1])
    else Newest(log[..|log| - 1], key)
  }

  /** An entry shown by an attempt is one of its components, with that attempt's timestamps. */
  lemma {:induction false} ShownIsComponent(p: Payload, items: seq<Component>, receivedAt: int, key: Word)
    requires ValidSnapshot(p) && forall i | 0 <= i < |items| :: ValidComponent(items[i], SnapshotSchema(p))
    requires key in Shown(p, items, receivedAt)
    ensures exists i | 0 <= i < |items| ::
              items[i].key == Text(key) && ShowsActivity(p, items[i], receivedAt)
              && Shown(p, items, receivedAt)[key] == Entry(p.sampledAt, p.latestAt, items[i])
  {
    var last := |items| - 1;
    assert ValidComponent(items[last], SnapshotSchema(p));
    if items[last].key == Text(key) && ShowsActivity(p, items[last], receivedAt) {
      assert Shown(p, items, receivedAt)[key] == Entry(p.sampledAt, p.latestAt, items[last]);
    } else {
      ShownIsComponent(p, items[..last], receivedAt, key);
      var i :| 0 <= i < last && items[..last][i].key == Text(key) && ShowsActivity(p, items[..last][i], receivedAt)
               && Shown(p, items[..last], receivedAt)[key] == Entry(p.sampledAt, p.latestAt, items[..last][i]);
      assert items[i] == items[..last][i];
    }
  }

  predicate Expired(w: Wrapper, now: int)
    requires HasSource(w)
  {
    now - SourceAt(w) > RETENTION
  }

  /** `last_activity` in terms of the published attempts alone. */
  ghost predicate ActivityExact(activity: Activity, log: seq<Wrapper>)
    requires forall i | 0 <= i < |log| :: GoodWrapper(log[i])
    requires log != []
  {
    && activity.Activities?
    && var now := log[|log| - 1].receivedAt;
       forall key ::
         && (key in activity.entries <==> Newest(log, key).Some? && !Expired(Newest(log, key).value, now))
         && (key in activity.entries ==> activity.entries[key] == ShownBy(Newest(log, key).value)[key])
  }

  /** Re-validating an entry at a later attempt drops it exactly when it has expired. */
  lemma ShownEntryKept(w: Wrapper, key: Word, now: int)
    requires GoodWrapper(w) && key in ShownBy(w) && w.receivedAt <= now
    ensures HasSource(w) && Schema.Current.Has(key)
    ensures Keeps(key, ShownBy(w)[key], now) <==> !Expired(w, now)
  {
    var p := w.snapshot.value;
    ShownIsComponent(p, p.components.value, w.receivedAt, key);
    var i :| 0 <= i < |p.components.value| && p.components.value[i].key == Text(key)
             && ShowsActivity(p, p.components.value[i], w.receivedAt)
             && ShownBy(w)[key] == Entry(p.sampledAt, p.latestAt, p.components.value[i]);
    assert ValidComponent(p.components.value[i], SnapshotSchema(p));
    WrittenActivityIsKept(p, i, w.receivedAt, now);
  }

  lemma {:induction false} NewestReceived(log: seq<Wrapper>, key: Word)
    requires forall i | 0 <= i < |log| :: GoodWrapper(log[i])
    requires ReceivedInOrder(log) && Newest(log, key).Some?
    ensures Newest(log, key).value.receivedAt <= log[|log| - 1].receivedAt
  {
    var last := |log| - 1;
    if key !in ShownBy(log[last]) {
      NewestReceived(log[..last], key);
      assert log[last - 1].receivedAt < log[last].receivedAt;
    }
  }

  lemma NewestOfMore(log: seq<Wrapper>, w: Wrapper, key: Word)
    requires GoodWrapper(w) && forall i | 0 <= i < |log| :: GoodWrapper(log[i])
    ensures Newest(log + [w], key) == if key in ShownBy(w) then Some(w) else Newest(log, key)
  {
    assert (log + [w])[..|log|] == log;
  }

  lemma ActivityShown(t: Telemetry, w: Wrapper, key: Word)
    requires Good(t) && GoodWrapper(w) && key in ShownBy(w)
    ensures key in NextActivity(t, w) && NextActivity(t, w)[key] == ShownBy(w)[key] && !Expired(w, w.receivedAt)
  {
    ShownEntryKept(w, key, w.receivedAt);
  }

  lemma ActivityStep(t: Telemetry, log: seq<Wrapper>, w: Wrapper, key: Word)
    requires Good(t) && GoodWrapper(w) && forall i | 0 <= i < |log| :: GoodWrapper(log[i])
    requires log == [] ==> t.current.None?
    requires log != [] ==>
               && t.current.Some? && t.current.value.wrapper == log[|log| - 1]
               && ActivityExact(t.current.value.lastActivity, log)
    requires ReceivedInOrder(log + [w])
    ensures var all, activity := log + [w], NextActivity(t, w);
            && (key in activity <==> Newest(all, key).Some? && !Expired(Newest(all, key).value, w.receivedAt))
            && (key in activity ==> activity[key] == ShownBy(Newest(all, key).value)[key])
  {
    NewestOfMore(log, w, key);
    if key in ShownBy(w) {
      ActivityShown(t, w, key);
    } else if log != [] && Newest(log, key).Some? {
      NewestBefore(log, w, key);
      ShownEntryKept(Newest(log, key).value, key, w.receivedAt);
    }
  }

  lemma NewestBefore(log: seq<Wrapper>, w: Wrapper, key: Word)
    requires GoodWrapper(w) && forall i | 0 <= i < |log| :: GoodWrapper(log[i])
    requires ReceivedInOrder(log + [w]) && log != [] && Newest(log, key).Some?
    ensures Newest(log, key).value.receivedAt < w.receivedAt
  {
    var all := log + [w];
    assert forall i | 0 <= i < |log| :: all[i] == log[i];
    assert all[|log| - 1].receivedAt < all[|log|].receivedAt;
    NewestReceived(log, key);
  }

  lemma {:induction false} RunKeepsActivityExact(ds: seq<Delivery>)
    ensures PointerLog(Run(ds), Published(ds))
    ensures Published(ds) != [] ==> ActivityExact(Run(ds).current.value.lastActivity, Published(ds))
  {
    RunKeepsPointerLog(ds);
    if ds != [] {
      var before, r := ds[..|ds| - 1], Accepted(ds[|ds| - 1]);
      RunKeepsActivityExact(before);
      if r.Success? && Publishes(Run(before), r.value) {
        forall key
          ensures var activity := NextActivity(Run(before), r.value);
                  && (key in activity
                      <==> Newest(Published(ds), key).Some?
                           && !Expired(Newest(Published(ds), key).value, r.value.receivedAt))
                  && (key in activity ==> activity[key] == ShownBy(Newest(Published(ds), key).value)[key])
        {
          ActivityStep(Run(before), Published(before), r.value, key);
        }
      }
    }
  }

  /**
    After any run, a component's last activity is the newest published attempt
    that showed requests of it on evidence fresh at receipt, unless the current
    attempt came more than seven days after that sample. Idle, stale and failed
    attempts never refresh it, and re-validation never drops it.
   */
  lemma LastActivityIsNewestShown(ds: seq<Delivery>)
    requires Published(ds) != []
    ensures Run(ds).current.Some?
    ensures ActivityExact(Run(ds).current.value.lastActivity, Published(ds))
  {
    RunKeepsActivityExact(ds);
  }

  // ------------------------------------- activity and counters, told by components

  /** A snapshot with requests of the component and a source event of the three minutes before its receipt. */
  predicate Uses(w: Wrapper, key: Word)
    requires GoodWrapper(w)
  {
    w.snapshot.Some? && exists i | 0 <= i < |w.snapshot.value.components.value| :: UsesAt(w, key, i)
  }

  predicate UsesAt(w: Wrapper, key: Word, i: nat)
    requires HasSource(w) && i < |w.snapshot.value.components.value|
  {
    var p, c := w.snapshot.value, w.snapshot.value.components.value[i];
    assert ValidComponent(c, SnapshotSchema(p));
    && c.key == Text(key) && c.state == Text(Ok) && Count(c.requests) > 0
    && p.latestAt.Stamp? && w.receivedAt - p.latestAt.at <= 3 * 60 * 1_000_000
  }

  lemma ShowsWhatIsUsed(w: Wrapper, key: Word, i: nat)
    requires HasSource(w) && i < |w.snapshot.value.components.value|
    ensures var p, c := w.snapshot.value, w.snapshot.value.components.value[i];
            c.Component? && (c.key == Text(key) && ShowsActivity(p, c, w.receivedAt) <==> UsesAt(w, key, i))
  {
    var p, c := w.snapshot.value, w.snapshot.value.components.value[i];
    assert ValidComponent(c, SnapshotSchema(p));
  }

  lemma {:induction false} ShowingIsShown(p: Payload, items: seq<Component>, receivedAt: int, i: nat)
    requires ValidSnapshot(p)
    requires forall k | 0 <= k < |items| :: ValidComponent(items[k], SnapshotSchema(p)) && items[k].Component?
    requires i < |items| && ShowsActivity(p, items[i], receivedAt)
    requires forall k | i < k < |items| :: items[i].key != items[k].key
    ensures var shown := Shown(p, items, receivedAt);
            items[i].key.word in shown && shown[items[i].key.word] == Entry(p.sampledAt, p.latestAt, items[i])
  {
    var last := |items| - 1;
    assert ValidComponent(items[last], SnapshotSchema(p));
    if i < last {
      assert items[i].key != items[last].key;
      ShowingIsShown(p, items[..last], receivedAt, i);
    }
  }

  /** A published attempt refreshes the activity of a component exactly when it uses it. */
  lemma ShownExactly(w: Wrapper, key: Word)
    requires GoodWrapper(w)
    ensures key in ShownBy(w) <==> Uses(w, key)
    ensures forall i | w.snapshot.Some? && 0 <= i < |w.snapshot.value.components.value| && UsesAt(w, key, i) ::
              ShownBy(w)[key] == Entry(w.snapshot.value.sampledAt, w.snapshot.value.latestAt,
                                       w.snapshot.value.components.value[i])
  {
    if w.snapshot.Some? {
      var p, items := w.snapshot.value, w.snapshot.value.components.value;
      if key in ShownBy(w) {
        ShownIsComponent(p, items, w.receivedAt, key);
        var i :| 0 <= i < |items| && items[i].key == Text(key) && ShowsActivity(p, items[i], w.receivedAt)
                 && Shown(p, items, w.receivedAt)[key] == Entry(p.sampledAt, p.latestAt, items[i]);
        ShowsWhatIsUsed(w, key, i);
      }
      forall i | 0 <= i < |items| && UsesAt(w, key, i)
        ensures key in ShownBy(w) && ShownBy(w)[key] == Entry(p.sampledAt, p.latestAt, items[i])
      {
        ShowsWhatIsUsed(w, key, i);
        ShowingIsShown(p, items, w.receivedAt, i);
      }
    }
  }

  /** The last published attempt that uses the component. */
  function LastUse(log: seq<Wrapper>, key: Word): (w: Option<Wrapper>)
    requires forall i | 0 <= i < |log| :: GoodWrapper(log[i])
    ensures w.Some? ==> GoodWrapper(w.value) && Uses(w.value, key)
  {
    if log == [] then None
    else if Uses(log[|log| - 1], key) then Some(log[|log| - 1])
    else LastUse(log[..|log| - 1], key)
  }

  lemma {:induction false} NewestIsLastUse(log: seq<Wrapper>, key: Word)
    requires forall i | 0 <= i < |log| :: GoodWrapper(log[i])
    ensures Newest(log, key) == LastUse(log, key)
  {
    if log != [] {
      ShownExactly(log[|log| - 1], key);
      NewestIsLastUse(log[..|log| - 1], key);
    }
  }

  /**
    Last activity by components and times alone: after any run a component has an entry exactly when the last
    published attempt that uses it was taken at most seven days before the current one was received, and the entry is
    the component as that attempt has it.
   */
  lemma LastActivityExactly(ds: seq<Delivery>, key: Word)
    requires Published(ds) != []
    ensures Run(ds).current.Some? && Run(ds).current.value.lastActivity.Activities?
    ensures var log, entries := Published(ds), Run(ds).current.value.lastActivity.entries;
            var use := LastUse(log, key);
            && (key in entries
                <==> use.Some?
                     && log[|log| - 1].receivedAt - SourceAt(use.value) <= 7 * 24 * 3600 * 1_000_000)
            && forall i | key in entries && 0 <= i < |use.value.snapshot.value.components.value|
                          && UsesAt(use.value, key, i) :: EntryShows(entries[key], use.value.snapshot.value, i)
  {
    RunKeepsActivityExact(ds);
    NewestIsLastUse(Published(ds), key);
    if LastUse(Published(ds), key).Some? {
      ShownExactly(LastUse(Published(ds), key).value, key);
    }
  }

  predicate EntryShows(e: Entry, p: Payload, i: nat)
    requires ValidSnapshot(p) && i < |p.components.value|
  {
    e == Entry(p.sampledAt, p.latestAt, p.components.value[i])
  }

  lemma {:induction false} GradedAsSampled(p: Payload, items: seq<Component>, now: int, i: nat)
    requires ValidSnapshot(p)
    requires forall k | 0 <= k < |items| :: ValidComponent(items[k], SnapshotSchema(p)) && items[k].Component?
    requires i < |items| && items[i].key.Text? && forall k | i < k < |items| :: items[i].key != items[k].key
    ensures items[i].key.word in Grade(p, items, now)
         && Grade(p, items, now)[items[i].key.word] == StateIn(p, items[i], now)
  {
    if i < |items| - 1 {
      GradedAsSampled(p, items[..|items| - 1], now, i);
    }
  }

  /** What a stored sample says of a component is its state at the time it was taken. */
  predicate Sampled(doc: StoredDoc, key: Word, states: set<RequestState>)
    requires HasSource(doc.wrapper)
  {
    var p := doc.wrapper.snapshot.value;
    exists i | 0 <= i < |p.components.value| ::
      && p.components.value[i].Component? && p.components.value[i].key == Text(key)
      && StateIn(p, p.components.value[i], p.sampledAt.at) in states
  }

  lemma SampledIsGraded(doc: StoredDoc, key: Word, states: set<RequestState>)
    requires HasSource(doc.wrapper)
    ensures Sampled(doc, key, states)
            <==> key in GradeOf(doc.wrapper) && GradeOf(doc.wrapper)[key] in states
  {
    var p, w := doc.wrapper.snapshot.value, doc.wrapper;
    var items := p.components.value;
    forall i | 0 <= i < |items|
      ensures items[i].Component? && items[i].key.Text?
      ensures items[i].key == Text(key) ==>
                key in GradeOf(w) && GradeOf(w)[key] == StateIn(p, items[i], p.sampledAt.at)
    {
      assert ValidComponent(items[i], SnapshotSchema(p));
      assert forall k | 0 <= k < |items| :: ValidComponent(items[k], SnapshotSchema(p)) ==> items[k].Component?;
      GradedAsSampled(p, items, p.sampledAt.at, i);
    }
    if forall i | 0 <= i < |items| :: items[i].key != Text(key) {
      OnlyListedAreGraded(p, items, p.sampledAt.at, key);
    }
  }

  /** The stored minutes of a UTC day whose sample says one of these states of the component. */
  function MinutesThatSay(sources: map<int, StoredDoc>, day: int, key: Word, states: set<RequestState>): set<int>
    requires forall m | m in sources :: HasSource(sources[m].wrapper)
  {
    set m | m in sources && m / (24 * 60) == day && Sampled(sources[m], key, states)
  }

  lemma MinutesAreThose(sources: map<int, StoredDoc>, day: int, key: Word, states: set<RequestState>)
    requires forall m | m in sources :: HasSource(sources[m].wrapper)
    ensures MinutesThatSay(sources, day, key, states) == Minutes(GradesOf(sources), day, key, states)
  {
    forall m | m in sources
      ensures Sampled(sources[m], key, states)
              <==> key in GradesOf(sources)[m] && GradesOf(sources)[m][key] in states
    {
      SampledIsGraded(sources[m], key, states);
    }
  }

  /** The six counters of a day and component. */
  function CountersOf(sources: map<int, StoredDoc>, day: int, key: Word): Counters
    requires forall m | m in sources :: HasSource(sources[m].wrapper)
  {
    var measured, other := |MinutesThatSay(sources, day, key, {Normal, ElevatedErrors, HighLatency})|,
                           |MinutesThatSay(sources, day, key, {NoTraffic, Stale, MonitorUnavailable})|;
    Counters(measured + other, measured, |MinutesThatSay(sources, day, key, {Normal})|,
             |MinutesThatSay(sources, day, key, {ElevatedErrors})|, |MinutesThatSay(sources, day, key, {HighLatency})|,
             other)
  }

  lemma TallyCounts(sources: map<int, StoredDoc>, day: int, key: Word)
    requires forall m | m in sources :: HasSource(sources[m].wrapper)
    ensures Tally(GradesOf(sources), day, key) == CountersOf(sources, day, key)
  {
    MinutesAreThose(sources, day, key, {Normal});
    MinutesAreThose(sources, day, key, {ElevatedErrors});
    MinutesAreThose(sources, day, key, {HighLatency});
    MinutesAreThose(sources, day, key, {Normal, ElevatedErrors, HighLatency});
    MinutesAreThose(sources, day, key, {NoTraffic, Stale, MonitorUnavailable});
    assert {NoTraffic, Stale, MonitorUnavailable} == UNMEASURED;
    CountersPartition(GradesOf(sources), day, key);
  }

  /**
    The day documents by stored samples alone, after any run: one for each UTC day that has one, kept for ninety days,
    each counter of it the number of minutes whose sample says that of the component.
   */
  lemma CountersExactly(ds: seq<Delivery>, days: map<int, DayDoc>, day: int, key: Word)
    requires DaysAfter(ds, days)
    ensures HasDay(Run(ds).sources, day) <==> day in days
    ensures day in days ==>
              && days[day].expiresAt == (day + 90) * 24 * 3600 * 1_000_000
              && CountsOf(days[day].components, key) == CountersOf(Run(ds).sources, day, key)
  {
    DaysOfMinutes(days, Run(ds).sources, day);
    if day in days {
      DayCounts(days, Run(ds).sources, day, key);
    }
  }

  /** Some stored minute lies on the UTC day. */
  predicate HasDay(sources: map<int, StoredDoc>, day: int) {
    exists m | m in sources :: m / (24 * 60) == day
  }

  lemma DaysOfMinutes(days: map<int, DayDoc>, sources: map<int, StoredDoc>, day: int)
    requires forall m | m in sources :: HasSource(sources[m].wrapper)
    requires DaysIndex(days, GradesOf(sources))
    ensures HasDay(sources, day) <==> day in days
  {
    forall m | m in sources
      ensures m in GradesOf(sources) && DayOf(m) == m / (24 * 60)
    {
    }
    if day in days {
      var m :| m in GradesOf(sources) && DayOf(m) == day;
      assert m in sources && m / (24 * 60) == day;
    }
  }

  lemma DayCounts(days: map<int, DayDoc>, sources: map<int, StoredDoc>, day: int, key: Word)
    requires forall m | m in sources :: HasSource(sources[m].wrapper)
    requires DaysIndex(days, GradesOf(sources)) && day in days
    ensures days[day].expiresAt == (day + 90) * 24 * 3600 * 1_000_000
    ensures CountsOf(days[day].components, key) == CountersOf(sources, day, key)
  {
    IndexedDay(days, GradesOf(sources), day, key);
    TallyCounts(sources, day, key);
  }

  lemma IndexedDay(days: map<int, DayDoc>, grades: map<int, map<Word, RequestState>>, day: int, key: Word)
    requires DaysIndex(days, grades) && day in days
    ensures days[day].expiresAt == (day + 90) * 24 * 3600 * 1_000_000
    ensures CountsOf(days[day].components, key) == Tally(grades, day, key)
  {
  }
}
