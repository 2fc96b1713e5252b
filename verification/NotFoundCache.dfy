/**
  Models the rate-limited logging of unknown paths in wsgi.py: the pruning of
  the cache and the part of the 404 handler that reads and changes it. A Python
  dictionary is a sequence in insertion order. Times are in microseconds.
*/
module NotFoundCache {
  import opened Basics

  type Path = string

  datatype Hit = Hit(path: Path, at: int)

  datatype State = State(cache: seq<Hit>, lastPruned: Option<int>)

  const CAP := 10_000
  const TRIM_TARGET := CAP * 9 / 10
  const KEEP_FOR := 3600 * SECOND
  const PRUNE_INTERVAL := 60 * SECOND

  // -------------------------------------------------------------------- pruning

  function StillFresh(cache: seq<Hit>, now: int): (kept: seq<Hit>)
    ensures |kept| <= |cache|
  {
    if cache == [] then []
    else
      var kept, last := StillFresh(cache[..|cache| - 1], now), cache[|cache| - 1];
      if now - last.at < KEEP_FOR then kept + [last] else kept
  }

  /** Inserts after everything that is no later, as a stable sort does. */
  function Insert(sorted: seq<Hit>, h: Hit): (r: seq<Hit>)
    ensures |r| == |sorted| + 1
  {
    if sorted == [] || sorted[|sorted| - 1].at <= h.at then sorted + [h]
    else Insert(sorted[..|sorted| - 1], h) + [sorted[|sorted| - 1]]
  }

  function OldestFirst(cache: seq<Hit>): (r: seq<Hit>)
    ensures |r| == |cache|
  {
    if cache == [] then [] else Insert(OldestFirst(cache[..|cache| - 1]), cache[|cache| - 1])
  }

  function Newest(oldestFirst: seq<Hit>, n: nat): (r: seq<Hit>)
    requires n <= |oldestFirst|
    ensures |r| == n
  {
    oldestFirst[|oldestFirst| - n..]
  }

  lemma NewestKeepsShape(oldestFirst: seq<Hit>, n: nat)
    requires 0 < n <= |oldestFirst|
    ensures Newest(oldestFirst, n)[n - 1] == oldestFirst[|oldestFirst| - 1]
    ensures InTimeOrder(oldestFirst) ==> InTimeOrder(Newest(oldestFirst, n))
    ensures OnePerPath(oldestFirst) ==> OnePerPath(Newest(oldestFirst, n))
  {
  }

  predicate Trims(cache: seq<Hit>, now: int) { |StillFresh(cache, now)| > CAP }

  function Pruned(cache: seq<Hit>, now: int): seq<Hit> {
    var kept := StillFresh(cache, now);
    if |kept| > CAP then Newest(OldestFirst(kept), TRIM_TARGET) else kept
  }

  predicate InTimeOrder(cache: seq<Hit>) {
    forall i, j | 0 <= i < j < |cache| :: cache[i].at <= cache[j].at
  }

  predicate OnePerPath(cache: seq<Hit>) {
    forall i, j | 0 <= i < j < |cache| :: cache[i].path != cache[j].path
  }

  predicate Holds(cache: seq<Hit>, path: Path) {
    exists i | 0 <= i < |cache| :: cache[i].path == path
  }

  lemma {:induction false} FreshExactly(cache: seq<Hit>, now: int, h: Hit)
    ensures h in StillFresh(cache, now) <==> h in cache && now - h.at < KEEP_FOR
  {
    if cache != [] {
      var init, last := cache[..|cache| - 1], cache[|cache| - 1];
      FreshExactly(init, now, h);
      assert cache == init + [last];
    }
  }

  lemma FreshIsPart(cache: seq<Hit>, now: int, i: nat)
    requires i < |StillFresh(cache, now)|
    ensures StillFresh(cache, now)[i] in cache
  {
    FreshExactly(cache, now, StillFresh(cache, now)[i]);
  }

  lemma {:induction false} FreshKeepsOrder(cache: seq<Hit>, now: int)
    requires InTimeOrder(cache)
    ensures InTimeOrder(StillFresh(cache, now))
  {
    if cache != [] {
      var init, last := cache[..|cache| - 1], cache[|cache| - 1];
      var kept := StillFresh(init, now);
      FreshKeepsOrder(init, now);
      forall i | 0 <= i < |kept|
        ensures kept[i].at <= last.at
      {
        FreshIsPart(init, now, i);
        var x :| 0 <= x < |init| && init[x] == kept[i];
      }
    }
  }

  lemma {:induction false} FreshKeepsPathsApart(cache: seq<Hit>, now: int)
    requires OnePerPath(cache)
    ensures OnePerPath(StillFresh(cache, now))
  {
    if cache != [] {
      var init, last := cache[..|cache| - 1], cache[|cache| - 1];
      var kept := StillFresh(init, now);
      FreshKeepsPathsApart(init, now);
      forall i | 0 <= i < |kept|
        ensures kept[i].path != last.path
      {
        FreshIsPart(init, now, i);
        var x :| 0 <= x < |init| && init[x] == kept[i];
      }
    }
  }

  lemma {:induction false} InsertAddsOne(sorted: seq<Hit>, h: Hit, x: Hit)
    requires x in Insert(sorted, h)
    ensures x == h || x in sorted
  {
    if sorted != [] && sorted[|sorted| - 1].at > h.at && x != sorted[|sorted| - 1] {
      InsertAddsOne(sorted[..|sorted| - 1], h, x);
    }
  }

  lemma AppendInOrder(sorted: seq<Hit>, h: Hit)
    requires InTimeOrder(sorted) && forall x | x in sorted :: x.at <= h.at
    ensures InTimeOrder(sorted + [h])
  {
  }

  lemma LastIsLatest(sorted: seq<Hit>, h: Hit)
    requires InTimeOrder(sorted) && sorted != [] && h in sorted
    ensures h.at <= sorted[|sorted| - 1].at
  {
    var i :| 0 <= i < |sorted| && sorted[i] == h;
  }

  lemma {:induction false} InsertKeepsOrder(sorted: seq<Hit>, h: Hit)
    requires InTimeOrder(sorted)
    ensures InTimeOrder(Insert(sorted, h))
  {
    if sorted != [] {
      var init, last := sorted[..|sorted| - 1], sorted[|sorted| - 1];
      if last.at <= h.at {
        forall x | x in sorted
          ensures x.at <= h.at
        {
          LastIsLatest(sorted, x);
        }
        AppendInOrder(sorted, h);
      } else {
        InsertKeepsOrder(init, h);
        forall x | x in Insert(init, h)
          ensures x.at <= last.at
        {
          InsertAddsOne(init, h, x);
          if x in init {
            LastIsLatest(sorted, x);
          }
        }
        AppendInOrder(Insert(init, h), last);
      }
    }
  }

  lemma {:induction false} InsertKeepsAll(sorted: seq<Hit>, h: Hit)
    ensures multiset(Insert(sorted, h)) == multiset(sorted) + multiset{h}
  {
    if sorted != [] && sorted[|sorted| - 1].at > h.at {
      var init, last := sorted[..|sorted| - 1], sorted[|sorted| - 1];
      InsertKeepsAll(init, h);
      assert sorted == init + [last];
    }
  }

  lemma {:induction false} SortSorts(cache: seq<Hit>)
    ensures InTimeOrder(OldestFirst(cache))
    ensures multiset(OldestFirst(cache)) == multiset(cache)
  {
    if cache != [] {
      var init, last := cache[..|cache| - 1], cache[|cache| - 1];
      SortSorts(init);
      InsertKeepsOrder(OldestFirst(init), last);
      InsertKeepsAll(OldestFirst(init), last);
      assert cache == init + [last];
    }
  }

  /** Entries that are already in time order keep their order, so ties stay in order of insertion. */
  lemma {:induction false} SortKeepsOrder(cache: seq<Hit>)
    requires InTimeOrder(cache)
    ensures OldestFirst(cache) == cache
  {
    if cache != [] {
      SortKeepsOrder(cache[..|cache| - 1]);
    }
  }

  lemma PrunedAreFresh(cache: seq<Hit>, now: int, h: Hit)
    requires h in Pruned(cache, now)
    ensures h in cache && now - h.at < KEEP_FOR
  {
    var kept := StillFresh(cache, now);
    SortSorts(kept);
    assert h in multiset(OldestFirst(kept)) || h in kept;
    FreshExactly(cache, now, h);
  }

  lemma InSuffix(s: seq<Hit>, cut: nat, i: nat)
    requires cut <= |s| && i < |s|
    ensures i >= cut ==> s[i] in s[cut..]
  {
    if i >= cut {
      assert s[cut..][i - cut] == s[i];
    }
  }

  lemma SuffixIsNewest(sorted: seq<Hit>, cut: nat, gone: Hit, kept: Hit)
    requires InTimeOrder(sorted) && cut <= |sorted|
    requires gone in sorted && gone !in sorted[cut..] && kept in sorted[cut..]
    ensures gone.at <= kept.at
  {
    var i :| 0 <= i < |sorted| && sorted[i] == gone;
    var j :| 0 <= j < |sorted[cut..]| && sorted[cut..][j] == kept;
    InSuffix(sorted, cut, i);
  }

  /** What an hour has not ruled out is dropped only by a trim, which gives up nothing newer than what it keeps. */
  lemma TrimKeepsNewest(cache: seq<Hit>, now: int, gone: Hit)
    requires gone in StillFresh(cache, now) && gone !in Pruned(cache, now)
    ensures |StillFresh(cache, now)| > 10_000 && |Pruned(cache, now)| == 9_000
    ensures forall kept | kept in Pruned(cache, now) :: gone.at <= kept.at
  {
    var young := StillFresh(cache, now);
    var sorted := OldestFirst(young);
    SortSorts(young);
    assert gone in multiset(sorted);
    forall kept | kept in Pruned(cache, now)
      ensures gone.at <= kept.at
    {
      SuffixIsNewest(sorted, |young| - TRIM_TARGET, gone, kept);
    }
  }

  /** In a cache filled by a clock that never went back, a trim keeps the most recent insertions. */
  lemma SortKeepsOrderOfFresh(cache: seq<Hit>, now: int)
    requires InTimeOrder(cache)
    ensures Pruned(cache, now)
         == (var kept := StillFresh(cache, now); if |kept| > CAP then Newest(kept, TRIM_TARGET) else kept)
  {
    FreshKeepsOrder(cache, now);
    SortKeepsOrder(StillFresh(cache, now));
  }

  lemma PruneInOrder(cache: seq<Hit>, now: int)
    requires InTimeOrder(cache) && OnePerPath(cache)
    ensures InTimeOrder(Pruned(cache, now)) && OnePerPath(Pruned(cache, now)) && |Pruned(cache, now)| <= CAP
  {
    SortKeepsOrderOfFresh(cache, now);
    FreshKeepsOrder(cache, now);
    FreshKeepsPathsApart(cache, now);
    var kept := StillFresh(cache, now);
    if |kept| > CAP {
      NewestKeepsShape(kept, TRIM_TARGET);
    }
  }

  // ----------------------------------------------------------------- one request

  predicate ShouldPrune(s: State, now: int) {
    s.lastPruned.None? || now - s.lastPruned.value >= PRUNE_INTERVAL || |s.cache| > CAP
  }

  function BeforeLookup(s: State, now: int): State {
    if ShouldPrune(s, now) then State(Pruned(s.cache, now), Some(now)) else s
  }

  predicate Logs(s: State, path: Path, now: int) {
    !Holds(BeforeLookup(s, now).cache, path)
  }

  function AfterInsert(s: State, path: Path, now: int): State {
    var cache := s.cache + [Hit(path, now)];
    if |cache| > CAP then State(Pruned(cache, now), Some(now)) else s.(cache := cache)
  }

  function Step(s: State, path: Path, now: int): State {
    var s1 := BeforeLookup(s, now);
    if Logs(s, path, now) then AfterInsert(s1, path, now) else s1
  }

  const EMPTY := State([], None)

  /** What every run with a clock that never goes back keeps. */
  ghost predicate Sound(s: State, now: int) {
    && |s.cache| <= CAP
    && InTimeOrder(s.cache)
    && OnePerPath(s.cache)
    && (s.lastPruned.None? ==> s.cache == [])
    && (s.lastPruned.Some? ==> s.lastPruned.value <= now)
    && forall h | h in s.cache :: h.at <= now && s.lastPruned.value - h.at < KEEP_FOR
  }

  lemma PruneStaysSound(cache: seq<Hit>, now: int)
    requires InTimeOrder(cache) && OnePerPath(cache) && forall h | h in cache :: h.at <= now
    ensures Sound(State(Pruned(cache, now), Some(now)), now)
  {
    PruneInOrder(cache, now);
    forall h | h in Pruned(cache, now)
      ensures h.at <= now && now - h.at < KEEP_FOR
    {
      PrunedAreFresh(cache, now, h);
    }
  }

  lemma PrunedKeepsLast(cache: seq<Hit>, now: int)
    requires InTimeOrder(cache) && cache != [] && cache[|cache| - 1].at == now
    ensures var r := Pruned(cache, now); r != [] && r[|r| - 1] == cache[|cache| - 1]
  {
    SortKeepsOrderOfFresh(cache, now);
    var kept := StillFresh(cache, now);
    assert kept[|kept| - 1] == cache[|cache| - 1];
    if |kept| > CAP {
      NewestKeepsShape(kept, TRIM_TARGET);
    }
  }

  lemma InsertStaysSound(s: State, path: Path, now: int)
    requires Sound(s, now) && s.lastPruned.Some? && !Holds(s.cache, path)
    ensures Sound(AfterInsert(s, path, now), now)
    ensures var after := AfterInsert(s, path, now).cache; after != [] && after[|after| - 1] == Hit(path, now)
  {
    var cache := s.cache + [Hit(path, now)];
    assert InTimeOrder(cache) && OnePerPath(cache);
    if |cache| > CAP {
      PruneStaysSound(cache, now);
      PrunedKeepsLast(cache, now);
    } else {
      AppendStaysSound(s, path, now);
    }
  }

  lemma AppendStaysSound(s: State, path: Path, now: int)
    requires Sound(s, now) && s.lastPruned.Some? && !Holds(s.cache, path) && |s.cache| < CAP
    ensures Sound(s.(cache := s.cache + [Hit(path, now)]), now)
  {
    var cache := s.cache + [Hit(path, now)];
    assert forall h | h in cache :: h in s.cache || h == Hit(path, now);
  }

  /** One request keeps the cache sound, within its cap, and holding the path that was asked for. */
  lemma StepStaysSound(s: State, path: Path, now: int)
    requires Sound(s, now)
    ensures Sound(Step(s, path, now), now)
    ensures Holds(Step(s, path, now).cache, path)
  {
    BeforeLookupIsSound(s, now);
    if Logs(s, path, now) {
      InsertStaysSound(BeforeLookup(s, now), path, now);
    }
  }

  /** The application object's two cache attributes. */
  class NotFoundHandler {
    var cache: seq<Hit>
    var lastPruned: Option<int>

    function View(): State
      reads this
    {
      State(cache, lastPruned)
    }

    constructor ()
      ensures View() == EMPTY && Sound(View(), 0)
    {
      cache := [];
      lastPruned := None;
    }

    method Prune(now: int)
      modifies this
      ensures cache == Pruned(old(cache), now) && lastPruned == Some(now)
    {
      cache := Pruned(cache, now);
      lastPruned := Some(now);
    }

    method NotFoundError(path: Path, now: int) returns (logged: bool)
      requires Sound(View(), now)
      modifies this
      ensures Sound(View(), now) && Holds(cache, path)
      ensures logged <==> Logs(old(View()), path, now)
      ensures View() == Step(old(View()), path, now)
    {
      StepStaysSound(View(), path, now);
      if lastPruned.None? || now - lastPruned.value >= PRUNE_INTERVAL || |cache| > CAP {
        Prune(now);
      }
      logged := !(exists i | 0 <= i < |cache| :: cache[i].path == path);
      if logged {
        cache := cache + [Hit(path, now)];
        if |cache| > CAP {
          Prune(now);
        }
      }
    }
  }

  // ------------------------------------------------------------------ whole runs

  datatype Request = Request(path: Path, at: int)

  predicate ClockNeverGoesBack(rs: seq<Request>) {
    forall i, j | 0 <= i < j < |rs| :: rs[i].at <= rs[j].at
  }

  function After(rs: seq<Request>, n: nat): State
    requires n <= |rs|
  {
    if n == 0 then EMPTY else Step(After(rs, n - 1), rs[n - 1].path, rs[n - 1].at)
  }

  predicate Logged(rs: seq<Request>, i: nat)
    requires i < |rs|
  {
    Logs(After(rs, i), rs[i].path, rs[i].at)
  }

  /** Request i is the last of the first n requests that logged the path. */
  ghost predicate LastLog(rs: seq<Request>, i: nat, n: nat, path: Path)
    requires n <= |rs|
  {
    && i < n && rs[i].path == path && Logged(rs, i)
    && forall k | i < k < n && rs[k].path == path :: !Logged(rs, k)
  }

  /** Logging one path made the cache exceed its cap, and the trim that followed dropped another. */
  ghost predicate Evicts(s: State, path: Path, now: int, victim: Path) {
    var before := BeforeLookup(s, now).cache;
    && Logs(s, path, now) && path != victim
    && Trims(before + [Hit(path, now)], now)
    && Holds(before, victim) && !Holds(Step(s, path, now).cache, victim)
  }

  ghost predicate EvictedBySize(rs: seq<Request>, k: nat, path: Path)
    requires k < |rs|
  {
    Evicts(After(rs, k), rs[k].path, rs[k].at, path)
  }

  lemma {:induction false} RunStaysSound(rs: seq<Request>, n: nat, now: int)
    requires ClockNeverGoesBack(rs) && n <= |rs| && (n > 0 ==> rs[n - 1].at <= now)
    ensures Sound(After(rs, n), now)
  {
    if n > 0 {
      RunStaysSound(rs, n - 1, rs[n - 1].at);
      StepStaysSound(After(rs, n - 1), rs[n - 1].path, rs[n - 1].at);
    }
  }

  /** After every 404 the cache is within its cap and holds the requested path. */
  lemma BoundedAndPresent(rs: seq<Request>, i: nat)
    requires ClockNeverGoesBack(rs) && i < |rs|
    ensures |After(rs, i + 1).cache| <= 10_000 && Holds(After(rs, i + 1).cache, rs[i].path)
  {
    RunStaysSound(rs, i, rs[i].at);
    StepStaysSound(After(rs, i), rs[i].path, rs[i].at);
  }

  lemma MemberHolds(cache: seq<Hit>, h: Hit)
    ensures h in cache ==> Holds(cache, h.path)
  {
  }

  lemma BeforeLookupOnlyDrops(s: State, now: int, h: Hit)
    requires h in BeforeLookup(s, now).cache
    ensures h in s.cache && (ShouldPrune(s, now) ==> now - h.at < KEEP_FOR)
  {
    if ShouldPrune(s, now) {
      PrunedAreFresh(s.cache, now, h);
    }
  }

  lemma StepOnlyAdds(s: State, path: Path, now: int, h: Hit)
    requires h in Step(s, path, now).cache
    ensures h in BeforeLookup(s, now).cache || (Logs(s, path, now) && h == Hit(path, now))
    ensures h in s.cache || (Logs(s, path, now) && h == Hit(path, now))
  {
    var s1 := BeforeLookup(s, now);
    var grown := s1.cache + [Hit(path, now)];
    if Logs(s, path, now) && |grown| > CAP {
      PrunedAreFresh(grown, now, h);
    }
    if h in s1.cache {
      BeforeLookupOnlyDrops(s, now, h);
    }
  }

  predicate HeldAfter(rs: seq<Request>, n: nat, h: Hit)
    requires n <= |rs|
  {
    h in After(rs, n).cache
  }

  lemma RunOnlyAdds(rs: seq<Request>, n: nat, h: Hit)
    requires n < |rs| && HeldAfter(rs, n + 1, h)
    ensures if Logged(rs, n) && h.path == rs[n].path then h.at == rs[n].at else HeldAfter(rs, n, h)
  {
    StepOnlyAdds(After(rs, n), rs[n].path, rs[n].at, h);
    if Logged(rs, n) && h.path == rs[n].path {
      LoggedPathIsNew(After(rs, n), rs[n].path, rs[n].at, h);
    }
  }

  /** What is refreshed whenever something is logged, and else only carried over, has the time of the last log. */
  lemma {:induction false} TimedByLast(held: nat -> bool, logs: nat -> bool, at: nat -> int, i: nat, n: nat, time: int)
    requires i < n && held(n) && logs(i) && forall k | i < k < n :: !logs(k)
    requires forall k | i <= k < n && held(k + 1) :: if logs(k) then time == at(k) else held(k)
    ensures time == at(i)
    decreases n
  {
    if i < n - 1 {
      assert held(n - 1 + 1);
      TimedByLast(held, logs, at, i, n - 1, time);
    } else {
      assert held(i + 1);
    }
  }

  /** The time held for a path is the time of its last log. */
  lemma EntryTimesLastLog(rs: seq<Request>, n: nat, h: Hit, i: nat)
    requires n <= |rs| && HeldAfter(rs, n, h) && LastLog(rs, i, n, h.path)
    ensures h.at == rs[i].at
  {
    var held := (k: nat) => k <= |rs| && HeldAfter(rs, k, h);
    var logs := (k: nat) => k < |rs| && rs[k].path == h.path && Logged(rs, k);
    var at := (k: nat) => if k < |rs| then rs[k].at else 0;
    forall k | i <= k < n && held(k + 1)
      ensures if logs(k) then h.at == at(k) else held(k)
    {
      RunOnlyAdds(rs, k, h);
    }
    TimedByLast(held, logs, at, i, n, h.at);
  }

  lemma LoggedPathIsNew(s: State, path: Path, now: int, h: Hit)
    requires Logs(s, path, now) && h in Step(s, path, now).cache && h.path == path
    ensures h == Hit(path, now)
  {
    StepOnlyAdds(s, path, now, h);
    MemberHolds(BeforeLookup(s, now).cache, h);
  }

  /** A request 3,660 seconds less one microsecond, or more, after the last log of its path is logged again. */
  lemma LoggedAgainInTime(rs: seq<Request>, i: nat, j: nat)
    requires ClockNeverGoesBack(rs) && j < |rs| && LastLog(rs, i, j, rs[j].path)
    requires rs[j].at - rs[i].at >= 3660 * 1_000_000 - 1
    ensures Logged(rs, j)
  {
    var s, now := After(rs, j), rs[j].at;
    RunStaysSound(rs, j, now);
    if !Logged(rs, j) {
      var found := BeforeLookup(s, now).cache;
      var x :| 0 <= x < |found| && found[x].path == rs[j].path;
      var h := found[x];
      BeforeLookupOnlyDrops(s, now, h);
      EntryTimesLastLog(rs, j, h, i);
    }
  }

  /** Another path is logged just before the first entry is an hour old, and the prune keeps that entry. */
  lemma AnHourLessOne(p: Path, q: Path)
    requires p != q
    ensures Step(EMPTY, p, 0) == State([Hit(p, 0)], Some(0)) && Logs(EMPTY, p, 0)
    ensures Step(State([Hit(p, 0)], Some(0)), q, KEEP_FOR - 1)
         == State([Hit(p, 0), Hit(q, KEEP_FOR - 1)], Some(KEEP_FOR - 1))
  {
    var one := [Hit(p, 0)];
    assert one[..0] == [] && StillFresh(one, KEEP_FOR - 1) == one;
    assert one + [Hit(q, KEEP_FOR - 1)] == [Hit(p, 0), Hit(q, KEEP_FOR - 1)];
  }

  /** No prune is due for another minute. */
  lemma AMinuteLessOne(p: Path, q: Path)
    ensures !Logs(State([Hit(p, 0), Hit(q, KEEP_FOR - 1)], Some(KEEP_FOR - 1)), p, KEEP_FOR + PRUNE_INTERVAL - 2)
  {
    var s := State([Hit(p, 0), Hit(q, KEEP_FOR - 1)], Some(KEEP_FOR - 1));
    assert BeforeLookup(s, KEEP_FOR + PRUNE_INTERVAL - 2) == s && s.cache[0].path == p;
  }

  /** The bound is exact: one microsecond less and the path may still be unlogged. */
  lemma BoundIsSharp(p: Path, q: Path)
    requires p != q
    ensures var rs := [Request(p, 0), Request(q, 3_599_999_999), Request(p, 3_659_999_998)];
            Logged(rs, 0) && LastLog(rs, 0, 2, p) && !Logged(rs, 2)
  {
    var rs := [Request(p, 0), Request(q, KEEP_FOR - 1), Request(p, KEEP_FOR + PRUNE_INTERVAL - 2)];
    AnHourLessOne(p, q);
    AMinuteLessOne(p, q);
    assert After(rs, 0) == EMPTY && After(rs, 1) == State([Hit(p, 0)], Some(0));
    assert After(rs, 2) == State([Hit(p, 0), Hit(q, KEEP_FOR - 1)], Some(KEEP_FOR - 1));
  }

  lemma YoungSurvivesLookup(s: State, now: int, h: Hit)
    requires Sound(s, now) && h in s.cache && now - h.at < KEEP_FOR
    ensures h in BeforeLookup(s, now).cache
  {
    FreshExactly(s.cache, now, h);
  }

  lemma LostMeansTrimmed(s: State, path: Path, now: int, h: Hit)
    requires Logs(s, path, now) && h in BeforeLookup(s, now).cache && now - h.at < KEEP_FOR
    requires h !in Step(s, path, now).cache
    ensures Trims(BeforeLookup(s, now).cache + [Hit(path, now)], now)
  {
    var found := BeforeLookup(s, now).cache;
    var x :| 0 <= x < |found| && found[x] == h;
    assert (found + [Hit(path, now)])[x] == h;
    FreshExactly(found + [Hit(path, now)], now, h);
  }

  lemma LostMeansPathGone(s: State, path: Path, now: int, h: Hit)
    requires Sound(s, now) && Logs(s, path, now) && h in BeforeLookup(s, now).cache && h !in Step(s, path, now).cache
    ensures !Holds(Step(s, path, now).cache, h.path)
  {
    var after := Step(s, path, now).cache;
    forall y | 0 <= y < |after|
      ensures after[y].path != h.path
    {
      if after[y].path == h.path {
        SamePathSameEntry(s, path, now, h, after[y]);
      }
    }
  }

  /** An entry younger than an hour leaves the cache only through a trim that another path caused. */
  lemma StepKeepsYoung(s: State, path: Path, now: int, h: Hit)
    requires Sound(s, now) && h in s.cache && now - h.at < KEEP_FOR
    ensures h in Step(s, path, now).cache || Evicts(s, path, now, h.path)
  {
    YoungSurvivesLookup(s, now, h);
    MemberHolds(BeforeLookup(s, now).cache, h);
    if Logs(s, path, now) && h !in Step(s, path, now).cache {
      LostMeansTrimmed(s, path, now, h);
      LostMeansPathGone(s, path, now, h);
    }
  }

  lemma SamePathSameEntry(s: State, path: Path, now: int, h: Hit, other: Hit)
    requires Sound(s, now) && Logs(s, path, now) && h in BeforeLookup(s, now).cache
    requires other in Step(s, path, now).cache && other.path == h.path
    ensures other == h
  {
    var found := BeforeLookup(s, now).cache;
    StepOnlyAdds(s, path, now, other);
    BeforeLookupIsSound(s, now);
    var x :| 0 <= x < |found| && found[x] == h;
    var z :| 0 <= z < |found| && found[z] == other;
  }

  lemma BeforeLookupIsSound(s: State, now: int)
    requires Sound(s, now)
    ensures Sound(BeforeLookup(s, now), now)
  {
    if ShouldPrune(s, now) {
      PruneStaysSound(s.cache, now);
    }
  }

  lemma RunKeepsYoung(rs: seq<Request>, n: nat, h: Hit)
    requires ClockNeverGoesBack(rs) && n < |rs| && HeldAfter(rs, n, h) && rs[n].at - h.at < KEEP_FOR
    ensures HeldAfter(rs, n + 1, h) || EvictedBySize(rs, n, h.path)
  {
    RunStaysSound(rs, n, rs[n].at);
    StepKeepsYoung(After(rs, n), rs[n].path, rs[n].at, h);
  }

  /** An entry younger than an hour that is held after one request and not after a later one was evicted by size. */
  lemma {:induction false} LossIsEviction(rs: seq<Request>, h: Hit, a: nat, n: nat)
    requires ClockNeverGoesBack(rs) && a <= n < |rs| && rs[n].at - h.at < KEEP_FOR
    requires HeldAfter(rs, a, h) && !HeldAfter(rs, n, h)
    ensures exists k | a <= k < n :: EvictedBySize(rs, k, h.path)
    decreases n - a
  {
    if HeldAfter(rs, a + 1, h) {
      LossIsEviction(rs, h, a + 1, n);
      var k :| a + 1 <= k < n && EvictedBySize(rs, k, h.path);
    } else {
      RunKeepsYoung(rs, a, h);
    }
  }

  lemma LoggedIsHeld(rs: seq<Request>, i: nat)
    requires ClockNeverGoesBack(rs) && i < |rs| && Logged(rs, i)
    ensures HeldAfter(rs, i + 1, Hit(rs[i].path, rs[i].at))
  {
    BoundedAndPresent(rs, i);
    var cache := After(rs, i + 1).cache;
    var x :| 0 <= x < |cache| && cache[x].path == rs[i].path;
    LoggedPathIsNew(After(rs, i), rs[i].path, rs[i].at, cache[x]);
  }

  lemma LoggedIsAbsent(rs: seq<Request>, j: nat, h: Hit)
    requires ClockNeverGoesBack(rs) && j < |rs| && Logged(rs, j)
    requires h.path == rs[j].path && rs[j].at - h.at < KEEP_FOR
    ensures !HeldAfter(rs, j, h)
  {
    RunStaysSound(rs, j, rs[j].at);
    MemberHolds(BeforeLookup(After(rs, j), rs[j].at).cache, h);
    FreshExactly(After(rs, j).cache, rs[j].at, h);
  }

  /** A path is logged twice within an hour only if a trim for size dropped it in between. */
  lemma LoggedTwiceMeansEvicted(rs: seq<Request>, i: nat, j: nat)
    requires ClockNeverGoesBack(rs) && i < j < |rs| && rs[i].path == rs[j].path
    requires Logged(rs, i) && Logged(rs, j) && rs[j].at - rs[i].at < 3600 * 1_000_000
    ensures exists k | i < k < j :: EvictedBySize(rs, k, rs[i].path)
  {
    var h := Hit(rs[i].path, rs[i].at);
    LoggedIsHeld(rs, i);
    LoggedIsAbsent(rs, j, h);
    LossIsEviction(rs, h, i + 1, j);
  }
}
