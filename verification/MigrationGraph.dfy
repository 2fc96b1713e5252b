/**
  Models analyze_migrations (scripts/analyze_migrations.py) from the parsed
  files on: heads, missing parents, orphans and the search for cycles.
*/
module MigrationGraph {
  import opened Basics

  /** down_revision as literal_eval leaves it; a list may hold None. */
  datatype Down = NoDown | One(revision: string) | Many(revisions: seq<Option<string>>)

  datatype Migration = Migration(file: string, revision: string, down: Down)

  datatype ParsedFile = Parsed(migration: Migration) | Corrupt(file: string)

  datatype Issue =
    | Corrupted(file: string)
    | MultipleHeads(count: nat) | NoHeads
    | MissingMigrations(count: nat) | MissingRevision(revision: string)
    | OrphanedMigrations(count: nat) | OrphanedRevision(revision: string)
    | CircularDependency(path: seq<string>)

  /** Parents of every known revision. */
  type Graph = map<string, seq<string>>

  function Named(revisions: seq<Option<string>>): (names: seq<string>)
    ensures forall r :: r in names <==> Some(r) in revisions
  {
    if revisions == [] then []
    else
      var rest := Named(revisions[1..]);
      if revisions[0].Some? then [revisions[0].value] + rest else rest
  }

  /** Every pass skips None and falsy parents, so only the named ones matter. */
  function Parents(down: Down): seq<string> {
    match down
    case NoDown => []
    case One(r) => if r == "" then [] else [r]
    case Many(rs) => Named(rs)
  }

  function Migrations(files: seq<ParsedFile>): seq<Migration> {
    if files == [] then []
    else
      var before, last := Migrations(files[..|files| - 1]), files[|files| - 1];
      if last.Parsed? then before + [last.migration] else before
  }

  /** A later file with the same revision id replaces an earlier one. */
  function GraphOf(ms: seq<Migration>): Graph
  {
    if ms == [] then map[]
    else
      var last := ms[|ms| - 1];
      GraphOf(ms[..|ms| - 1])[last.revision := Parents(last.down)]
  }

  function Referenced(ms: seq<Migration>): set<string> {
    set i, r | 0 <= i < |ms| && r in Parents(ms[i].down) :: r
  }

  function Heads(ms: seq<Migration>): set<string> { GraphOf(ms).Keys - Referenced(ms) }

  function Missing(ms: seq<Migration>): set<string> { Referenced(ms) - GraphOf(ms).Keys }

  predicate DistinctIds(ms: seq<Migration>) {
    forall i, j | 0 <= i < j < |ms| :: ms[i].revision != ms[j].revision
  }

  // ------------------------------------------------------- what the files declare

  /** The file declares r as a parent; None and an empty text declare nothing. */
  predicate Names(down: Down, r: string) {
    match down
    case NoDown => false
    case One(s) => s == r && s != ""
    case Many(rs) => Some(r) in rs
  }

  predicate Declared(ms: seq<Migration>, r: string) { exists i | 0 <= i < |ms| :: ms[i].revision == r }

  predicate NamedBySome(ms: seq<Migration>, r: string) { exists i | 0 <= i < |ms| :: Names(ms[i].down, r) }

  lemma ParentsExactly(down: Down, r: string)
    ensures r in Parents(down) <==> Names(down, r)
  {
  }

  lemma {:induction false} KeysExactly(ms: seq<Migration>, r: string)
    ensures r in GraphOf(ms) <==> Declared(ms, r)
  {
    if ms != [] {
      var n := |ms| - 1;
      KeysExactly(ms[..n], r);
      assert forall i | 0 <= i < n :: ms[..n][i] == ms[i];
    }
  }

  /** Heads are declared and named by none, missing revisions are named and declared by none. */
  lemma HeadsAndMissingExactly(ms: seq<Migration>, r: string)
    ensures r in Heads(ms) <==> Declared(ms, r) && !NamedBySome(ms, r)
    ensures r in Missing(ms) <==> NamedBySome(ms, r) && !Declared(ms, r)
  {
    KeysExactly(ms, r);
    forall i | 0 <= i < |ms|
      ensures r in Parents(ms[i].down) <==> Names(ms[i].down, r)
    {
      ParentsExactly(ms[i].down, r);
    }
  }

  /** Below a revision stands what its last file names, whatever earlier files of the same revision say. */
  lemma {:induction false} LastFileCounts(ms: seq<Migration>, i: nat, r: string)
    requires i < |ms| && forall j | i < j < |ms| :: ms[j].revision != ms[i].revision
    ensures ms[i].revision in GraphOf(ms)
    ensures r in GraphOf(ms)[ms[i].revision] <==> Names(ms[i].down, r)
  {
    var n := |ms| - 1;
    if i < n {
      LastFileCounts(ms[..n], i, r);
      assert ms[..n][i] == ms[i];
    } else {
      ParentsExactly(ms[i].down, r);
    }
  }

  /** Exactly the readable files become migrations, in their order. */
  lemma {:induction false} MigrationsExactly(files: seq<ParsedFile>, m: Migration)
    ensures m in Migrations(files) <==> Parsed(m) in files
    ensures (forall i | 0 <= i < |files| :: files[i].Parsed?) ==>
              |Migrations(files)| == |files|
              && forall i | 0 <= i < |files| :: Migrations(files)[i] == files[i].migration
  {
    if files != [] {
      var n := |files| - 1;
      MigrationsExactly(files[..n], m);
      assert files == files[..n] + [files[n]];
    }
  }

  // ----------------------------------------------------------------------- walks

  /** Each revision is known and the next one is a parent of it; the last need not be known. */
  predicate Walk(g: Graph, p: seq<string>) {
    && p != []
    && forall i | 0 <= i < |p| - 1 :: p[i] in g && p[i + 1] in g[p[i]]
  }

  predicate WalkFromTo(g: Graph, p: seq<string>, a: string, b: string) {
    Walk(g, p) && p[0] == a && p[|p| - 1] == b
  }

  ghost predicate Reaches(g: Graph, a: string, b: string) {
    exists p :: WalkFromTo(g, p, a, b)
  }

  predicate Distinct(p: seq<string>) {
    forall i, j | 0 <= i < j < |p| :: p[i] != p[j]
  }

  /** A walk that comes back to where it started; self-loops are the shortest ones. */
  predicate Cycle(g: Graph, p: seq<string>) {
    |p| >= 2 && WalkFromTo(g, p, p[0], p[0])
  }

  /** A cycle that visits at least two revisions. */
  predicate LongCycle(g: Graph, p: seq<string>) {
    Cycle(g, p) && exists i | 0 <= i < |p| :: p[i] != p[0]
  }

  /** A cycle through `start` that repeats nothing else and has at least two revisions. */
  predicate SimpleCycle(g: Graph, p: seq<string>, start: string) {
    |p| >= 3 && WalkFromTo(g, p, start, start) && Distinct(p[..|p| - 1])
  }

  lemma WalkExtends(g: Graph, p: seq<string>, r: string)
    requires Walk(g, p) && p[|p| - 1] in g && r in g[p[|p| - 1]]
    ensures WalkFromTo(g, p + [r], p[0], r)
  {
  }

  lemma WalkCut(g: Graph, p: seq<string>, i: nat, j: nat)
    requires Walk(g, p) && i < j < |p| && p[i] == p[j]
    ensures WalkFromTo(g, p[..i] + p[j..], p[0], p[|p| - 1])
  {
    var q := p[..i] + p[j..];
    forall k | 0 <= k < |q| - 1 ensures q[k] in g && q[k + 1] in g[q[k]] {
      if k < i - 1 {
        assert q[k] == p[k] && q[k + 1] == p[k + 1];
      } else if k == i - 1 {
        assert q[k] == p[k] && q[k + 1] == p[j] == p[k + 1];
      } else {
        assert q[k] == p[j + k - i] && q[k + 1] == p[j + k - i + 1];
      }
    }
  }

  /** Cutting out repetitions leaves a walk between the same ends that repeats nothing. */
  lemma {:induction false} WalkSimplifies(g: Graph, p: seq<string>) returns (q: seq<string>)
    requires Walk(g, p)
    ensures WalkFromTo(g, q, p[0], p[|p| - 1]) && Distinct(q)
    decreases |p|
  {
    if Distinct(p) {
      q := p;
    } else {
      var i, j :| 0 <= i < j < |p| && p[i] == p[j];
      WalkCut(g, p, i, j);
      q := WalkSimplifies(g, p[..i] + p[j..]);
    }
  }

  /** Every cycle of two or more revisions contains a simple one. */
  lemma LongCycleSimplifies(g: Graph, p: seq<string>)
    requires LongCycle(g, p)
    ensures exists q, start :: SimpleCycle(g, q, start) && start in g
  {
    var start := p[0];
    var k :| 0 <= k < |p| && p[k] != start;
    var i := k - 1;
    while p[i] != start
      invariant 0 <= i < k
      invariant forall j | i < j <= k :: p[j] != start
      decreases i
    {
      i := i - 1;
    }
    var tail := p[i + 1..];
    assert forall j | 0 <= j < |tail| :: tail[j] == p[i + 1 + j];
    var back := WalkSimplifies(g, tail);
    var q := [start] + back;
    assert forall j | 0 <= j < |q| - 1 :: j > 0 ==> q[j] == back[j - 1];
    assert q[1] == p[i + 1];
    assert SimpleCycle(g, q, start);
  }

  // ------------------------------------------------------------- search for cycles

  function Members(path: seq<string>): set<string> { set r | r in path }

  /** has_circular_dependency: extends one path, never through a revision already on it. */
  function FindCycle(g: Graph, start: string, current: string, path: seq<string>): Option<seq<string>>
    decreases |g.Keys - Members(path)|, 1, 0
  {
    if current == start && |path| > 1 then Some(path + [current])
    else if current in path then None
    else if current !in g then None
    else
      assert g.Keys - Members(path + [current]) == g.Keys - Members(path) - {current};
      FindAmong(g, start, g[current], path + [current])
  }

  function FindAmong(g: Graph, start: string, parents: seq<string>, path: seq<string>): Option<seq<string>>
    decreases |g.Keys - Members(path)|, 2, |parents|
  {
    if parents == [] then None
    else
      var first := FindCycle(g, start, parents[0], path);
      if first.Some? then first else FindAmong(g, start, parents[1..], path)
  }

  /** The path so far starts at `start` and its last revision has `current` as a parent. */
  predicate SearchPath(g: Graph, start: string, path: seq<string>) {
    Distinct(path) && (path != [] ==> Walk(g, path) && path[0] == start && path[|path| - 1] in g)
  }

  predicate Follows(g: Graph, path: seq<string>, current: string)
    requires path != [] ==> path[|path| - 1] in g
  {
    path != [] ==> current in g[path[|path| - 1]]
  }

  /** Among several parents the search comes to what it comes to from one of them. */
  lemma {:induction false} FindAmongPicks(g: Graph, start: string, parents: seq<string>, path: seq<string>)
    requires FindAmong(g, start, parents, path).Some?
    ensures exists i | 0 <= i < |parents| ::
              FindCycle(g, start, parents[i], path) == FindAmong(g, start, parents, path)
    decreases |parents|
  {
    if FindCycle(g, start, parents[0], path).None? {
      FindAmongPicks(g, start, parents[1..], path);
      var i :| 0 <= i < |parents[1..]|
               && FindCycle(g, start, parents[1..][i], path) == FindAmong(g, start, parents[1..], path);
      assert parents[i + 1] == parents[1..][i];
    }
  }

  lemma {:induction false} FindCycleSound(g: Graph, start: string, current: string, path: seq<string>)
    requires SearchPath(g, start, path) && Follows(g, path, current) && (path == [] ==> current == start)
    requires FindCycle(g, start, current, path).Some?
    ensures SimpleCycle(g, FindCycle(g, start, current, path).value, start)
    decreases |g.Keys - Members(path)|
  {
    if current == start && |path| > 1 {
      var c := path + [current];
      WalkExtends(g, path, current);
      assert c[..|c| - 1] == path;
    } else {
      assert g.Keys - Members(path + [current]) == g.Keys - Members(path) - {current};
      if path != [] {
        WalkExtends(g, path, current);
      }
      assert SearchPath(g, start, path + [current]);
      FindAmongPicks(g, start, g[current], path + [current]);
      var i :| 0 <= i < |g[current]| && FindCycle(g, start, g[current][i], path + [current])
                                      == FindAmong(g, start, g[current], path + [current]);
      FindCycleSound(g, start, g[current][i], path + [current]);
    }
  }

  /** If some simple way back to `start` avoids the path, the search finds one. */
  lemma {:induction false} FindCycleComplete(g: Graph, start: string, current: string, path: seq<string>,
                                             q: seq<string>)
    requires WalkFromTo(g, q, current, start) && |path| + |q| >= 3
    requires Distinct(q[..|q| - 1]) && forall i | 0 <= i < |q| - 1 :: q[i] !in path
    ensures FindCycle(g, start, current, path).Some?
    decreases |g.Keys - Members(path)|, 1, 0
  {
    if !(current == start && |path| > 1) {
      assert |q| > 1;
      assert current == q[..|q| - 1][0];
      assert g.Keys - Members(path + [current]) == g.Keys - Members(path) - {current};
      var rest := q[1..];
      forall i | 0 <= i < |rest| - 1 ensures rest[i] !in path + [current] && rest[i] in g && rest[i + 1] in g[rest[i]] {
        assert q[..|q| - 1][i + 1] == rest[i] && q[..|q| - 1][0] != q[..|q| - 1][i + 1];
        assert rest[i] == q[i + 1] && rest[i + 1] == q[i + 2];
      }
      assert rest[..|rest| - 1] == q[..|q| - 1][1..];
      FindAmongComplete(g, start, g[current], path + [current], rest);
    }
  }

  lemma {:induction false} FindAmongComplete(g: Graph, start: string, parents: seq<string>, path: seq<string>,
                                             q: seq<string>)
    requires q != [] && q[0] in parents && WalkFromTo(g, q, q[0], start) && |path| + |q| >= 3
    requires Distinct(q[..|q| - 1]) && forall i | 0 <= i < |q| - 1 :: q[i] !in path
    ensures FindAmong(g, start, parents, path).Some?
    decreases |g.Keys - Members(path)|, 2, |parents|
  {
    if parents[0] == q[0] {
      FindCycleComplete(g, start, q[0], path, q);
    } else {
      FindAmongComplete(g, start, parents[1..], path, q);
    }
  }

  /** The search from a revision succeeds exactly when it lies on a simple cycle of two or more revisions. */
  lemma FindCycleExact(g: Graph, start: string)
    ensures FindCycle(g, start, start, []).Some? <==> exists p :: SimpleCycle(g, p, start)
    ensures FindCycle(g, start, start, []).Some? ==> SimpleCycle(g, FindCycle(g, start, start, []).value, start)
  {
    if FindCycle(g, start, start, []).Some? {
      FindCycleSound(g, start, start, []);
    }
    if p :| SimpleCycle(g, p, start) {
      FindCycleComplete(g, start, start, [], p);
    }
  }

  /** Some revision's search succeeds exactly when some cycle has two or more revisions. */
  lemma SearchFindsLongCycles(g: Graph)
    ensures (exists r | r in g :: FindCycle(g, r, r, []).Some?) <==> exists p :: LongCycle(g, p)
  {
    if r :| r in g && FindCycle(g, r, r, []).Some? {
      FindCycleExact(g, r);
      var c := FindCycle(g, r, r, []).value;
      assert c[..|c| - 1][0] != c[..|c| - 1][1];
      assert LongCycle(g, c);
    }
    if p :| LongCycle(g, p) {
      LongCycleSimplifies(g, p);
      var q, start :| SimpleCycle(g, q, start) && start in g;
      FindCycleExact(g, start);
    }
  }

  // ------------------------------------------------------------- orphans and cycles

  ghost function ReachableFromHeads(ms: seq<Migration>): set<string> {
    set r | r in GraphOf(ms).Keys + Referenced(ms) && exists h | h in Heads(ms) :: Reaches(GraphOf(ms), h, r)
  }

  ghost function Orphans(ms: seq<Migration>): set<string> {
    GraphOf(ms).Keys - ReachableFromHeads(ms)
  }

  lemma {:induction false} GraphAt(ms: seq<Migration>, i: nat)
    requires DistinctIds(ms) && i < |ms|
    ensures ms[i].revision in GraphOf(ms) && GraphOf(ms)[ms[i].revision] == Parents(ms[i].down)
  {
    var n := |ms| - 1;
    if i < n {
      GraphAt(ms[..n], i);
    }
  }

  /** A child of an orphan is an orphan: otherwise the orphan would be reachable through it. */
  lemma OrphanHasOrphanChild(ms: seq<Migration>, r: string) returns (child: string)
    requires DistinctIds(ms) && r in Orphans(ms)
    ensures child in Orphans(ms) && r in GraphOf(ms)[child]
  {
    var g := GraphOf(ms);
    if r in Heads(ms) {
      assert WalkFromTo(g, [r], r, r);
      assert Reaches(g, r, r);
      assert false;
    }
    var i :| 0 <= i < |ms| && r in Parents(ms[i].down);
    child := ms[i].revision;
    GraphAt(ms, i);
    if child in ReachableFromHeads(ms) {
      var h :| h in Heads(ms) && Reaches(g, h, child);
      var p :| WalkFromTo(g, p, h, child);
      WalkExtends(g, p, r);
      assert Reaches(g, h, r);
      assert false;
    }
  }

  lemma {:induction false} DistinctFitsSet(p: seq<string>, s: set<string>)
    requires Distinct(p) && forall i | 0 <= i < |p| :: p[i] in s
    ensures |p| <= |s|
  {
    if p != [] {
      var n := |p| - 1;
      DistinctFitsSet(p[..n], s - {p[n]});
    }
  }

  /** Climbing from child to child among finitely many orphans must come back to one of them. */
  lemma {:induction false} ClimbFindsCycle(ms: seq<Migration>, p: seq<string>)
    requires DistinctIds(ms) && Walk(GraphOf(ms), p) && Distinct(p) && forall i | 0 <= i < |p| :: p[i] in Orphans(ms)
    ensures exists c :: Cycle(GraphOf(ms), c)
    decreases |GraphOf(ms).Keys| - |p|
  {
    var child := OrphanHasOrphanChild(ms, p[0]);
    WalkPrepends(GraphOf(ms), child, p);
    if child in p {
      var i :| 0 <= i < |p| && p[i] == child;
      WalkPrefix(GraphOf(ms), [child] + p, i + 2);
      assert Cycle(GraphOf(ms), ([child] + p)[..i + 2]);
    } else {
      DistinctFitsSet([child] + p, GraphOf(ms).Keys);
      ClimbFindsCycle(ms, [child] + p);
    }
  }

  lemma WalkPrepends(g: Graph, r: string, p: seq<string>)
    requires Walk(g, p) && r in g && p[0] in g[r]
    ensures Walk(g, [r] + p)
  {
    var q := [r] + p;
    forall i | 0 <= i < |q| - 1 ensures q[i] in g && q[i + 1] in g[q[i]] {
      if i > 0 {
        assert q[i] == p[i - 1] && q[i + 1] == p[i];
      }
    }
  }

  lemma WalkPrefix(g: Graph, p: seq<string>, n: nat)
    requires Walk(g, p) && 0 < n <= |p|
    ensures WalkFromTo(g, p[..n], p[0], p[n - 1])
  {
    assert forall k | 0 <= k < n :: p[..n][k] == p[k];
  }

  /** An orphan can exist only where some cycle, possibly a self-loop, exists. */
  lemma OrphansNeedACycle(ms: seq<Migration>)
    requires DistinctIds(ms) && Orphans(ms) != {}
    ensures exists c :: Cycle(GraphOf(ms), c)
  {
    var r :| r in Orphans(ms);
    assert Walk(GraphOf(ms), [r]);
    ClimbFindsCycle(ms, [r]);
  }

  // ------------------------------------------------------------------ the passes

  method ParseAll(files: seq<ParsedFile>) returns (ms: seq<Migration>, issues: seq<Issue>)
    ensures ms == Migrations(files)
    ensures forall x | x in issues :: x.Corrupted?
    ensures forall file :: Corrupted(file) in issues <==> Corrupt(file) in files
    ensures issues == [] <==> forall i | 0 <= i < |files| :: files[i].Parsed?
  {
    ms, issues := [], [];
    for i := 0 to |files|
      invariant ms == Migrations(files[..i])
      invariant forall x | x in issues :: x.Corrupted?
      invariant forall file :: Corrupted(file) in issues <==> Corrupt(file) in files[..i]
      invariant issues == [] <==> forall j | 0 <= j < i :: files[j].Parsed?
    {
      assert files[..i + 1][..i] == files[..i];
      match files[i] {
        case Parsed(m) => ms := ms + [m];
        case Corrupt(file) => issues := issues + [Corrupted(file)];
      }
    }
    assert files[..|files|] == files;
  }

  method BuildGraph(ms: seq<Migration>) returns (g: Graph)
    ensures g == GraphOf(ms)
  {
    g := map[];
    for i := 0 to |ms|
      invariant g == GraphOf(ms[..i])
    {
      assert ms[..i + 1][..i] == ms[..i];
      g := g[ms[i].revision := Parents(ms[i].down)];
    }
    assert ms[..|ms|] == ms;
  }

  method CollectReferenced(ms: seq<Migration>) returns (referenced: set<string>)
    ensures referenced == Referenced(ms)
  {
    referenced := {};
    for i := 0 to |ms|
      invariant forall r :: r in referenced <==> exists j | 0 <= j < i :: r in Parents(ms[j].down)
    {
      referenced := referenced + set r | r in Parents(ms[i].down);
    }
  }

  predicate HeadIssue(x: Issue, heads: set<string>) {
    (x.NoHeads? && heads == {}) || (x.MultipleHeads? && x.count == |heads| > 1)
  }

  /** A heading with the number of missing revisions, and a line for each. */
  predicate MissingIssue(x: Issue, missing: set<string>) {
    (x.MissingMigrations? && x.count == |missing| > 0) || (x.MissingRevision? && x.revision in missing)
  }

  predicate OrphanIssue(x: Issue, orphans: set<string>) {
    (x.OrphanedMigrations? && x.count == |orphans| > 0) || (x.OrphanedRevision? && x.revision in orphans)
  }

  method HeadIssues(heads: set<string>) returns (issues: seq<Issue>)
    ensures issues == [] <==> |heads| == 1
    ensures forall x :: x in issues <==> HeadIssue(x, heads)
  {
    if |heads| > 1 {
      return [MultipleHeads(|heads|)];
    } else if |heads| == 0 {
      return [NoHeads];
    } else {
      return [];
    }
  }

  method MissingIssues(missing: set<string>) returns (issues: seq<Issue>)
    ensures issues == [] <==> missing == {}
    ensures forall x :: x in issues <==> MissingIssue(x, missing)
  {
    issues := [];
    if missing != {} {
      issues := [MissingMigrations(|missing|)];
      var rest := missing;
      while rest != {}
        invariant rest <= missing && issues != []
        invariant forall x :: x in issues <==> MissingIssue(x, missing) && (x.MissingRevision? ==> x.revision !in rest)
        decreases rest
      {
        var r :| r in rest;
        issues := issues + [MissingRevision(r)];
        rest := rest - {r};
      }
    }
  }

  method OrphanIssues(orphans: set<string>) returns (issues: seq<Issue>)
    ensures issues == [] <==> orphans == {}
    ensures forall x :: x in issues <==> OrphanIssue(x, orphans)
  {
    issues := [];
    if orphans != {} {
      issues := [OrphanedMigrations(|orphans|)];
      var rest := orphans;
      while rest != {}
        invariant rest <= orphans && issues != []
        invariant forall x :: x in issues <==> OrphanIssue(x, orphans) && (x.OrphanedRevision? ==> x.revision !in rest)
        decreases rest
      {
        var r :| r in rest;
        issues := issues + [OrphanedRevision(r)];
        rest := rest - {r};
      }
    }
  }

  lemma {:induction false} ClosedHoldsWalks(g: Graph, visited: set<string>, p: seq<string>)
    requires Walk(g, p) && p[0] in visited
    requires forall r, s | r in visited && r in g && s in g[r] :: s in visited
    ensures p[|p| - 1] in visited
  {
    if |p| > 1 {
      assert p[0] in g && p[1] in g[p[0]];
      ClosedHoldsWalks(g, visited, p[1..]);
    }
  }

  /** Every parent of a visited revision has been visited or is queued, and nothing unreachable is. */
  ghost predicate Frontier(g: Graph, head: string, visited: set<string>, queue: seq<string>) {
    && (head in visited || head in queue)
    && (forall r | r in visited :: Reaches(g, head, r))
    && (forall r | r in queue :: Reaches(g, head, r))
    && (forall r, s | r in visited && r in g && s in g[r] :: s in visited || s in queue)
  }

  lemma ReachesParents(g: Graph, head: string, r: string)
    requires Reaches(g, head, r) && r in g
    ensures forall s | s in g[r] :: Reaches(g, head, s)
  {
    forall s | s in g[r] ensures Reaches(g, head, s) {
      var p :| WalkFromTo(g, p, head, r);
      WalkExtends(g, p, s);
    }
  }

  lemma FrontierAdvances(g: Graph, head: string, visited: set<string>, queue: seq<string>)
    requires Frontier(g, head, visited, queue) && queue != [] && queue[0] !in visited
    ensures Frontier(g, head, visited + {queue[0]}, if queue[0] in g then queue[1..] + g[queue[0]] else queue[1..])
  {
    var current := queue[0];
    assert forall r | r in queue :: r == current || r in queue[1..];
    assert current in queue;
    if current in g {
      ReachesParents(g, head, current);
    }
  }

  lemma FrontierSkips(g: Graph, head: string, visited: set<string>, queue: seq<string>)
    requires Frontier(g, head, visited, queue) && queue != [] && queue[0] in visited
    ensures Frontier(g, head, visited, queue[1..])
  {
    assert forall r | r in queue :: r == queue[0] || r in queue[1..];
  }

  lemma FrontierDone(g: Graph, head: string, visited: set<string>)
    requires Frontier(g, head, visited, [])
    ensures forall r :: r in visited <==> Reaches(g, head, r)
  {
    forall r | Reaches(g, head, r) ensures r in visited {
      var p :| WalkFromTo(g, p, head, r);
      ClosedHoldsWalks(g, visited, p);
    }
  }

  predicate Covers(g: Graph, universe: set<string>) {
    forall r, s | r in g && s in g[r] :: s in universe
  }

  /** The queue of one head visits exactly what the head reaches. */
  method Traverse(g: Graph, head: string, ghost universe: set<string>) returns (visited: set<string>)
    requires head in universe && Covers(g, universe)
    ensures forall r :: r in visited <==> Reaches(g, head, r)
  {
    var queue := [head];
    visited := {};
    assert WalkFromTo(g, [head], head, head);
    while queue != []
      invariant visited <= universe && forall r | r in queue :: r in universe
      invariant Frontier(g, head, visited, queue)
      decreases |universe - visited|, |queue|
    {
      var current := queue[0];
      if current in visited {
        FrontierSkips(g, head, visited, queue);
        queue := queue[1..];
      } else {
        FrontierAdvances(g, head, visited, queue);
        FewerLeft(universe, visited, current);
        visited := visited + {current};
        queue := if current in g then queue[1..] + g[current] else queue[1..];
      }
    }
    FrontierDone(g, head, visited);
  }

  lemma FewerLeft(universe: set<string>, visited: set<string>, current: string)
    requires current in universe && current !in visited
    ensures |universe - (visited + {current})| < |universe - visited|
  {
    assert universe - (visited + {current}) == universe - visited - {current};
  }

  /** What some head reaches, and nothing else. */
  ghost predicate IsReachable(g: Graph, heads: set<string>, reachable: set<string>) {
    forall r :: r in reachable <==> exists h | h in heads :: Reaches(g, h, r)
  }

  method ReachableFrom(g: Graph, heads: set<string>, ghost universe: set<string>) returns (reachable: set<string>)
    requires heads <= universe && Covers(g, universe)
    ensures IsReachable(g, heads, reachable)
  {
    reachable := {};
    var rest := heads;
    while rest != {}
      invariant rest <= heads
      invariant IsReachable(g, heads - rest, reachable)
      decreases rest
    {
      var head :| head in rest;
      var visited := Traverse(g, head, universe);
      ghost var done := heads - rest;
      assert heads - (rest - {head}) == done + {head};
      reachable := reachable + visited;
      rest := rest - {head};
    }
    assert heads - rest == heads;
  }

  method CycleIssues(g: Graph) returns (issues: seq<Issue>)
    ensures issues == [] <==> !exists p :: LongCycle(g, p)
    ensures forall x | x in issues :: x.CircularDependency?
    ensures ReportsCycles(issues, g)
    ensures |issues| <= 1
  {
    SearchFindsLongCycles(g);
    var rest := g.Keys;
    while rest != {}
      invariant rest <= g.Keys
      invariant forall r | r in g && r !in rest :: FindCycle(g, r, r, []).None?
      decreases rest
    {
      var r :| r in rest;
      var circular := FindCycle(g, r, r, []);
      if circular.Some? {
        FindCycleExact(g, r);
        issues := [CircularDependency(circular.value)];
        assert issues[0] in issues && issues[0].CircularDependency?;
        return;
      }
      rest := rest - {r};
    }
    return [];
  }

  /** The shape that a clean report stands for. */
  ghost predicate CleanGraph(ms: seq<Migration>) {
    && |Heads(ms)| == 1
    && Missing(ms) == {}
    && (forall head, r | head in Heads(ms) && r in GraphOf(ms) :: Reaches(GraphOf(ms), head, r))
    && !exists p :: LongCycle(GraphOf(ms), p)
  }

  lemma {:induction false} ParentsAreReferenced(ms: seq<Migration>)
    ensures Covers(GraphOf(ms), Referenced(ms))
  {
    if ms != [] {
      var n := |ms| - 1;
      ParentsAreReferenced(ms[..n]);
      forall r, s | r in GraphOf(ms) && s in GraphOf(ms)[r] ensures s in Referenced(ms) {
        if r == ms[n].revision {
          assert s in Parents(ms[n].down);
        } else {
          assert s in Referenced(ms[..n]);
          var i :| 0 <= i < n && s in Parents(ms[..n][i].down);
          assert ms[i] == ms[..n][i];
        }
      }
    }
  }

  /** The same shape as the passes see it. */
  ghost predicate PassesFindNothing(ms: seq<Migration>) {
    |Heads(ms)| == 1 && Missing(ms) == {} && Orphans(ms) == {} && !exists p :: LongCycle(GraphOf(ms), p)
  }

  /** Nothing is orphaned below a single head exactly when that head reaches every revision. */
  lemma NothingFoundMeansClean(ms: seq<Migration>)
    ensures PassesFindNothing(ms) <==> CleanGraph(ms)
  {
    if |Heads(ms)| == 1 {
      var top :| top in Heads(ms);
      assert Heads(ms) == {top} by {
        assert |Heads(ms) - {top}| == 0;
      }
      assert forall r | r in GraphOf(ms) :: r in Orphans(ms) <==> !Reaches(GraphOf(ms), top, r);
    }
  }

  // ---------------------------------------------------------------- linear history

  /** Each file revises the one before it, under different revision ids. */
  predicate Linear(ms: seq<Migration>) {
    && ms != [] && (forall i | 0 <= i < |ms| :: ms[i].revision != "")
    && (forall i, j | 0 <= i < |ms| && 0 <= j < |ms| && ms[i].revision == ms[j].revision :: i == j)
    && ms[0].down == NoDown
    && forall i | 0 < i < |ms| :: ms[i].down == One(ms[i - 1].revision)
  }

  /** A walk in a linear history goes back one file at a time. */
  lemma {:induction false} LinearWalk(ms: seq<Migration>, p: seq<string>, k: nat)
    requires Linear(ms) && Walk(GraphOf(ms), p) && k < |ms| && p[0] == ms[k].revision
    ensures |p| - 1 <= k && p[|p| - 1] == ms[k - (|p| - 1)].revision
  {
    GraphAt(ms, k);
    if |p| > 1 {
      assert p[1] in GraphOf(ms)[p[0]];
      LinearWalk(ms, p[1..], k - 1);
    }
  }

  lemma {:induction false} LinearReaches(ms: seq<Migration>, k: nat, i: nat)
    requires Linear(ms) && i <= k < |ms|
    ensures Reaches(GraphOf(ms), ms[k].revision, ms[i].revision)
    decreases k - i
  {
    if i == k {
      assert WalkFromTo(GraphOf(ms), [ms[k].revision], ms[k].revision, ms[k].revision);
    } else {
      LinearReaches(ms, k, i + 1);
      var p :| WalkFromTo(GraphOf(ms), p, ms[k].revision, ms[i + 1].revision);
      GraphAt(ms, i + 1);
      WalkExtends(GraphOf(ms), p, ms[i].revision);
    }
  }

  lemma LinearHeads(ms: seq<Migration>)
    requires Linear(ms)
    ensures Heads(ms) == {ms[|ms| - 1].revision} && Missing(ms) == {}
  {
    forall r
      ensures r in Heads(ms) <==> r == ms[|ms| - 1].revision
      ensures r !in Missing(ms)
    {
      HeadsAndMissingExactly(ms, r);
      if NamedBySome(ms, r) {
        var i :| 0 <= i < |ms| && Names(ms[i].down, r);
        assert r == ms[i - 1].revision;
      }
      if i :| 0 <= i < |ms| - 1 && ms[i].revision == r {
        assert Names(ms[i + 1].down, r);
      }
    }
  }

  /** A linear history is clean, however long it is. */
  lemma LinearHistoryIsClean(ms: seq<Migration>)
    requires Linear(ms)
    ensures CleanGraph(ms)
  {
    var g := GraphOf(ms);
    LinearHeads(ms);
    forall r | r in g
      ensures Reaches(g, ms[|ms| - 1].revision, r)
    {
      KeysExactly(ms, r);
      var i :| 0 <= i < |ms| && ms[i].revision == r;
      LinearReaches(ms, |ms| - 1, i);
    }
    forall p | LongCycle(g, p)
      ensures false
    {
      KeysExactly(ms, p[0]);
      var k :| 0 <= k < |ms| && ms[k].revision == p[0];
      LinearWalk(ms, p, k);
    }
  }

  lemma JoinedMembers(a: seq<Issue>, b: seq<Issue>, c: seq<Issue>, d: seq<Issue>, e: seq<Issue>)
    ensures forall x :: x in a + b + c + d + e <==> x in a || x in b || x in c || x in d || x in e
    ensures a + b + c + d + e == [] <==> a == [] && b == [] && c == [] && d == [] && e == []
  {
  }

  /** Besides corrupted files and cycles, exactly these: every heading with its count, every revision under it. */
  ghost predicate ReportsEach(issues: seq<Issue>, heads: set<string>, missing: set<string>, orphans: set<string>) {
    forall x: Issue | !x.Corrupted? && !x.CircularDependency? ::
      x in issues <==> HeadIssue(x, heads) || MissingIssue(x, missing) || OrphanIssue(x, orphans)
  }

  ghost predicate ReportsCycles(issues: seq<Issue>, g: Graph) {
    && (forall x | x in issues && x.CircularDependency? :: x.path != [] && SimpleCycle(g, x.path, x.path[0]))
    && ((exists x :: x in issues && x.CircularDependency?) <==> exists p :: LongCycle(g, p))
  }

  /** The headings and lines one by one. */
  ghost predicate ReportsLines(issues: seq<Issue>, heads: set<string>, missing: set<string>, orphans: set<string>) {
    && (NoHeads in issues <==> heads == {})
    && (forall n :: MultipleHeads(n) in issues <==> n == |heads| && n > 1)
    && (forall n :: MissingMigrations(n) in issues <==> n == |missing| && n > 0)
    && (forall r :: MissingRevision(r) in issues <==> r in missing)
    && (forall n :: OrphanedMigrations(n) in issues <==> n == |orphans| && n > 0)
    && (forall r :: OrphanedRevision(r) in issues <==> r in orphans)
  }

  lemma LinesAreReported(issues: seq<Issue>, heads: set<string>, missing: set<string>, orphans: set<string>)
    requires ReportsEach(issues, heads, missing, orphans)
    ensures ReportsLines(issues, heads, missing, orphans)
  {
  }

  lemma CyclesAreReported(issues: seq<Issue>, g: Graph)
    requires ReportsCycles(issues, g)
    ensures forall p | CircularDependency(p) in issues :: p != [] && SimpleCycle(g, p, p[0])
    ensures (exists p :: CircularDependency(p) in issues) <==> exists p :: LongCycle(g, p)
  {
    forall p | CircularDependency(p) in issues
      ensures p != [] && SimpleCycle(g, p, p[0])
    {
      assert CircularDependency(p).CircularDependency?;
    }
    if x :| x in issues && x.CircularDependency? {
      assert x == CircularDependency(x.path);
    }
  }

  /** Which issues a report holds, for given heads, missing parents and orphans. */
  ghost predicate Reports(issues: seq<Issue>, corrupted: seq<Issue>, g: Graph, heads: set<string>, missing: set<string>,
                          orphans: set<string>) {
    && (issues == []
        <==> corrupted == [] && |heads| == 1 && missing == {} && orphans == {} && !exists p :: LongCycle(g, p))
    && ReportsEach(issues, heads, missing, orphans)
    && ReportsCycles(issues, g)
    && forall x: Issue | x.Corrupted? :: x in issues <==> x in corrupted
  }

  /** The issues about the graph as a whole, for given heads, missing parents and orphans. */
  method Report(corrupted: seq<Issue>, g: Graph, heads: set<string>, missing: set<string>, orphans: set<string>)
    returns (issues: seq<Issue>)
    requires forall x | x in corrupted :: x.Corrupted?
    ensures Reports(issues, corrupted, g, heads, missing, orphans)
  {
    var headIssues := HeadIssues(heads);
    var missingIssues := MissingIssues(missing);
    var orphanIssues := OrphanIssues(orphans);
    var cycleIssues := CycleIssues(g);
    JoinedMembers(corrupted, headIssues, missingIssues, orphanIssues, cycleIssues);
    issues := corrupted + headIssues + missingIssues + orphanIssues + cycleIssues;
  }

  method FindOrphans(ms: seq<Migration>, g: Graph, heads: set<string>, ghost referenced: set<string>)
    returns (orphans: set<string>)
    requires g == GraphOf(ms) && heads == Heads(ms) && referenced == Referenced(ms)
    ensures orphans == Orphans(ms)
  {
    assert Covers(g, g.Keys + referenced) by {
      ParentsAreReferenced(ms);
    }
    var reachable := ReachableFrom(g, heads, g.Keys + referenced);
    orphans := g.Keys - reachable;
  }

  /** Everything after the files are parsed. */
  method AnalyzeParsed(ms: seq<Migration>, corrupted: seq<Issue>) returns (g: Graph, issues: seq<Issue>)
    requires forall x | x in corrupted :: x.Corrupted?
    ensures g == GraphOf(ms)
    ensures Reports(issues, corrupted, g, Heads(ms), Missing(ms), Orphans(ms))
  {
    g := BuildGraph(ms);
    var referenced := CollectReferenced(ms);
    var heads, missing := g.Keys - referenced, referenced - g.Keys;
    var orphans := FindOrphans(ms, g, heads, referenced);
    issues := Report(corrupted, g, heads, missing, orphans);
  }

  /** Reports no issue exactly for one head, above every revision, with every parent present and no long cycle. */
  method AnalyzeMigrations(files: seq<ParsedFile>) returns (g: Graph, issues: seq<Issue>)
    ensures g == GraphOf(Migrations(files))
    ensures issues == [] <==> (forall i | 0 <= i < |files| :: files[i].Parsed?) && CleanGraph(Migrations(files))
    ensures forall file :: Corrupted(file) in issues <==> Corrupt(file) in files
    ensures ReportsLines(issues, Heads(Migrations(files)), Missing(Migrations(files)), Orphans(Migrations(files)))
    ensures forall p | CircularDependency(p) in issues :: p != [] && SimpleCycle(g, p, p[0])
    ensures (exists p :: CircularDependency(p) in issues) <==> exists p :: LongCycle(g, p)
  {
    var ms, corrupted := ParseAll(files);
    g, issues := AnalyzeParsed(ms, corrupted);
    NothingFoundMeansClean(ms);
    LinesAreReported(issues, Heads(ms), Missing(ms), Orphans(ms));
    CyclesAreReported(issues, g);
  }
}
