/**
  Models app/scheduler_ownership.py and the gate of init_scheduled_tasks
  (app/scheduled_tasks.py) as a transition system: any number of server
  processes, one advisory lock, and database sessions that can end.
*/
module SchedulerOwnership {
  import opened Basics

  type Session = nat

  /** Where the ownership thread, or the caller of stop, stands between two observable actions. */
  datatype Phase =
    | Resting              // between two turns of the loop, or no loop at all
    | Taken(taken: Session) // the lock is acquired, the module global not yet set
    | Recorded             // the module global is set, the scheduler not yet started
    | Draining             // release: shutdown asked, waiting for jobs in flight
    | Drained              // release: no job left, the connection still open
    | Closed               // release: the connection closed, the module global still set

  datatype Process = Process(
    looping: bool,                // the ownership thread is alive
    phase: Phase,
    connection: Option<Session>,  // _owner_connection, by the session behind it now
    running: bool,                // scheduler.running
    jobs: nat,                    // executions in flight
    lossUnseen: bool)             // its lock was lost after its last finished heartbeat
  {
    predicate Releasing() { phase.Draining? || phase.Drained? || phase.Closed? }

    /** The session this process relies on for the lock. */
    function Relies(): Option<Session> { if phase.Taken? then Some(phase.taken) else connection }
  }

  datatype State = State(processes: seq<Process>, open: set<Session>, holder: Option<Session>, nextSession: Session)

  datatype Event =
    | StartLoop | Acquire | Record | StartScheduler | StartFails(started: bool)
    | HeartbeatHeld | HeartbeatFails | Stop
    | JobsFinish | CloseConnection | Forget
    | JobStarts | JobEnds
    | StrayStart          // a direct call of init_scheduled_tasks
    | Crash               // the process dies; its session lingers until the server notices
    | SessionLost | SilentReconnect

  /** An event of one process, or the server ending a session that no process relies on. */
  datatype Step = Of(pid: nat, event: Event) | OrphanEnds(session: Session)

  /** What the environment may do: lose live sessions, and call the gate while a release is under way. */
  datatype Policy = Policy(losses: bool, strayInRelease: bool)

  const NEW := Process(false, Resting, None, false, 0, false)

  function Initial(n: nat): State {
    State(seq(n, i => NEW), {}, None, 0)
  }

  predicate Holds(s: State, p: Process) {
    p.Relies().Some? && p.Relies().value in s.open && s.holder == p.Relies()
  }

  predicate Orphan(s: State, session: Session) {
    session in s.open && forall i | 0 <= i < |s.processes| :: s.processes[i].Relies() != Some(session)
  }

  predicate EnabledFor(s: State, p: Process, e: Event, policy: Policy) {
    match e
    case StartLoop => !p.looping && p.phase.Resting?
    case Acquire => p.looping && p.phase.Resting? && p.connection.None? && s.holder.None?
    case Record => p.phase.Taken?
    case StartScheduler => p.phase.Recorded?
    case StartFails(_) => p.phase.Recorded?
    case HeartbeatHeld => p.looping && p.phase.Resting? && p.connection.Some? && Holds(s, p)
    case HeartbeatFails => p.looping && p.phase.Resting? && p.connection.Some?
    case Stop => p.phase.Resting?
    case JobsFinish => p.phase.Draining? && p.jobs == 0
    case CloseConnection => p.phase.Drained?
    case Forget => p.phase.Closed?
    case JobStarts => p.running
    case JobEnds => p.jobs > 0
    case StrayStart => p.Releasing() ==> policy.strayInRelease
    case Crash => true
    case SessionLost => policy.losses && p.Relies().Some? && p.Relies().value in s.open
    case SilentReconnect => policy.losses && p.phase.Resting? && p.connection.Some? && p.connection.value !in s.open
  }

  predicate Enabled(s: State, step: Step, policy: Policy) {
    match step
    case Of(pid, e) => pid < |s.processes| && EnabledFor(s, s.processes[pid], e, policy)
    case OrphanEnds(session) => Orphan(s, session)
  }

  /** init_scheduled_tasks: refused without the recorded lock connection, idempotent while running. */
  function Started(p: Process): Process {
    if p.connection.None? then p else p.(running := true)
  }

  /** Entry of _release_ownership: a running scheduler is asked to stop and its jobs are waited for. */
  function ReleaseBegun(p: Process): Process {
    if p.running then p.(running := false, phase := Draining) else p.(phase := Drained)
  }

  function ProcessAfter(s: State, p: Process, e: Event): Process {
    match e
    case StartLoop => p.(looping := true)
    case Acquire => p.(phase := Taken(s.nextSession))
    case Record => if p.phase.Taken? then p.(connection := Some(p.phase.taken), phase := Recorded) else p
    case StartScheduler => Started(p).(phase := Resting)
    case StartFails(started) => ReleaseBegun(if started then Started(p) else p)
    case HeartbeatHeld => p.(lossUnseen := false)
    case HeartbeatFails => ReleaseBegun(p)
    case Stop => ReleaseBegun(p.(looping := false))
    case JobsFinish => p.(phase := Drained)
    case CloseConnection => p.(phase := Closed)
    case Forget => p.(phase := Resting, connection := None, lossUnseen := false)
    case JobStarts => p.(jobs := p.jobs + 1)
    case JobEnds => if p.jobs > 0 then p.(jobs := p.jobs - 1) else p
    case StrayStart => Started(p)
    case Crash => NEW
    case SessionLost => p.(lossUnseen := true)
    case SilentReconnect => p.(connection := Some(s.nextSession))
  }

  /** Ending a session releases the advisory lock it holds. */
  function Ended(s: State, session: Option<Session>): State {
    if session.None? then s
    else s.(open := s.open - {session.value}, holder := if s.holder == session then None else s.holder)
  }

  function DatabaseAfter(s: State, p: Process, e: Event): State {
    match e
    case Acquire => s.(open := s.open + {s.nextSession}, holder := Some(s.nextSession),
                       nextSession := s.nextSession + 1)
    case CloseConnection => Ended(s, p.connection)
    case SessionLost => Ended(s, p.Relies())
    case SilentReconnect => s.(open := s.open + {s.nextSession}, nextSession := s.nextSession + 1)
    case _ => s
  }

  function After(s: State, step: Step): State
    requires step.Of? ==> step.pid < |s.processes|
  {
    match step
    case Of(pid, e) =>
      DatabaseAfter(s, s.processes[pid], e).(processes := s.processes[pid := ProcessAfter(s, s.processes[pid], e)])
    case OrphanEnds(session) => Ended(s, Some(session))
  }

  /** The state after a run, when every step of it is possible where it is taken. */
  function Run(n: nat, steps: seq<Step>, policy: Policy): Option<State> {
    if steps == [] then Some(Initial(n))
    else
      var s := Run(n, steps[..|steps| - 1], policy);
      if s.Some? && Enabled(s.value, steps[|steps| - 1], policy) then Some(After(s.value, steps[|steps| - 1])) else None
  }

  // ------------------------------------------------------- sessions are private

  /** No two processes rely on one session, and every session was handed out. */
  predicate Private(s: State) {
    && (forall i | 0 <= i < |s.processes| && s.processes[i].Relies().Some? ::
        s.processes[i].Relies().value < s.nextSession)
    && (forall i, j | 0 <= i < j < |s.processes| && s.processes[i].Relies().Some? ::
        s.processes[i].Relies() != s.processes[j].Relies())
    && (s.holder.Some? ==> s.holder.value < s.nextSession)
    && (forall i | 0 <= i < |s.processes| && s.processes[i].phase.Taken? :: s.processes[i].connection.None?)
  }

  /** An actor keeps its session, drops it, or relies on a new one that nobody had. */
  lemma ReliesAfter(s: State, pid: nat, e: Event, policy: Policy)
    requires Private(s) && Enabled(s, Of(pid, e), policy)
    ensures var p, next := s.processes[pid], After(s, Of(pid, e)).processes[pid];
            && (next.Relies() == p.Relies() || next.Relies().None? || (next.Relies() == Some(s.nextSession)
                  && After(s, Of(pid, e)).nextSession == s.nextSession + 1))
            && (next.phase.Taken? ==> next.connection.None?)
    ensures s.nextSession <= After(s, Of(pid, e)).nextSession
    ensures After(s, Of(pid, e)).holder == s.holder || After(s, Of(pid, e)).holder.None?
         || (e.Acquire? && After(s, Of(pid, e)).holder == Some(s.nextSession))
  {
  }

  lemma PrivateKept(s: State, step: Step, policy: Policy)
    requires Private(s) && Enabled(s, step, policy)
    ensures Private(After(s, step))
  {
    if step.Of? {
      var next := After(s, step);
      ReliesAfter(s, step.pid, step.event, policy);
      assert next.processes == s.processes[step.pid := next.processes[step.pid]];
    }
  }

  lemma {:induction false} RunIsPrivate(n: nat, steps: seq<Step>, policy: Policy)
    requires Run(n, steps, policy).Some?
    ensures Private(Run(n, steps, policy).value)
  {
    if steps != [] {
      var before := steps[..|steps| - 1];
      RunIsPrivate(n, before, policy);
      PrivateKept(Run(n, before, policy).value, steps[|steps| - 1], policy);
    }
  }

  lemma HoldersDiffer(s: State, i: nat, j: nat)
    requires Private(s) && i < j < |s.processes|
    ensures !(Holds(s, s.processes[i]) && Holds(s, s.processes[j]))
  {
  }

  /** In every run, whatever sessions are lost and calls are made in it, at most one process holds the lock. */
  lemma OneHolder(n: nat, steps: seq<Step>, policy: Policy)
    requires Run(n, steps, policy).Some?
    ensures var s := Run(n, steps, policy).value;
            forall i, j | 0 <= i < j < |s.processes| :: !(Holds(s, s.processes[i]) && Holds(s, s.processes[j]))
  {
    RunIsPrivate(n, steps, policy);
    var s := Run(n, steps, policy).value;
    forall i, j | 0 <= i < j < |s.processes|
      ensures !(Holds(s, s.processes[i]) && Holds(s, s.processes[j]))
    {
      HoldersDiffer(s, i, j);
    }
  }

  // -------------------------------------------------- no overlap without losses

  /** Whatever could execute a job is guarded by the lock, and a release past its wait executes none. */
  predicate Guarded(s: State, p: Process) {
    && (p.running || p.jobs > 0 || p.phase.Recorded? || p.phase.Draining? ==> p.connection.Some?)
    && (p.phase.Taken? || (p.connection.Some? && !p.phase.Closed?) ==> Holds(s, p))
    && (p.Releasing() ==> !p.running)
    && (p.jobs > 0 ==> p.running || p.phase.Draining?)
  }

  predicate AllGuarded(s: State) {
    forall i | 0 <= i < |s.processes| :: Guarded(s, s.processes[i])
  }

  lemma ActorStaysGuarded(s: State, pid: nat, e: Event, policy: Policy)
    requires Private(s) && AllGuarded(s) && Enabled(s, Of(pid, e), policy)
    requires !policy.losses && !policy.strayInRelease
    ensures Guarded(After(s, Of(pid, e)), After(s, Of(pid, e)).processes[pid])
  {
    assert Guarded(s, s.processes[pid]);
  }

  /** Without losses a process only gives up, or takes, a lock that nobody else holds. */
  lemma OthersStayGuarded(s: State, step: Step, i: nat, policy: Policy)
    requires Private(s) && AllGuarded(s) && Enabled(s, step, policy) && !policy.losses
    requires i < |s.processes| && (step.Of? ==> step.pid != i)
    ensures Guarded(After(s, step), s.processes[i])
  {
    assert Guarded(s, s.processes[i]);
    if step.Of? {
      var a, b := if step.pid < i then step.pid else i, if step.pid < i then i else step.pid;
      assert s.processes[a].Relies().Some? ==> s.processes[a].Relies() != s.processes[b].Relies();
    }
  }

  lemma GuardedKept(s: State, step: Step, policy: Policy)
    requires Private(s) && AllGuarded(s) && Enabled(s, step, policy)
    requires !policy.losses && !policy.strayInRelease
    ensures AllGuarded(After(s, step))
  {
    forall i | 0 <= i < |s.processes| ensures Guarded(After(s, step), After(s, step).processes[i]) {
      if step.Of? && step.pid == i {
        ActorStaysGuarded(s, i, step.event, policy);
      } else {
        OthersStayGuarded(s, step, i, policy);
      }
    }
  }

  predicate NoOverlap(s: State) {
    forall i, j | 0 <= i < j < |s.processes| :: s.processes[i].jobs == 0 || s.processes[j].jobs == 0
  }

  lemma GuardedExcludesOverlap(s: State)
    requires Private(s) && AllGuarded(s)
    ensures NoOverlap(s)
  {
    forall i, j | 0 <= i < j < |s.processes| ensures s.processes[i].jobs == 0 || s.processes[j].jobs == 0 {
      HoldersDiffer(s, i, j);
    }
  }

  lemma {:induction false} RunKeepsGuarded(n: nat, steps: seq<Step>, policy: Policy)
    requires Run(n, steps, policy).Some?
    requires !policy.losses && !policy.strayInRelease
    ensures Private(Run(n, steps, policy).value) && AllGuarded(Run(n, steps, policy).value)
  {
    if steps != [] {
      var before := steps[..|steps| - 1];
      RunKeepsGuarded(n, before, policy);
      PrivateKept(Run(n, before, policy).value, steps[|steps| - 1], policy);
      GuardedKept(Run(n, before, policy).value, steps[|steps| - 1], policy);
    }
  }

  // ------------------------------------------ exactly which environments are safe

  ghost predicate Safe(n: nat, policy: Policy) {
    forall steps | Run(n, steps, policy).Some? :: NoOverlap(Run(n, steps, policy).value)
  }

  lemma Take(n: nat, steps: seq<Step>, s: State, step: Step, policy: Policy) returns (longer: seq<Step>, next: State)
    requires Run(n, steps, policy) == Some(s) && Enabled(s, step, policy)
    ensures Run(n, longer, policy) == Some(next) && next == After(s, step)
  {
    longer, next := steps + [step], After(s, step);
    assert longer[..|longer| - 1] == steps;
  }

  /** One process loops, takes the lock and runs one job. */
  lemma TakesOver(n: nat, steps: seq<Step>, s: State, pid: nat, policy: Policy) returns (longer: seq<Step>, next: State)
    requires Run(n, steps, policy) == Some(s)
    requires pid < |s.processes| && s.processes[pid] == NEW && s.holder.None?
    ensures Run(n, longer, policy) == Some(next) && |next.processes| == |s.processes|
    ensures next.processes == s.processes[pid := Process(true, Resting, Some(s.nextSession), true, 1, false)]
    ensures next.holder == Some(s.nextSession) && next.open == s.open + {s.nextSession}
    ensures next.nextSession == s.nextSession + 1
  {
    longer, next := TakesLock(n, steps, s, pid, policy);
    longer, next := Take(n, longer, next, Of(pid, StartScheduler), policy);
    assert next.processes[pid] == Process(true, Resting, Some(s.nextSession), true, 0, false);
    longer, next := Take(n, longer, next, Of(pid, JobStarts), policy);
  }

  lemma TakesLock(n: nat, steps: seq<Step>, s: State, pid: nat, policy: Policy) returns (longer: seq<Step>, next: State)
    requires Run(n, steps, policy) == Some(s)
    requires pid < |s.processes| && s.processes[pid] == NEW && s.holder.None?
    ensures Run(n, longer, policy) == Some(next)
    ensures next.processes == s.processes[pid := Process(true, Recorded, Some(s.nextSession), false, 0, false)]
    ensures next.holder == Some(s.nextSession) && next.open == s.open + {s.nextSession}
    ensures next.nextSession == s.nextSession + 1
  {
    longer, next := Take(n, steps, s, Of(pid, StartLoop), policy);
    assert next.processes[pid] == NEW.(looping := true);
    longer, next := Take(n, longer, next, Of(pid, Acquire), policy);
    assert next.processes[pid] == Process(true, Taken(s.nextSession), None, false, 0, false);
    longer, next := Take(n, longer, next, Of(pid, Record), policy);
  }

  /** A lost session lets a second process take over while the first one still runs a job. */
  lemma LossOverlaps(n: nat, policy: Policy)
    requires n >= 2 && policy.losses
    ensures !Safe(n, policy)
  {
    var steps, s := TakesOver(n, [], Initial(n), 0, policy);
    steps, s := Take(n, steps, s, Of(0, SessionLost), policy);
    steps, s := TakesOver(n, steps, s, 1, policy);
    assert s.processes[0].jobs == 1 && s.processes[1].jobs == 1;
    assert !NoOverlap(s);
  }

  /**
    The gate looks at the recorded connection, which a release clears last: a
    direct call between the wait for jobs and that point starts the scheduler
    again, and the lock is then given away under it.
   */
  lemma StrayStartOverlaps(n: nat, policy: Policy)
    requires n >= 2 && policy.strayInRelease
    ensures !Safe(n, policy)
  {
    var steps, s := TakesOver(n, [], Initial(n), 0, policy);
    steps, s := RestartsInRelease(n, steps, s, 0, policy);
    steps, s := TakesOver(n, steps, s, 1, policy);
    assert s.processes[0].jobs == 1 && s.processes[1].jobs == 1;
    assert !NoOverlap(s);
  }

  lemma WaitsForJobs(n: nat, steps: seq<Step>, s: State, own: Session, policy: Policy)
    returns (longer: seq<Step>, next: State)
    requires Run(n, steps, policy) == Some(s)
    requires |s.processes| > 0 && s.processes[0] == Process(true, Resting, Some(own), true, 1, s.holder.None?)
    ensures Run(n, longer, policy) == Some(next)
    ensures next == s.(processes := s.processes[0 := Process(false, Drained, Some(own), false, 0, s.holder.None?)])
  {
    longer, next := Take(n, steps, s, Of(0, JobEnds), policy);
    longer, next := Take(n, longer, next, Of(0, Stop), policy);
    assert next.processes[0] == Process(false, Draining, Some(own), false, 0, s.holder.None?);
    longer, next := Take(n, longer, next, Of(0, JobsFinish), policy);
  }

  /** A release, with or without a loss before it, in which the gate is called after the wait for jobs. */
  lemma RestartsInRelease(n: nat, steps: seq<Step>, s: State, own: Session, policy: Policy)
    returns (longer: seq<Step>, next: State)
    requires Run(n, steps, policy) == Some(s) && policy.strayInRelease
    requires |s.processes| > 0 && (s.holder.Some? ==> s.holder == Some(own))
    requires s.processes[0] == Process(true, Resting, Some(own), true, 1, s.holder.None?)
    ensures Run(n, longer, policy) == Some(next)
    ensures next.processes == s.processes[0 := Process(false, Closed, Some(own), true, 1, s.holder.None?)]
    ensures next.holder.None? && next.nextSession == s.nextSession
  {
    longer, next := WaitsForJobs(n, steps, s, own, policy);
    longer, next := Take(n, longer, next, Of(0, StrayStart), policy);
    assert next.processes[0] == Process(false, Drained, Some(own), true, 0, s.holder.None?);
    longer, next := Take(n, longer, next, Of(0, JobStarts), policy);
    longer, next := Take(n, longer, next, Of(0, CloseConnection), policy);
  }

  /**
    Among two or more processes, no run ever overlaps job executions exactly
    when sessions are not lost and nothing calls the gate during a release.
   */
  lemma NoOverlapExactly(n: nat, policy: Policy)
    requires n >= 2
    ensures Safe(n, policy) <==> !policy.losses && !policy.strayInRelease
  {
    if policy.losses {
      LossOverlaps(n, policy);
    } else if policy.strayInRelease {
      StrayStartOverlaps(n, policy);
    } else {
      forall steps | Run(n, steps, policy).Some? ensures NoOverlap(Run(n, steps, policy).value) {
        RunKeepsGuarded(n, steps, policy);
        GuardedExcludesOverlap(Run(n, steps, policy).value);
      }
    }
  }

  // --------------------------------------------------------- sessions that die

  /** With losses, a process may rely on a session without the lock only while the loss is unseen. */
  predicate Watched(s: State, p: Process) {
    && (p.Relies().None? ==> !p.lossUnseen)
    && (p.phase.Taken? || (p.connection.Some? && !p.phase.Closed?) ==> (p.lossUnseen <==> !Holds(s, p)))
    && (p.phase.Closed? ==> !Holds(s, p))
    && (p.running || p.jobs > 0 || p.phase.Recorded? || p.phase.Draining? ==> p.connection.Some?)
    && (p.Releasing() ==> !p.running)
    && (p.jobs > 0 ==> p.running || p.phase.Draining?)
  }

  predicate AllWatched(s: State) {
    forall i | 0 <= i < |s.processes| :: Watched(s, s.processes[i])
  }

  lemma ActorStaysWatched(s: State, pid: nat, e: Event, policy: Policy)
    requires Private(s) && AllWatched(s) && Enabled(s, Of(pid, e), policy) && !policy.strayInRelease
    ensures Watched(After(s, Of(pid, e)), After(s, Of(pid, e)).processes[pid])
  {
    assert Watched(s, s.processes[pid]);
  }

  lemma OthersStayWatched(s: State, step: Step, i: nat, policy: Policy)
    requires Private(s) && AllWatched(s) && Enabled(s, step, policy)
    requires i < |s.processes| && (step.Of? ==> step.pid != i)
    ensures Watched(After(s, step), s.processes[i])
  {
    assert Watched(s, s.processes[i]);
    if step.Of? {
      var a, b := if step.pid < i then step.pid else i, if step.pid < i then i else step.pid;
      assert s.processes[a].Relies().Some? ==> s.processes[a].Relies() != s.processes[b].Relies();
    }
  }

  lemma {:induction false} RunKeepsWatched(n: nat, steps: seq<Step>, policy: Policy)
    requires Run(n, steps, policy).Some? && !policy.strayInRelease
    ensures Private(Run(n, steps, policy).value) && AllWatched(Run(n, steps, policy).value)
  {
    if steps != [] {
      var before, step := steps[..|steps| - 1], steps[|steps| - 1];
      RunKeepsWatched(n, before, policy);
      var s := Run(n, before, policy).value;
      PrivateKept(s, step, policy);
      forall i | 0 <= i < |s.processes| ensures Watched(After(s, step), After(s, step).processes[i]) {
        if step.Of? && step.pid == i {
          ActorStaysWatched(s, i, step.event, policy);
        } else {
          OthersStayWatched(s, step, i, policy);
        }
      }
    }
  }

  /** At most one process runs the scheduler under the lock, and whoever runs it without has a loss still unseen. */
  predicate Contained(s: State) {
    && (forall i, j | 0 <= i < j < |s.processes| ::
          !(s.processes[i].running && Holds(s, s.processes[i])
            && s.processes[j].running && Holds(s, s.processes[j])))
    && (forall i | 0 <= i < |s.processes| && s.processes[i].running && !Holds(s, s.processes[i]) ::
          s.processes[i].lossUnseen)
  }

  lemma RunIsContained(n: nat, steps: seq<Step>, policy: Policy)
    requires Run(n, steps, policy).Some? && !policy.strayInRelease
    ensures Contained(Run(n, steps, policy).value)
  {
    RunKeepsWatched(n, steps, policy);
    var s := Run(n, steps, policy).value;
    forall i, j | 0 <= i < j < |s.processes| ensures !(Holds(s, s.processes[i]) && Holds(s, s.processes[j])) {
      HoldersDiffer(s, i, j);
    }
    assert forall i | 0 <= i < |s.processes| :: Watched(s, s.processes[i]);
  }

  ghost predicate LossesContained(n: nat, policy: Policy) {
    forall steps | Run(n, steps, policy).Some? :: Contained(Run(n, steps, policy).value)
  }

  /**
    Whatever sessions die or are silently replaced, whoever runs the scheduler
    without the lock has not yet finished a heartbeat since the loss: in every
    run, exactly when nothing calls the gate during a release.
   */
  lemma LossesAreContained(n: nat, policy: Policy)
    requires n >= 1
    ensures LossesContained(n, policy) <==> !policy.strayInRelease
  {
    if policy.strayInRelease {
      var steps, s := TakesOver(n, [], Initial(n), 0, policy);
      steps, s := RestartsInRelease(n, steps, s, 0, policy);
      assert s.processes[0] == Process(false, Closed, Some(0), true, 1, false);
      assert !Contained(s);
    } else {
      forall steps | Run(n, steps, policy).Some? ensures Contained(Run(n, steps, policy).value) {
        RunIsContained(n, steps, policy);
      }
    }
  }

  predicate Stopped(p: Process) {
    !p.running && p.connection.None? && p.jobs == 0 && !p.lossUnseen && p.phase.Resting?
  }

  /** The last event of a heartbeat: the lock was confirmed, or the release that follows a failure is over. */
  predicate Finishes(e: Event) { e.HeartbeatHeld? || e.Forget? }

  /** The process has a loss to see, and the event ends its heartbeat. */
  predicate SeesLoss(s: State, pid: nat, e: Event, policy: Policy) {
    Enabled(s, Of(pid, e), policy) && s.processes[pid].lossUnseen && Finishes(e)
  }

  lemma {:induction false} NothingLost(n: nat, steps: seq<Step>, policy: Policy)
    requires Run(n, steps, policy).Some? && !policy.losses
    ensures forall i | 0 <= i < |Run(n, steps, policy).value.processes| ::
              !Run(n, steps, policy).value.processes[i].lossUnseen
  {
    if steps != [] {
      NothingLost(n, steps[..|steps| - 1], policy);
    }
  }

  ghost predicate HeartbeatsStop(n: nat, policy: Policy) {
    forall steps, pid: nat, e |
      Run(n, steps, policy).Some? && SeesLoss(Run(n, steps, policy).value, pid, e, policy) ::
      Stopped(After(Run(n, steps, policy).value, Of(pid, e)).processes[pid])
  }

  /**
    A heartbeat that ends after a loss leaves no scheduler, no job and no
    recorded connection behind: in every run, exactly when losses do not come
    together with calls of the gate during a release.
   */
  lemma HeartbeatAfterLossStops(n: nat, policy: Policy)
    requires n >= 1
    ensures HeartbeatsStop(n, policy) <==> !(policy.losses && policy.strayInRelease)
  {
    if policy.losses && policy.strayInRelease {
      var steps, s := TakesOver(n, [], Initial(n), 0, policy);
      steps, s := Take(n, steps, s, Of(0, SessionLost), policy);
      steps, s := RestartsInRelease(n, steps, s, 0, policy);
      assert s.processes[0] == Process(false, Closed, Some(0), true, 1, true);
      assert SeesLoss(s, 0, Forget, policy) && !Stopped(After(s, Of(0, Forget)).processes[0]);
    } else {
      forall steps, pid: nat, e |
        Run(n, steps, policy).Some? && SeesLoss(Run(n, steps, policy).value, pid, e, policy)
        ensures Stopped(After(Run(n, steps, policy).value, Of(pid, e)).processes[pid])
      {
        if policy.losses {
          RunKeepsWatched(n, steps, policy);
          assert Watched(Run(n, steps, policy).value, Run(n, steps, policy).value.processes[pid]);
        } else {
          NothingLost(n, steps, policy);
        }
      }
    }
  }
}
