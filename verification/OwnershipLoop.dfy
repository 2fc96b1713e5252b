/**
  The procedures of app/scheduler_ownership.py as they update one process's
  globals and one database. Each is shown to be a path of the transition system
  in SchedulerOwnership, so what holds of its runs holds of every interleaving
  of these procedures.
*/
module OwnershipLoop {
  import opened Basics
  import opened SchedulerOwnership

  /** Nothing outside the procedures interferes: no session is lost and no stray call is made. */
  const UNDISTURBED := Policy(false, false)

  /** The events are possible for the process one after the other, and lead from s to t. */
  predicate Path(s: State, pid: nat, events: seq<Event>, t: State)
    decreases |events|
  {
    if events == [] then s == t
    else
      && pid < |s.processes| && EnabledFor(s, s.processes[pid], events[0], UNDISTURBED)
      && Path(After(s, Of(pid, events[0])), pid, events[1..], t)
  }

  lemma {:induction false} PathExtends(s: State, pid: nat, events: seq<Event>, t: State, e: Event)
    requires Path(s, pid, events, t) && pid < |t.processes| && EnabledFor(t, t.processes[pid], e, UNDISTURBED)
    ensures Path(s, pid, events + [e], After(t, Of(pid, e)))
    decreases |events|
  {
    if events == [] {
      assert [e][1..] == [];
    } else {
      PathExtends(After(s, Of(pid, events[0])), pid, events[1..], t, e);
      assert (events + [e])[1..] == events[1..] + [e];
    }
  }

  function StepsOf(pid: nat, events: seq<Event>): (steps: seq<Step>)
    ensures |steps| == |events|
  {
    seq(|events|, i requires 0 <= i < |events| => Of(pid, events[i]))
  }

  lemma RunExtends(n: nat, steps: seq<Step>, s: State, step: Step)
    requires Run(n, steps, UNDISTURBED) == Some(s) && Enabled(s, step, UNDISTURBED)
    ensures Run(n, steps + [step], UNDISTURBED) == Some(After(s, step))
  {
    assert (steps + [step])[..|steps|] == steps;
  }

  /** A procedure's path continues any run in which it starts: the procedures only do what the system may do. */
  lemma {:induction false} PathIsRun(n: nat, steps: seq<Step>, s: State, pid: nat, events: seq<Event>, t: State)
    requires Run(n, steps, UNDISTURBED) == Some(s) && Path(s, pid, events, t)
    ensures Run(n, steps + StepsOf(pid, events), UNDISTURBED) == Some(t)
    decreases |events|
  {
    if events == [] {
      assert steps + StepsOf(pid, events) == steps;
    } else {
      RunExtends(n, steps, s, Of(pid, events[0]));
      PathIsRun(n, steps + [Of(pid, events[0])], After(s, Of(pid, events[0])), pid, events[1..], t);
      assert steps + StepsOf(pid, events) == steps + [Of(pid, events[0])] + StepsOf(pid, events[1..]);
    }
  }

  /** So processes that only run these procedures never overlap jobs, whichever of them hands over to which. */
  lemma ProceduresNeverOverlap(n: nat, steps: seq<Step>, s: State, pid: nat, events: seq<Event>, t: State)
    requires Run(n, steps, UNDISTURBED) == Some(s) && Path(s, pid, events, t)
    ensures NoOverlap(t)
  {
    PathIsRun(n, steps, s, pid, events, t);
    RunKeepsGuarded(n, steps + StepsOf(pid, events), UNDISTURBED);
    GuardedExcludesOverlap(t);
  }

  /** Advisory-lock side of the database. */
  class Database {
    var open: set<Session>
    var holder: Option<Session>
    var nextSession: Session

    constructor ()
      ensures open == {} && holder == None && nextSession == 0
    {
      open, holder, nextSession := {}, None, 0;
    }

    /** try_acquire_scheduler_lock: a detached session that holds the lock, or none. */
    method TryAcquire() returns (connection: Option<Session>)
      modifies this
      ensures connection == if old(holder).None? then Some(old(nextSession)) else None
      ensures if old(holder).None? then
                open == old(open) + {old(nextSession)} && holder == connection && nextSession == old(nextSession) + 1
              else open == old(open) && holder == old(holder) && nextSession == old(nextSession)
    {
      if holder.Some? {
        return None;
      }
      connection := Some(nextSession);
      open, holder, nextSession := open + {nextSession}, Some(nextSession), nextSession + 1;
    }

    /** Closing a detached connection ends its session and with it the lock. */
    method Close(session: Session)
      modifies this
      ensures open == old(open) - {session} && nextSession == old(nextSession)
      ensures holder == if old(holder) == Some(session) then None else old(holder)
    {
      open := open - {session};
      if holder == Some(session) {
        holder := None;
      }
    }
  }

  class OwnerProcess {
    const database: Database
    var looping: bool
    var connection: Option<Session>
    var running: bool
    var jobs: nat
    ghost var lossUnseen: bool

    constructor (database: Database)
      ensures this.database == database && View() == NEW
    {
      this.database := database;
      looping, connection, running, jobs, lossUnseen := false, None, false, 0, false;
    }

    /** The process between two turns of its loop. */
    ghost function View(): Process
      reads this
    {
      Process(looping, Resting, connection, running, jobs, lossUnseen)
    }

    /** The process and its database are the ones of the system state. */
    ghost predicate IsIn(s: State, pid: nat)
      reads this, database
    {
      && pid < |s.processes| && s.processes[pid] == View()
      && s.open == database.open && s.holder == database.holder && s.nextSession == database.nextSession
    }

    /** init_scheduled_tasks: refused without the recorded connection, nothing to do while running. */
    method InitScheduledTasks()
      modifies this`running
      ensures running == (old(running) || connection.Some?)
    {
      if connection.None? {
        return;
      }
      running := true;
    }

    /** Inside the procedures, between two of their actions. */
    ghost predicate IsAt(s: State, pid: nat, phase: Phase)
      reads this, database
    {
      && pid < |s.processes| && s.processes[pid] == View().(phase := phase)
      && s.open == database.open && s.holder == database.holder && s.nextSession == database.nextSession
    }

    /** scheduler.shutdown(wait=True): no new jobs, and the jobs in flight are waited for. */
    method ShutDownAndWait(ghost s: State, ghost pid: nat, ghost events: seq<Event>, ghost begun: State)
      returns (ghost path: seq<Event>, ghost t: State)
      requires running && pid < |begun.processes| && begun.processes[pid] == ReleaseBegun(View())
      requires begun.open == database.open && begun.holder == database.holder
      requires begun.nextSession == database.nextSession
      requires Path(s, pid, events, begun)
      modifies this`running, this`jobs
      ensures Path(s, pid, path, t) && IsAt(t, pid, Drained) && !running && jobs == 0
    {
      path, t := events, begun;
      running := false;
      while jobs > 0
        invariant IsAt(t, pid, Draining) && Path(s, pid, path, t) && !running
      {
        jobs := jobs - 1;
        PathExtends(s, pid, path, t, JobEnds);
        path, t := path + [JobEnds], After(t, Of(pid, JobEnds));
      }
      PathExtends(s, pid, path, t, JobsFinish);
      path, t := path + [JobsFinish], After(t, Of(pid, JobsFinish));
    }

    /** Ends the session of the recorded connection, and with it the lock; then forgets it. */
    method CloseAndForget(ghost s: State, ghost pid: nat, ghost events: seq<Event>, ghost drained: State)
      returns (ghost path: seq<Event>, ghost t: State)
      requires IsAt(drained, pid, Drained) && Path(s, pid, events, drained)
      modifies this`connection, this`lossUnseen, database
      ensures Path(s, pid, path, t) && IsIn(t, pid) && connection == None
      ensures old(connection).Some? ==> database.holder != old(connection) && old(connection).value !in database.open
    {
      PathExtends(s, pid, events, drained, CloseConnection);
      path, t := events + [CloseConnection], After(drained, Of(pid, CloseConnection));
      if connection.Some? {
        database.Close(connection.value);
      }
      PathExtends(s, pid, path, t, Forget);
      path, t := path + [Forget], After(t, Of(pid, Forget));
      connection := None;
      lossUnseen := false;
    }

    /** _release_ownership, from the state in which the release has just begun. */
    method ReleaseOwnership(ghost s: State, ghost pid: nat, ghost events: seq<Event>, ghost begun: State)
      returns (ghost path: seq<Event>, ghost t: State)
      requires pid < |begun.processes| && begun.processes[pid] == ReleaseBegun(View())
      requires begun.open == database.open && begun.holder == database.holder
      requires begun.nextSession == database.nextSession
      requires Path(s, pid, events, begun)
      modifies this, database
      ensures Path(s, pid, path, t) && IsIn(t, pid)
      ensures looping == old(looping) && !running && connection == None && (old(running) ==> jobs == 0)
      ensures old(connection).Some? ==> database.holder != old(connection) && old(connection).value !in database.open
    {
      path, t := events, begun;
      if running {
        path, t := ShutDownAndWait(s, pid, events, begun);
      }
      path, t := CloseAndForget(s, pid, path, t);
    }

    /** Once the connection is recorded: start the scheduler, or give everything back if that fails. */
    method StartRecorded(ghost s: State, ghost pid: nat, ghost events: seq<Event>, ghost recorded: State,
                         startFails: bool, started: bool)
      returns (ghost path: seq<Event>, ghost t: State)
      requires connection.Some? && IsAt(recorded, pid, Recorded) && Path(s, pid, events, recorded)
      modifies this, database
      ensures Path(s, pid, path, t) && IsIn(t, pid) && looping == old(looping)
      ensures connection == if startFails then None else old(connection)
      ensures !startFails ==> running && database.holder == old(database.holder) && database.open == old(database.open)
    {
      if startFails {
        PathExtends(s, pid, events, recorded, StartFails(started));
        ghost var begun := After(recorded, Of(pid, StartFails(started)));
        if started {
          InitScheduledTasks();
        }
        path, t := ReleaseOwnership(s, pid, events + [StartFails(started)], begun);
      } else {
        InitScheduledTasks();
        PathExtends(s, pid, events, recorded, StartScheduler);
        path, t := events + [StartScheduler], After(recorded, Of(pid, StartScheduler));
      }
    }

    /** A turn without a connection: try for the lock, record it, start; a failed start gives the lock back. */
    method AcquireAndStart(ghost s: State, ghost pid: nat, startFails: bool, started: bool)
      returns (ghost path: seq<Event>, ghost t: State)
      requires looping && connection.None? && IsIn(s, pid)
      modifies this, database
      ensures Path(s, pid, path, t) && IsIn(t, pid) && looping
      ensures connection == if old(database.holder).None? && !startFails then Some(s.nextSession) else None
      ensures connection.Some? ==> running && database.holder == connection && connection.value in database.open
    {
      path, t := [], s;
      connection := database.TryAcquire();
      if connection.Some? {
        PathExtends(s, pid, path, t, Acquire);
        path, t := path + [Acquire], After(t, Of(pid, Acquire));
        PathExtends(s, pid, path, t, Record);
        path, t := path + [Record], After(t, Of(pid, Record));
        path, t := StartRecorded(s, pid, path, t, startFails, started);
      }
    }

    /** A turn with a connection: go on while the lock is held, and release everything otherwise. */
    method Heartbeat(ghost s: State, ghost pid: nat, answered: bool) returns (ghost path: seq<Event>, ghost t: State)
      requires looping && connection.Some? && IsIn(s, pid)
      modifies this, database
      ensures Path(s, pid, path, t) && IsIn(t, pid) && looping
      ensures if answered && Holds(s, s.processes[pid]) then connection == old(connection) && running == old(running)
              else connection.None? && !running && (old(running) ==> jobs == 0)
    {
      if answered && connection.value in database.open && database.holder == connection {
        PathExtends(s, pid, [], s, HeartbeatHeld);
        path, t := [HeartbeatHeld], After(s, Of(pid, HeartbeatHeld));
        lossUnseen := false;
      } else {
        PathExtends(s, pid, [], s, HeartbeatFails);
        path, t := ReleaseOwnership(s, pid, [HeartbeatFails], After(s, Of(pid, HeartbeatFails)));
      }
    }

    /**
      One turn of _ownership_loop. A query may go unanswered, and a start may fail
      before or after the scheduler runs.
     */
    method LoopTurn(ghost s: State, ghost pid: nat, answered: bool, startFails: bool, started: bool)
      returns (ghost path: seq<Event>, ghost t: State)
      requires looping && IsIn(s, pid)
      modifies this, database
      ensures Path(s, pid, path, t) && IsIn(t, pid) && looping
      ensures old(connection).None? ==>
                connection ==
                  if answered && old(database.holder).None? && !startFails then Some(s.nextSession) else None
      ensures old(connection).None? && connection.Some? ==> running
      ensures old(connection).Some? ==>
                if answered && Holds(s, s.processes[pid]) then connection == old(connection) && running == old(running)
                else connection.None? && !running && (old(running) ==> jobs == 0)
    {
      path, t := [], s;
      if connection.Some? {
        path, t := Heartbeat(s, pid, answered);
      } else if answered {
        path, t := AcquireAndStart(s, pid, startFails, started);
      }
    }

    /** start_scheduler_when_owner: one loop at most. */
    method StartSchedulerWhenOwner(ghost s: State, ghost pid: nat) returns (ghost path: seq<Event>, ghost t: State)
      requires IsIn(s, pid)
      modifies this`looping
      ensures Path(s, pid, path, t) && IsIn(t, pid) && looping
    {
      path, t := [], s;
      if !looping {
        PathExtends(s, pid, path, t, StartLoop);
        path, t := path + [StartLoop], After(t, Of(pid, StartLoop));
        looping := true;
      }
    }

    /** stop_scheduler_ownership, once the loop thread has ended. */
    method StopSchedulerOwnership(ghost s: State, ghost pid: nat) returns (ghost path: seq<Event>, ghost t: State)
      requires IsIn(s, pid)
      modifies this, database
      ensures Path(s, pid, path, t) && IsIn(t, pid)
      ensures !looping && !running && connection == None && (old(running) ==> jobs == 0)
    {
      PathExtends(s, pid, [], s, Stop);
      looping := false;
      path, t := ReleaseOwnership(s, pid, [Stop], After(s, Of(pid, Stop)));
    }
  }
}
