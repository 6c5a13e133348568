/**
 Any number of processes opening one database file at once.

 Each opener reads the version outside any lock, plans its transactions, and runs them one by
 one. A transaction takes the write lock, re-reads the version, works on a private copy one
 statement at a time, and publishes the copy on commit. Openers interleave at every single
 statement; any of them may fail or crash at any point, which rolls its transaction back.
 */
module OpenProtocol {
  import opened Wrappers
  import opened Schema

  type Pid = nat

  datatype Cause = LostToEnvironment | StatementRefused | VersionUnknown | RefusedReadOnly

  datatype Phase =
    | Connected(createdAt: string)
    | Planned(tasks: seq<Task>)
    | Locked(task: Task, rest: seq<Task>)
    | Writing(task: Task, rest: seq<Task>, working: Database, done: nat)
    | Opened
    | Viewing
    | Failed(error: Error, cause: Cause)
    | Crashed

  /** `log` records the committed transactions, oldest first. */
  datatype State = State(file: Database, lock: Option<Pid>, openers: map<Pid, Phase>, log: seq<Task>)

  datatype Event =
    | Arrive(p: Pid, createdAt: string)
    | View(p: Pid)
    | ReadVersion(p: Pid)
    | Begin(p: Pid)
    | Recheck(p: Pid)
    | Write(p: Pid)
    | Commit(p: Pid)
    | Finish(p: Pid)
    | Fault(p: Pid)
    | Crash(p: Pid)

  /** `s` with opener `p` moved to `phase`; `p` gives up the lock if it holds it. */
  function Leave(s: State, p: Pid, phase: Phase): State {
    s.(openers := s.openers[p := phase], lock := if s.lock == Some(p) then None else s.lock)
  }

  function Move(s: State, p: Pid, phase: Phase): State {
    s.(openers := s.openers[p := phase])
  }

  predicate Alive(s: State, p: Pid) {
    p in s.openers && !s.openers[p].Opened? && !s.openers[p].Viewing? && !s.openers[p].Failed? && !s.openers[p].Crashed?
  }

  function ErrorAt(phase: Phase): Error {
    match phase
    case Planned(tasks) => if tasks == [] then SqliteFailure else FailureOf(tasks[0])
    case Locked(task, _) => FailureOf(task)
    case Writing(task, _, _, _) => FailureOf(task)
    case _ => SqliteFailure
  }

  /** A read-only open: one read of the version, no transaction. */
  function DoView(s: State, p: Pid): State {
    match OpenReadOnly(s.file)
    case Ok(_) => Move(s, p, Viewing)
    case Err(e) => Move(s, p, Failed(e, RefusedReadOnly))
  }

  function DoRead(s: State, p: Pid, createdAt: string): State {
    match Plan(ReadFormatVersion(s.file), createdAt)
    case Ok(tasks) => Move(s, p, Planned(tasks))
    case Err(e) => Move(s, p, Failed(e, VersionUnknown))
  }

  function DoBegin(s: State, p: Pid, tasks: seq<Task>): State {
    if tasks == [] || s.lock.Some? then s
    else Move(s, p, Locked(tasks[0], tasks[1..])).(lock := Some(p))
  }

  function DoRecheck(s: State, p: Pid, task: Task, rest: seq<Task>): State {
    if Guard(task, s.file) then Move(s, p, Writing(task, rest, s.file, 0))
    else Leave(s, p, Planned(rest))
  }

  function DoWrite(s: State, p: Pid, phase: Phase): State
    requires phase.Writing?
  {
    if phase.done >= |Actions(phase.task)| then s
    else
      match Perform(Actions(phase.task)[phase.done], phase.working)
      case Some(next) => Move(s, p, phase.(working := next, done := phase.done + 1))
      case None => Leave(s, p, Failed(FailureOf(phase.task), StatementRefused))
  }

  function DoCommit(s: State, p: Pid, phase: Phase): State
    requires phase.Writing?
  {
    if phase.done < |Actions(phase.task)| then s
    else Leave(s, p, Planned(phase.rest)).(file := phase.working, log := s.log + [phase.task])
  }

  /** One event; an event that is not enabled leaves the state as it is. */
  function Step(s: State, event: Event): State {
    var p := event.p;
    if event.Arrive? then
      if p in s.openers then s else Move(s, p, Connected(event.createdAt))
    else if !Alive(s, p) then s
    else
      var phase := s.openers[p];
      match event
      case View(_) => if phase.Connected? then DoView(s, p) else s
      case ReadVersion(_) => if phase.Connected? then DoRead(s, p, phase.createdAt) else s
      case Begin(_) => if phase.Planned? then DoBegin(s, p, phase.tasks) else s
      case Recheck(_) => if phase.Locked? then DoRecheck(s, p, phase.task, phase.rest) else s
      case Write(_) => if phase.Writing? then DoWrite(s, p, phase) else s
      case Commit(_) => if phase.Writing? then DoCommit(s, p, phase) else s
      case Finish(_) => if phase.Planned? && phase.tasks == [] then Move(s, p, Opened) else s
      case Fault(_) => Leave(s, p, Failed(ErrorAt(phase), LostToEnvironment))
      case Crash(_) => Leave(s, p, Crashed)
  }

  function Run(s: State, events: seq<Event>): State {
    if events == [] then s else Step(Run(s, events[..|events| - 1]), events[|events| - 1])
  }

  function Untouched(file: Database): State {
    State(file, None, map[], [])
  }

  /******* The inductive invariant *******/

  function LevelOf(db: Database): Level {
    match ReadFormatVersion(db)
    case None => 0
    case Some(v) => if v == "1" then 1 else if v == "2" then 2 else if v == "3" then 3 else 4
  }

  lemma LevelOfIsAt(db: Database, level: Level)
    requires IsAt(db, level)
    ensures LevelOf(db) == level
  {
    VersionGivesLevel(db, level);
    assert "1"[0] == '1' && "2"[0] == '2' && "3"[0] == '3' && "4"[0] == '4';
  }

  /** A plan made when the file was at `from` still makes sense now that it is at `level`. */
  predicate Behind(from: Level, level: Level) {
    from <= level && (from == 0 ==> level == 0 || level == 4)
  }

  ghost predicate PlanOk(tasks: seq<Task>, level: Level) {
    exists from: Level, createdAt :: tasks == PlanFrom(from, createdAt) && Behind(from, level)
  }

  ghost predicate PhaseOk(phase: Phase, p: Pid, s: State) {
    var level := LevelOf(s.file);
    match phase
    case Connected(_) => true
    case Planned(tasks) => PlanOk(tasks, level)
    case Locked(task, rest) => s.lock == Some(p) && PlanOk([task] + rest, level)
    case Writing(task, rest, working, done) =>
      && s.lock == Some(p) && PlanOk([task] + rest, level) && Guard(task, s.file)
      && done <= |Actions(task)| && PerformAll(Actions(task)[..done], s.file) == Some(working)
    case Opened => level == 4
    case Viewing => level == 4
    case Failed(_, cause) => cause == LostToEnvironment || cause == RefusedReadOnly
    case Crashed => true
  }

  /** `log` is the chain of tasks that lead from level `start` to `level`. */
  ghost predicate Chain(start: Level, log: seq<Task>, level: Level)
    decreases |log|
  {
    if log == [] then start == level
    else
      exists before: Level ::
        && Chain(start, log[..|log| - 1], before)
        && before < 4 && level == TargetLevel(before) && IsTaskFor(before, log[|log| - 1])
  }

  ghost predicate IsTaskFor(level: Level, task: Task)
    requires level < 4
  {
    exists createdAt :: task == TaskFor(level, createdAt)
  }

  /** The file is intact and is the serial result of the committed transactions. */
  ghost predicate FileOk(file: Database, log: seq<Task>, start: Database) {
    && IsAt(start, LevelOf(start)) && IsAt(file, LevelOf(file))
    && Chain(LevelOf(start), log, LevelOf(file))
    && RunPlan(log, start) == (file, Ok(()))
  }

  ghost predicate OpenersOk(s: State) {
    && (forall p :: p in s.openers ==> PhaseOk(s.openers[p], p, s))
    && (s.lock.Some? ==> s.lock.value in s.openers && HoldsLock(s.openers[s.lock.value]))
  }

  ghost predicate Inv(s: State, start: Database) {
    FileOk(s.file, s.log, start) && OpenersOk(s)
  }

  predicate HoldsLock(phase: Phase) {
    phase.Locked? || phase.Writing?
  }

  /******* Every event keeps the invariant *******/

  lemma {:induction false} InitiallyInv(start: Database, level: Level)
    requires IsAt(start, level)
    ensures Inv(Untouched(start), start)
  {
    LevelOfIsAt(start, level);
  }

  /** Moving an opener between phases that hold no lock. */
  lemma {:induction false} LeaveKeepsInv(s: State, start: Database, p: Pid, phase: Phase)
    requires Inv(s, start) && !HoldsLock(phase) && PhaseOk(phase, p, s)
    ensures Inv(Leave(s, p, phase), start)
  {
    var next := Leave(s, p, phase);
    forall q | q in next.openers
      ensures PhaseOk(next.openers[q], q, next)
    {
      if q != p { assert PhaseOk(s.openers[q], q, s); }
    }
  }

  lemma {:induction false} PlanSplits(tasks: seq<Task>, level: Level)
    requires PlanOk(tasks, level)
    ensures tasks == [] ==> level == 4
    ensures tasks != [] ==> exists from: Level ::
                from < 4 && IsTaskFor(from, tasks[0]) && Behind(from, level) && PlanOk(tasks[1..], TargetLevel(from))
    ensures tasks != [] ==> [tasks[0]] + tasks[1..] == tasks
  {
    var from: Level, createdAt :| tasks == PlanFrom(from, createdAt) && Behind(from, level);
    if from < 4 {
      assert tasks[0] == TaskFor(from, createdAt);
      assert tasks[1..] == PlanFrom(TargetLevel(from), createdAt);
      assert Behind(TargetLevel(from), TargetLevel(from));
    } else {
      assert tasks == [];
    }
  }

  lemma {:induction false} PlanStaysOk(tasks: seq<Task>, level: Level, later: Level)
    requires PlanOk(tasks, level) && level <= later && (level == 0 ==> later == 0 || later == 4)
    ensures PlanOk(tasks, later)
  {
    var from: Level, createdAt :| tasks == PlanFrom(from, createdAt) && Behind(from, level);
    assert Behind(from, later);
  }

  lemma {:induction false} BeginKeepsInv(s: State, start: Database, p: Pid)
    requires Inv(s, start) && p in s.openers && s.openers[p].Planned?
    ensures Inv(DoBegin(s, p, s.openers[p].tasks), start)
  {
    var tasks := s.openers[p].tasks;
    if tasks != [] && s.lock.None? {
      var next := DoBegin(s, p, tasks);
      assert PhaseOk(s.openers[p], p, s);
      PlanSplits(tasks, LevelOf(s.file));
      forall q | q in next.openers
        ensures PhaseOk(next.openers[q], q, next)
      {
        if q != p { assert PhaseOk(s.openers[q], q, s); }
      }
    }
  }

  /** A guard that fails after the lock is taken means another opener already did this task. */
  lemma {:induction false} SkippedTask(s: State, task: Task, rest: seq<Task>)
    requires IsAt(s.file, LevelOf(s.file)) && PlanOk([task] + rest, LevelOf(s.file)) && !Guard(task, s.file)
    ensures PlanOk(rest, LevelOf(s.file))
  {
    var level := LevelOf(s.file);
    PlanSplits([task] + rest, level);
    assert ([task] + rest)[1..] == rest;
    var from: Level :| from < 4 && IsTaskFor(from, task) && Behind(from, level) && PlanOk(rest, TargetLevel(from));
    var createdAt :| task == TaskFor(from, createdAt);
    if from == level { TaskReachesTarget(s.file, level, createdAt); }
    PlanStaysOk(rest, TargetLevel(from), level);
  }

  lemma {:induction false} RecheckKeepsInv(s: State, start: Database, p: Pid)
    requires Inv(s, start) && p in s.openers && s.openers[p].Locked?
    ensures Inv(DoRecheck(s, p, s.openers[p].task, s.openers[p].rest), start)
  {
    var Locked(task, rest) := s.openers[p];
    assert PhaseOk(s.openers[p], p, s);
    if Guard(task, s.file) {
      var next := DoRecheck(s, p, task, rest);
      assert Actions(task)[..0] == [];
      forall q | q in next.openers
        ensures PhaseOk(next.openers[q], q, next)
      {
        if q != p { assert PhaseOk(s.openers[q], q, s); }
      }
    } else {
      SkippedTask(s, task, rest);
      LeaveKeepsInv(s, start, p, Planned(rest));
    }
  }

  /** A guard that holds identifies the transaction's level as the file's, so the whole transaction succeeds. */
  lemma {:induction false} GuardedTask(file: Database, task: Task, rest: seq<Task>)
    requires IsAt(file, LevelOf(file)) && PlanOk([task] + rest, LevelOf(file)) && Guard(task, file)
    ensures LevelOf(file) < 4 && IsTaskFor(LevelOf(file), task) && PlanOk(rest, TargetLevel(LevelOf(file)))
    ensures RunTask(task, file).Ok? && PerformAll(Actions(task), file) == Some(RunTask(task, file).value)
    ensures IsAt(RunTask(task, file).value, TargetLevel(LevelOf(file)))
  {
    var level := LevelOf(file);
    PlanSplits([task] + rest, level);
    assert ([task] + rest)[1..] == rest;
    var from: Level :| from < 4 && IsTaskFor(from, task) && Behind(from, level) && PlanOk(rest, TargetLevel(from));
    var createdAt :| task == TaskFor(from, createdAt);
    if from != level { TaskSkipsOtherLevels(file, level, from, createdAt); }
    TaskReachesTarget(file, level, createdAt);
  }

  /** No statement of a guarded transaction is ever refused. */
  lemma {:induction false} NextWriteSucceeds(file: Database, task: Task, rest: seq<Task>, working: Database, done: nat)
    requires IsAt(file, LevelOf(file)) && PlanOk([task] + rest, LevelOf(file)) && Guard(task, file)
    requires done < |Actions(task)| && PerformAll(Actions(task)[..done], file) == Some(working)
    ensures Perform(Actions(task)[done], working).Some?
    ensures PerformAll(Actions(task)[..done + 1], file) == Perform(Actions(task)[done], working)
  {
    GuardedTask(file, task, rest);
    PerformOneMore(Actions(task), done, file);
    if Perform(Actions(task)[done], working).None? {
      ActionsStopAt(Actions(task), done, file);
    }
  }

  lemma {:induction false} WriteKeepsInv(s: State, start: Database, p: Pid)
    requires Inv(s, start) && p in s.openers && s.openers[p].Writing?
    ensures Inv(DoWrite(s, p, s.openers[p]), start)
  {
    var Writing(task, rest, working, done) := s.openers[p];
    assert PhaseOk(s.openers[p], p, s);
    if done < |Actions(task)| {
      NextWriteSucceeds(s.file, task, rest, working, done);
      var next := DoWrite(s, p, s.openers[p]);
      forall q | q in next.openers
        ensures PhaseOk(next.openers[q], q, next)
      {
        if q != p { assert PhaseOk(s.openers[q], q, s); }
      }
    }
  }

  lemma {:induction false} RunPlanExtends(log: seq<Task>, task: Task, start: Database, middle: Database)
    requires RunPlan(log, start) == (middle, Ok(())) && RunTask(task, middle).Ok?
    ensures RunPlan(log + [task], start) == (RunTask(task, middle).value, Ok(()))
  {
    if log == [] {
      assert [task][1..] == [];
      assert RunPlan([task], start) == RunPlan([], RunTask(task, start).value);
      assert log + [task] == [task];
    } else {
      assert (log + [task])[1..] == log[1..] + [task];
      RunPlanExtends(log[1..], task, RunTask(log[0], start).value, middle);
    }
  }

  /** Publishing is atomic: the file becomes what the whole task makes of the file as it is now. */
  lemma {:induction false} CommitIsAtomic(s: State, start: Database, p: Pid)
    requires Inv(s, start) && p in s.openers && s.openers[p].Writing?
    requires s.openers[p].done == |Actions(s.openers[p].task)|
    ensures Guard(s.openers[p].task, s.file) && LevelOf(s.file) < 4
    ensures RunTask(s.openers[p].task, s.file) == Ok(DoCommit(s, p, s.openers[p]).file)
    ensures IsAt(DoCommit(s, p, s.openers[p]).file, TargetLevel(LevelOf(s.file)))
  {
    var Writing(task, rest, working, done) := s.openers[p];
    assert PhaseOk(s.openers[p], p, s);
    GuardedTask(s.file, task, rest);
    assert Actions(task)[..done] == Actions(task);
  }

  lemma {:induction false} LogExtends(file: Database, log: seq<Task>, start: Database, task: Task)
    requires FileOk(file, log, start) && LevelOf(file) < 4 && IsTaskFor(LevelOf(file), task)
    requires RunTask(task, file).Ok? && IsAt(RunTask(task, file).value, TargetLevel(LevelOf(file)))
    ensures FileOk(RunTask(task, file).value, log + [task], start)
  {
    LevelOfIsAt(RunTask(task, file).value, TargetLevel(LevelOf(file)));
    RunPlanExtends(log, task, start, file);
    assert (log + [task])[..|log + [task]| - 1] == log;
  }

  /** What the other openers planned still makes sense after a commit. */
  lemma {:induction false} OthersAfterCommit(s: State, next: State, p: Pid)
    requires OpenersOk(s) && s.lock == Some(p) && next.lock == None
    requires p in next.openers && next.openers[p].Planned? && next.openers == s.openers[p := next.openers[p]]
    requires LevelOf(s.file) < 4 && LevelOf(next.file) == TargetLevel(LevelOf(s.file))
    requires PlanOk(next.openers[p].tasks, LevelOf(next.file))
    ensures OpenersOk(next)
  {
    forall q | q in next.openers
      ensures PhaseOk(next.openers[q], q, next)
    {
      if q != p {
        assert PhaseOk(s.openers[q], q, s);
        if s.openers[q].Planned? { PlanStaysOk(s.openers[q].tasks, LevelOf(s.file), LevelOf(next.file)); }
      }
    }
  }

  lemma {:induction false} CommitKeepsInv(s: State, start: Database, p: Pid)
    requires Inv(s, start) && p in s.openers && s.openers[p].Writing?
    ensures Inv(DoCommit(s, p, s.openers[p]), start)
  {
    var phase := s.openers[p];
    assert PhaseOk(phase, p, s);
    if phase.done == |Actions(phase.task)| {
      var next := DoCommit(s, p, phase);
      CommitIsAtomic(s, start, p);
      GuardedTask(s.file, phase.task, phase.rest);
      LevelOfIsAt(next.file, TargetLevel(LevelOf(s.file)));
      LogExtends(s.file, s.log, start, phase.task);
      OthersAfterCommit(s, next, p);
    }
  }

  lemma {:induction false} ReadKeepsInv(s: State, start: Database, p: Pid)
    requires Inv(s, start) && p in s.openers && s.openers[p].Connected?
    ensures Inv(DoRead(s, p, s.openers[p].createdAt), start) && Inv(DoView(s, p), start)
  {
    var level := LevelOf(s.file);
    var createdAt := s.openers[p].createdAt;
    PlanIsPlanFrom(s.file, level, createdAt);
    VersionGivesLevel(s.file, level);
    assert Behind(level, level);
    assert "1"[0] == '1' && "2"[0] == '2' && "3"[0] == '3' && "4"[0] == '4';
    LeaveKeepsInv(s, start, p, Planned(PlanFrom(level, createdAt)));
    if OpenReadOnly(s.file).Ok? {
      LeaveKeepsInv(s, start, p, Viewing);
    } else {
      LeaveKeepsInv(s, start, p, Failed(OpenReadOnly(s.file).error, RefusedReadOnly));
    }
  }

  lemma {:induction false} StepKeepsInv(s: State, start: Database, event: Event)
    requires Inv(s, start)
    ensures Inv(Step(s, event), start)
  {
    var p := event.p;
    if event.Arrive? {
      if p !in s.openers { LeaveKeepsInv(s, start, p, Connected(event.createdAt)); }
    } else if Alive(s, p) {
      var phase := s.openers[p];
      match event
      case View(_) => if phase.Connected? { ReadKeepsInv(s, start, p); }
      case ReadVersion(_) => if phase.Connected? { ReadKeepsInv(s, start, p); }
      case Begin(_) => if phase.Planned? { BeginKeepsInv(s, start, p); }
      case Recheck(_) => if phase.Locked? { RecheckKeepsInv(s, start, p); }
      case Write(_) => if phase.Writing? { WriteKeepsInv(s, start, p); }
      case Commit(_) => if phase.Writing? { CommitKeepsInv(s, start, p); }
      case Finish(_) =>
        if phase.Planned? && phase.tasks == [] {
          assert PhaseOk(phase, p, s);
          PlanSplits(phase.tasks, LevelOf(s.file));
          LeaveKeepsInv(s, start, p, Opened);
        }
      case Fault(_) => LeaveKeepsInv(s, start, p, Failed(ErrorAt(phase), LostToEnvironment));
      case Crash(_) => LeaveKeepsInv(s, start, p, Crashed);
    }
  }

  lemma {:induction false} RunKeepsInv(start: Database, level: Level, events: seq<Event>)
    requires IsAt(start, level)
    ensures Inv(Run(Untouched(start), events), start)
    decreases |events|
  {
    if events == [] {
      InitiallyInv(start, level);
    } else {
      RunKeepsInv(start, level, events[..|events| - 1]);
      StepKeepsInv(Run(Untouched(start), events[..|events| - 1]), start, events[|events| - 1]);
    }
  }

  /******* What holds in every run *******/

  /**
   After any events whatever, the file holds exactly the schema of the version it records; every
   opener that reported success, writable or read-only, did so over the current schema and that
   is still the schema; and no opener ever failed because a statement was refused (no "table
   already exists") or because it met a version it does not know.
   */
  lemma EveryRunIsSafe(start: Database, level: Level, events: seq<Event>)
    requires IsAt(start, level)
    ensures var s := Run(Untouched(start), events);
            && IsAt(s.file, LevelOf(s.file))
            && (forall p :: p in s.openers && (s.openers[p].Opened? || s.openers[p].Viewing?) ==>
                  s.file.catalog == CATALOG_V4 && ReadFormatVersion(s.file) == Some(FORMAT_VERSION))
            && (forall p :: p in s.openers && s.openers[p].Failed? ==>
                  s.openers[p].cause == LostToEnvironment || s.openers[p].cause == RefusedReadOnly)
  {
    var s := Run(Untouched(start), events);
    RunKeepsInv(start, level, events);
    VersionGivesLevel(s.file, LevelOf(s.file));
    forall p | p in s.openers ensures PhaseOk(s.openers[p], p, s) {}
  }

  /** One event either leaves the file alone or is a commit of one whole transaction. */
  lemma {:induction false} StepOnFile(s: State, start: Database, event: Event)
    requires Inv(s, start)
    ensures var next := Step(s, event);
            || (next.file == s.file && next.log == s.log)
            || (&& event.Commit? && LevelOf(s.file) < 4 && LevelOf(next.file) == TargetLevel(LevelOf(s.file))
                && next.log == s.log + [next.log[|s.log|]] && RunTask(next.log[|s.log|], s.file) == Ok(next.file)
                && Guard(next.log[|s.log|], s.file))
  {
    var p := event.p;
    if event.Commit? && Alive(s, p) && s.openers[p].Writing? {
      assert PhaseOk(s.openers[p], p, s);
      if s.openers[p].done == |Actions(s.openers[p].task)| {
        CommitIsAtomic(s, start, p);
        LevelOfIsAt(Step(s, event).file, TargetLevel(LevelOf(s.file)));
      }
    }
  }

  /** The recorded version never decreases, and the log of committed transactions only grows. */
  lemma {:induction false} VersionNeverDecreases(start: Database, level: Level, events: seq<Event>, k: nat)
    requires IsAt(start, level) && k <= |events|
    ensures var earlier, later := Run(Untouched(start), events[..k]), Run(Untouched(start), events);
            LevelOf(earlier.file) <= LevelOf(later.file) && earlier.log <= later.log
    decreases |events|
  {
    if k == |events| {
      assert events[..k] == events;
    } else {
      var before := events[..|events| - 1];
      assert before[..k] == events[..k];
      VersionNeverDecreases(start, level, before, k);
      RunKeepsInv(start, level, before);
      StepOnFile(Run(Untouched(start), before), start, events[|events| - 1]);
    }
  }

  /** The level a task starts from. */
  function FromLevel(task: Task): nat {
    match task
    case Bootstrap(_) => 0
    case Migration(from, _, _) => if from == "1" then 1 else if from == "2" then 2 else 3
  }

  lemma {:induction false} ChainAscends(start: Level, log: seq<Task>, level: Level, i: nat)
    requires Chain(start, log, level) && i < |log|
    ensures start <= FromLevel(log[i]) < level
    ensures forall j :: i < j < |log| ==> FromLevel(log[i]) < FromLevel(log[j])
    decreases |log|
  {
    var before: Level :|
      && Chain(start, log[..|log| - 1], before)
      && before < 4 && level == TargetLevel(before) && IsTaskFor(before, log[|log| - 1]);
    assert "1"[0] == '1' && "2"[0] == '2' && "3"[0] == '3';
    assert FromLevel(log[|log| - 1]) == before;
    if i < |log| - 1 {
      ChainAscends(start, log[..|log| - 1], before, i);
      assert log[..|log| - 1][i] == log[i];
      forall j | i < j < |log| ensures FromLevel(log[i]) < FromLevel(log[j]) {
        if j < |log| - 1 { assert log[..|log| - 1][j] == log[j]; }
      }
    } else {
      ChainAtLeast(start, log[..|log| - 1], before);
    }
  }

  lemma {:induction false} ChainAtLeast(start: Level, log: seq<Task>, level: Level)
    requires Chain(start, log, level)
    ensures start <= level
    decreases |log|
  {
    if log != [] {
      var before: Level :| Chain(start, log[..|log| - 1], before) && before < 4 && level == TargetLevel(before);
      ChainAtLeast(start, log[..|log| - 1], before);
    }
  }

  /** No migration and no bootstrap is ever applied twice, however the openers interleave. */
  lemma EachTransactionAtMostOnce(start: Database, level: Level, events: seq<Event>, i: nat, j: nat)
    requires IsAt(start, level)
    requires i < j < |Run(Untouched(start), events).log|
    ensures var log := Run(Untouched(start), events).log; FromLevel(log[i]) < FromLevel(log[j])
  {
    RunKeepsInv(start, level, events);
    ChainAscends(LevelOf(start), Run(Untouched(start), events).log, LevelOf(Run(Untouched(start), events).file), i);
  }

  /**
   Interleaving buys nothing new: after any events the file is what the committed transactions,
   run one after another with nobody else present, make of the initial file.
   */
  lemma EveryRunIsSerial(start: Database, level: Level, events: seq<Event>)
    requires IsAt(start, level)
    ensures var s := Run(Untouched(start), events); RunPlan(s.log, start) == (s.file, Ok(()))
  {
    RunKeepsInv(start, level, events);
  }

  /******* Nobody is ever stuck *******/

  lemma {:induction false} RunOneMore(s: State, events: seq<Event>, event: Event)
    ensures Run(s, events + [event]) == Step(Run(s, events), event)
  {
    assert (events + [event])[..|events|] == events;
  }

  lemma {:induction false} RunAppend(s: State, first: seq<Event>, second: seq<Event>)
    ensures Run(s, first + second) == Run(Run(s, first), second)
    decreases |second|
  {
    if second == [] {
      assert first + second == first;
    } else {
      var shorter, last := second[..|second| - 1], second[|second| - 1];
      assert first + second == (first + shorter) + [last];
      RunAppend(s, first, shorter);
      RunOneMore(s, first + shorter, last);
    }
  }

  lemma {:induction false} RunCons(s: State, event: Event, rest: seq<Event>)
    ensures Run(s, [event] + rest) == Run(Step(s, event), rest)
  {
    assert Run(s, []) == s;
    RunOneMore(s, [], event);
    assert [] + [event] == [event];
    RunAppend(s, [event], rest);
  }

  /** Between transactions, with the lock free: what is left of an opener's plan. */
  predicate BetweenTransactions(s: State, p: Pid, rest: seq<Task>) {
    p in s.openers && s.openers[p] == Planned(rest) && s.lock == None
  }

  lemma {:induction false} CommitReleases(s: State, start: Database, p: Pid)
    requires Inv(s, start) && p in s.openers && s.openers[p].Writing?
    requires s.openers[p].done == |Actions(s.openers[p].task)|
    ensures BetweenTransactions(Step(s, Commit(p)), p, s.openers[p].rest)
  {
    assert PhaseOk(s.openers[p], p, s);
  }

  lemma {:induction false} WriteAdvances(s: State, start: Database, p: Pid)
    requires Inv(s, start) && p in s.openers && s.openers[p].Writing?
    requires s.openers[p].done < |Actions(s.openers[p].task)|
    ensures var t := Step(s, Write(p));
            && p in t.openers && t.openers[p].Writing? && t.openers[p].task == s.openers[p].task
            && t.openers[p].rest == s.openers[p].rest && t.openers[p].done == s.openers[p].done + 1
  {
    var Writing(task, rest, working, done) := s.openers[p];
    assert PhaseOk(s.openers[p], p, s);
    NextWriteSucceeds(s.file, task, rest, working, done);
  }

  /** Opener `p` finishing the transaction it is in. */
  lemma {:induction false} TransactionCompletes(s: State, start: Database, p: Pid) returns (events: seq<Event>)
    requires Inv(s, start) && p in s.openers && s.openers[p].Writing?
    requires s.openers[p].done <= |Actions(s.openers[p].task)|
    ensures Inv(Run(s, events), start) && BetweenTransactions(Run(s, events), p, s.openers[p].rest)
    decreases |Actions(s.openers[p].task)| - s.openers[p].done
  {
    if s.openers[p].done == |Actions(s.openers[p].task)| {
      CommitReleases(s, start, p);
      StepKeepsInv(s, start, Commit(p));
      events := [Commit(p)] + [];
      RunCons(s, Commit(p), []);
    } else {
      WriteAdvances(s, start, p);
      StepKeepsInv(s, start, Write(p));
      var tail := TransactionCompletes(Step(s, Write(p)), start, p);
      events := [Write(p)] + tail;
      RunCons(s, Write(p), tail);
    }
  }

  lemma {:induction false} LockTaken(s: State, p: Pid, tasks: seq<Task>)
    requires BetweenTransactions(s, p, tasks) && tasks != []
    ensures var t := Step(s, Begin(p));
            p in t.openers && t.openers[p] == Locked(tasks[0], tasks[1..]) && t.lock == Some(p)
  {
  }

  lemma {:induction false} GuardDecides(s: State, p: Pid, task: Task, rest: seq<Task>)
    requires p in s.openers && s.openers[p] == Locked(task, rest) && s.lock == Some(p)
    ensures var t := Step(s, Recheck(p));
            || BetweenTransactions(t, p, rest)
            || (p in t.openers && t.openers[p] == Writing(task, rest, s.file, 0))
  {
  }

  /** Opener `p` taking the first transaction of its plan from lock to unlock. */
  lemma {:induction false} TaskCompletes(s: State, start: Database, p: Pid, tasks: seq<Task>)
    returns (events: seq<Event>)
    requires Inv(s, start) && BetweenTransactions(s, p, tasks) && tasks != []
    ensures Inv(Run(s, events), start) && BetweenTransactions(Run(s, events), p, tasks[1..])
  {
    var locked := Step(s, Begin(p));
    LockTaken(s, p, tasks);
    StepKeepsInv(s, start, Begin(p));
    var checked := Step(locked, Recheck(p));
    GuardDecides(locked, p, tasks[0], tasks[1..]);
    StepKeepsInv(locked, start, Recheck(p));
    var during := [];
    assert Run(checked, []) == checked;
    if !BetweenTransactions(checked, p, tasks[1..]) {
      during := TransactionCompletes(checked, start, p);
    }
    RunCons(locked, Recheck(p), during);
    RunCons(s, Begin(p), [Recheck(p)] + during);
    events := [Begin(p)] + ([Recheck(p)] + during);
  }

  /** Opener `p` working through its plan while the lock is free. */
  lemma {:induction false} PlanCompletes(s: State, start: Database, p: Pid, tasks: seq<Task>)
    returns (events: seq<Event>)
    requires Inv(s, start) && BetweenTransactions(s, p, tasks)
    ensures OpensAfter(s, events, p)
    decreases |tasks|
  {
    if tasks == [] {
      events := [Finish(p)] + [];
      RunCons(s, Finish(p), []);
    } else {
      var first := TaskCompletes(s, start, p, tasks);
      var tail := PlanCompletes(Run(s, first), start, p, tasks[1..]);
      RunAppend(s, first, tail);
      events := first + tail;
    }
  }

  lemma {:induction false} NewcomerCompletes(s: State, start: Database, p: Pid, createdAt: string)
    returns (events: seq<Event>)
    requires Inv(s, start) && s.lock == None && p !in s.openers
    ensures OpensAfter(s, events, p)
  {
    var arrived := Step(s, Arrive(p, createdAt));
    StepKeepsInv(s, start, Arrive(p, createdAt));
    var planned := Step(arrived, ReadVersion(p));
    StepKeepsInv(arrived, start, ReadVersion(p));
    PlanIsPlanFrom(arrived.file, LevelOf(arrived.file), createdAt);
    var rest := PlanCompletes(planned, start, p, PlanFrom(LevelOf(arrived.file), createdAt));
    RunCons(arrived, ReadVersion(p), rest);
    RunCons(s, Arrive(p, createdAt), [ReadVersion(p)] + rest);
    events := [Arrive(p, createdAt)] + ([ReadVersion(p)] + rest);
  }

  predicate OpensAfter(s: State, events: seq<Event>, p: Pid) {
    var t := Run(s, events);
    p in t.openers && t.openers[p] == Opened
  }

  /**
   From any point of any run at which the write lock is free, a newcomer that then runs on its own,
   and meets no fault, opens the store; so a crash of another opener never wedges it.
   */
  lemma {:induction false} NewcomerCanOpen(start: Database, level: Level, events: seq<Event>, p: Pid, createdAt: string)
    requires IsAt(start, level)
    requires Run(Untouched(start), events).lock == None && p !in Run(Untouched(start), events).openers
    ensures exists tail :: OpensAfter(Untouched(start), events + tail, p)
  {
    RunKeepsInv(start, level, events);
    var tail := NewcomerCompletes(Run(Untouched(start), events), start, p, createdAt);
    RunAppend(Untouched(start), events, tail);
    assert OpensAfter(Untouched(start), events + tail, p);
  }

  /** A crash at any moment gives the lock back. */
  lemma CrashFreesLock(s: State, start: Database, p: Pid)
    requires Inv(s, start) && s.lock == Some(p)
    ensures Step(s, Crash(p)).lock == None && Step(s, Crash(p)).file == s.file
  {
    assert PhaseOk(s.openers[p], p, s);
  }
}
