/**
 Runs of the task store: every interleaving of calls on any number of tasks, with the read and
 the write of Update as separate steps of a numbered call. What the rows say is compared with
 what the event log, read as text, says.
 */
module TaskRuns {
  import opened Options
  import opened Tasks

  datatype Step =
    | Create(id: Id, requested: Task, now: Time, commits: bool)
    | ReadForUpdate(call: nat, id: Id, patch: Patch, now: Time)
    | WriteUpdate(call: nat, commits: bool)
    | Heartbeat(id: Id, now: Time, commits: bool)
    | Finish(id: Id, status: Status, message: string, now: Time, commits: bool)
    | RequestControl(id: Id, action: Action, now: Time, commits: bool)

  /** pending holds the edited copies of the Update calls that have read and not yet written. */
  datatype Sys = Sys(db: Db, pending: map<nat, Task>)

  function Init(): Sys {
    Sys(Db(map[], []), map[])
  }

  function Effect(s: Sys, step: Step): (Db, Outcome) {
    match step
    case Create(id, requested, now, commits) => CreateEffect(s.db, id, requested, now, commits)
    case ReadForUpdate(_, id, _, _) => (s.db, if id in s.db.tasks then Done else Rejected(NotFound))
    case WriteUpdate(call, commits) =>
      if call in s.pending then UpdateEffect(s.db, s.pending[call], commits) else (s.db, Rejected(Storage))
    case Heartbeat(id, now, commits) => HeartbeatEffect(s.db, id, now, commits)
    case Finish(id, status, message, now, commits) => FinishEffect(s.db, id, status, message, now, commits)
    case RequestControl(id, action, now, commits) => ControlEffect(s.db, id, action, now, commits)
  }

  function Next(s: Sys, step: Step): Sys {
    Sys(Effect(s, step).0,
        match step
        case ReadForUpdate(call, id, patch, now) =>
          if id in s.db.tasks then s.pending[call := Patched(s.db.tasks[id], patch, now)] else s.pending
        case WriteUpdate(call, _) => s.pending - {call}
        case _ => s.pending)
  }

  function Run(steps: seq<Step>): Sys {
    if steps == [] then Init() else Next(Run(steps[..|steps| - 1]), steps[|steps| - 1])
  }

  // ---------- Integrity and growth of the log ----------

  predicate Sound(s: Sys) {
    && (forall id :: id in s.db.tasks ==> s.db.tasks[id].id == id)
    && (forall i :: 0 <= i < |s.db.events| ==> s.db.events[i].task in s.db.tasks)
    && (forall c :: c in s.pending ==> s.pending[c].id in s.db.tasks)
  }

  lemma NextSound(s: Sys, step: Step)
    requires Sound(s)
    ensures Sound(Next(s, step))
  {
    hide ProgressMessage;
  }

  /** In every run each event names an existing task and each pending update an existing row. */
  lemma {:induction false} RunSound(steps: seq<Step>)
    ensures Sound(Run(steps))
  {
    if steps != [] {
      RunSound(steps[..|steps| - 1]);
      NextSound(Run(steps[..|steps| - 1]), steps[|steps| - 1]);
    }
  }

  /** The number of events a call logs: one if it succeeds, except that a Create logs two and a heartbeat none. */
  function LoggedBy(s: Sys, step: Step): nat {
    if Effect(s, step).1 != Done || step.ReadForUpdate? || step.Heartbeat? then 0
    else if step.Create? then 2
    else 1
  }

  function LoggedCalls(steps: seq<Step>): nat {
    if steps == [] then 0
    else LoggedCalls(steps[..|steps| - 1]) + LoggedBy(Run(steps[..|steps| - 1]), steps[|steps| - 1])
  }

  lemma StepLogs(s: Sys, step: Step)
    ensures |Next(s, step).db.events| == |s.db.events| + LoggedBy(s, step)
  {
    hide ProgressMessage, Patched, NewRow;
  }

  /**
   Conservation: the log holds one event for every successful Update, Finish and RequestControl
   and two for every successful Create, and nothing else.
   */
  lemma {:induction false} LogLength(steps: seq<Step>)
    ensures |Run(steps).db.events| == LoggedCalls(steps)
  {
    hide Next, LoggedBy;
    if steps != [] {
      LogLength(steps[..|steps| - 1]);
      StepLogs(Run(steps[..|steps| - 1]), steps[|steps| - 1]);
    }
  }

  /** A step adds to the log and loses no row, and a call that does not succeed leaves both tables as they were. */
  lemma CallsAreAtomic(s: Sys, step: Step)
    ensures s.db.events <= Next(s, step).db.events
    ensures s.db.tasks.Keys <= Next(s, step).db.tasks.Keys
    ensures Effect(s, step).1 != Done ==> Next(s, step).db == s.db
  {
    hide ProgressMessage, Patched;
  }

  /** In every run an earlier log is a prefix of a later one, and no task ever disappears. */
  lemma {:induction false} LogOnlyGrows(steps: seq<Step>, k: nat)
    requires k <= |steps|
    ensures Run(steps[..k]).db.events <= Run(steps).db.events
    ensures Run(steps[..k]).db.tasks.Keys <= Run(steps).db.tasks.Keys
  {
    hide Next;
    if k == |steps| {
      assert steps[..k] == steps;
    } else {
      var front := steps[..|steps| - 1];
      LogOnlyGrows(front, k);
      assert front[..k] == steps[..k];
      CallsAreAtomic(Run(front), steps[|steps| - 1]);
    }
  }

  // ---------- The log of one task ----------

  function EventsOf(log: seq<Event>, id: Id): seq<Event> {
    if log == [] then []
    else EventsOf(log[..|log| - 1], id) + (if log[|log| - 1].task == id then [log[|log| - 1]] else [])
  }

  lemma EventsOfAppend(log: seq<Event>, e: Event, id: Id)
    ensures EventsOf(log + [e], id) == EventsOf(log, id) + (if e.task == id then [e] else [])
  {
    assert (log + [e])[..|log|] == log;
  }

  lemma {:induction false} NoEvents(log: seq<Event>, id: Id)
    requires forall i :: 0 <= i < |log| ==> log[i].task != id
    ensures EventsOf(log, id) == []
  {
    if log != [] {
      NoEvents(log[..|log| - 1], id);
    }
  }

  /** CREATED and STARTED open the log of a task and occur nowhere else in it. */
  predicate WellShaped(log: seq<Event>) {
    && |log| >= 2 && log[0].kind == TaskCreated && log[1].kind == TaskStarted
    && forall i :: 2 <= i < |log| ==> !log[i].kind.TaskCreated? && !log[i].kind.TaskStarted?
  }

  /** The events one step logs for a task. */
  function Appended(s: Sys, step: Step, id: Id): seq<Event> {
    match step
    case Create(k, requested, _, _) =>
      if k == id && Effect(s, step).1 == Done
      then [Event(id, TaskCreated, ""), Event(id, TaskStarted, requested.description)] else []
    case WriteUpdate(call, _) =>
      if Effect(s, step).1 == Done && s.pending[call].id == id
      then [Event(id, TaskProgress, ProgressMessage(s.pending[call].progress, s.pending[call].description))] else []
    case Finish(k, status, message, _, _) =>
      if k == id && Effect(s, step).1 == Done then [Event(id, TaskFinished(status), message)] else []
    case RequestControl(k, action, _, _) =>
      if k == id && Effect(s, step).1 == Done then [Event(id, TaskControl(action), "")] else []
    case _ => []
  }

  lemma StepAppends(s: Sys, step: Step, id: Id)
    ensures EventsOf(Next(s, step).db.events, id) == EventsOf(s.db.events, id) + Appended(s, step, id)
  {
    hide ProgressMessage, Patched, NewRow, EventsOf;
    var log := s.db.events;
    if Effect(s, step).1 == Done {
      match step
      case Create(k, requested, _, _) =>
        EventsOfAppend(log, Event(k, TaskCreated, ""), id);
        EventsOfAppend(log + [Event(k, TaskCreated, "")], Event(k, TaskStarted, requested.description), id);
      case WriteUpdate(call, _) =>
        var t := s.pending[call];
        EventsOfAppend(log, Event(t.id, TaskProgress, ProgressMessage(t.progress, t.description)), id);
      case Finish(k, status, message, _, _) => EventsOfAppend(log, Event(k, TaskFinished(status), message), id);
      case RequestControl(k, action, _, _) => EventsOfAppend(log, Event(k, TaskControl(action), ""), id);
      case _ =>
    }
  }

  /** A task that a step brings into being is a created one, logged as CREATED and STARTED. */
  lemma FreshTask(s: Sys, step: Step, id: Id)
    requires Sound(s) && id !in s.db.tasks && id in Next(s, step).db.tasks
    ensures step.Create? && step.id == id && Next(s, step).db.tasks[id] == NewRow(id, step.requested, step.now)
    ensures EventsOf(Next(s, step).db.events, id)
         == [Event(id, TaskCreated, ""), Event(id, TaskStarted, step.requested.description)]
  {
    hide ProgressMessage, Patched, EventsOf;
    NoEvents(s.db.events, id);
    StepAppends(s, step, id);
  }

  /** A step logs at most one event for a task that exists already, and never CREATED or STARTED. */
  lemma OneEventAtMost(s: Sys, step: Step, id: Id)
    requires Sound(s) && id in s.db.tasks
    ensures |Appended(s, step, id)| <= 1
    ensures Appended(s, step, id) != [] ==>
              !Appended(s, step, id)[0].kind.TaskCreated? && !Appended(s, step, id)[0].kind.TaskStarted?
  {
  }

  lemma {:induction false} LogShape(steps: seq<Step>, id: Id)
    requires id in Run(steps).db.tasks
    ensures WellShaped(EventsOf(Run(steps).db.events, id))
  {
    hide Next, Effect, Appended;
    if steps != [] {
      var front, step := steps[..|steps| - 1], steps[|steps| - 1];
      var s := Run(front);
      RunSound(front);
      if id in s.db.tasks {
        LogShape(front, id);
        StepAppends(s, step, id);
        OneEventAtMost(s, step, id);
      } else {
        FreshTask(s, step, id);
      }
    }
  }

  /** In the text of the event column: CREATED and STARTED come first and do not come again. */
  lemma LogTexts(steps: seq<Step>, id: Id)
    requires id in Run(steps).db.tasks
    ensures var log := EventsOf(Run(steps).db.events, id);
            && |log| >= 2 && EventName(log[0].kind) == "CREATED" && EventName(log[1].kind) == "STARTED"
            && forall i :: 2 <= i < |log| ==> EventName(log[i].kind) !in {"CREATED", "STARTED"}
  {
    hide Run, EventsOf, EventName;
    LogShape(steps, id);
    var log := EventsOf(Run(steps).db.events, id);
    OpeningNames(TaskProgress);
    forall i | 2 <= i < |log|
      ensures EventName(log[i].kind) !in {"CREATED", "STARTED"}
    {
      OpeningNames(log[i].kind);
    }
  }

  lemma OpeningNames(kind: EventKind)
    ensures EventName(TaskCreated) == "CREATED" && EventName(TaskStarted) == "STARTED"
    ensures !kind.TaskCreated? && !kind.TaskStarted? ==> EventName(kind) !in {"CREATED", "STARTED"}
  {
    var name := EventName(kind);
    match kind
    case TaskControl(_) => assert name[1] == 'O';
    case TaskFinished(to) =>
      if to.Terminal() {
        assert name[0] in {'C', 'F', 'S'};
        if to == Completed { assert name[1] == 'O'; }
        if to == Cancelled { assert name[1] == 'A'; }
        if to == Stopped { assert name[2] == 'O'; }
      }
    case TaskProgress => assert name[0] == 'P';
    case _ =>
  }

  // ---------- Replaying the log ----------

  /** The columns that the log determines whatever the interleaving. */
  datatype View = View(progress: int, description: string, error: string, control: Action, completed: bool)

  function ViewOf(t: Task): View {
    View(t.progress, t.description, t.error, t.control, t.completedAt.Some?)
  }

  function Apply(v: View, e: Event): View {
    match e.kind
    case TaskCreated => v
    case TaskStarted => v.(description := e.message)
    case TaskProgress =>
      (match ParseProgress(e.message)
       case None => v
       case Some((progress, description)) => v.(progress := progress, description := description))
    case TaskFinished(_) => v.(error := e.message, control := NoAction, completed := true)
    case TaskControl(action) => v.(control := action)
  }

  function Replay(log: seq<Event>): View {
    if log == [] then View(0, "", "", NoAction, false) else Apply(Replay(log[..|log| - 1]), log[|log| - 1])
  }

  /** The task is asked for at progress 0, as the API and the scheduler do. */
  predicate CreatesAtZero(steps: seq<Step>, id: Id) {
    forall i :: 0 <= i < |steps| && steps[i].Create? && steps[i].id == id ==> steps[i].requested.progress == 0
  }

  function StatusAfter(status: Status, kind: EventKind): Status {
    match kind
    case TaskStarted => Running
    case TaskFinished(to) => to
    case TaskControl(Pause) => Paused
    case TaskControl(Resume) => Running
    case _ => status
  }

  function StatusReplay(log: seq<Event>): Status {
    if log == [] then Created else StatusAfter(StatusReplay(log[..|log| - 1]), log[|log| - 1].kind)
  }

  /** On the row of an existing task a step does what its event, if any, says. */
  lemma RowFollowsEvent(s: Sys, step: Step, id: Id)
    requires Sound(s) && id in s.db.tasks
    ensures var t, u, log := s.db.tasks[id], Next(s, step).db.tasks[id], Appended(s, step, id);
            && |log| <= 1
            && ViewOf(u) == (if log == [] then ViewOf(t) else Apply(ViewOf(t), log[0]))
            && u.status == (if log == [] then t.status
                            else if step.WriteUpdate? then s.pending[step.call].status
                            else StatusAfter(t.status, log[0].kind))
            && (step.WriteUpdate? && log != [] ==> step.call in s.pending && s.pending[step.call].id == id
                                                   && log[0].kind == TaskProgress)
  {
    hide ProgressMessage, ParseProgress, Patched;
    if step.WriteUpdate? && step.call in s.pending {
      ProgressRoundTrip(s.pending[step.call].progress, s.pending[step.call].description);
    }
  }

  /**
   Event sourcing: under every interleaving, progress, description, error, control_action and the
   presence of completed_at are what a replay of the task's own events gives.
   */
  lemma {:induction false} RowIsReplayOfLog(steps: seq<Step>, id: Id)
    requires CreatesAtZero(steps, id) && id in Run(steps).db.tasks
    ensures ViewOf(Run(steps).db.tasks[id]) == Replay(EventsOf(Run(steps).db.events, id))
  {
    if steps != [] {
      var front, step := steps[..|steps| - 1], steps[|steps| - 1];
      var s := Run(front);
      RunSound(front);
      if id in s.db.tasks {
        RowIsReplayOfLog(front, id);
        StepAppends(s, step, id);
        RowFollowsEvent(s, step, id);
        ReplayAppendAtMostOne(EventsOf(s.db.events, id), Appended(s, step, id));
      } else {
        FreshTask(s, step, id);
        assert steps[|steps| - 1].Create?;
        FreshReplay(id, step.requested.description);
      }
    }
  }

  lemma ReplayAppendAtMostOne(log: seq<Event>, more: seq<Event>)
    requires |more| <= 1
    ensures Replay(log + more) == (if more == [] then Replay(log) else Apply(Replay(log), more[0]))
    ensures StatusReplay(log + more)
         == (if more == [] then StatusReplay(log) else StatusAfter(StatusReplay(log), more[0].kind))
  {
    if more == [] {
      assert log + more == log;
    } else {
      assert (log + more)[..|log|] == log;
    }
  }

  lemma FreshReplay(id: Id, description: string)
    ensures var log := [Event(id, TaskCreated, ""), Event(id, TaskStarted, description)];
            Replay(log) == View(0, description, "", NoAction, false) && StatusReplay(log) == Running
  {
    var first, second := [Event(id, TaskCreated, "")], [Event(id, TaskStarted, description)];
    assert first + second == [Event(id, TaskCreated, ""), Event(id, TaskStarted, description)];
    assert [] + first == first;
    ReplayAppendAtMostOne([], first);
    ReplayAppendAtMostOne(first, second);
  }

  // ---------- The status column ----------

  /** A finish, a pause or a resume of the task that takes effect. */
  predicate WritesStatus(s: Sys, step: Step, id: Id) {
    && Effect(s, step).1 == Done
    && ((step.Finish? && step.id == id) || (step.RequestControl? && step.id == id && step.action in {Pause, Resume}))
  }

  /** The write of an Update of the task that takes effect. */
  predicate WritesCopy(s: Sys, step: Step, id: Id) {
    step.WriteUpdate? && step.call in s.pending && s.pending[step.call].id == id && Effect(s, step).1 == Done
  }

  /** Whether the status of the task was written since the latest read of the call. */
  predicate WrittenSinceRead(steps: seq<Step>, call: nat, id: Id) {
    if steps == [] then false
    else
      var front, step := steps[..|steps| - 1], steps[|steps| - 1];
      !(step.ReadForUpdate? && step.call == call && step.id in Run(front).db.tasks) &&
      (WritesStatus(Run(front), step, id) || WrittenSinceRead(front, call, id))
  }

  /** No Update of the task carries a status. */
  predicate NoStatusPatches(steps: seq<Step>, id: Id) {
    forall i :: 0 <= i < |steps| && steps[i].ReadForUpdate? && steps[i].id == id ==> steps[i].patch.status.None?
  }

  /** No status write falls between the read and the write of an Update of the task. */
  predicate QuietGaps(steps: seq<Step>, id: Id) {
    forall i :: 0 <= i < |steps| && WritesCopy(Run(steps[..i]), steps[i], id) ==>
      !WrittenSinceRead(steps[..i], steps[i].call, id)
  }

  /** Every Update of the task whose gap is quiet so far still holds the current status. */
  ghost predicate CopiesCurrent(steps: seq<Step>, id: Id) {
    var s := Run(steps);
    forall c :: c in s.pending && s.pending[c].id == id && !WrittenSinceRead(steps, c, id) && id in s.db.tasks ==>
      s.pending[c].status == s.db.tasks[id].status
  }

  lemma {:induction false} CopiesStayCurrent(steps: seq<Step>, id: Id)
    requires NoStatusPatches(steps, id) && QuietGaps(steps, id)
    ensures CopiesCurrent(steps, id)
  {
    hide ProgressMessage, Next, Effect, Appended;
    if steps != [] {
      var front, step := steps[..|steps| - 1], steps[|steps| - 1];
      assert NoStatusPatches(front, id);
      QuietPrefix(steps, id);
      CopiesStayCurrent(front, id);
      RunSound(front);
      var s, s' := Run(front), Run(steps);
      assert step.ReadForUpdate? && step.id == id ==> steps[|steps| - 1].patch.status.None?;
      forall c | c in s'.pending && s'.pending[c].id == id && !WrittenSinceRead(steps, c, id) && id in s'.db.tasks
        ensures s'.pending[c].status == s'.db.tasks[id].status
      {
        CopyStaysCurrent(s, step, id, c);
      }
    }
  }

  /** One step keeps a copy current, unless it writes the status itself. */
  lemma CopyStaysCurrent(s: Sys, step: Step, id: Id, c: nat)
    requires Sound(s) && c in Next(s, step).pending && Next(s, step).pending[c].id == id
    requires step.ReadForUpdate? && step.id == id ==> step.patch.status.None?
    requires !(step.ReadForUpdate? && step.call == c && step.id in s.db.tasks) ==>
               && !WritesStatus(s, step, id)
               && (c in s.pending && s.pending[c].id == id && id in s.db.tasks ==>
                     s.pending[c].status == s.db.tasks[id].status)
    requires WritesCopy(s, step, id) && id in s.db.tasks ==> s.pending[step.call].status == s.db.tasks[id].status
    ensures id in s.db.tasks && Next(s, step).pending[c].status == Next(s, step).db.tasks[id].status
  {
    hide ProgressMessage;
  }

  lemma QuietPrefix(steps: seq<Step>, id: Id)
    requires steps != [] && QuietGaps(steps, id)
    ensures QuietGaps(steps[..|steps| - 1], id)
    ensures var front, step := steps[..|steps| - 1], steps[|steps| - 1];
            WritesCopy(Run(front), step, id) ==> !WrittenSinceRead(front, step.call, id)
  {
    hide Run, Effect;
    var front := steps[..|steps| - 1];
    assert forall i :: 0 <= i < |front| ==> front[..i] == steps[..i];
  }

  /** The status of the row is what the log says. */
  predicate StatusAgrees(s: Sys, id: Id)
    requires id in s.db.tasks
  {
    s.db.tasks[id].status == StatusReplay(EventsOf(s.db.events, id))
  }

  /**
   The status column too is a replay of the log, in runs where no Update of the task carries a status
   (the SDK never sends one) and no status write of it falls into the gap of such an Update.
   */
  lemma {:induction false} StatusIsReplayOfLog(steps: seq<Step>, id: Id)
    requires NoStatusPatches(steps, id) && QuietGaps(steps, id) && id in Run(steps).db.tasks
    ensures StatusAgrees(Run(steps), id)
  {
    hide Next, Effect, StatusReplay, EventsOf;
    if steps != [] {
      var front, step := steps[..|steps| - 1], steps[|steps| - 1];
      var s := Run(front);
      RunSound(front);
      if id in s.db.tasks {
        assert NoStatusPatches(front, id);
        QuietPrefix(steps, id);
        CopiesStayCurrent(front, id);
        StatusIsReplayOfLog(front, id);
        StatusReplayKept(s, step, id);
      } else {
        FreshTask(s, step, id);
        FreshReplay(id, step.requested.description);
      }
    }
  }

  /** The copy that an Update writes carries the status that the log says at that moment. */
  predicate CopyFits(s: Sys, step: Step, id: Id) {
    WritesCopy(s, step, id) ==> s.pending[step.call].status == StatusReplay(EventsOf(s.db.events, id))
  }

  /**
   Without any assumption on the run: after an Update of the task status and log agree exactly if the
   copy fits the log, after a finish, a pause or a resume they always do, and any other step leaves
   them agreeing or not as they were.
   */
  lemma StatusReplayKept(s: Sys, step: Step, id: Id)
    requires Sound(s) && id in s.db.tasks
    ensures id in Next(s, step).db.tasks
    ensures StatusAgrees(Next(s, step), id) <==>
            (if WritesCopy(s, step, id) then CopyFits(s, step, id)
             else WritesStatus(s, step, id) || StatusAgrees(s, id))
  {
    hide ProgressMessage, Next, Effect, StatusReplay, EventsOf;
    CallsAreAtomic(s, step);
    StepAppends(s, step, id);
    RowFollowsEvent(s, step, id);
    ReplayAppendAtMostOne(EventsOf(s.db.events, id), Appended(s, step, id));
  }

  /** A step that writes the status column of the task: its creation, an Update, a finish, a pause or a resume. */
  predicate StatusWriter(s: Sys, step: Step, id: Id) {
    || (step.Create? && step.id == id && Effect(s, step).1 == Done)
    || WritesCopy(s, step, id) || WritesStatus(s, step, id)
  }

  /**
   Exactly when status and log agree, for every run: if the latest step that wrote the status column is
   not an Update, or is one whose copy fitted the log. So a lost finish is repaired by the next one.
   */
  lemma {:induction false} StatusAgreesExactly(steps: seq<Step>, id: Id) returns (k: nat)
    requires id in Run(steps).db.tasks
    ensures k < |steps| && StatusWriter(Run(steps[..k]), steps[k], id)
    ensures forall m :: k < m < |steps| ==> !StatusWriter(Run(steps[..m]), steps[m], id)
    ensures StatusAgrees(Run(steps), id) <==> CopyFits(Run(steps[..k]), steps[k], id)
  {
    hide Next, Effect, StatusReplay, EventsOf, WritesCopy, WritesStatus, StatusAgrees;
    var front, step := steps[..|steps| - 1], steps[|steps| - 1];
    var s := Run(front);
    RunSound(front);
    k := |front|;
    if id !in s.db.tasks {
      FreshStatusAgrees(s, step, id);
    } else {
      StatusReplayKept(s, step, id);
      CreatedOnce(s, step, id);
      if !StatusWriter(s, step, id) {
        k := StatusAgreesExactly(front, id);
        assert forall m :: 0 <= m < |front| ==> front[..m] == steps[..m];
      }
    }
  }

  lemma FreshStatusAgrees(s: Sys, step: Step, id: Id)
    requires Sound(s) && id !in s.db.tasks && id in Next(s, step).db.tasks
    ensures StatusWriter(s, step, id) && !WritesCopy(s, step, id) && StatusAgrees(Next(s, step), id)
  {
    hide StatusReplay, EventsOf;
    FreshTask(s, step, id);
    FreshReplay(id, step.requested.description);
  }

  lemma CreatedOnce(s: Sys, step: Step, id: Id)
    requires id in s.db.tasks
    ensures step.Create? && step.id == id ==> Effect(s, step).1 != Done
  {
  }

  lemma ReadLands(s: Sys, call: nat, id: Id, patch: Patch, now: Time)
    requires Sound(s) && id in s.db.tasks
    ensures var s1 := Next(s, ReadForUpdate(call, id, patch, now));
            && s1.db == s.db && call in s1.pending
            && var read, c := s.db.tasks[id], s1.pending[call];
               && c.id == id && c.updatedAt == now
               && c.progress == (if patch.progress.Some? then patch.progress.value else read.progress)
               && c.status == (if patch.status.Some? then patch.status.value else read.status)
               && c.description == (if patch.description.Some? then patch.description.value else read.description)
               && c.details == (if patch.details.Some? then patch.details.value else read.details)
  {
  }

  lemma WriteLands(s: Sys, call: nat)
    requires Sound(s) && call in s.pending
    ensures var c, s' := s.pending[call], Next(s, WriteUpdate(call, true));
            && c.id in s.db.tasks && c.id in s'.db.tasks
            && s'.db.tasks[c.id] == s.db.tasks[c.id].(progress := c.progress, status := c.status,
                 description := c.description, details := c.details, updatedAt := c.updatedAt)
            && s'.db.events == s.db.events + [Event(c.id, TaskProgress, ProgressMessage(c.progress, c.description))]
  {
    hide ProgressMessage;
  }

  /**
   Without the quiet gap the property fails, for every task in every state: an Update that reads
   before a Finish and writes after it brings the old status back, while completed_at stays set and
   the log says finished.
   */
  lemma LostFinish(s: Sys, id: Id, call: nat, patch: Patch, to: Status, t1: Time, t2: Time)
    requires Sound(s) && id in s.db.tasks && patch.status.None? && to.Terminal()
    ensures var s1 := Next(s, ReadForUpdate(call, id, patch, t1));
            var s2 := Next(s1, Finish(id, to, "", t2, true));
            var s3 := Next(s2, WriteUpdate(call, true));
            && id in s3.db.tasks
            && s3.db.tasks[id].status == s.db.tasks[id].status && s3.db.tasks[id].completedAt == Some(t2)
            && StatusReplay(EventsOf(s3.db.events, id)) == to
  {
    hide Next, Effect, StatusReplay, EventsOf;
    var s1 := Next(s, ReadForUpdate(call, id, patch, t1));
    var s2 := Next(s1, Finish(id, to, "", t2, true));
    NextSound(s, ReadForUpdate(call, id, patch, t1));
    NextSound(s1, Finish(id, to, "", t2, true));
    ReadLands(s, call, id, patch, t1);
    FinishHolds(s1, id, to, t2);
    WriteLands(s2, call);
    FinishReplay(s1, Finish(id, to, "", t2, true), id);
    ProgressReplay(s2, WriteUpdate(call, true), id);
  }

  lemma FinishHolds(s: Sys, id: Id, to: Status, now: Time)
    requires Sound(s) && id in s.db.tasks && to.Terminal()
    ensures Effect(s, Finish(id, to, "", now, true)).1 == Done
    ensures var s' := Next(s, Finish(id, to, "", now, true));
            s'.pending == s.pending && id in s'.db.tasks && s'.db.tasks[id].completedAt == Some(now)
  {
  }

  lemma FinishReplay(s: Sys, step: Step, id: Id)
    requires Sound(s) && id in s.db.tasks
    requires step.Finish? && step.id == id && Effect(s, step).1 == Done
    ensures StatusReplay(EventsOf(Next(s, step).db.events, id)) == step.status
  {
    hide ProgressMessage, Next, StatusReplay, EventsOf, FinishEffect;
    StepAppends(s, step, id);
    ReplayAppendAtMostOne(EventsOf(s.db.events, id), Appended(s, step, id));
  }

  lemma ProgressReplay(s: Sys, step: Step, id: Id)
    requires Sound(s) && id in s.db.tasks
    requires step.WriteUpdate?
    ensures StatusReplay(EventsOf(Next(s, step).db.events, id)) == StatusReplay(EventsOf(s.db.events, id))
  {
    hide ProgressMessage, Next, Effect, Appended;
    StepAppends(s, step, id);
    RowFollowsEvent(s, step, id);
    ReplayAppendAtMostOne(EventsOf(s.db.events, id), Appended(s, step, id));
  }

  /**
   Terminal statuses are not absorbing: a step takes a finished task out of its terminal status
   exactly when it commits a pause or a resume, or an update whose copy is not terminal.
   */
  lemma TerminalStatusLeft(s: Sys, step: Step, id: Id)
    requires Sound(s) && id in s.db.tasks && s.db.tasks[id].status.Terminal()
    ensures !Next(s, step).db.tasks[id].status.Terminal() <==>
            Effect(s, step).1 == Done &&
            ((step.RequestControl? && step.id == id && step.action in {Pause, Resume}) ||
             (step.WriteUpdate? && s.pending[step.call].id == id && !s.pending[step.call].status.Terminal()))
  {
    hide ProgressMessage, Patched;
  }

  /** Columns that no call ever changes, and the only call that changes the last heartbeat. */
  lemma StableColumns(s: Sys, step: Step, id: Id)
    requires Sound(s) && id in s.db.tasks
    ensures var t, u := s.db.tasks[id], Next(s, step).db.tasks[id];
            && u.createdAt == t.createdAt && u.startedAt == t.startedAt
            && u.expectedHeartbeatS == t.expectedHeartbeatS && u.id == t.id
            && (u.lastHeartbeatAt != t.lastHeartbeatAt ==>
                  step.Heartbeat? && step.id == id && Effect(s, step).1 == Done)
  {
    hide ProgressMessage, Patched;
  }

  // ---------- From a request to the row ----------

  function RunFrom(s: Sys, steps: seq<Step>): Sys {
    if steps == [] then s else Next(RunFrom(s, steps[..|steps| - 1]), steps[|steps| - 1])
  }

  /** The step reads or writes under the number of an Update call. */
  predicate UsesCall(step: Step, call: nat) {
    (step.ReadForUpdate? || step.WriteUpdate?) && step.call == call
  }

  /** The step is a call on an existing task. */
  predicate Targets(s: Sys, step: Step, id: Id) {
    match step
    case Create(_, _, _, _) => false
    case ReadForUpdate(_, k, _, _) => k == id
    case WriteUpdate(call, _) => call in s.pending && s.pending[call].id == id
    case Heartbeat(k, _, _) => k == id
    case Finish(k, _, _, _, _) => k == id
    case RequestControl(k, _, _, _) => k == id
  }

  lemma {:induction false} RunFromSound(s: Sys, steps: seq<Step>)
    requires Sound(s)
    ensures Sound(RunFrom(s, steps)) && s.db.tasks.Keys <= RunFrom(s, steps).db.tasks.Keys
  {
    hide Next, Sound;
    if steps != [] {
      RunFromSound(s, steps[..|steps| - 1]);
      NextSound(RunFrom(s, steps[..|steps| - 1]), steps[|steps| - 1]);
      CallsAreAtomic(RunFrom(s, steps[..|steps| - 1]), steps[|steps| - 1]);
    }
  }

  lemma {:induction false} CopyKept(s: Sys, steps: seq<Step>, call: nat)
    requires call in s.pending && forall i :: 0 <= i < |steps| ==> !UsesCall(steps[i], call)
    ensures call in RunFrom(s, steps).pending && RunFrom(s, steps).pending[call] == s.pending[call]
  {
    hide Effect;
    if steps != [] {
      CopyKept(s, steps[..|steps| - 1], call);
      assert !UsesCall(steps[|steps| - 1], call);
    }
  }

  lemma {:induction false} RowKept(s: Sys, steps: seq<Step>, id: Id)
    requires Sound(s) && id in s.db.tasks
    requires forall i :: 0 <= i < |steps| ==> !Targets(RunFrom(s, steps[..i]), steps[i], id)
    ensures id in RunFrom(s, steps).db.tasks && RunFrom(s, steps).db.tasks[id] == s.db.tasks[id]
  {
    hide Next, Sound, Targets;
    if steps != [] {
      var front, step := steps[..|steps| - 1], steps[|steps| - 1];
      forall i | 0 <= i < |front|
        ensures !Targets(RunFrom(s, front[..i]), front[i], id)
      {
        assert front[..i] == steps[..i];
        assert !Targets(RunFrom(s, steps[..i]), steps[i], id);
      }
      RowKept(s, front, id);
      RunFromSound(s, front);
      assert !Targets(RunFrom(s, steps[..|front|]), steps[|front|], id);
      StepKeepsRow(RunFrom(s, front), step, id);
    }
  }

  lemma StepKeepsRow(s: Sys, step: Step, id: Id)
    requires Sound(s) && id in s.db.tasks && !Targets(s, step, id)
    ensures id in Next(s, step).db.tasks && Next(s, step).db.tasks[id] == s.db.tasks[id]
  {
    hide ProgressMessage;
  }

  /**
   What an Update writes, whatever happens between its read and its write: the requested values, and for
   columns without one those read, while all other columns stay as they are at the write. With no other
   call on the task in between, those too are as they were at the read.
   */
  lemma UpdateLands(s: Sys, call: nat, id: Id, patch: Patch, now: Time, between: seq<Step>)
    requires Sound(s) && id in s.db.tasks && forall i :: 0 <= i < |between| ==> !UsesCall(between[i], call)
    ensures var s1 := Next(s, ReadForUpdate(call, id, patch, now));
            var s2 := RunFrom(s1, between);
            var s3 := Next(s2, WriteUpdate(call, true));
            && id in s2.db.tasks && id in s3.db.tasks
            && (var read, row, t := s.db.tasks[id], s2.db.tasks[id], s3.db.tasks[id];
                && t.progress == (if patch.progress.Some? then patch.progress.value else read.progress)
                && t.status == (if patch.status.Some? then patch.status.value else read.status)
                && t.description == (if patch.description.Some? then patch.description.value else read.description)
                && t.details == (if patch.details.Some? then patch.details.value else read.details)
                && t.updatedAt == now
                && t == row.(progress := t.progress, status := t.status, description := t.description,
                             details := t.details, updatedAt := now)
                && s3.db.events == s2.db.events + [Event(id, TaskProgress, ProgressMessage(t.progress, t.description))]
                && ((forall i :: 0 <= i < |between| ==> !Targets(RunFrom(s1, between[..i]), between[i], id)) ==>
                      row == read))
  {
    hide ProgressMessage, Targets, UsesCall, Next, RunFrom;
    var s1 := Next(s, ReadForUpdate(call, id, patch, now));
    NextSound(s, ReadForUpdate(call, id, patch, now));
    RunFromSound(s1, between);
    ReadLands(s, call, id, patch, now);
    CopyKept(s1, between, call);
    WriteLands(RunFrom(s1, between), call);
    if forall i :: 0 <= i < |between| ==> !Targets(RunFrom(s1, between[..i]), between[i], id) {
      RowKept(s1, between, id);
    }
  }

  /** What a Create of a new id makes of its request, and that an unset heartbeat interval becomes a minute. */
  lemma CreateLands(s: Sys, id: Id, r: Task, at: Time)
    requires id !in s.db.tasks
    ensures var s' := Next(s, Create(id, r, at, true));
            && id in s'.db.tasks
            && var t := s'.db.tasks[id];
               && t.id == id && t.server == r.server && t.kind == r.kind && t.pid == r.pid
               && t.progress == r.progress && t.description == r.description && t.details == r.details
               && t.status == Running && t.error == "" && t.control == NoAction
               && t.expectedHeartbeatS == (if r.expectedHeartbeatS > 0 then r.expectedHeartbeatS else 60)
               && t.createdAt == at && t.startedAt == Some(at) && t.updatedAt == at
               && t.completedAt.None? && t.lastHeartbeatAt.None?
  {
  }

  /** No call writes server, kind and pid of an existing task, and only an Update its details. */
  lemma DetailsWritten(s: Sys, step: Step, id: Id)
    requires Sound(s) && id in s.db.tasks
    ensures var t, u := s.db.tasks[id], Next(s, step).db.tasks[id];
            && u.server == t.server && u.kind == t.kind && u.pid == t.pid
            && u.details == (if WritesCopy(s, step, id) then s.pending[step.call].details else t.details)
  {
    hide ProgressMessage, Patched;
  }

  /** Only a finish sets the time of completion, and every call that writes the row the time of the update. */
  lemma TimesWritten(s: Sys, step: Step, id: Id)
    requires Sound(s) && id in s.db.tasks
    ensures var t, u := s.db.tasks[id], Next(s, step).db.tasks[id];
            && u.completedAt == (if step.Finish? && step.id == id && Effect(s, step).1 == Done then Some(step.now)
                                 else t.completedAt)
            && u.updatedAt == (if WritesCopy(s, step, id) then s.pending[step.call].updatedAt
                               else if (step.Heartbeat? || step.Finish? || step.RequestControl?) && step.id == id
                                       && Effect(s, step).1 == Done then step.now
                               else t.updatedAt)
  {
    hide ProgressMessage, Patched;
  }

  /** Which calls work, and how the error tells why one does not. */
  lemma CallAnswers(s: Sys, step: Step)
    requires Sound(s)
    ensures Effect(s, step).1 == Rejected(NotTerminal) <==> step.Finish? && !step.status.Terminal()
    ensures Effect(s, step).1 == Rejected(NotFound) <==>
            && (step.ReadForUpdate? || step.Heartbeat? || (step.Finish? && step.status.Terminal()))
            && step.id !in s.db.tasks
    ensures Effect(s, step).1 == Done <==>
            match step
            case Create(id, _, _, commits) => id !in s.db.tasks && commits
            case ReadForUpdate(_, id, _, _) => id in s.db.tasks
            case WriteUpdate(call, commits) => call in s.pending && commits
            case Heartbeat(id, _, commits) => id in s.db.tasks && commits
            case Finish(id, status, _, _, commits) => status.Terminal() && id in s.db.tasks && commits
            case RequestControl(id, _, _, commits) => id in s.db.tasks && commits
  {
    hide ProgressMessage;
  }

  /** Finish answers with the finished row exactly if it works and the row can be read back. */
  lemma FinishAnswer(s: Sys, id: Id, status: Status, message: string, now: Time, commits: bool, rereads: bool)
    requires Sound(s)
    ensures var step := Finish(id, status, message, now, commits);
            var r := ReadBack(Next(s, step).db, id, Effect(s, step).1, rereads);
            && (r.Ok? <==> status.Terminal() && id in s.db.tasks && commits && rereads)
            && (r.Ok? ==> id in Next(s, step).db.tasks && r.value == Next(s, step).db.tasks[id]
                          && r.value.status == status && r.value.completedAt == Some(now))
            && (r.Err? ==> r.error == (if !status.Terminal() then NotTerminal
                                       else if id !in s.db.tasks then NotFound else Storage))
  {
  }

  lemma RequestControlAnswer(s: Sys, id: Id, action: Action, now: Time, commits: bool, rereads: bool)
    requires Sound(s)
    ensures var step := RequestControl(id, action, now, commits);
            var r := ReadBack(Next(s, step).db, id, Effect(s, step).1, rereads);
            && (r.Ok? <==> id in s.db.tasks && commits && rereads)
            && (r.Ok? ==> id in Next(s, step).db.tasks && r.value == Next(s, step).db.tasks[id]
                          && r.value.control == action)
            && (r.Err? ==> r.error == Storage)
  {
  }

  // ---------- The control answer polled by the SDK ----------

  /** What GET /tasks/:id/control answers. */
  function ControlAnswer(t: Task): string {
    if t.status.Terminal() && t.control == NoAction then StatusText(t.status) else ActionText(t.control)
  }

  /** The answers on which the SDK cancels the context of a handle. */
  predicate CancelRequested(answer: string) {
    answer == "cancel" || answer == "stop"
  }

  /** The handlers use RequestControl for pause and resume only; cancel and stop finish the task. */
  predicate HandlerSteps(steps: seq<Step>, id: Id) {
    forall i :: 0 <= i < |steps| && steps[i].RequestControl? && steps[i].id == id ==> steps[i].action in {Pause, Resume}
  }

  /** The answer names the pending action, or else the status of a finished task, or nothing. */
  lemma ControlAnswerMeans(t: Task)
    ensures var a := ControlAnswer(t);
            && (a == "cancel" <==> t.control == Cancel) && (a == "pause" <==> t.control == Pause)
            && (a == "resume" <==> t.control == Resume) && (a == "stop" <==> t.control == Stop)
            && (a == "completed" <==> t.control == NoAction && t.status == Completed)
            && (a == "failed" <==> t.control == NoAction && t.status == Failed)
            && (a == "cancelled" <==> t.control == NoAction && t.status == Cancelled)
            && (a == "stopped" <==> t.control == NoAction && t.status == Stopped)
            && (a == "" <==> t.control == NoAction && !t.status.Terminal())
  {
    assert |"cancel"| == 6 && |"pause"| == 5 && |"resume"| == 6 && |"stop"| == 4 && |""| == 0;
    assert |"completed"| == 9 && |"failed"| == 6 && |"cancelled"| == 9 && |"stopped"| == 7;
    assert "cancel"[0] == 'c' && "resume"[0] == 'r' && "failed"[0] == 'f';
    assert "completed"[1] == 'o' && "cancelled"[1] == 'a';
  }

  /**
   In no run of the handlers does the polled answer ask the SDK to cancel, so a remote cancel or
   stop never reaches the context of a handle.
   */
  lemma {:induction false} RemoteCancelNotDelivered(steps: seq<Step>, id: Id)
    requires HandlerSteps(steps, id) && id in Run(steps).db.tasks
    ensures !CancelRequested(ControlAnswer(Run(steps).db.tasks[id]))
  {
    ControlIsPauseOrResume(steps, id);
    var t := Run(steps).db.tasks[id];
    assert ActionText(Pause)[0] == 'p' && ActionText(Resume)[0] == 'r';
    if t.status.Terminal() {
      var answer := StatusText(t.status);
      assert |answer| > 4 && (|answer| != |"cancel"| || answer[0] == 'f');
    }
  }

  lemma {:induction false} ControlIsPauseOrResume(steps: seq<Step>, id: Id)
    requires HandlerSteps(steps, id) && id in Run(steps).db.tasks
    ensures Run(steps).db.tasks[id].control in {NoAction, Pause, Resume}
  {
    hide Next, Effect, ProgressMessage;
    if steps != [] {
      var front, step := steps[..|steps| - 1], steps[|steps| - 1];
      assert HandlerSteps(front, id);
      RunSound(front);
      if id in Run(front).db.tasks {
        ControlIsPauseOrResume(front, id);
        RowFollowsEvent(Run(front), step, id);
        assert step.RequestControl? && step.id == id ==> steps[|steps| - 1].action in {Pause, Resume};
      } else {
        FreshTask(Run(front), step, id);
      }
    }
  }
}
