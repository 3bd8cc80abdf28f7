/**
 The task table and its event log (internal/tasks). A transaction either commits as a whole or
 leaves both tables alone; which of the two happens is the parameter commits of every call.
 */
module Tasks {
  import opened Options
  import opened Text

  /** The key of a task row. */
  datatype Id = Id(text: string)

  /** Nanoseconds on the server's clock. */
  type Time = int

  datatype Status = Created | Queued | Running | Paused | Completed | Failed | Cancelled | Stopped {
    predicate Terminal() {
      this in {Completed, Failed, Cancelled, Stopped}
    }
  }

  datatype Action = NoAction | Cancel | Pause | Resume | Stop

  datatype Task = Task(
    id: Id,
    server: string,
    kind: string,
    status: Status,
    progress: int,
    description: string,
    pid: Option<int>,
    details: string,
    error: string,
    control: Action,
    expectedHeartbeatS: int,
    createdAt: Time,
    startedAt: Option<Time>,
    updatedAt: Time,
    completedAt: Option<Time>,
    lastHeartbeatAt: Option<Time>)

  datatype EventKind =
    | TaskCreated
    | TaskStarted
    | TaskProgress
    | TaskFinished(to: Status)
    | TaskControl(action: Action)

  datatype Event = Event(task: Id, kind: EventKind, message: string)

  datatype Db = Db(tasks: map<Id, Task>, events: seq<Event>)

  datatype Error = NotFound | NotTerminal | Storage

  datatype Outcome = Done | Rejected(error: Error)

  /** The optional fields of an update request. */
  datatype Patch = Patch(
    progress: Option<int>,
    status: Option<Status>,
    description: Option<string>,
    details: Option<string>)

  // ---------- Event texts ----------

  function ActionText(action: Action): string {
    match action
    case NoAction => ""
    case Cancel => "cancel"
    case Pause => "pause"
    case Resume => "resume"
    case Stop => "stop"
  }

  function StatusText(status: Status): string
    requires status.Terminal()
  {
    match status
    case Completed => "completed"
    case Failed => "failed"
    case Cancelled => "cancelled"
    case Stopped => "stopped"
  }

  /** The text of the event column; the lookup of a non-terminal status gives the empty text. */
  function EventName(kind: EventKind): string {
    match kind
    case TaskCreated => "CREATED"
    case TaskStarted => "STARTED"
    case TaskProgress => "PROGRESS"
    case TaskFinished(Completed) => "COMPLETED"
    case TaskFinished(Failed) => "FAILED"
    case TaskFinished(Cancelled) => "CANCELLED"
    case TaskFinished(Stopped) => "STOPPED"
    case TaskFinished(_) => ""
    case TaskControl(action) => "CONTROL_" + ActionText(action)
  }

  /** Reads an event text back. */
  function ParseEventName(name: string): Option<EventKind> {
    if name == "CREATED" then Some(TaskCreated)
    else if name == "STARTED" then Some(TaskStarted)
    else if name == "PROGRESS" then Some(TaskProgress)
    else if name == "COMPLETED" then Some(TaskFinished(Completed))
    else if name == "FAILED" then Some(TaskFinished(Failed))
    else if name == "CANCELLED" then Some(TaskFinished(Cancelled))
    else if name == "STOPPED" then Some(TaskFinished(Stopped))
    else if |name| >= 8 && name[..8] == "CONTROL_" then
      var action := name[8..];
      if action == "cancel" then Some(TaskControl(Cancel))
      else if action == "pause" then Some(TaskControl(Pause))
      else if action == "resume" then Some(TaskControl(Resume))
      else if action == "stop" then Some(TaskControl(Stop))
      else if action == "" then Some(TaskControl(NoAction))
      else None
    else None
  }

  /** The event column tells every kind of event the store writes apart from every other. */
  lemma EventNameRoundTrip(kind: EventKind)
    requires kind.TaskFinished? ==> kind.to.Terminal()
    ensures ParseEventName(EventName(kind)) == Some(kind)
  {
    match kind
    case TaskControl(action) =>
      var name := EventName(kind);
      assert name[..8] == "CONTROL_" && name[8..] == ActionText(action);
      assert name[1] == 'O' && name[2] == 'N';
    case TaskFinished(to) =>
      assert EventName(kind)[0] in {'C', 'F', 'S'};
      if to == Completed { assert EventName(kind)[2] == 'M'; }
      if to == Cancelled { assert EventName(kind)[1] == 'A'; }
      if to == Stopped { assert EventName(kind)[2] == 'O'; }
    case _ =>
      assert EventName(kind)[0] in {'C', 'S', 'P'};
  }

  function UpperCase(s: string): string {
    seq(|s|, i requires 0 <= i < |s| => if 'a' <= s[i] <= 'z' then 'A' + (s[i] - 'a') else s[i])
  }

  /** The event of a finish is its status in capitals, and that of a control request names its action. */
  lemma EventNames(status: Status, action: Action)
    requires status.Terminal()
    ensures EventName(TaskFinished(status)) == UpperCase(StatusText(status))
    ensures EventName(TaskControl(action)) == "CONTROL_" + ActionText(action)
    ensures EventName(TaskProgress) == "PROGRESS"
  {
    assert UpperCase("completed") == "COMPLETED" && UpperCase("failed") == "FAILED";
    assert UpperCase("cancelled") == "CANCELLED" && UpperCase("stopped") == "STOPPED";
  }

  function Decimal(n: int): string {
    if n < 0 then "-" + Padded(-n, 1) else Padded(n, 1)
  }

  /** The message of a PROGRESS event. */
  function ProgressMessage(progress: int, description: string): string {
    Decimal(progress) + ("% " + description)
  }

  function ParseDecimal(s: string): Option<int> {
    if s != [] && s[0] == '-' && AllDigits(s[1..]) then Some(0 - NatOf(s[1..]))
    else if s != [] && AllDigits(s) then Some(NatOf(s))
    else None
  }

  /** Splits a PROGRESS message into the number and the text. */
  function ParseProgress(message: string): Option<(int, string)> {
    var i := IndexOf(message, '%');
    if i + 1 < |message| && message[i + 1] == ' ' && ParseDecimal(message[..i]).Some?
    then Some((ParseDecimal(message[..i]).value, message[i + 2..]))
    else None
  }

  lemma ParsesDecimal(n: int)
    ensures ParseDecimal(Decimal(n)) == Some(n) && '%' !in Decimal(n)
  {
    if n < 0 {
      assert Decimal(n)[1..] == Padded(-n, 1);
    } else {
      assert IsDigit(Padded(n, 1)[0]);
    }
  }

  /** Any percentage and any description, even one with percent signs, are read back from the message. */
  lemma ProgressRoundTrip(progress: int, description: string)
    ensures ParseProgress(ProgressMessage(progress, description)) == Some((progress, description))
    ensures var m := ProgressMessage(progress, description); m[IndexOf(m, '%')..] == "% " + description
  {
    hide Decimal, IndexOf, ParseDecimal;
    var head, m := Decimal(progress), ProgressMessage(progress, description);
    ParsesDecimal(progress);
    assert m == head + (['%'] + (" " + description));
    FirstIndex(head, '%', " " + description);
    assert m[..|head|] == head && m[|head| + 2..] == description;
  }

  // ---------- What each call does to the tables ----------

  function Logged(db: Db, id: Id, kind: EventKind, message: string): Db {
    db.(events := db.events + [Event(id, kind, message)])
  }

  function Stored(db: Db, t: Task): Db {
    db.(tasks := db.tasks[t.id := t])
  }

  /** The row Create inserts for a requested task under a new id. */
  function NewRow(id: Id, t: Task, now: Time): Task {
    Task(id, t.server, t.kind, Running, t.progress, t.description, t.pid, t.details, "", NoAction,
         if t.expectedHeartbeatS <= 0 then 60 else t.expectedHeartbeatS, now, Some(now), now, None, None)
  }

  function CreateEffect(db: Db, id: Id, t: Task, now: Time, commits: bool): (Db, Outcome) {
    if id in db.tasks || !commits then (db, Rejected(Storage))
    else
      var db1 := Stored(db, NewRow(id, t, now));
      (Logged(Logged(db1, id, TaskCreated, ""), id, TaskStarted, t.description), Done)
  }

  /** The copy of a row that Update edits before it opens its transaction. */
  function Patched(t: Task, p: Patch, now: Time): Task {
    t.(progress := if p.progress.Some? then p.progress.value else t.progress,
       status := if p.status.Some? then p.status.value else t.status,
       description := if p.description.Some? then p.description.value else t.description,
       details := if p.details.Some? then p.details.value else t.details,
       updatedAt := now)
  }

  /** The transaction of Update: five columns of the edited copy replace those of the row as it is now. */
  function UpdateEffect(db: Db, current: Task, commits: bool): (Db, Outcome) {
    if current.id !in db.tasks || !commits then (db, Rejected(Storage))
    else
      var row := db.tasks[current.id].(
        progress := current.progress, status := current.status, description := current.description,
        details := current.details, updatedAt := current.updatedAt);
      (Logged(db.(tasks := db.tasks[current.id := row]), current.id, TaskProgress,
              ProgressMessage(current.progress, current.description)), Done)
  }

  function HeartbeatEffect(db: Db, id: Id, now: Time, commits: bool): (Db, Outcome) {
    if id !in db.tasks then (db, Rejected(NotFound))
    else if !commits then (db, Rejected(Storage))
    else (db.(tasks := db.tasks[id := db.tasks[id].(lastHeartbeatAt := Some(now), updatedAt := now)]), Done)
  }

  function FinishEffect(db: Db, id: Id, status: Status, message: string, now: Time, commits: bool): (Db, Outcome) {
    if !status.Terminal() then (db, Rejected(NotTerminal))
    else if id !in db.tasks then (db, Rejected(NotFound))
    else if !commits then (db, Rejected(Storage))
    else
      var row := db.tasks[id].(
        status := status, error := message, completedAt := Some(now), updatedAt := now, control := NoAction);
      (Logged(db.(tasks := db.tasks[id := row]), id, TaskFinished(status), message), Done)
  }

  /** An unknown id touches no row, and then the foreign key of the event log rejects the event. */
  function ControlEffect(db: Db, id: Id, action: Action, now: Time, commits: bool): (Db, Outcome) {
    if id !in db.tasks || !commits then (db, Rejected(Storage))
    else
      var row := db.tasks[id];
      var status := match action
        case Pause => Paused
        case Resume => Running
        case _ => row.status;
      (Logged(db.(tasks := db.tasks[id := row.(control := action, status := status, updatedAt := now)]),
              id, TaskControl(action), ""), Done)
  }

  /** What a call answers that reads the row back after its commit; rereads tells whether that works. */
  function ReadBack(db: Db, id: Id, outcome: Outcome, rereads: bool): Result<Task, Error> {
    match outcome
    case Rejected(error) => Err(error)
    case Done => if rereads && id in db.tasks then Ok(db.tasks[id]) else Err(Storage)
  }

  // ---------- The store ----------

  class Store {
    var tasks: map<Id, Task>
    var events: seq<Event>

    ghost function Contents(): Db
      reads this
    {
      Db(tasks, events)
    }

    constructor ()
      ensures Contents() == Db(map[], [])
    {
      tasks, events := map[], [];
    }

    method InsertEvent(id: Id, kind: EventKind, message: string)
      modifies this`events
      ensures Contents() == Logged(old(Contents()), id, kind, message)
    {
      events := events + [Event(id, kind, message)];
    }

    method Create(id: Id, requested: Task, now: Time, commits: bool) returns (r: Outcome)
      modifies this
      ensures (Contents(), r) == CreateEffect(old(Contents()), id, requested, now, commits)
    {
      var t := requested.(id := id, status := Running, createdAt := now, startedAt := Some(now), updatedAt := now);
      if t.expectedHeartbeatS <= 0 {
        t := t.(expectedHeartbeatS := 60);
      }
      if id in tasks || !commits {
        return Rejected(Storage);
      }
      tasks := tasks[id := t.(error := "", control := NoAction, completedAt := None, lastHeartbeatAt := None)];
      InsertEvent(id, TaskCreated, "");
      InsertEvent(id, TaskStarted, t.description);
      return Done;
    }

    method Get(id: Id) returns (r: Result<Task, Error>)
      ensures r == if id in tasks then Ok(tasks[id]) else Err(NotFound)
    {
      if id in tasks {
        return Ok(tasks[id]);
      }
      return Err(NotFound);
    }

    /** First half of Update: a read outside any transaction, edited field by field. */
    method BeginUpdate(id: Id, patch: Patch, now: Time) returns (r: Result<Task, Error>)
      ensures r == if id in tasks then Ok(Patched(tasks[id], patch, now)) else Err(NotFound)
    {
      r := Get(id);
      if r.Err? {
        return;
      }
      var current := r.value;
      if patch.progress.Some? {
        current := current.(progress := patch.progress.value);
      }
      if patch.status.Some? {
        current := current.(status := patch.status.value);
      }
      if patch.description.Some? {
        current := current.(description := patch.description.value);
      }
      if patch.details.Some? {
        current := current.(details := patch.details.value);
      }
      current := current.(updatedAt := now);
      return Ok(current);
    }

    /** Second half of Update: the transaction that writes the edited copy back. */
    method CommitUpdate(current: Task, commits: bool) returns (r: Outcome)
      modifies this
      ensures (Contents(), r) == UpdateEffect(old(Contents()), current, commits)
    {
      if current.id !in tasks || !commits {
        return Rejected(Storage);
      }
      var row := tasks[current.id];
      row := row.(progress := current.progress, status := current.status);
      row := row.(description := current.description, details := current.details);
      row := row.(updatedAt := current.updatedAt);
      tasks := tasks[current.id := row];
      InsertEvent(current.id, TaskProgress, ProgressMessage(current.progress, current.description));
      return Done;
    }

    method Heartbeat(id: Id, now: Time, commits: bool) returns (r: Outcome)
      modifies this
      ensures (Contents(), r) == HeartbeatEffect(old(Contents()), id, now, commits)
    {
      if id !in tasks {
        return Rejected(NotFound);
      }
      if !commits {
        return Rejected(Storage);
      }
      tasks := tasks[id := tasks[id].(lastHeartbeatAt := Some(now), updatedAt := now)];
      return Done;
    }

    method Finish(id: Id, status: Status, message: string, now: Time, commits: bool, rereads: bool)
      returns (r: Result<Task, Error>)
      modifies this
      ensures var (db, outcome) := FinishEffect(old(Contents()), id, status, message, now, commits);
              Contents() == db && r == ReadBack(db, id, outcome, rereads)
    {
      if !status.Terminal() {
        return Err(NotTerminal);
      }
      if id !in tasks {
        return Err(NotFound);
      }
      if !commits {
        return Err(Storage);
      }
      var row := tasks[id].(status := status, error := message, completedAt := Some(now));
      tasks := tasks[id := row.(updatedAt := now, control := NoAction)];
      InsertEvent(id, TaskFinished(status), message);
      if !rereads {
        return Err(Storage);
      }
      r := Get(id);
    }

    method RequestControl(id: Id, action: Action, now: Time, commits: bool, rereads: bool)
      returns (r: Result<Task, Error>)
      modifies this
      ensures var (db, outcome) := ControlEffect(old(Contents()), id, action, now, commits);
              Contents() == db && r == ReadBack(db, id, outcome, rereads)
    {
      if id !in tasks || !commits {
        return Err(Storage);
      }
      var row := tasks[id].(control := action, updatedAt := now);
      match action {
        case Pause => row := row.(status := Paused);
        case Resume => row := row.(status := Running);
        case _ =>
      }
      tasks := tasks[id := row];
      InsertEvent(id, TaskControl(action), "");
      if !rereads {
        return Err(Storage);
      }
      r := Get(id);
    }
  }
}
