/**
 The SDK's task handle (client/tracker.go) over a network that may lose requests or answers. A
 request on a context that is already cancelled is not sent. A request the server could not serve
 counts as lost, and one that arrives is served before the call returns.
 */
module Sdk {
  import opened Options
  import opened Tasks

  datatype Net = Lost | Arrives | AnswerLost

  datatype State = State(id: Id, active: bool, closed: bool, cancelled: bool)

  datatype Call =
    | Update(progress: int, text: string)
    | UpdateDetails(details: Option<string>)
    | Heartbeat
    | Complete
    | Fail(error: Option<string>)

  predicate Closing(call: Call) {
    call.Complete? || call.Fail?
  }

  predicate Sent(h: State, net: Net) {
    h.active && !h.cancelled && net != Lost
  }

  /** What the server does with an update request of the SDK, which never carries a status. */
  function ServeUpdate(db: Db, id: Id, progress: Option<int>, text: Option<string>, details: Option<string>,
                       now: Time): Db
  {
    if id in db.tasks
    then UpdateEffect(db, Patched(db.tasks[id], Patch(progress, None, text, details), now), true).0
    else db
  }

  function FailMessage(error: Option<string>): string {
    if error.Some? then error.value else "failed"
  }

  function Serve(db: Db, id: Id, call: Call, now: Time): Db {
    match call
    case Update(progress, text) => ServeUpdate(db, id, Some(progress), Some(text), None, now)
    case UpdateDetails(details) => ServeUpdate(db, id, None, None, details, now)
    case Heartbeat => HeartbeatEffect(db, id, now, true).0
    case Complete => FinishEffect(db, id, Completed, "", now, true).0
    case Fail(error) => FinishEffect(db, id, Failed, FailMessage(error), now, true).0
  }

  function StateAfter(h: State, call: Call): State {
    if !Closing(call) then h
    else if !h.active then h.(cancelled := true)
    else if h.closed then h
    else h.(closed := true, cancelled := true)
  }

  function CallEffect(db: Db, h: State, call: Call, net: Net, now: Time): (Db, State) {
    (if Sent(h, net) then Serve(db, h.id, call, now) else db, StateAfter(h, call))
  }

  /** Start: the handle is a working one only if the answer to the create request came back. */
  function StartEffect(db: Db, parentCancelled: bool, id: Id, requested: Task, now: Time, net: Net): (Db, State) {
    if parentCancelled || net == Lost then (db, State(Id(""), false, false, parentCancelled))
    else
      var (db', outcome) := CreateEffect(db, id, requested, now, true);
      (db', if outcome == Done && net == Arrives then State(id, true, false, false)
            else State(Id(""), false, false, false))
  }

  class Handle {
    const server: Store
    const id: Id
    const active: bool
    var closed: bool
    var cancelled: bool

    function Current(): State
      reads this
    {
      State(id, active, closed, cancelled)
    }

    constructor Start(server: Store, parentCancelled: bool, id: Id, requested: Task, now: Time, net: Net)
      modifies server
      ensures this.server == server
      ensures (server.Contents(), Current())
           == StartEffect(old(server.Contents()), parentCancelled, id, requested, now, net)
    {
      var ok := false;
      if !parentCancelled && net != Lost {
        var r := server.Create(id, requested, now, true);
        ok := r == Done && net == Arrives;
      }
      this.server := server;
      this.id := if ok then id else Id("");
      active, closed, cancelled := ok, false, parentCancelled;
    }

    /** The update request behind Update and UpdateDetails. */
    method PostUpdate(progress: Option<int>, text: Option<string>, details: Option<string>, net: Net, now: Time)
      requires active
      modifies server
      ensures server.Contents() == if Sent(Current(), net)
                                   then ServeUpdate(old(server.Contents()), id, progress, text, details, now)
                                   else old(server.Contents())
    {
      if cancelled || net == Lost {
        return;
      }
      var r := server.BeginUpdate(id, Patch(progress, None, text, details), now);
      if r.Ok? {
        var _ := server.CommitUpdate(r.value, true);
      }
    }

    method Update(progress: int, text: string, net: Net, now: Time)
      modifies this, server
      ensures (server.Contents(), Current())
           == CallEffect(old(server.Contents()), old(Current()), Call.Update(progress, text), net, now)
    {
      if !active {
        return;
      }
      PostUpdate(Some(progress), Some(text), None, net, now);
    }

    /** Details that are missing leave the column as it is. */
    method UpdateDetails(details: Option<string>, net: Net, now: Time)
      modifies this, server
      ensures (server.Contents(), Current())
           == CallEffect(old(server.Contents()), old(Current()), Call.UpdateDetails(details), net, now)
    {
      if !active {
        return;
      }
      PostUpdate(None, None, details, net, now);
    }

    method Heartbeat(net: Net, now: Time)
      modifies this, server
      ensures (server.Contents(), Current())
           == CallEffect(old(server.Contents()), old(Current()), Call.Heartbeat, net, now)
    {
      if !active {
        return;
      }
      if !cancelled && net != Lost {
        var _ := server.Heartbeat(id, now, true);
      }
    }

    method Complete(net: Net, now: Time)
      modifies this, server
      ensures (server.Contents(), Current())
           == CallEffect(old(server.Contents()), old(Current()), Call.Complete, net, now)
    {
      if !active {
        cancelled := true;
        return;
      }
      if !cancelled && net != Lost {
        var _ := server.Finish(id, Completed, "", now, true, true);
      }
      Stop();
    }

    method Fail(error: Option<string>, net: Net, now: Time)
      modifies this, server
      ensures (server.Contents(), Current())
           == CallEffect(old(server.Contents()), old(Current()), Call.Fail(error), net, now)
    {
      if !active {
        cancelled := true;
        return;
      }
      var message := "failed";
      if error.Some? {
        message := error.value;
      }
      if !cancelled && net != Lost {
        var _ := server.Finish(id, Failed, message, now, true, true);
      }
      Stop();
    }

    method Stop()
      modifies this
      ensures closed && cancelled == (if old(closed) then old(cancelled) else true)
    {
      if !closed {
        closed := true;
        cancelled := true;
      }
    }
  }
}

/**
 Runs of one handle used sequentially, next to any other traffic on the store that leaves the
 handle's task alone.
 */
module HandleRuns {
  import opened Options
  import opened Tasks
  import opened Sdk
  import TaskRuns

  datatype Step =
    | Do(call: Call, net: Net, now: Time)
    | CancelContext
    | Other(other: TaskRuns.Step)

  /** The handle, the store, and the key of the task that Start asked for. */
  datatype World = World(sys: TaskRuns.Sys, handle: State, id: Id)

  function Start(sys: TaskRuns.Sys, parentCancelled: bool, id: Id, requested: Task, now: Time, net: Net): World {
    var (db, h) := StartEffect(sys.db, parentCancelled, id, requested, now, net);
    World(sys.(db := db), h, id)
  }

  /** Other traffic on the handle's own task is not part of these runs. */
  function Next(w: World, step: Step): World {
    match step
    case Do(call, net, now) =>
      var (db, h) := CallEffect(w.sys.db, w.handle, call, net, now);
      w.(sys := w.sys.(db := db), handle := h)
    case CancelContext => w.(handle := w.handle.(cancelled := true))
    case Other(other) =>
      if TaskRuns.Targets(w.sys, other, w.id) || (other.Create? && other.id == w.id) then w
      else w.(sys := TaskRuns.Next(w.sys, other))
  }

  function Run(w: World, steps: seq<Step>): World {
    if steps == [] then w else Next(Run(w, steps[..|steps| - 1]), steps[|steps| - 1])
  }

  function Log(w: World): seq<Event> {
    TaskRuns.EventsOf(w.sys.db.events, w.id)
  }

  function Row(w: World): Option<Task> {
    if w.id in w.sys.db.tasks then Some(w.sys.db.tasks[w.id]) else None
  }

  // ---------- Single steps ----------

  /** The event a served call logs. */
  function EventOf(t: Task, call: Call): seq<Event> {
    match call
    case Update(progress, text) => [Event(t.id, TaskProgress, ProgressMessage(progress, text))]
    case UpdateDetails(_) => [Event(t.id, TaskProgress, ProgressMessage(t.progress, t.description))]
    case Heartbeat => []
    case Complete => [Event(t.id, TaskFinished(Completed), "")]
    case Fail(error) => [Event(t.id, TaskFinished(Failed), FailMessage(error))]
  }

  lemma ServeLogs(db: Db, id: Id, call: Call, now: Time)
    requires id in db.tasks && db.tasks[id].id == id
    ensures Serve(db, id, call, now).events == db.events + EventOf(db.tasks[id], call)
    ensures Serve(db, id, call, now).tasks.Keys == db.tasks.Keys
    ensures Serve(db, id, call, now).tasks[id].id == id
    ensures Serve(db, id, call, now).tasks[id].status
         == (match call case Complete => Completed case Fail(_) => Failed case _ => db.tasks[id].status)
    ensures forall k :: k in db.tasks && k != id ==> Serve(db, id, call, now).tasks[k] == db.tasks[k]
  {
    hide ProgressMessage;
  }

  lemma LogsAppend(log: seq<Event>, more: seq<Event>, id: Id)
    requires |more| <= 1 && forall e :: e in more ==> e.task == id
    ensures TaskRuns.EventsOf(log + more, id) == TaskRuns.EventsOf(log, id) + more
  {
    if more == [] {
      assert log + more == log;
    } else {
      assert more == [more[0]];
      TaskRuns.EventsOfAppend(log, more[0], id);
    }
  }

  /** Traffic on other tasks touches neither the row nor the log of this one. */
  lemma OtherLeavesAlone(w: World, other: TaskRuns.Step)
    requires TaskRuns.Sound(w.sys)
    ensures Row(Next(w, Other(other))) == Row(w) && Log(Next(w, Other(other))) == Log(w)
    ensures TaskRuns.Sound(Next(w, Other(other)).sys)
  {
    hide ProgressMessage, TaskRuns.EventsOf, Patched;
    TaskRuns.StepAppends(w.sys, other, w.id);
    TaskRuns.NextSound(w.sys, other);
  }

  // ---------- The grammar of the log ----------

  predicate Opening(log: seq<Event>) {
    |log| >= 2 && log[0].kind == TaskCreated && log[1].kind == TaskStarted
  }

  /** CREATED STARTED PROGRESS* */
  predicate Open(log: seq<Event>) {
    Opening(log) && forall i :: 2 <= i < |log| ==> log[i].kind == TaskProgress
  }

  predicate Closed(log: seq<Event>) {
    log != [] && Open(log[..|log| - 1]) && log[|log| - 1].kind in {TaskFinished(Completed), TaskFinished(Failed)}
  }

  /** Nothing if the create request did not arrive, else CREATED STARTED PROGRESS* (COMPLETED | FAILED)? */
  predicate Grammatical(log: seq<Event>) {
    log == [] || Open(log) || Closed(log)
  }

  predicate Live(h: State) {
    h.active && !h.cancelled
  }

  predicate Consistent(w: World) {
    && TaskRuns.Sound(w.sys)
    && (w.handle.active ==> w.handle.id == w.id)
    && (Live(w.handle) ==> Row(w).Some? && Open(Log(w)) && !w.handle.closed)
    && (w.handle.closed ==> w.handle.cancelled)
    && Grammatical(Log(w))
  }

  /** A create request that arrives is an ordinary Create, and the handle is live if the answer came back. */
  lemma StartIsCreate(sys: TaskRuns.Sys, id: Id, requested: Task, now: Time, net: Net)
    requires id !in sys.db.tasks && net != Lost
    ensures var w := Start(sys, false, id, requested, now, net);
            && w.sys == TaskRuns.Next(sys, TaskRuns.Create(id, requested, now, true)) && w.id == id
            && id in w.sys.db.tasks && !w.handle.closed && !w.handle.cancelled
            && (w.handle.active ==> w.handle.id == id)
  {
  }

  /**
   Start gives a live handle exactly if its context is live and the create request was served and
   answered, and the task exists as soon as the request was served.
   */
  lemma StartExactly(sys: TaskRuns.Sys, parentCancelled: bool, id: Id, requested: Task, now: Time, net: Net)
    requires id !in sys.db.tasks
    ensures var w := Start(sys, parentCancelled, id, requested, now, net);
            && (Live(w.handle) <==> !parentCancelled && net == Arrives)
            && (w.handle.active <==> !parentCancelled && net == Arrives)
            && w.handle.id == (if !parentCancelled && net == Arrives then id else Id(""))
            && w.handle.cancelled == parentCancelled && !w.handle.closed
            && (Row(w).Some? <==> !parentCancelled && net != Lost)
  {
  }

  lemma StartConsistent(sys: TaskRuns.Sys, parentCancelled: bool, id: Id, requested: Task, now: Time, net: Net)
    requires TaskRuns.Sound(sys) && id !in sys.db.tasks
    ensures Consistent(Start(sys, parentCancelled, id, requested, now, net))
  {
    hide TaskRuns.Next, TaskRuns.Sound, TaskRuns.EventsOf, Start;
    if parentCancelled || net == Lost {
      StartIsNothing(sys, parentCancelled, id, requested, now, net);
      EmptyLog(sys, id);
    } else {
      var create := TaskRuns.Create(id, requested, now, true);
      StartIsCreate(sys, id, requested, now, net);
      TaskRuns.FreshTask(sys, create, id);
      TaskRuns.NextSound(sys, create);
      assert Open(Log(Start(sys, parentCancelled, id, requested, now, net)));
    }
  }

  lemma StartIsNothing(sys: TaskRuns.Sys, parentCancelled: bool, id: Id, requested: Task, now: Time, net: Net)
    requires parentCancelled || net == Lost
    ensures Start(sys, parentCancelled, id, requested, now, net)
         == World(sys, State(Id(""), false, false, parentCancelled), id)
  {
  }

  lemma EmptyLog(sys: TaskRuns.Sys, id: Id)
    requires TaskRuns.Sound(sys) && id !in sys.db.tasks
    ensures TaskRuns.EventsOf(sys.db.events, id) == []
  {
    TaskRuns.NoEvents(sys.db.events, id);
  }

  /** What a call does to the handle's task. */
  lemma DoEffect(w: World, call: Call, net: Net, now: Time)
    requires Consistent(w)
    ensures var w' := Next(w, Do(call, net, now));
            && w'.id == w.id && w'.handle == StateAfter(w.handle, call) && TaskRuns.Sound(w'.sys)
            && (Row(w).Some? ==> Row(w').Some?)
            && (if Sent(w.handle, net) then Log(w') == Log(w) + EventOf(w.sys.db.tasks[w.id], call)
                else w'.sys == w.sys)
  {
    hide ProgressMessage, Serve, TaskRuns.EventsOf, Open, Closed;
    if Sent(w.handle, net) {
      ServeLogs(w.sys.db, w.id, call, now);
      LogsAppend(w.sys.db.events, EventOf(w.sys.db.tasks[w.id], call), w.id);
    }
  }

  /** A call leaves the handle as it is, unless it is a Complete or Fail, which cancels the context in any case. */
  lemma HandleAfterCall(w: World, call: Call, net: Net, now: Time)
    requires Consistent(w)
    ensures var h, h' := w.handle, Next(w, Do(call, net, now)).handle;
            && h'.id == h.id && h'.active == h.active
            && h'.cancelled == (h.cancelled || call.Complete? || call.Fail?)
            && h'.closed == (h.closed || (h.active && (call.Complete? || call.Fail?)))
  {
  }

  /** What each call on a live handle makes of the task's row when its request is served. */
  lemma Delivered(w: World, call: Call, net: Net, now: Time)
    requires Consistent(w) && Live(w.handle) && net != Lost
    ensures Row(Next(w, Do(call, net, now))).Some?
    ensures var t, u := w.sys.db.tasks[w.id], Row(Next(w, Do(call, net, now))).value;
            match call
            case Update(progress, text) => u == t.(progress := progress, description := text, updatedAt := now)
            case UpdateDetails(details) =>
              u == t.(details := if details.Some? then details.value else t.details, updatedAt := now)
            case Heartbeat => u == t.(lastHeartbeatAt := Some(now), updatedAt := now)
            case Complete =>
              u == t.(status := Completed, error := "", control := NoAction, completedAt := Some(now), updatedAt := now)
            case Fail(error) =>
              u == t.(status := Failed, error := if error.Some? then error.value else "failed", control := NoAction,
                      completedAt := Some(now), updatedAt := now)
  {
    hide ProgressMessage, TaskRuns.EventsOf, Open;
  }

  lemma DoConsistent(w: World, call: Call, net: Net, now: Time)
    requires Consistent(w)
    ensures Consistent(Next(w, Do(call, net, now)))
  {
    hide ProgressMessage, Next, TaskRuns.EventsOf, TaskRuns.Sound;
    DoEffect(w, call, net, now);
    if Sent(w.handle, net) {
      OpenThen(Log(w), w.sys.db.tasks[w.id], call);
    }
  }

  lemma OpenThen(log: seq<Event>, t: Task, call: Call)
    requires Open(log)
    ensures if Closing(call) then Closed(log + EventOf(t, call)) else Open(log + EventOf(t, call))
  {
    hide ProgressMessage;
    if Closing(call) {
      assert (log + EventOf(t, call))[..|log|] == log;
    }
  }

  lemma NextConsistent(w: World, step: Step)
    requires Consistent(w)
    ensures Consistent(Next(w, step))
  {
    hide Next, Log, Row, Grammatical, Open, TaskRuns.Sound;
    match step
    case Do(call, net, now) => DoConsistent(w, call, net, now);
    case CancelContext => CancelConsistent(w);
    case Other(other) => OtherConsistent(w, other);
  }

  lemma CancelConsistent(w: World)
    requires Consistent(w)
    ensures Consistent(Next(w, CancelContext))
    ensures Next(w, CancelContext).sys == w.sys
  {
  }

  lemma OtherConsistent(w: World, other: TaskRuns.Step)
    requires Consistent(w)
    ensures Consistent(Next(w, Other(other)))
    ensures Next(w, Other(other)).handle == w.handle
  {
    hide TaskRuns.Next, TaskRuns.Sound, TaskRuns.EventsOf, Open, Closed;
    OtherLeavesAlone(w, other);
  }

  lemma {:induction false} RunConsistent(w: World, steps: seq<Step>)
    requires Consistent(w)
    ensures Consistent(Run(w, steps))
  {
    hide Consistent;
    if steps != [] {
      RunConsistent(w, steps[..|steps| - 1]);
      NextConsistent(Run(w, steps[..|steps| - 1]), steps[|steps| - 1]);
    }
  }

  /**
   Whatever is called in whatever order, and whichever requests and answers are lost, the log of
   the handle's task is empty or CREATED STARTED PROGRESS* with at most one COMPLETED or FAILED,
   which is last.
   */
  lemma LogIsGrammatical(sys: TaskRuns.Sys, parentCancelled: bool, id: Id, requested: Task, now: Time, net: Net,
                         steps: seq<Step>)
    requires TaskRuns.Sound(sys) && id !in sys.db.tasks
    ensures Grammatical(Log(Run(Start(sys, parentCancelled, id, requested, now, net), steps)))
  {
    StartConsistent(sys, parentCancelled, id, requested, now, net);
    RunConsistent(Start(sys, parentCancelled, id, requested, now, net), steps);
  }

  /** A handle is live exactly until its context is cancelled or it is completed or failed. */
  lemma {:induction false} LiveExactly(w: World, steps: seq<Step>)
    requires Consistent(w)
    ensures Live(Run(w, steps).handle) <==>
            Live(w.handle) && forall i :: 0 <= i < |steps| ==>
              !steps[i].CancelContext? && !(steps[i].Do? && (steps[i].call.Complete? || steps[i].call.Fail?))
  {
    hide Next, Consistent;
    if steps != [] {
      var front, step := steps[..|steps| - 1], steps[|steps| - 1];
      LiveExactly(w, front);
      RunConsistent(w, front);
      StepLive(Run(w, front), step);
    }
  }

  lemma StepLive(w: World, step: Step)
    requires Consistent(w)
    ensures Live(Next(w, step).handle) <==>
            Live(w.handle) && !step.CancelContext? && !(step.Do? && (step.call.Complete? || step.call.Fail?))
  {
    hide TaskRuns.Next, TaskRuns.EventsOf, TaskRuns.Sound, Serve, Open;
  }

  // ---------- The first Complete or Fail decides ----------

  /** Nothing is delivered any more once the handle is not live. */
  lemma {:induction false} DeadHandleDeliversNothing(w: World, steps: seq<Step>)
    requires Consistent(w) && !Live(w.handle)
    ensures !Live(Run(w, steps).handle) && Row(Run(w, steps)) == Row(w) && Log(Run(w, steps)) == Log(w)
  {
    hide Next, Log, Row, Consistent;
    if steps != [] {
      var front, step := steps[..|steps| - 1], steps[|steps| - 1];
      DeadHandleDeliversNothing(w, front);
      RunConsistent(w, front);
      DeadStep(Run(w, front), step);
    }
  }

  lemma DeadStep(w: World, step: Step)
    requires Consistent(w) && !Live(w.handle)
    ensures !Live(Next(w, step).handle) && Row(Next(w, step)) == Row(w) && Log(Next(w, step)) == Log(w)
  {
    hide TaskRuns.Next, TaskRuns.Sound, TaskRuns.EventsOf, Grammatical, Open, Serve;
    if step.Other? {
      OtherLeavesAlone(w, step.other);
    }
  }

  /**
   A Complete or Fail on a live handle is the last call that can have any effect: the task ends with
   the status and the event of that call if its request arrived, and otherwise as it was before, and
   no later call, such as a deferred Complete after a Fail, changes the row or the log again.
   */
  lemma FirstCloseDecides(w: World, call: Call, net: Net, now: Time, later: seq<Step>)
    requires Consistent(w) && Live(w.handle) && Closing(call)
    ensures var end := Run(Next(w, Do(call, net, now)), later);
            if net == Lost then Row(end) == Row(w) && Log(end) == Log(w)
            else
              && Row(end).Some? && Row(end).value.status == (if call.Complete? then Completed else Failed)
              && Log(end) == Log(w) + EventOf(w.sys.db.tasks[w.id], call)
  {
    var w' := Next(w, Do(call, net, now));
    DoConsistent(w, call, net, now);
    DoEffect(w, call, net, now);
    DeadHandleDeliversNothing(w', later);
    if net != Lost {
      CloseStatus(w, call, net, now);
    }
  }

  lemma CloseStatus(w: World, call: Call, net: Net, now: Time)
    requires Consistent(w) && Live(w.handle) && Closing(call) && net != Lost
    ensures Row(Next(w, Do(call, net, now))).Some?
    ensures Row(Next(w, Do(call, net, now))).value.status == (if call.Complete? then Completed else Failed)
  {
    hide Serve, TaskRuns.EventsOf, Open;
    ServeLogs(w.sys.db, w.id, call, now);
  }
}
