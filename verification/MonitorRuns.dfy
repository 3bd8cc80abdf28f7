/**
 Runs of the whole server seen by the stuck-task monitor: store calls, a clock that does not go
 back, and sweeps. A sweep lists the running tasks in one step and judges that listing in a later
 one, so calls and time can pass in between.
 */
module MonitorRuns {
  import opened Durations
  import opened Options
  import opened Tasks
  import opened Health
  import TaskRuns

  datatype Step =
    | Call(call: TaskRuns.Step)
    | Wait(until: Time)
    | List(rows: Option<seq<Task>>)
    | Judge

  datatype Sweep = Sweep(rows: seq<Task>, now: Time)

  /** sweeps records the listings judged so far; the server itself keeps no such record. */
  datatype World = World(
    sys: TaskRuns.Sys, clock: Time, listing: Option<seq<Task>>,
    alerted: set<Id>, alerts: seq<Alert>, sweeps: seq<Sweep>)

  /** What the query for running tasks may return: every running row once, in any order. */
  predicate IsListing(db: Db, rows: seq<Task>) {
    && (forall t :: t in rows ==> t.id in db.tasks && db.tasks[t.id] == t && t.status == Running)
    && (forall id :: id in db.tasks && db.tasks[id].status == Running ==> db.tasks[id] in rows)
    && (forall i, j :: 0 <= i < j < |rows| ==> rows[i].id != rows[j].id)
  }

  /** Anything but a correct listing stands for a query that failed; the sweep then ends at once. */
  function Next(n: int, w: World, step: Step): World {
    match step
    case Call(call) => w.(sys := TaskRuns.Next(w.sys, call))
    case Wait(until) => w.(clock := if until > w.clock then until else w.clock)
    case List(rows) => w.(listing := if rows.Some? && IsListing(w.sys.db, rows.value) then rows else None)
    case Judge =>
      if w.listing.None? then w
      else
        var rows := w.listing.value;
        w.(listing := None,
           alerted := StuckIds(rows, w.clock, n),
           alerts := w.alerts + NewAlerts(w.alerted, rows, w.clock, n),
           sweeps := w.sweeps + [Sweep(rows, w.clock)])
  }

  function Run(n: int, steps: seq<Step>): World {
    if steps == [] then World(TaskRuns.Init(), 0, None, {}, [], [])
    else Next(n, Run(n, steps[..|steps| - 1]), steps[|steps| - 1])
  }

  lemma RunOneMore(n: int, steps: seq<Step>, k: nat)
    requires k < |steps|
    ensures Run(n, steps[..k + 1]) == Next(n, Run(n, steps[..k]), steps[k])
  {
    assert steps[..k + 1][..k] == steps[..k];
  }

  lemma {:induction false} RunSound(n: int, steps: seq<Step>)
    ensures TaskRuns.Sound(Run(n, steps).sys)
  {
    if steps != [] {
      RunSound(n, steps[..|steps| - 1]);
      var step := steps[|steps| - 1];
      if step.Call? {
        TaskRuns.NextSound(Run(n, steps[..|steps| - 1]).sys, step.call);
      }
    }
  }

  // ---------- Alerts are the rising edges ----------

  predicate StuckAt(s: Sweep, id: Id, n: int) {
    id in StuckIds(s.rows, s.now, n)
  }

  /** The sweeps at which the task is stuck and was not at the sweep before. */
  function RisingEdges(sweeps: seq<Sweep>, id: Id, n: int): seq<Time> {
    if sweeps == [] then []
    else
      var k := |sweeps| - 1;
      RisingEdges(sweeps[..k], id, n) +
      (if StuckAt(sweeps[k], id, n) && (k == 0 || !StuckAt(sweeps[k - 1], id, n)) then [sweeps[k].now] else [])
  }

  /** When the task was alerted on. */
  function AlertTimes(alerts: seq<Alert>, id: Id): seq<Time> {
    if alerts == [] then []
    else AlertTimes(alerts[..|alerts| - 1], id) +
         (if alerts[|alerts| - 1].id == id then [alerts[|alerts| - 1].at] else [])
  }

  lemma {:induction false} AlertTimesAppend(a: seq<Alert>, b: seq<Alert>, id: Id)
    ensures AlertTimes(a + b, id) == AlertTimes(a, id) + AlertTimes(b, id)
  {
    if b == [] {
      assert a + b == a;
    } else {
      AlertTimesAppend(a, b[..|b| - 1], id);
      assert (a + b)[..|a + b| - 1] == a + b[..|b| - 1];
    }
  }

  lemma OneAlertTime(a: Alert, id: Id)
    ensures AlertTimes([a], id) == if a.id == id then [a.at] else []
    ensures AlertTimes([], id) == []
  {
    assert [a][..0] == [];
  }

  lemma EmptySweep(alerted: set<Id>, now: Time, n: int)
    ensures NewAlerts(alerted, [], now, n) == [] && StuckIds([], now, n) == {}
  {
  }

  lemma {:induction false} NewAlertTimes(alerted: set<Id>, rows: seq<Task>, now: Time, n: int, id: Id)
    ensures AlertTimes(NewAlerts(alerted, rows, now, n), id)
         == if id in StuckIds(rows, now, n) && id !in alerted then [now] else []
  {
    hide Stuck, StuckIds, NewAlerts, AlertTimes;
    EmptySweep(alerted, now, n);
    OneAlertTime(Alert(id, now), id);
    if rows != [] {
      var k := |rows| - 1;
      NewAlertTimes(alerted, rows[..k], now, n, id);
      SweepOneMore(alerted, rows, k, now, n);
      assert rows[..k + 1] == rows;
      var alert := Alert(rows[k].id, now);
      OneAlertTime(alert, id);
      AlertTimesAppend(NewAlerts(alerted, rows[..k], now, n), [alert], id);
      AlertTimesAppend(NewAlerts(alerted, rows[..k], now, n), [], id);
    }
  }

  /** A sweep alerts on a task, then, exactly if it is stuck and was not alerted on. */
  lemma JudgeAlerts(n: int, w: World, id: Id)
    requires w.listing.Some?
    ensures AlertTimes(Next(n, w, Judge).alerts, id)
         == AlertTimes(w.alerts, id) +
            (if id in StuckIds(w.listing.value, w.clock, n) && id !in w.alerted then [w.clock] else [])
  {
    hide TaskRuns.Next, TaskRuns.Effect, Stuck, StuckIds, NewAlerts, AlertTimes, IsListing;
    AlertTimesAppend(w.alerts, NewAlerts(w.alerted, w.listing.value, w.clock, n), id);
    NewAlertTimes(w.alerted, w.listing.value, w.clock, n, id);
  }

  /** The alerted set and the alert log are functions of the sweeps judged so far. */
  predicate AlertsFollowSweeps(n: int, w: World, id: Id) {
    && (id in w.alerted <==> w.sweeps != [] && StuckAt(w.sweeps[|w.sweeps| - 1], id, n))
    && AlertTimes(w.alerts, id) == RisingEdges(w.sweeps, id, n)
  }

  lemma StepFollowsSweeps(n: int, w: World, step: Step, id: Id)
    requires AlertsFollowSweeps(n, w, id)
    ensures AlertsFollowSweeps(n, Next(n, w, step), id)
  {
    hide TaskRuns.Next, IsListing, Stuck, NewAlerts;
    if step.Judge? && w.listing.Some? {
      JudgeAlerts(n, w, id);
      var k := |w.sweeps|;
      var sweeps := w.sweeps + [Sweep(w.listing.value, w.clock)];
      assert sweeps[..k] == w.sweeps && sweeps[k] == Sweep(w.listing.value, w.clock);
      assert k > 0 ==> sweeps[k - 1] == w.sweeps[k - 1];
    }
  }

  /**
   After any run the alerted set holds exactly the tasks stuck at the last successful sweep, and
   the alerts on each task are exactly the rising edges of its stuck condition over those sweeps.
   */
  lemma {:induction false} AlertsAreRisingEdges(n: int, steps: seq<Step>, id: Id)
    ensures AlertsFollowSweeps(n, Run(n, steps), id)
  {
    if steps != [] {
      AlertsAreRisingEdges(n, steps[..|steps| - 1], id);
      StepFollowsSweeps(n, Run(n, steps[..|steps| - 1]), steps[|steps| - 1], id);
    }
  }

  // ---------- No second alert within one silence ----------

  predicate Heard(w: World, step: Step, id: Id) {
    step.Call? && step.call.Heartbeat? && step.call.id == id && TaskRuns.Effect(w.sys, step.call).1 == Done
  }

  predicate RunningIn(w: World, id: Id) {
    id in w.sys.db.tasks && w.sys.db.tasks[id].status == Running
  }

  /** The last sign of life is the time of the latest recorded heartbeat, and at first that of the start. */
  lemma SignsOfLife(w: World, step: Step, id: Id)
    requires step.Call? && TaskRuns.Sound(w.sys) && id in TaskRuns.Next(w.sys, step.call).db.tasks
    ensures LastSeen(TaskRuns.Next(w.sys, step.call).db.tasks[id])
         == if id !in w.sys.db.tasks then step.call.now
            else if Heard(w, step, id) then step.call.now
            else LastSeen(w.sys.db.tasks[id])
  {
    if id in w.sys.db.tasks {
      if Heard(w, step, id) {
        HeartbeatRecorded(w, step, id);
      } else {
        hide TaskRuns.Next, TaskRuns.Effect;
        TaskRuns.StableColumns(w.sys, step.call, id);
      }
    } else {
      hide TaskRuns.Next, TaskRuns.Effect;
      TaskRuns.FreshTask(w.sys, step.call, id);
    }
  }

  lemma HeartbeatRecorded(w: World, step: Step, id: Id)
    requires Heard(w, step, id)
    ensures id in w.sys.db.tasks && TaskRuns.Next(w.sys, step.call).db.tasks[id].lastHeartbeatAt == Some(step.call.now)
  {
  }

  /** None of the calls is a recorded heartbeat of the task. */
  predicate Unheard(s: TaskRuns.Sys, calls: seq<TaskRuns.Step>, id: Id) {
    forall i :: 0 <= i < |calls| && calls[i].Heartbeat? && calls[i].id == id ==>
      TaskRuns.Effect(TaskRuns.RunFrom(s, calls[..i]), calls[i]).1 != Done
  }

  lemma {:induction false} UnheardKeeps(s: TaskRuns.Sys, calls: seq<TaskRuns.Step>, id: Id)
    requires TaskRuns.Sound(s) && id in s.db.tasks && Unheard(s, calls, id)
    ensures TaskRuns.Sound(TaskRuns.RunFrom(s, calls)) && id in TaskRuns.RunFrom(s, calls).db.tasks
    ensures var t, u := s.db.tasks[id], TaskRuns.RunFrom(s, calls).db.tasks[id];
            && u.expectedHeartbeatS == t.expectedHeartbeatS && u.lastHeartbeatAt == t.lastHeartbeatAt
            && u.startedAt == t.startedAt && u.createdAt == t.createdAt
  {
    hide TaskRuns.Next, TaskRuns.Effect, TaskRuns.Sound;
    if calls != [] {
      var front, call := calls[..|calls| - 1], calls[|calls| - 1];
      assert forall i :: 0 <= i < |front| ==> front[..i] == calls[..i];
      UnheardKeeps(s, front, id);
      TaskRuns.StableColumns(TaskRuns.RunFrom(s, front), call, id);
      TaskRuns.NextSound(TaskRuns.RunFrom(s, front), call);
      TaskRuns.CallsAreAtomic(TaskRuns.RunFrom(s, front), call);
      assert call.Heartbeat? && call.id == id ==>
          TaskRuns.Effect(TaskRuns.RunFrom(s, calls[..|front|]), calls[|front|]).1 != Done;
    }
  }

  /**
   From its creation on, and until a heartbeat of it is recorded, a task is stuck exactly while it is
   running and more than n intervals have passed, where an interval that was not asked for is a minute.
   */
  lemma StuckSinceStart(s: TaskRuns.Sys, id: Id, r: Task, at: Time, calls: seq<TaskRuns.Step>, now: Time, n: int)
    requires TaskRuns.Sound(s) && id !in s.db.tasks
    requires Unheard(TaskRuns.Next(s, TaskRuns.Create(id, r, at, true)), calls, id)
    requires 0 <= n * (if r.expectedHeartbeatS > 0 then r.expectedHeartbeatS else 60) <= MAX_SECONDS
    ensures var w := TaskRuns.RunFrom(TaskRuns.Next(s, TaskRuns.Create(id, r, at, true)), calls);
            && id in w.db.tasks
            && (Stuck(w.db.tasks[id], now, n) <==>
                && w.db.tasks[id].status == Running
                && now - at > n * (if r.expectedHeartbeatS > 0 then r.expectedHeartbeatS else 60) * SECOND)
  {
    hide TaskRuns.Next, TaskRuns.Sound, Stuck, Unheard;
    var s1 := TaskRuns.Next(s, TaskRuns.Create(id, r, at, true));
    TaskRuns.NextSound(s, TaskRuns.Create(id, r, at, true));
    TaskRuns.CreateLands(s, id, r, at);
    UnheardKeeps(s1, calls, id);
    StuckMeansSilent(TaskRuns.RunFrom(s1, calls).db.tasks[id], now, n);
  }

  /** From step r on, up to step k, the task is running and no heartbeat of it is recorded. */
  predicate Silent(n: int, steps: seq<Step>, id: Id, r: nat, k: nat) {
    && r <= k <= |steps|
    && (forall i :: r <= i <= k ==> RunningIn(Run(n, steps[..i]), id))
    && (forall i :: r <= i < k ==> !Heard(Run(n, steps[..i]), steps[i], id))
  }

  /** A running row with a given sign of life and heartbeat interval. */
  predicate Looks(t: Task, id: Id, seen: Time, interval: int) {
    t.id == id && t.status == Running && LastSeen(t) == seen && t.expectedHeartbeatS == interval
  }

  predicate ListedAs(rows: seq<Task>, id: Id, seen: Time, interval: int) {
    && (exists t :: t in rows && t.id == id)
    && (forall t :: t in rows && t.id == id ==> Looks(t, id, seen, interval))
  }

  /** The row of the task and its entry in the listing in hand both have the given looks. */
  predicate Tracked(w: World, id: Id, seen: Time, interval: int) {
    && RunningIn(w, id) && Looks(w.sys.db.tasks[id], id, seen, interval)
    && (w.listing.Some? ==> ListedAs(w.listing.value, id, seen, interval))
  }

  lemma StepKeepsTrack(n: int, w: World, step: Step, id: Id, seen: Time, interval: int)
    requires TaskRuns.Sound(w.sys) && Tracked(w, id, seen, interval)
    requires !Heard(w, step, id) && RunningIn(Next(n, w, step), id)
    ensures Tracked(Next(n, w, step), id, seen, interval) && w.clock <= Next(n, w, step).clock
  {
    hide TaskRuns.Next, TaskRuns.Effect, TaskRuns.Sound, StuckIds, NewAlerts;
    match step
    case Call(call) => TaskRuns.StableColumns(w.sys, call, id);
    case List(rows) =>
      if rows.Some? && IsListing(w.sys.db, rows.value) {
        assert w.sys.db.tasks[id] in rows.value;
      }
    case _ =>
  }

  /** During a silence the row keeps its looks, and so it appears in every listing made since. */
  lemma {:induction false} SilenceKeepsLooks(n: int, steps: seq<Step>, id: Id, seen: Time, interval: int,
                                             r: nat, k: nat)
    requires Silent(n, steps, id, r, k) && Tracked(Run(n, steps[..r]), id, seen, interval)
    ensures Tracked(Run(n, steps[..k]), id, seen, interval)
    decreases k
  {
    hide Next, Run, Tracked;
    if k > r {
      assert Silent(n, steps, id, r, k - 1);
      SilenceKeepsLooks(n, steps, id, seen, interval, r, k - 1);
      RunOneMore(n, steps, k - 1);
      RunSound(n, steps[..k - 1]);
      assert RunningIn(Run(n, steps[..k]), id) && !Heard(Run(n, steps[..k - 1]), steps[k - 1], id);
      StepKeepsTrack(n, Run(n, steps[..k - 1]), steps[k - 1], id, seen, interval);
    }
  }

  /** Two rows that look the same are stuck alike, and a stuck one stays stuck as time passes. */
  lemma StuckLike(rows: seq<Task>, id: Id, seen: Time, interval: int, t: Task, now: Time, n: int)
    requires ListedAs(rows, id, seen, interval) && Looks(t, id, seen, interval)
    ensures id in StuckIds(rows, now, n) <==> Stuck(t, now, n)
    ensures forall later :: now <= later && Stuck(t, now, n) ==> Stuck(t, later, n)
  {
    forall u | u in rows && u.id == id
      ensures Stuck(u, now, n) == Stuck(t, now, n)
    {
    }
    if Stuck(t, now, n) {
      var u :| u in rows && u.id == id;
      assert u.id in StuckIds(rows, now, n);
    }
  }

  /** Before step k a heartbeat of the task was recorded by it, or after it the task was not running. */
  predicate Broken(n: int, steps: seq<Step>, id: Id, k: nat)
    requires k < |steps|
  {
    Heard(Run(n, steps[..k]), steps[k], id) || !RunningIn(Run(n, steps[..k + 1]), id)
  }

  /** Whether the step alerts on the task. */
  predicate Alerts(n: int, w: World, step: Step, id: Id) {
    AlertTimes(Next(n, w, step).alerts, id) != AlertTimes(w.alerts, id)
  }

  lemma AlertsMeans(n: int, w: World, step: Step, id: Id)
    ensures Alerts(n, w, step, id) <==>
            step.Judge? && w.listing.Some? && id in StuckIds(w.listing.value, w.clock, n) && id !in w.alerted
  {
    if step.Judge? && w.listing.Some? {
      JudgeAlerts(n, w, id);
    }
  }

  /** The task was alerted on in the present silence, and is stuck. */
  predicate Raised(n: int, w: World, id: Id, seen: Time, interval: int) {
    Tracked(w, id, seen, interval) && id in w.alerted && Stuck(w.sys.db.tasks[id], w.clock, n)
  }

  lemma AlertRaises(n: int, w: World, step: Step, id: Id, seen: Time, interval: int)
    requires Tracked(w, id, seen, interval) && Alerts(n, w, step, id)
    ensures Raised(n, Next(n, w, step), id, seen, interval)
  {
    hide NewAlerts, AlertTimes, Stuck, ListedAs, Alerts, StuckIds;
    AlertsMeans(n, w, step, id);
    StuckLike(w.listing.value, id, seen, interval, w.sys.db.tasks[id], w.clock, n);
  }

  lemma StepKeepsRaised(n: int, w: World, step: Step, id: Id, seen: Time, interval: int)
    requires Raised(n, w, id, seen, interval) && Tracked(Next(n, w, step), id, seen, interval)
    ensures Raised(n, Next(n, w, step), id, seen, interval)
  {
    hide TaskRuns.Next, TaskRuns.Effect, IsListing, NewAlerts, ListedAs, StuckIds;
    var t, u := w.sys.db.tasks[id], Next(n, w, step).sys.db.tasks[id];
    assert Stuck(u, w.clock, n) == Stuck(t, w.clock, n);
    if step.Judge? && w.listing.Some? {
      StuckLike(w.listing.value, id, seen, interval, t, w.clock, n);
    }
  }

  /** Once alerted on, a silent task stays in the alerted set. */
  lemma {:induction false} StaysAlerted(n: int, steps: seq<Step>, id: Id, seen: Time, interval: int,
                                        r: nat, i: nat, k: nat)
    requires r <= i < k && Silent(n, steps, id, r, k) && Tracked(Run(n, steps[..r]), id, seen, interval)
    requires Alerts(n, Run(n, steps[..i]), steps[i], id)
    ensures Raised(n, Run(n, steps[..k]), id, seen, interval)
    decreases k
  {
    hide Next, Run, Tracked, Raised, Alerts;
    assert Silent(n, steps, id, r, k - 1);
    SilenceKeepsLooks(n, steps, id, seen, interval, r, k - 1);
    SilenceKeepsLooks(n, steps, id, seen, interval, r, k);
    RunOneMore(n, steps, k - 1);
    if k == i + 1 {
      AlertRaises(n, Run(n, steps[..i]), steps[i], id, seen, interval);
    } else {
      StaysAlerted(n, steps, id, seen, interval, r, i, k - 1);
      StepKeepsRaised(n, Run(n, steps[..k - 1]), steps[k - 1], id, seen, interval);
    }
  }

  /**
   One alert per episode: if two sweeps alert on the same task, then after the listing that led to
   the first alert and before the second a heartbeat of the task was recorded or it was not running.
   */
  lemma OneAlertPerSilence(n: int, steps: seq<Step>, id: Id, r: nat, i: nat, j: nat)
    requires r < i < j < |steps|
    requires steps[r].List? && forall k :: r < k < i ==> !steps[k].List?
    requires Alerts(n, Run(n, steps[..i]), steps[i], id) && Alerts(n, Run(n, steps[..j]), steps[j], id)
    ensures exists k :: r < k < j && Broken(n, steps, id, k)
  {
    hide Next, Run, Stuck, Alerts, Broken, Silent;
    if forall k :: r < k < j ==> !Broken(n, steps, id, k) {
      ListingPersists(n, steps, r, i);
      AlertsMeans(n, Run(n, steps[..i]), steps[i], id);
      AlertsMeans(n, Run(n, steps[..j]), steps[j], id);
      var t := ListedAndRunning(n, steps, id, r);
      UnbrokenIsSilent(n, steps, id, r, j);
      StaysAlerted(n, steps, id, LastSeen(t), t.expectedHeartbeatS, r + 1, i, j);
      assert false;
    }
  }

  /** A task in a fresh listing is running and looks as listed. */
  lemma ListedAndRunning(n: int, steps: seq<Step>, id: Id, r: nat) returns (t: Task)
    requires r < |steps| && steps[r].List? && Run(n, steps[..r + 1]).listing.Some?
    requires exists u :: u in Run(n, steps[..r + 1]).listing.value && u.id == id
    ensures Tracked(Run(n, steps[..r + 1]), id, LastSeen(t), t.expectedHeartbeatS)
  {
    RunOneMore(n, steps, r);
    var w := Run(n, steps[..r + 1]);
    t :| t in w.listing.value && t.id == id;
  }

  lemma UnbrokenIsSilent(n: int, steps: seq<Step>, id: Id, r: nat, j: nat)
    requires r < j < |steps| && RunningIn(Run(n, steps[..r + 1]), id)
    requires forall k :: r < k < j ==> !Broken(n, steps, id, k)
    ensures Silent(n, steps, id, r + 1, j)
  {
    hide Run;
    forall m | r + 1 <= m <= j
      ensures RunningIn(Run(n, steps[..m]), id)
    {
      if m > r + 1 {
        assert !Broken(n, steps, id, m - 1);
      }
    }
    forall m | r + 1 <= m < j
      ensures !Heard(Run(n, steps[..m]), steps[m], id)
    {
      assert !Broken(n, steps, id, m);
    }
  }

  /**
   A heartbeat does not by itself reset the alert. If a task that was alerted on is heard of and falls
   silent again between two sweeps, so that the later one finds it stuck once more, no alert is sent.
   */
  lemma ShortRecoveryGoesUnnoticed(n: int, w: World, id: Id, heard: Time, until: Time, rows: seq<Task>)
    requires id in w.alerted
    requires var w1 := Next(n, w, Call(TaskRuns.Heartbeat(id, heard, true)));
             IsListing(w1.sys.db, rows) && id in StuckIds(rows, Next(n, w1, Wait(until)).clock, n)
    ensures var w1 := Next(n, w, Call(TaskRuns.Heartbeat(id, heard, true)));
            var w4 := Next(n, Next(n, Next(n, w1, Wait(until)), List(Some(rows))), Judge);
            AlertTimes(w4.alerts, id) == AlertTimes(w.alerts, id) && id in w4.alerted
  {
    hide TaskRuns.Next, Stuck, StuckIds, IsListing, NewAlerts, AlertTimes;
    var w1 := Next(n, w, Call(TaskRuns.Heartbeat(id, heard, true)));
    var w3 := Next(n, Next(n, w1, Wait(until)), List(Some(rows)));
    JudgeAlerts(n, w3, id);
  }

  /** Until the next listing the one in hand is either the same or already judged. */
  lemma {:induction false} ListingPersists(n: int, steps: seq<Step>, r: nat, i: nat)
    requires r < i <= |steps| && forall k :: r < k < i ==> !steps[k].List?
    ensures Run(n, steps[..i]).listing in {None, Run(n, steps[..r + 1]).listing}
    decreases i
  {
    if i > r + 1 {
      ListingPersists(n, steps, r, i - 1);
      RunOneMore(n, steps, i - 1);
    }
  }

  // ---------- Detection latency ----------

  /** The sweeps from number a on are in time order and of listings with the given looks. */
  predicate SweepsTracked(w: World, id: Id, seen: Time, interval: int, a: nat) {
    && a <= |w.sweeps|
    && (forall i :: a <= i < |w.sweeps| ==>
          ListedAs(w.sweeps[i].rows, id, seen, interval) && w.sweeps[i].now <= w.clock)
    && (forall i, j :: a <= i < j < |w.sweeps| ==> w.sweeps[i].now <= w.sweeps[j].now)
  }

  lemma StepKeepsSweeps(n: int, w: World, step: Step, id: Id, seen: Time, interval: int, a: nat)
    requires Tracked(w, id, seen, interval) && SweepsTracked(w, id, seen, interval, a)
    ensures SweepsTracked(Next(n, w, step), id, seen, interval, a)
    ensures Next(n, w, step).sweeps[..a] == w.sweeps[..a]
  {
    hide TaskRuns.Next, IsListing, NewAlerts, ListedAs, StuckIds;
  }

  /** In a silence that began with no listing in hand every further sweep is of a listing made in it. */
  lemma {:induction false} SweepsOfSilence(n: int, steps: seq<Step>, id: Id, seen: Time, interval: int, p: nat, k: nat)
    requires Silent(n, steps, id, p, k) && Tracked(Run(n, steps[..p]), id, seen, interval)
    ensures SweepsTracked(Run(n, steps[..k]), id, seen, interval, |Run(n, steps[..p]).sweeps|)
    ensures Run(n, steps[..k]).sweeps[..|Run(n, steps[..p]).sweeps|] == Run(n, steps[..p]).sweeps
    decreases k
  {
    hide Next, Run, Tracked;
    if k > p {
      assert Silent(n, steps, id, p, k - 1);
      SweepsOfSilence(n, steps, id, seen, interval, p, k - 1);
      SilenceKeepsLooks(n, steps, id, seen, interval, p, k - 1);
      RunOneMore(n, steps, k - 1);
      StepKeepsSweeps(n, Run(n, steps[..k - 1]), steps[k - 1], id, seen, interval, |Run(n, steps[..p]).sweeps|);
    }
  }

  lemma OneMoreSweep(sweeps: seq<Sweep>, id: Id, n: int)
    requires sweeps != []
    ensures var k := |sweeps| - 1;
            RisingEdges(sweeps, id, n) ==
            (if StuckAt(sweeps[k], id, n) && (k == 0 || !StuckAt(sweeps[k - 1], id, n))
             then RisingEdges(sweeps[..k], id, n) + [sweeps[k].now] else RisingEdges(sweeps[..k], id, n))
  {
    hide StuckAt;
    var k := |sweeps| - 1;
    assert RisingEdges(sweeps[..k], id, n) + [] == RisingEdges(sweeps[..k], id, n);
  }

  /**
   Edges of a condition that is false up to a deadline and true after it: one at the first sweep past
   the deadline, if it was not true already before that.
   */
  lemma {:induction false} SingleEdge(sweeps: seq<Sweep>, id: Id, n: int, a: nat, deadline: Time) returns (f: nat)
    requires a <= |sweeps|
    requires forall i, j :: a <= i < j < |sweeps| ==> sweeps[i].now <= sweeps[j].now
    requires forall i :: a <= i < |sweeps| ==> (StuckAt(sweeps[i], id, n) <==> sweeps[i].now > deadline)
    ensures a <= f <= |sweeps| && (f < |sweeps| ==> sweeps[f].now > deadline)
    ensures forall i :: a <= i < f ==> sweeps[i].now <= deadline
    ensures RisingEdges(sweeps, id, n) == RisingEdges(sweeps[..a], id, n) +
            (if f == |sweeps| || (f == a && a > 0 && StuckAt(sweeps[a - 1], id, n)) then [] else [sweeps[f].now])
  {
    hide StuckAt, RisingEdges;
    if |sweeps| == a {
      assert sweeps[..a] == sweeps;
      f := a;
    } else {
      var k := |sweeps| - 1;
      var front := sweeps[..k];
      assert front[..a] == sweeps[..a];
      OneMoreSweep(sweeps, id, n);
      f := SingleEdge(front, id, n, a, deadline);
      assert a > 0 && a < k ==> front[a - 1] == sweeps[a - 1];
      if f == k && sweeps[k].now <= deadline {
        f := |sweeps|;
      } else if f < k {
        assert sweeps[f].now <= sweeps[k - 1].now && StuckAt(sweeps[k - 1], id, n);
      }
    }
  }

  /**
   Detection latency: in a silence since the last sign of life at time seen, the first sweep later
   than n intervals after that sends the one alert, at most its gap to the sweep before too late. No
   alert is sent if there is no such sweep, or if it is the first sweep of the silence and the sweep
   before the silence already found the task stuck. The threshold must fit 64 bits.
   */
  lemma DetectionLatency(n: int, steps: seq<Step>, id: Id, seen: Time, interval: int, p: nat) returns (f: nat)
    requires 0 < interval && 0 <= n * interval <= MAX_SECONDS
    requires Silent(n, steps, id, p, |steps|) && Tracked(Run(n, steps[..p]), id, seen, interval)
    ensures var a, s := |Run(n, steps[..p]).sweeps|, Run(n, steps).sweeps;
            var deadline := seen + n * interval * SECOND;
            && a <= f <= |s| && (forall i :: a <= i < f ==> s[i].now <= deadline)
            && AlertTimes(Run(n, steps).alerts, id)
               == AlertTimes(Run(n, steps[..p]).alerts, id) +
                  (if f == |s| || (f == a && id in Run(n, steps[..p]).alerted) then [] else [s[f].now])
            && (f < |s| ==> s[f].now > deadline)
            && (a < f < |s| ==> s[f].now - deadline <= s[f].now - s[f - 1].now)
  {
    hide Next, Run, Stuck, StuckIds, RisingEdges, AlertTimes, ListedAs;
    assert steps[..|steps|] == steps;
    var a, s := |Run(n, steps[..p]).sweeps|, Run(n, steps).sweeps;
    var deadline := seen + n * interval * SECOND;
    SweepsOfSilence(n, steps, id, seen, interval, p, |steps|);
    var t := Run(n, steps[..p]).sys.db.tasks[id];
    forall i | a <= i < |s|
      ensures StuckAt(s[i], id, n) <==> s[i].now > deadline
    {
      StuckLike(s[i].rows, id, seen, interval, t, s[i].now, n);
      StuckMeansSilent(t, s[i].now, n);
    }
    f := SingleEdge(s, id, n, a, deadline);
    AlertsAreRisingEdges(n, steps, id);
    AlertsAreRisingEdges(n, steps[..p], id);
    assert a > 0 ==> s[..a][a - 1] == s[a - 1];
  }

  /**
   In particular if the last sweep before the silence and all later ones are at most a gap apart, and
   that gap is no longer than n intervals.
   */
  lemma LatencyOfRegularSweeps(n: int, steps: seq<Step>, id: Id, seen: Time, interval: int, p: nat, gap: Time)
    returns (at: Time)
    requires 0 < interval && 0 <= n * interval <= MAX_SECONDS && gap <= n * interval * SECOND
    requires Silent(n, steps, id, p, |steps|) && Tracked(Run(n, steps[..p]), id, seen, interval)
    requires var a, s := |Run(n, steps[..p]).sweeps|, Run(n, steps).sweeps;
             && 0 < a < |s| && s[a - 1].now <= seen
             && (forall i :: a <= i < |s| ==> s[i].now <= s[i - 1].now + gap)
             && s[|s| - 1].now > seen + n * interval * SECOND
    ensures AlertTimes(Run(n, steps).alerts, id) == AlertTimes(Run(n, steps[..p]).alerts, id) + [at]
    ensures seen + n * interval * SECOND < at <= seen + n * interval * SECOND + gap
  {
    hide Run, Tracked, AlertTimes;
    var a, s := |Run(n, steps[..p]).sweeps|, Run(n, steps).sweeps;
    var f := DetectionLatency(n, steps, id, seen, interval, p);
    assert s[a].now <= s[a - 1].now + gap && s[f].now <= s[f - 1].now + gap;
    at := s[f].now;
  }
}
