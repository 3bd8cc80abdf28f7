/**
 Runs of the watcher service: registrations and check-ins on many names, in any interleaving. A
 check-in is two steps of a numbered call: its transaction, and the later decision, which reads the
 row again.
 */
module WatcherRuns {
  import opened Options
  import opened Timestamps
  import opened Watchers

  datatype Step =
    | Register(name: Name, kind: string, interval: int, threshold: int, details: string, now: Clock, commits: bool)
    | CheckIn(call: nat, name: Name, req: Request, now: Clock, commits: bool)
    | Decide(call: nat, rereads: bool)

  /** A check-in that has committed and not yet decided. */
  datatype InFlight = InFlight(name: Name, req: Request, previous: State)

  datatype World = World(db: Db, calls: map<nat, InFlight>, alerts: seq<Alert>)

  function Init(): World {
    World(Db(map[], [], 1), map[], [])
  }

  /** A check-in under a number that is still in use does not happen. */
  function Next(serviceThreshold: int, w: World, step: Step): World {
    match step
    case Register(name, kind, interval, threshold, details, now, commits) =>
      w.(db := RegisterEffect(w.db, name, kind, interval, threshold, details, now, commits))
    case CheckIn(call, name, req, now, commits) =>
      if call in w.calls || !commits then w
      else World(CheckInEffect(w.db, name, req, now, true),
                 w.calls[call := InFlight(name, req, PreviousState(w.db, name))], w.alerts)
    case Decide(call, rereads) =>
      if call !in w.calls then w
      else
        World(w.db, w.calls - {call}, w.alerts + Sent(serviceThreshold, w, step))
  }

  /** The alerts that a step sends. */
  function Sent(serviceThreshold: int, w: World, step: Step): seq<Alert> {
    if step.Decide? && step.call in w.calls && step.rereads && w.calls[step.call].name in w.db.rows then
      var c := w.calls[step.call];
      Decision(serviceThreshold, c.name, c.req, w.db.rows[c.name], c.previous)
    else []
  }

  function Run(serviceThreshold: int, steps: seq<Step>): World {
    if steps == [] then Init()
    else Next(serviceThreshold, Run(serviceThreshold, steps[..|steps| - 1]), steps[|steps| - 1])
  }

  // ---------- The log of one watcher ----------

  function LogOf(events: seq<Event>, id: nat): seq<Event> {
    if events == [] then []
    else LogOf(events[..|events| - 1], id) +
         (if events[|events| - 1].watcher == id then [events[|events| - 1]] else [])
  }

  function Log(db: Db, name: Name): seq<Event> {
    if name in db.rows then LogOf(db.events, db.rows[name].id) else []
  }

  function States(log: seq<Event>): (s: seq<State>)
    ensures |s| == |log|
  {
    seq(|log|, i requires 0 <= i < |log| => log[i].state)
  }

  lemma LogOfAppend(events: seq<Event>, e: Event, id: nat)
    ensures LogOf(events + [e], id) == LogOf(events, id) + (if e.watcher == id then [e] else [])
  {
    assert (events + [e])[..|events|] == events;
  }

  lemma {:induction false} NoEvents(events: seq<Event>, id: nat)
    requires forall i :: 0 <= i < |events| ==> events[i].watcher != id
    ensures LogOf(events, id) == []
  {
    if events != [] {
      NoEvents(events[..|events| - 1], id);
    }
  }

  /** A text that parsing and printing give back. */
  predicate Readable(text: string) {
    ParseTime(text).Some? && FmtTime(ParseTime(text).value) == text
  }

  predicate Sound(db: Db) {
    && (forall n :: n in db.rows ==> db.rows[n].id < db.nextId)
    && (forall m, n :: m in db.rows && n in db.rows && m != n ==> db.rows[m].id != db.rows[n].id)
    && (forall i :: 0 <= i < |db.events| ==> db.events[i].watcher < db.nextId && Readable(db.events[i].timestamp))
  }

  /** The step commits a check-in on the watcher. */
  predicate Reports(w: World, step: Step, name: Name) {
    step.CheckIn? && step.name == name && step.commits && step.call !in w.calls
  }

  /** What one step logs for a name. */
  function Appended(w: World, step: Step, name: Name): seq<Event> {
    if Reports(w, step, name)
    then [Event(InitialRow(w.db, name, step.req, step.now).id, step.req.state, step.req.message, FmtTime(step.now))]
    else []
  }

  lemma ClockReadable(now: Clock)
    ensures Readable(FmtTime(now)) && ParseTime(FmtTime(now)) == Some(now)
  {
    TextRoundTrip(now);
  }

  lemma StepSound(serviceThreshold: int, w: World, step: Step)
    requires Sound(w.db)
    ensures Sound(Next(serviceThreshold, w, step).db)
  {
    hide FmtTime, ParseTime, Readable;
    if step.CheckIn? {
      ClockReadable(step.now);
    }
  }

  lemma StepLogs(serviceThreshold: int, w: World, step: Step, name: Name)
    requires Sound(w.db)
    ensures Log(Next(serviceThreshold, w, step).db, name) == Log(w.db, name) + Appended(w, step, name)
  {
    hide FmtTime, ParseTime, Readable, TimeText, LogOf;
    var w' := Next(serviceThreshold, w, step);
    if name in w'.db.rows && name !in w.db.rows {
      NoEvents(w.db.events, w.db.nextId);
    }
    if step.CheckIn? && step.commits && step.call !in w.calls {
      var row := InitialRow(w.db, step.name, step.req, step.now);
      var e := Event(row.id, step.req.state, step.req.message, FmtTime(step.now));
      if name in w'.db.rows {
        LogOfAppend(w.db.events, e, w'.db.rows[name].id);
      }
    }
  }

  function Failures(w: World, name: Name): nat {
    if name in w.db.rows then w.db.rows[name].consecutiveFails else 0
  }

  /** Only a committed check-in on the watcher changes its state and its count of failures. */
  lemma StepState(serviceThreshold: int, w: World, step: Step, name: Name)
    ensures var w' := Next(serviceThreshold, w, step);
            if Reports(w, step, name) then
              && name in w'.db.rows
              && PreviousState(w'.db, name) == step.req.state
              && Failures(w', name) == if step.req.state == OK then 0 else Failures(w, name) + 1
            else
              && PreviousState(w'.db, name) == PreviousState(w.db, name)
              && Failures(w', name) == Failures(w, name)
  {
    hide FmtTime, ParseTime, TimeText, Sent;
  }

  // ---------- The row is a summary of the log ----------

  /** The number of check-ins since the last ok. */
  function TrailingFails(s: seq<State>): nat {
    if s == [] || s[|s| - 1] == OK then 0 else 1 + TrailingFails(s[..|s| - 1])
  }

  /** The timestamp of the latest ok event, or the empty text. */
  function LastOkText(log: seq<Event>): string {
    if log == [] then ""
    else if log[|log| - 1].state == OK then log[|log| - 1].timestamp
    else LastOkText(log[..|log| - 1])
  }

  predicate Summarizes(row: Watcher, log: seq<Event>) {
    && row.consecutiveFails == TrailingFails(States(log))
    && row.state == (if log == [] then Unknown else log[|log| - 1].state)
    && row.lastMessage == (if log == [] then "" else log[|log| - 1].message)
    && row.lastCheckAt == (if log == [] then "" else log[|log| - 1].timestamp)
    && row.lastOkAt == LastOkText(log)
  }

  lemma StatesAppend(log: seq<Event>, e: Event)
    ensures States(log + [e]) == States(log) + [e.state]
  {
  }

  lemma {:induction false} LogOfReadable(events: seq<Event>, id: nat)
    requires forall i :: 0 <= i < |events| ==> Readable(events[i].timestamp)
    ensures forall i :: 0 <= i < |LogOf(events, id)| ==> Readable(LogOf(events, id)[i].timestamp)
  {
    hide Readable;
    if events != [] {
      LogOfReadable(events[..|events| - 1], id);
    }
  }

  lemma {:induction false} LastOkReadable(log: seq<Event>)
    requires forall i :: 0 <= i < |log| ==> Readable(log[i].timestamp)
    ensures LastOkText(log) == "" || Readable(LastOkText(log))
  {
    hide Readable;
    if log != [] {
      LastOkReadable(log[..|log| - 1]);
    }
  }

  /** A check-in moves the summary along with the log. */
  lemma CheckedInSummarizes(row: Watcher, r: Request, now: Clock, log: seq<Event>)
    requires Summarizes(row, log) && (row.lastOkAt == "" || Readable(row.lastOkAt))
    ensures Summarizes(CheckedIn(row, r, now), log + [Event(row.id, r.state, r.message, FmtTime(now))])
  {
    hide FmtTime;
    var e := Event(row.id, r.state, r.message, FmtTime(now));
    StatesAppend(log, e);
    assert (log + [e])[..|log|] == log && (States(log) + [e.state])[..|log|] == States(log);
  }

  /** Under every interleaving the row of a watcher is the summary of its event log. */
  lemma {:induction false} RowSummarizesLog(serviceThreshold: int, steps: seq<Step>, name: Name)
    ensures var db := Run(serviceThreshold, steps).db;
            Sound(db) && (name in db.rows ==> Summarizes(db.rows[name], Log(db, name)))
  {
    hide FmtTime, ParseTime, Readable, Next, Summarizes, LogOf;
    if steps != [] {
      var w := Run(serviceThreshold, steps[..|steps| - 1]);
      RowSummarizesLog(serviceThreshold, steps[..|steps| - 1], name);
      StepSound(serviceThreshold, w, steps[|steps| - 1]);
      StepSummarizes(serviceThreshold, w, steps[|steps| - 1], name);
    }
  }

  lemma StepSummarizes(serviceThreshold: int, w: World, step: Step, name: Name)
    requires Sound(w.db) && (name in w.db.rows ==> Summarizes(w.db.rows[name], Log(w.db, name)))
    ensures var db := Next(serviceThreshold, w, step).db;
            name in db.rows ==> Summarizes(db.rows[name], Log(db, name))
  {
    hide FmtTime, ParseTime, Readable, CheckedIn, LogOf;
    StepLogs(serviceThreshold, w, step, name);
    if Appended(w, step, name) == [] {
      assert Log(w.db, name) + [] == Log(w.db, name);
    } else {
      var row := InitialRow(w.db, name, step.req, step.now);
      LogOfReadable(w.db.events, row.id);
      LastOkReadable(Log(w.db, name));
      CheckedInSummarizes(row, step.req, step.now, Log(w.db, name));
    }
  }

  // ---------- The settings of a watcher ----------

  /** The columns that are set by registrations and requests and not computed from the reports. */
  datatype Settings = Settings(
    kind: string,
    interval: int,
    threshold: int,
    details: string,
    createdAt: string,
    updatedAt: string)

  function SettingsOf(row: Watcher): Settings {
    Settings(row.kind, row.expectedIntervalS, row.failThreshold, row.details, row.createdAt, row.updatedAt)
  }

  /** A registration sets kind, interval and threshold of any watcher, and the details of a new one. */
  function Registered(prior: Option<Settings>, step: Step): Settings
    requires step.Register?
  {
    Settings(
      if step.kind == "" then "custom" else step.kind,
      if step.interval > 0 then step.interval else 60,
      step.threshold,
      if prior.Some? then prior.value.details else step.details,
      if prior.Some? then prior.value.createdAt else FmtTime(step.now),
      FmtTime(step.now))
  }

  /** A check-in sets the threshold and the details that it carries; a new watcher starts with defaults. */
  function Reported(prior: Option<Settings>, step: Step): Settings
    requires step.CheckIn?
  {
    var start := if prior.Some? then prior.value else Settings("custom", 60, 0, "{}", FmtTime(step.now), "");
    start.(threshold := if step.req.threshold.Some? then step.req.threshold.value else start.threshold,
           details := if step.req.details.Some? then step.req.details.value else start.details,
           updatedAt := FmtTime(step.now))
  }

  /** What the calls of a run have set, read off the run. */
  function LastSet(serviceThreshold: int, steps: seq<Step>, name: Name): Option<Settings> {
    if steps == [] then None
    else
      var front, step := steps[..|steps| - 1], steps[|steps| - 1];
      var prior := LastSet(serviceThreshold, front, name);
      if step.Register? && step.name == name && step.commits then Some(Registered(prior, step))
      else if Reports(Run(serviceThreshold, front), step, name) then Some(Reported(prior, step))
      else prior
  }

  /** Under every interleaving the settings of a watcher are what the calls so far have set last. */
  lemma {:induction false} SettingsAreLastSet(serviceThreshold: int, steps: seq<Step>, name: Name)
    ensures var db := Run(serviceThreshold, steps).db;
            LastSet(serviceThreshold, steps, name) == if name in db.rows then Some(SettingsOf(db.rows[name])) else None
  {
    hide Next, SettingsOf, Reports, Registered, Reported;
    if steps != [] {
      SettingsAreLastSet(serviceThreshold, steps[..|steps| - 1], name);
      StepSets(serviceThreshold, Run(serviceThreshold, steps[..|steps| - 1]), steps[|steps| - 1], name);
    }
  }

  lemma StepSets(serviceThreshold: int, w: World, step: Step, name: Name)
    ensures var rows := Next(serviceThreshold, w, step).db.rows;
            var prior := if name in w.db.rows then Some(SettingsOf(w.db.rows[name])) else None;
            (if name in rows then Some(SettingsOf(rows[name])) else None)
            == if step.Register? && step.name == name && step.commits then Some(Registered(prior, step))
               else if Reports(w, step, name) then Some(Reported(prior, step))
               else prior
  {
    hide FmtTime, ParseTime, TimeText, Sent;
  }

  // ---------- Recovery alerts ----------

  predicate RecoversAt(s: seq<State>, i: nat) {
    1 <= i < |s| && s[i - 1] == Down && s[i] == OK
  }

  /** The positions of an ok right after a down. */
  function Recoveries(s: seq<State>): set<nat> {
    set i: nat | i < |s| && RecoversAt(s, i)
  }

  lemma RecoveriesAppend(s: seq<State>, x: State)
    ensures |Recoveries(s + [x])| == |Recoveries(s)| + (if s != [] && s[|s| - 1] == Down && x == OK then 1 else 0)
  {
    var t := s + [x];
    forall i: nat
      ensures RecoversAt(t, i) <==> RecoversAt(s, i) || (i == |s| && s != [] && s[|s| - 1] == Down && x == OK)
    {
    }
    hide RecoversAt;
    if s != [] && s[|s| - 1] == Down && x == OK {
      assert Recoveries(t) == Recoveries(s) + {|s|};
    } else {
      assert Recoveries(t) == Recoveries(s);
    }
  }

  predicate WillRecover(c: InFlight, name: Name) {
    c.name == name && c.req.state == OK && c.previous == Down
  }

  /** The committed check-ins that have yet to announce a recovery. */
  function Announcing(calls: map<nat, InFlight>, name: Name): set<nat> {
    set c | c in calls && WillRecover(calls[c], name)
  }

  lemma AnnouncingAdd(calls: map<nat, InFlight>, call: nat, c: InFlight, name: Name)
    requires call !in calls
    ensures |Announcing(calls[call := c], name)| == |Announcing(calls, name)| + (if WillRecover(c, name) then 1 else 0)
  {
    if WillRecover(c, name) {
      assert Announcing(calls[call := c], name) == Announcing(calls, name) + {call};
    } else {
      assert Announcing(calls[call := c], name) == Announcing(calls, name);
    }
  }

  lemma AnnouncingRemove(calls: map<nat, InFlight>, call: nat, name: Name)
    requires call in calls
    ensures |Announcing(calls, name)|
         == |Announcing(calls - {call}, name)| + (if WillRecover(calls[call], name) then 1 else 0)
  {
    AnnouncingAdd(calls - {call}, call, calls[call], name);
    assert (calls - {call})[call := calls[call]] == calls;
  }

  function RecoveredCount(alerts: seq<Alert>, name: Name): nat {
    multiset(alerts)[Recovered(name)]
  }

  predicate RereadsWork(steps: seq<Step>) {
    forall i :: 0 <= i < |steps| && steps[i].Decide? ==> steps[i].rereads
  }

  predicate CallsKnown(w: World) {
    forall c :: c in w.calls ==> w.calls[c].name in w.db.rows
  }

  /** The step gives up a recovery alert because it cannot read the row again. */
  predicate LosesRecovery(w: World, step: Step, name: Name) {
    step.Decide? && !step.rereads && step.call in w.calls && WillRecover(w.calls[step.call], name)
  }

  function LostRecoveries(serviceThreshold: int, steps: seq<Step>, name: Name): nat {
    if steps == [] then 0
    else
      var front, step := steps[..|steps| - 1], steps[|steps| - 1];
      LostRecoveries(serviceThreshold, front, name) +
      (if LosesRecovery(Run(serviceThreshold, front), step, name) then 1 else 0)
  }

  /** The account of the recoveries of a watcher: announced, about to be announced, lost, and logged. */
  predicate Balanced(w: World, name: Name, lost: nat) {
    RecoveredCount(w.alerts, name) + |Announcing(w.calls, name)| + lost == |Recoveries(States(Log(w.db, name)))|
  }

  lemma StepCallsKnown(serviceThreshold: int, w: World, step: Step)
    requires CallsKnown(w)
    ensures CallsKnown(Next(serviceThreshold, w, step))
  {
    hide FmtTime, ParseTime, CheckedIn, Decision;
  }

  lemma CheckInBalanced(serviceThreshold: int, w: World, step: Step, name: Name, lost: nat)
    requires step.CheckIn? && step.commits && step.call !in w.calls
    requires Sound(w.db) && Balanced(w, name, lost)
    requires name in w.db.rows ==> Summarizes(w.db.rows[name], Log(w.db, name))
    ensures Balanced(Next(serviceThreshold, w, step), name, lost)
  {
    hide FmtTime, ParseTime, Readable, LogOf, Recoveries, Announcing, States, TrailingFails, LastOkText, CheckedIn,
         Sound;
    StepLogs(serviceThreshold, w, step, name);
    var log := Log(w.db, name);
    AnnouncingAdd(w.calls, step.call, InFlight(step.name, step.req, PreviousState(w.db, step.name)), name);
    if step.name == name {
      StatesAppend(log, Appended(w, step, name)[0]);
      RecoveriesAppend(States(log), step.req.state);
      LastState(log);
    } else {
      assert log + [] == log;
    }
  }

  lemma DecideBalanced(serviceThreshold: int, w: World, step: Step, name: Name, lost: nat)
    requires step.Decide? && step.call in w.calls && CallsKnown(w) && Balanced(w, name, lost)
    ensures Balanced(Next(serviceThreshold, w, step), name, lost + (if LosesRecovery(w, step, name) then 1 else 0))
  {
    hide FmtTime, ParseTime, Recoveries, Announcing, States, Log, RecoveredCount;
    AnnouncingRemove(w.calls, step.call, name);
    CountOne(w.alerts, Sent(serviceThreshold, w, step), name);
  }

  lemma StepRecovers(serviceThreshold: int, w: World, step: Step, name: Name, lost: nat)
    requires Sound(w.db) && CallsKnown(w) && Balanced(w, name, lost)
    requires name in w.db.rows ==> Summarizes(w.db.rows[name], Log(w.db, name))
    ensures CallsKnown(Next(serviceThreshold, w, step))
    ensures Balanced(Next(serviceThreshold, w, step), name, lost + (if LosesRecovery(w, step, name) then 1 else 0))
  {
    hide RegisterEffect, CheckInEffect, Decision, Sound, CallsKnown, Summarizes, Log, Recoveries, Announcing;
    StepCallsKnown(serviceThreshold, w, step);
    if step.CheckIn? && step.commits && step.call !in w.calls {
      CheckInBalanced(serviceThreshold, w, step, name, lost);
    } else if step.Decide? && step.call in w.calls {
      DecideBalanced(serviceThreshold, w, step, name, lost);
    } else {
      StepLogs(serviceThreshold, w, step, name);
      assert Log(w.db, name) + [] == Log(w.db, name);
    }
  }

  lemma LastState(log: seq<Event>)
    ensures States(log) != [] <==> log != []
    ensures log != [] ==> States(log)[|log| - 1] == log[|log| - 1].state
  {
  }

  lemma CountOne(alerts: seq<Alert>, more: seq<Alert>, name: Name)
    requires |more| <= 1
    ensures RecoveredCount(alerts + more, name)
         == RecoveredCount(alerts, name) + (if more == [Recovered(name)] then 1 else 0)
  {
    if |more| == 1 {
      assert more == [more[0]];
    }
  }

  /**
   Under every interleaving, the recovery alerts on a watcher, together with those that its committed
   check-ins have yet to send and those given up because the row could not be read again, are as many as
   the adjacent pairs of a down and an ok in its log.
   */
  lemma {:induction false} RecoveriesAnnounced(serviceThreshold: int, steps: seq<Step>, name: Name)
    ensures var w := Run(serviceThreshold, steps);
            && CallsKnown(w)
            && RecoveredCount(w.alerts, name) + |Announcing(w.calls, name)|
               + LostRecoveries(serviceThreshold, steps, name)
               == |Recoveries(States(Log(w.db, name)))|
  {
    hide Next, Log, States, Announcing, Recoveries, Sound, Summarizes, CallsKnown, LosesRecovery;
    if steps == [] {
      EmptyWorld(name);
    } else {
      var front, step := steps[..|steps| - 1], steps[|steps| - 1];
      RecoveriesAnnounced(serviceThreshold, front, name);
      RowSummarizesLog(serviceThreshold, front, name);
      StepRecovers(serviceThreshold, Run(serviceThreshold, front), step, name,
                   LostRecoveries(serviceThreshold, front, name));
    }
  }

  lemma EmptyWorld(name: Name)
    ensures CallsKnown(Init()) && Announcing(Init().calls, name) == {} && Log(Init().db, name) == []
    ensures Recoveries(States(Log(Init().db, name))) == {}
  {
  }

  // ---------- Check-ins that overlap ----------

  function DownCount(alerts: seq<Alert>, name: Name): nat {
    if alerts == [] then 0
    else DownCount(alerts[..|alerts| - 1], name) +
         (if alerts[|alerts| - 1].WentDown? && alerts[|alerts| - 1].name == name then 1 else 0)
  }

  lemma DownCountAppend(alerts: seq<Alert>, more: seq<Alert>, name: Name)
    requires |more| <= 1
    ensures DownCount(alerts + more, name)
         == DownCount(alerts, name) + (if more != [] && more[0].WentDown? && more[0].name == name then 1 else 0)
  {
    if more == [] {
      assert alerts + more == alerts;
    } else {
      assert (alerts + more)[..|alerts|] == alerts;
    }
  }

  /** What the decision of a down report on a watcher does to its count of alerts. */
  lemma DownDecided(serviceThreshold: int, w: World, c: nat)
    requires c in w.calls && w.calls[c].req.state == Down && w.calls[c].name in w.db.rows
    ensures var name := w.calls[c].name;
            var w' := Next(serviceThreshold, w, Decide(c, true));
            && w'.db == w.db && w'.calls == w.calls - {c}
            && DownCount(w'.alerts, name) == DownCount(w.alerts, name) +
               (if Failures(w, name) == Effective(serviceThreshold, w.db.rows[name]) then 1 else 0)
  {
    hide DownCount, Effective;
    DownCountAppend(w.alerts, Sent(serviceThreshold, w, Decide(c, true)), w.calls[c].name);
  }

  lemma ReportCommits(serviceThreshold: int, w: World, step: Step, name: Name)
    requires Reports(w, step, name)
    ensures var w' := Next(serviceThreshold, w, step);
            && w'.calls == w.calls[step.call := InFlight(name, step.req, PreviousState(w.db, name))]
            && w'.alerts == w.alerts
  {
    hide CheckInEffect;
  }

  /**
   Two overlapping down reports that commit before either of them decides: both decide on the later
   count and threshold. At one failure below it the alert is missed; at it the alert is sent twice.
   */
  lemma OverlappingReports(serviceThreshold: int, w: World, name: Name, c: nat, d: nat, r: Request, r': Request,
                           now: Clock, now': Clock)
    requires c != d && c !in w.calls && d !in w.calls && r.state == Down && r'.state == Down
    ensures var w2 := Next(serviceThreshold, Next(serviceThreshold, w, CheckIn(c, name, r, now, true)),
                           CheckIn(d, name, r', now', true));
            var w4 := Next(serviceThreshold, Next(serviceThreshold, w2, Decide(c, true)), Decide(d, true));
            && name in w2.db.rows
            && var k := Effective(serviceThreshold, w2.db.rows[name]);
               DownCount(w4.alerts, name) == DownCount(w.alerts, name) + (if k == Failures(w, name) + 2 then 2 else 0)
  {
    hide Next, DownCount, Effective, PreviousState, Failures;
    var first, second := CheckIn(c, name, r, now, true), CheckIn(d, name, r', now', true);
    var w1 := Next(serviceThreshold, w, first);
    ReportCommits(serviceThreshold, w, first, name);
    StepState(serviceThreshold, w, first, name);
    ReportCommits(serviceThreshold, w1, second, name);
    StepState(serviceThreshold, w1, second, name);
    var w2 := Next(serviceThreshold, w1, second);
    DownDecided(serviceThreshold, w2, c);
    var w3 := Next(serviceThreshold, w2, Decide(c, true));
    assert Failures(w3, name) == Failures(w2, name) by { SameFailures(w2, w3, name); }
    DownDecided(serviceThreshold, w3, d);
  }

  lemma SameFailures(w: World, w': World, name: Name)
    requires w.db == w'.db
    ensures Failures(w', name) == Failures(w, name)
  {
  }

  predicate Touches(step: Step, name: Name, call: nat) {
    match step
    case Register(n, _, _, _, _, _, _) => n == name
    case CheckIn(c, n, _, _, _) => n == name || c == call
    case Decide(c, _) => c == call
  }

  function RunFrom(serviceThreshold: int, w: World, steps: seq<Step>): World {
    if steps == [] then w
    else Next(serviceThreshold, RunFrom(serviceThreshold, w, steps[..|steps| - 1]), steps[|steps| - 1])
  }

  /** If nothing touches the watcher before a check-in decides, it decides as if it had been served alone. */
  lemma {:induction false} UndisturbedDecision(serviceThreshold: int, w: World, call: nat, name: Name, r: Request,
                                               now: Clock, between: seq<Step>)
    requires call !in w.calls
    requires forall i :: 0 <= i < |between| ==> !Touches(between[i], name, call)
    ensures var w' := RunFrom(serviceThreshold, Next(serviceThreshold, w, CheckIn(call, name, r, now, true)), between);
            && call in w'.calls && w'.calls[call] == InFlight(name, r, PreviousState(w.db, name))
            && name in w'.db.rows && w'.db.rows[name] == CheckInEffect(w.db, name, r, now, true).rows[name]
            && Next(serviceThreshold, w', Decide(call, true)).alerts
               == w'.alerts + ServeEffect(w.db, serviceThreshold, name, r, now, true, true).1
  {
    hide FmtTime, ParseTime, CheckedIn;
    if between != [] {
      UndisturbedDecision(serviceThreshold, w, call, name, r, now, between[..|between| - 1]);
      assert !Touches(between[|between| - 1], name, call);
    }
  }
}
