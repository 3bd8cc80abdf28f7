/** Runs of the service in which every check-in is served before the next call starts. */
module WatcherSerial {
  import opened Options
  import opened Timestamps
  import opened Watchers
  import WatcherAlerts
  import WatcherRuns

  datatype Step =
    | Register(name: Name, kind: string, interval: int, threshold: int, details: string, now: Clock, commits: bool)
    | Serve(name: Name, req: Request, now: Clock, commits: bool, rereads: bool)

  datatype World = World(db: Db, alerts: seq<Alert>)

  function Next(serviceThreshold: int, w: World, step: Step): World {
    match step
    case Register(name, kind, interval, threshold, details, now, commits) =>
      w.(db := RegisterEffect(w.db, name, kind, interval, threshold, details, now, commits))
    case Serve(name, req, now, commits, rereads) =>
      var (db, more) := ServeEffect(w.db, serviceThreshold, name, req, now, commits, rereads);
      World(db, w.alerts + more)
  }

  function Run(serviceThreshold: int, steps: seq<Step>): World {
    if steps == [] then World(Db(map[], [], 1), [])
    else Next(serviceThreshold, Run(serviceThreshold, steps[..|steps| - 1]), steps[|steps| - 1])
  }

  // ---------- Serial runs are interleavings ----------

  /** A served check-in is its transaction followed at once by its decision. */
  function Unfold(steps: seq<Step>): seq<WatcherRuns.Step> {
    if steps == [] then []
    else
      Unfold(steps[..|steps| - 1]) +
      match steps[|steps| - 1]
      case Register(name, kind, interval, threshold, details, now, commits) =>
        [WatcherRuns.Register(name, kind, interval, threshold, details, now, commits)]
      case Serve(name, req, now, commits, rereads) =>
        [WatcherRuns.CheckIn(0, name, req, now, commits), WatcherRuns.Decide(0, rereads)]
  }

  lemma RunTwo(serviceThreshold: int, front: seq<WatcherRuns.Step>, a: WatcherRuns.Step, b: WatcherRuns.Step)
    ensures WatcherRuns.Run(serviceThreshold, front + [a])
         == WatcherRuns.Next(serviceThreshold, WatcherRuns.Run(serviceThreshold, front), a)
    ensures WatcherRuns.Run(serviceThreshold, front + [a, b])
         == WatcherRuns.Next(serviceThreshold, WatcherRuns.Run(serviceThreshold, front + [a]), b)
  {
    hide WatcherRuns.Next;
    assert (front + [a])[..|front|] == front;
    assert (front + [a, b])[..|front| + 1] == front + [a];
  }

  lemma ServeIsTwoSteps(serviceThreshold: int, w: WatcherRuns.World, name: Name, req: Request, now: Clock,
                        commits: bool, rereads: bool)
    requires w.calls == map[]
    ensures var w2 := WatcherRuns.Next(serviceThreshold,
                        WatcherRuns.Next(serviceThreshold, w, WatcherRuns.CheckIn(0, name, req, now, commits)),
                        WatcherRuns.Decide(0, rereads));
            && w2.calls == map[]
            && World(w2.db, w2.alerts)
               == Next(serviceThreshold, World(w.db, w.alerts), Serve(name, req, now, commits, rereads))
  {
    hide FmtTime, ParseTime, CheckedIn;
    if commits {
      assert w.calls[0 := WatcherRuns.InFlight(name, req, PreviousState(w.db, name))] - {0} == map[];
    } else {
      assert w.alerts + [] == w.alerts;
    }
  }

  lemma {:induction false} SerialIsInterleaving(serviceThreshold: int, steps: seq<Step>)
    ensures var w := WatcherRuns.Run(serviceThreshold, Unfold(steps));
            w.calls == map[] && World(w.db, w.alerts) == Run(serviceThreshold, steps)
  {
    hide FmtTime, ParseTime, RegisterEffect, ServeEffect;
    if steps != [] {
      var front, step := steps[..|steps| - 1], steps[|steps| - 1];
      SerialIsInterleaving(serviceThreshold, front);
      var w := WatcherRuns.Run(serviceThreshold, Unfold(front));
      match step
      case Register(name, kind, interval, threshold, details, now, commits) =>
        var a := WatcherRuns.Register(name, kind, interval, threshold, details, now, commits);
        RunTwo(serviceThreshold, Unfold(front), a, a);
      case Serve(name, req, now, commits, rereads) =>
        var checkIn := WatcherRuns.CheckIn(0, name, req, now, commits);
        RunTwo(serviceThreshold, Unfold(front), checkIn, WatcherRuns.Decide(0, rereads));
        ServeIsTwoSteps(serviceThreshold, w, name, req, now, commits, rereads);
    }
  }

  /** A serial run serves every watcher's check-ins one at a time, so the claims that ask for it hold. */
  lemma {:induction false} SerialIsOneAtATime(serviceThreshold: int, steps: seq<Step>, name: Name)
    ensures WatcherAlerts.OneAtATime(serviceThreshold, Unfold(steps), name)
    ensures (forall i :: 0 <= i < |steps| && steps[i].Serve? ==> steps[i].rereads) ==>
              WatcherRuns.RereadsWork(Unfold(steps))
  {
    hide WatcherRuns.Next, WatcherRuns.Run;
    if steps != [] {
      var front := Unfold(steps[..|steps| - 1]);
      var all := Unfold(steps);
      SerialIsOneAtATime(serviceThreshold, steps[..|steps| - 1], name);
      SerialIsInterleaving(serviceThreshold, steps[..|steps| - 1]);
      assert all[..|front|] == front;
      forall i | 0 <= i < |all| && WatcherAlerts.Starts(WatcherRuns.Run(serviceThreshold, all[..i]), all[i], name)
        ensures WatcherAlerts.Alone(WatcherRuns.Run(serviceThreshold, all[..i]), name)
      {
        if i < |front| {
          assert front[..i] == all[..i] && front[i] == all[i];
        }
      }
    }
  }

  // ---------- A row of downs ----------

  function RunFrom(serviceThreshold: int, w: World, steps: seq<Step>): World {
    if steps == [] then w
    else Next(serviceThreshold, RunFrom(serviceThreshold, w, steps[..|steps| - 1]), steps[|steps| - 1])
  }

  /** Down reports that commit, are read again, and leave the threshold alone. */
  predicate Downs(steps: seq<Step>, name: Name) {
    forall i :: 0 <= i < |steps| ==>
      && steps[i].Serve? && steps[i].name == name && steps[i].commits && steps[i].rereads
      && steps[i].req.state == Down && steps[i].req.threshold.None?
  }

  /** The alert of the down that brings the failures from f to the threshold k, if the row reaches it. */
  function AlertAt(name: Name, downs: seq<Step>, f: nat, k: int): seq<Alert>
    requires Downs(downs, name)
  {
    if f < k <= f + |downs| then [WentDown(name, downs[k - f - 1].req.message)] else []
  }

  /** A row of downs on a watcher with some failures alerts once, when the count reaches the threshold. */
  lemma {:induction false} RowOfDowns(serviceThreshold: int, w: World, name: Name, downs: seq<Step>)
    requires name in w.db.rows && Downs(downs, name)
    ensures var row, w' := w.db.rows[name], RunFrom(serviceThreshold, w, downs);
            var k := if row.failThreshold > 0 then row.failThreshold else serviceThreshold;
            && name in w'.db.rows && w'.db.rows[name].failThreshold == row.failThreshold
            && w'.db.rows[name].consecutiveFails == row.consecutiveFails + |downs|
            && w'.alerts == w.alerts + AlertAt(name, downs, row.consecutiveFails, k)
  {
    hide Next;
    if downs == [] {
      assert w.alerts + [] == w.alerts;
    } else {
      var front := downs[..|downs| - 1];
      RowOfDowns(serviceThreshold, w, name, front);
      OneDown(serviceThreshold, RunFrom(serviceThreshold, w, front), downs[|downs| - 1]);
      assert forall a: seq<Alert>, b: seq<Alert> {:trigger w.alerts + a + b} :: w.alerts + a + b == w.alerts + (a + b);
    }
  }

  lemma OneDown(serviceThreshold: int, w: World, step: Step)
    requires step.Serve? && step.name in w.db.rows && Downs([step], step.name)
    ensures var row, w' := w.db.rows[step.name], Next(serviceThreshold, w, step);
            && step.name in w'.db.rows && w'.db.rows[step.name].failThreshold == row.failThreshold
            && w'.db.rows[step.name].consecutiveFails == row.consecutiveFails + 1
            && w'.alerts == w.alerts + (if row.consecutiveFails + 1 == (if row.failThreshold > 0 then row.failThreshold
                                                                        else serviceThreshold)
                                        then [WentDown(step.name, step.req.message)] else [])
  {
    hide FmtTime, ParseTime, TimeText;
    assert step == [step][0];
  }

  /** A call that gives a watcher the threshold h: a registration of it, or an ok that carries h. */
  predicate Sets(step: Step, name: Name, h: int) {
    && step.name == name && step.commits
    && (if step.Register? then step.threshold == h else step.req.state == OK && step.req.threshold == Some(h))
  }

  /**
   A watcher's own threshold h, if positive, overrides the server's, whether a registration or a check-in
   sets it. In the downs that follow, exactly one alert is sent, by the one that brings the failures to the
   threshold; the failures from before a registration count, and those from before an ok do not.
   */
  lemma ThresholdSetDecides(serviceThreshold: int, w: World, name: Name, h: int, setter: Step, downs: seq<Step>)
    requires Sets(setter, name, h) && Downs(downs, name)
    ensures var w1 := Next(serviceThreshold, w, setter);
            var f := if setter.Register? && name in w.db.rows then w.db.rows[name].consecutiveFails else 0;
            var k := if h > 0 then h else serviceThreshold;
            RunFrom(serviceThreshold, w1, downs).alerts
            == w1.alerts + AlertAt(name, downs, f, k)
  {
    hide Next, RunFrom, AlertAt, Downs, Sets;
    SetterSets(serviceThreshold, w, name, h, setter);
    RowOfDowns(serviceThreshold, Next(serviceThreshold, w, setter), name, downs);
  }

  lemma SetterSets(serviceThreshold: int, w: World, name: Name, h: int, setter: Step)
    requires Sets(setter, name, h)
    ensures var rows := Next(serviceThreshold, w, setter).db.rows;
            && name in rows && rows[name].failThreshold == h
            && rows[name].consecutiveFails
               == if setter.Register? && name in w.db.rows then w.db.rows[name].consecutiveFails else 0
  {
    hide FmtTime, ParseTime, TimeText;
  }

  /**
   Reported down, degraded, ok in a row, no recovery is announced; a down that never reached the
   threshold, followed by an ok, announces one.
   */
  lemma DegradedHidesRecovery(serviceThreshold: int, w: World, name: Name, message: string, t: Clock)
    ensures var down, degraded, ok := Request(Down, message, None, None), Request(Degraded, message, None, None),
                                      Request(OK, message, None, None);
            var w1 := Next(serviceThreshold, w, Serve(name, down, t, true, true));
            var w2 := Next(serviceThreshold, w1, Serve(name, degraded, t, true, true));
            && Next(serviceThreshold, w2, Serve(name, ok, t, true, true)).alerts == w1.alerts
            && Next(serviceThreshold, w1, Serve(name, ok, t, true, true)).alerts == w1.alerts + [Recovered(name)]
  {
    hide FmtTime, ParseTime;
    var down, degraded := Request(Down, message, None, None), Request(Degraded, message, None, None);
    var w1 := Next(serviceThreshold, w, Serve(name, down, t, true, true));
    var w2 := Next(serviceThreshold, w1, Serve(name, degraded, t, true, true));
    assert w1.alerts + [] == w1.alerts && w2.alerts == w1.alerts;
  }
}
