/** Down alerts and recoveries over interleaved runs. */
module WatcherAlerts {
  import opened Timestamps
  import opened Watchers
  import opened WatcherRuns

  // ---------- Long outages ----------

  /**
   The starts of the maximal runs of failing check-ins that reach length k and whose k-th entry is a
   down.
   */
  function LongOutages(s: seq<State>, k: nat): set<nat>
    requires k >= 1
  {
    set i: nat | i + k <= |s| && StartsOutage(s, i, k)
  }

  predicate StartsOutage(s: seq<State>, i: nat, k: nat)
    requires k >= 1 && i + k <= |s|
  {
    && (i > 0 ==> s[i - 1] == OK)
    && (forall m :: i <= m < i + k ==> s[m] != OK)
    && s[i + k - 1] == Down
  }

  lemma {:induction false} TrailingFailsMeans(s: seq<State>)
    ensures var f := TrailingFails(s);
            && f <= |s| && (forall m :: |s| - f <= m < |s| ==> s[m] != OK)
            && (f < |s| ==> s[|s| - f - 1] == OK)
  {
    if s != [] && s[|s| - 1] != OK {
      TrailingFailsMeans(s[..|s| - 1]);
    }
  }

  /** The last check-in is the k-th entry of an outage exactly when it is a down and the k-th failure in a row. */
  lemma LastOutage(t: seq<State>, k: nat)
    requires k >= 1 && t != []
    ensures |t| >= k && StartsOutage(t, |t| - k, k) <==>
            t[|t| - 1] == Down && TrailingFails(t) == k
  {
    TrailingFailsMeans(t);
    var f := TrailingFails(t);
    if f < k <= |t| {
      assert t[|t| - f - 1] == OK;
    }
  }

  lemma EarlierOutage(s: seq<State>, x: State, i: nat, k: nat)
    requires k >= 1 && i + k <= |s|
    ensures StartsOutage(s + [x], i, k) <==> StartsOutage(s, i, k)
  {
    var t := s + [x];
    assert forall m :: 0 <= m < |s| ==> t[m] == s[m];
  }

  /** One more check-in completes an outage of length k exactly when it is the k-th failure in a row and a down. */
  lemma LongOutagesAppend(s: seq<State>, x: State, k: nat)
    requires k >= 1
    ensures |LongOutages(s + [x], k)|
         == |LongOutages(s, k)| + (if x == Down && TrailingFails(s + [x]) == k then 1 else 0)
  {
    hide StartsOutage, TrailingFails;
    var t := s + [x];
    LastOutage(t, k);
    forall i: nat | i + k <= |s|
      ensures StartsOutage(t, i, k) <==> StartsOutage(s, i, k)
    {
      EarlierOutage(s, x, i, k);
    }
    if x == Down && TrailingFails(t) == k {
      assert LongOutages(t, k) == LongOutages(s, k) + {|t| - k};
    } else {
      assert LongOutages(t, k) == LongOutages(s, k);
    }
  }

  // ---------- One alert for each long outage ----------

  function LogStates(w: World, name: Name): seq<State> {
    States(Log(w.db, name))
  }

  /** No check-in on the watcher is between its transaction and its decision. */
  predicate Alone(w: World, name: Name) {
    forall c :: c in w.calls ==> w.calls[c].name != name
  }

  predicate Starts(w: World, step: Step, name: Name) {
    Reports(w, step, name) || (step.Register? && step.name == name && step.commits)
  }

  /**
   Check-ins on the watcher, and registrations of it, wait for each other; those of all other watchers
   overlap freely, among themselves and with these.
   */
  predicate OneAtATime(serviceThreshold: int, steps: seq<Step>, name: Name) {
    forall i :: 0 <= i < |steps| && Starts(Run(serviceThreshold, steps[..i]), steps[i], name) ==>
      Alone(Run(serviceThreshold, steps[..i]), name)
  }

  predicate ReportsAt(serviceThreshold: int, steps: seq<Step>, i: nat, name: Name) {
    i < |steps| && Reports(Run(serviceThreshold, steps[..i]), steps[i], name)
  }

  function Threshold(serviceThreshold: int, w: World, name: Name): int {
    if name in w.db.rows then Effective(serviceThreshold, w.db.rows[name]) else serviceThreshold
  }

  /** The effective threshold is k right after each check-in on the watcher. */
  predicate FixedThreshold(serviceThreshold: int, steps: seq<Step>, name: Name, k: nat) {
    forall i :: 0 <= i < |steps| && ReportsAt(serviceThreshold, steps, i, name) ==>
      Threshold(serviceThreshold, Run(serviceThreshold, steps[..i + 1]), name) == k
  }

  predicate WillAlert(w: World, call: nat, name: Name, k: nat) {
    call in w.calls && w.calls[call].name == name && w.calls[call].req.state == Down && Failures(w, name) == k
  }

  /** The committed check-ins that have yet to announce that the watcher is down. */
  function Alerting(w: World, name: Name, k: nat): set<nat> {
    set c | c in w.calls && WillAlert(w, c, name, k)
  }

  /** The step gives up a down alert because it cannot read the row again. */
  predicate LosesDown(w: World, step: Step, name: Name, k: nat) {
    step.Decide? && !step.rereads && WillAlert(w, step.call, name, k)
  }

  function LostDowns(serviceThreshold: int, steps: seq<Step>, name: Name, k: nat): nat {
    if steps == [] then 0
    else
      var front, step := steps[..|steps| - 1], steps[|steps| - 1];
      LostDowns(serviceThreshold, front, name, k) +
      (if LosesDown(Run(serviceThreshold, front), step, name, k) then 1 else 0)
  }

  predicate Accounted(serviceThreshold: int, w: World, name: Name, k: nat, lost: nat)
    requires k >= 1
  {
    && (Alone(w, name) || Threshold(serviceThreshold, w, name) == k)
    && DownCount(w.alerts, name) + |Alerting(w, name, k)| + lost == |LongOutages(LogStates(w, name), k)|
  }

  lemma ReportAccounted(serviceThreshold: int, w: World, step: Step, name: Name, k: nat, lost: nat)
    requires k >= 1 && Reports(w, step, name) && Alone(w, name)
    requires Sound(w.db) && (name in w.db.rows ==> Summarizes(w.db.rows[name], Log(w.db, name)))
    requires Threshold(serviceThreshold, Next(serviceThreshold, w, step), name) == k
    requires Accounted(serviceThreshold, w, name, k, lost)
    ensures Accounted(serviceThreshold, Next(serviceThreshold, w, step), name, k, lost)
  {
    hide FmtTime, ParseTime, TimeText, CheckInEffect, LongOutages, TrailingFails, LastOkText, Sound, Log, DownCount;
    var w' := Next(serviceThreshold, w, step);
    StepLogs(serviceThreshold, w, step, name);
    StepState(serviceThreshold, w, step, name);
    StepSummarizes(serviceThreshold, w, step, name);
    StatesAppend(Log(w.db, name), Appended(w, step, name)[0]);
    LongOutagesAppend(LogStates(w, name), step.req.state, k);
    assert Alerting(w, name, k) == {};
    if step.req.state == Down && Failures(w', name) == k {
      assert Alerting(w', name, k) == {step.call};
    } else {
      assert Alerting(w', name, k) == {};
    }
  }

  lemma SizeWithout(a: set<nat>, b: set<nat>, x: nat)
    requires forall c :: c in b <==> c in a && c != x
    ensures |a| == |b| + (if x in a then 1 else 0)
  {
    if x in a {
      assert a == b + {x};
    } else {
      assert a == b;
    }
  }

  /** A decision takes its check-in out of flight. */
  lemma AlertingRemove(w: World, w': World, call: nat, name: Name, k: nat)
    requires call in w.calls && w'.calls == w.calls - {call} && w'.db == w.db
    ensures |Alerting(w, name, k)| == |Alerting(w', name, k)| + (if WillAlert(w, call, name, k) then 1 else 0)
  {
    SizeWithout(Alerting(w, name, k), Alerting(w', name, k), call);
  }

  lemma DecideAccounted(serviceThreshold: int, w: World, step: Step, name: Name, k: nat, lost: nat)
    requires k >= 1 && step.Decide? && step.call in w.calls && CallsKnown(w)
    requires Accounted(serviceThreshold, w, name, k, lost)
    ensures Accounted(serviceThreshold, Next(serviceThreshold, w, step), name, k,
                      lost + (if LosesDown(w, step, name, k) then 1 else 0))
  {
    hide LongOutages, Log, States, DownCount, Alerting, RegisterEffect, CheckInEffect;
    var w' := Next(serviceThreshold, w, step);
    assert !Alone(w, name) || w.calls[step.call].name != name;
    DownCountAppend(w.alerts, Sent(serviceThreshold, w, step), name);
    AlertingRemove(w, w', step.call, name, k);
  }

  lemma OtherAccounted(serviceThreshold: int, w: World, step: Step, name: Name, k: nat, lost: nat)
    requires k >= 1 && Sound(w.db) && !step.Decide? && !Reports(w, step, name)
    requires Starts(w, step, name) ==> Alone(w, name)
    requires Accounted(serviceThreshold, w, name, k, lost)
    ensures Accounted(serviceThreshold, Next(serviceThreshold, w, step), name, k, lost)
  {
    hide FmtTime, ParseTime, TimeText, LongOutages, Sound, Log, States, DownCount;
    var w' := Next(serviceThreshold, w, step);
    StepLogs(serviceThreshold, w, step, name);
    assert Log(w.db, name) + [] == Log(w.db, name);
    StepState(serviceThreshold, w, step, name);
    assert Alerting(w', name, k) == Alerting(w, name, k);
  }

  lemma StepAccounted(serviceThreshold: int, w: World, step: Step, name: Name, k: nat, lost: nat)
    requires k >= 1 && CallsKnown(w)
    requires Sound(w.db) && (name in w.db.rows ==> Summarizes(w.db.rows[name], Log(w.db, name)))
    requires Starts(w, step, name) ==> Alone(w, name)
    requires Reports(w, step, name) ==> Threshold(serviceThreshold, Next(serviceThreshold, w, step), name) == k
    requires Accounted(serviceThreshold, w, name, k, lost)
    ensures Accounted(serviceThreshold, Next(serviceThreshold, w, step), name, k,
                      lost + (if LosesDown(w, step, name, k) then 1 else 0))
  {
    hide Next, Sound, Summarizes, Alone, Accounted, CallsKnown;
    if Reports(w, step, name) {
      ReportAccounted(serviceThreshold, w, step, name, k, lost);
    } else if !step.Decide? {
      OtherAccounted(serviceThreshold, w, step, name, k, lost);
    } else if step.call in w.calls {
      DecideAccounted(serviceThreshold, w, step, name, k, lost);
    } else {
      UnknownCall(serviceThreshold, w, step);
    }
  }

  lemma UnknownCall(serviceThreshold: int, w: World, step: Step)
    requires step.Decide? && step.call !in w.calls
    ensures Next(serviceThreshold, w, step) == w
  {
  }

  lemma {:induction false} RunAccounted(serviceThreshold: int, steps: seq<Step>, name: Name, k: nat)
    requires k >= 1 && FixedThreshold(serviceThreshold, steps, name, k) && OneAtATime(serviceThreshold, steps, name)
    ensures Accounted(serviceThreshold, Run(serviceThreshold, steps), name, k,
                      LostDowns(serviceThreshold, steps, name, k))
  {
    hide Next, Accounted, Threshold, Starts, Alone, Reports, Sound, Summarizes, CallsKnown, Log, LosesDown;
    if steps == [] {
      NothingYet(serviceThreshold, name, k);
    } else {
      var front, step := steps[..|steps| - 1], steps[|steps| - 1];
      PrefixConditions(serviceThreshold, steps, name, k, |front|);
      RunAccounted(serviceThreshold, front, name, k);
      RowSummarizesLog(serviceThreshold, front, name);
      RecoveriesAnnounced(serviceThreshold, front, name);
      assert ReportsAt(serviceThreshold, steps, |front|, name) ==>
          Threshold(serviceThreshold, Run(serviceThreshold, steps[..|front| + 1]), name) == k;
      assert steps[..|front| + 1] == steps;
      StepAccounted(serviceThreshold, Run(serviceThreshold, front), step, name, k,
                    LostDowns(serviceThreshold, front, name, k));
    }
  }

  lemma PrefixConditions(serviceThreshold: int, steps: seq<Step>, name: Name, k: nat, n: nat)
    requires n <= |steps|
    ensures FixedThreshold(serviceThreshold, steps, name, k) ==> FixedThreshold(serviceThreshold, steps[..n], name, k)
    ensures OneAtATime(serviceThreshold, steps, name) ==> OneAtATime(serviceThreshold, steps[..n], name)
  {
    hide Run, Threshold, Starts, Alone, Reports;
    var front := steps[..n];
    assert forall i :: 0 <= i < n ==> front[i] == steps[i];
    assert forall i :: 0 <= i <= n ==> front[..i] == steps[..i];
    assert forall i :: 0 <= i < n ==>
      (ReportsAt(serviceThreshold, front, i, name) <==> ReportsAt(serviceThreshold, steps, i, name));
  }

  lemma NothingYet(serviceThreshold: int, name: Name, k: nat)
    requires k >= 1
    ensures Accounted(serviceThreshold, Init(), name, k, 0)
  {
    assert Alerting(Init(), name, k) == {} && LongOutages(LogStates(Init(), name), k) == {};
  }

  /**
   With its own check-ins served one at a time under a fixed threshold k, a watcher gets exactly one
   down alert for every maximal run of failing check-ins that reaches length k with a down as its k-th
   entry, counting the alert that a committed check-in has yet to send and those given up because the
   row could not be read again.
   */
  lemma OneAlertPerLongOutage(serviceThreshold: int, steps: seq<Step>, name: Name, k: nat)
    requires k >= 1 && FixedThreshold(serviceThreshold, steps, name, k) && OneAtATime(serviceThreshold, steps, name)
    ensures var w := Run(serviceThreshold, steps);
            DownCount(w.alerts, name) + |Alerting(w, name, k)| + LostDowns(serviceThreshold, steps, name, k)
            == |LongOutages(LogStates(w, name), k)|
  {
    hide Run, LongOutages, LogStates, Alerting, DownCount, LostDowns;
    RunAccounted(serviceThreshold, steps, name, k);
  }

  /** No alert is lost while the row can be read again. */
  lemma {:induction false} NothingLost(serviceThreshold: int, steps: seq<Step>, name: Name, k: nat)
    requires RereadsWork(steps)
    ensures LostDowns(serviceThreshold, steps, name, k) == 0 && LostRecoveries(serviceThreshold, steps, name) == 0
  {
    hide Run;
    if steps != [] {
      assert steps[|steps| - 1].Decide? ==> steps[|steps| - 1].rereads;
      NothingLost(serviceThreshold, steps[..|steps| - 1], name, k);
    }
  }

  // ---------- Two alerts on one watcher ----------

  /** The step announces that the watcher is down. */
  predicate DownAt(serviceThreshold: int, steps: seq<Step>, i: nat, name: Name) {
    && i < |steps|
    && var sent := Sent(serviceThreshold, Run(serviceThreshold, steps[..i]), steps[i]);
       |sent| == 1 && sent[0].WentDown? && sent[0].name == name
  }

  /** The step announces that the watcher has recovered. */
  predicate RecoveredAt(serviceThreshold: int, steps: seq<Step>, i: nat, name: Name) {
    && i < |steps|
    && Sent(serviceThreshold, Run(serviceThreshold, steps[..i]), steps[i]) == [Recovered(name)]
  }

  /** The step commits an ok of the watcher. */
  predicate OkAt(serviceThreshold: int, steps: seq<Step>, i: nat, name: Name) {
    ReportsAt(serviceThreshold, steps, i, name) && steps[i].req.state == OK
  }

  function ThresholdAt(serviceThreshold: int, steps: seq<Step>, i: nat, name: Name): int
    requires i <= |steps|
  {
    Threshold(serviceThreshold, Run(serviceThreshold, steps[..i]), name)
  }

  /** Exactly which decisions send a down alert: the count that is read again is the threshold. */
  lemma DownAtMeans(serviceThreshold: int, steps: seq<Step>, i: nat, name: Name)
    requires i < |steps|
    ensures var w := Run(serviceThreshold, steps[..i]);
            DownAt(serviceThreshold, steps, i, name) <==>
            && steps[i].Decide? && steps[i].rereads && steps[i].call in w.calls && w.calls[steps[i].call].name == name
            && name in w.db.rows && w.calls[steps[i].call].req.state == Down
            && Failures(w, name) == ThresholdAt(serviceThreshold, steps, i, name)
  {
    hide Run;
  }

  lemma RunOneMore(serviceThreshold: int, steps: seq<Step>, k: nat)
    requires k < |steps|
    ensures Run(serviceThreshold, steps[..k + 1]) == Next(serviceThreshold, Run(serviceThreshold, steps[..k]), steps[k])
  {
    hide Next;
    assert steps[..k + 1][..k] == steps[..k];
  }

  /** How many check-ins on the watcher commit from step i on and before step k. */
  function ReportCount(serviceThreshold: int, steps: seq<Step>, i: nat, k: nat, name: Name): nat
    decreases k
  {
    if k <= i then 0
    else
      ReportCount(serviceThreshold, steps, i, k - 1, name) +
      (if ReportsAt(serviceThreshold, steps, k - 1, name) then 1 else 0)
  }

  predicate NoOk(serviceThreshold: int, steps: seq<Step>, i: nat, k: nat, name: Name) {
    forall m :: i <= m < k ==> !OkAt(serviceThreshold, steps, m, name)
  }

  /** Without an ok the failure count of a watcher grows by its check-ins. */
  lemma {:induction false} FailuresGrow(serviceThreshold: int, steps: seq<Step>, name: Name, i: nat, k: nat)
    requires i <= k <= |steps| && NoOk(serviceThreshold, steps, i, k, name)
    ensures Failures(Run(serviceThreshold, steps[..k]), name)
         == Failures(Run(serviceThreshold, steps[..i]), name) + ReportCount(serviceThreshold, steps, i, k, name)
    decreases k
  {
    hide Next, Run, Failures;
    if i < k {
      FailuresGrow(serviceThreshold, steps, name, i, k - 1);
      RunOneMore(serviceThreshold, steps, k - 1);
      assert !OkAt(serviceThreshold, steps, k - 1, name);
      StepState(serviceThreshold, Run(serviceThreshold, steps[..k - 1]), steps[k - 1], name);
    }
  }

  /**
   Under every interleaving, of two down alerts with no ok committed between them the second has a
   threshold that is higher by the number of check-ins committed between them. So it has the same one
   exactly if both check-ins had committed before the first alert.
   */
  lemma SecondAlertThreshold(serviceThreshold: int, steps: seq<Step>, name: Name, i: nat, j: nat)
    requires i < j && DownAt(serviceThreshold, steps, i, name) && DownAt(serviceThreshold, steps, j, name)
    requires NoOk(serviceThreshold, steps, i + 1, j, name)
    ensures ThresholdAt(serviceThreshold, steps, j, name)
         == ThresholdAt(serviceThreshold, steps, i, name) + ReportCount(serviceThreshold, steps, i + 1, j, name)
  {
    hide Next, Run, ReportsAt;
    DownAtMeans(serviceThreshold, steps, i, name);
    DownAtMeans(serviceThreshold, steps, j, name);
    RunOneMore(serviceThreshold, steps, i);
    StepState(serviceThreshold, Run(serviceThreshold, steps[..i]), steps[i], name);
    FailuresGrow(serviceThreshold, steps, name, i + 1, j);
  }

  predicate AtMostOne(w: World, name: Name) {
    forall c, d :: c in w.calls && d in w.calls && w.calls[c].name == name && w.calls[d].name == name ==> c == d
  }

  lemma StepAtMostOne(serviceThreshold: int, w: World, step: Step, name: Name)
    requires AtMostOne(w, name) && (Starts(w, step, name) ==> Alone(w, name))
    ensures AtMostOne(Next(serviceThreshold, w, step), name)
    ensures Alone(w, name) && !Reports(w, step, name) ==> Alone(Next(serviceThreshold, w, step), name)
    ensures step.Decide? && step.call in w.calls && w.calls[step.call].name == name ==>
              Alone(Next(serviceThreshold, w, step), name)
  {
    hide RegisterEffect, CheckInEffect, Sent;
  }

  lemma {:induction false} RunAtMostOne(serviceThreshold: int, steps: seq<Step>, name: Name, n: nat)
    requires n <= |steps| && OneAtATime(serviceThreshold, steps, name)
    ensures AtMostOne(Run(serviceThreshold, steps[..n]), name)
  {
    hide Next, Starts, Alone, AtMostOne;
    if n == 0 {
      assert AtMostOne(Init(), name) by { NoCalls(name); }
    } else {
      RunAtMostOne(serviceThreshold, steps, name, n - 1);
      RunOneMore(serviceThreshold, steps, n - 1);
      StepAtMostOne(serviceThreshold, Run(serviceThreshold, steps[..n - 1]), steps[n - 1], name);
    }
  }

  lemma NoCalls(name: Name)
    ensures AtMostOne(Init(), name)
  {
  }

  /** A watcher without a check-in in flight stays so until one commits. */
  lemma {:induction false} StaysAlone(serviceThreshold: int, steps: seq<Step>, name: Name, i: nat, j: nat)
    requires i <= j <= |steps| && OneAtATime(serviceThreshold, steps, name)
    requires Alone(Run(serviceThreshold, steps[..i]), name) && ReportCount(serviceThreshold, steps, i, j, name) == 0
    ensures Alone(Run(serviceThreshold, steps[..j]), name)
    decreases j
  {
    hide Next, Run, Starts, Reports, Alone;
    if i < j {
      StaysAlone(serviceThreshold, steps, name, i, j - 1);
      RunAtMostOne(serviceThreshold, steps, name, j - 1);
      RunOneMore(serviceThreshold, steps, j - 1);
      StepAtMostOne(serviceThreshold, Run(serviceThreshold, steps[..j - 1]), steps[j - 1], name);
    }
  }

  /** With its check-ins one at a time, a second down alert with no ok in between needs a strictly higher threshold. */
  lemma SecondAlertNeedsHigherThreshold(serviceThreshold: int, steps: seq<Step>, name: Name, i: nat, j: nat)
    requires OneAtATime(serviceThreshold, steps, name)
    requires i < j && DownAt(serviceThreshold, steps, i, name) && DownAt(serviceThreshold, steps, j, name)
    requires NoOk(serviceThreshold, steps, i + 1, j, name)
    ensures ThresholdAt(serviceThreshold, steps, i, name) < ThresholdAt(serviceThreshold, steps, j, name)
  {
    hide Next, Run, ThresholdAt, Starts;
    DownAtMeans(serviceThreshold, steps, i, name);
    DownAtMeans(serviceThreshold, steps, j, name);
    SecondAlertThreshold(serviceThreshold, steps, name, i, j);
    if ReportCount(serviceThreshold, steps, i + 1, j, name) == 0 {
      RunAtMostOne(serviceThreshold, steps, name, i);
      RunOneMore(serviceThreshold, steps, i);
      StepAtMostOne(serviceThreshold, Run(serviceThreshold, steps[..i]), steps[i], name);
      StaysAlone(serviceThreshold, steps, name, i + 1, j);
    }
  }

  // ---------- Missed alerts ----------

  predicate DecidesAt(steps: seq<Step>, p: nat, call: nat) {
    p < |steps| && steps[p].Decide? && steps[p].call == call
  }

  predicate Undecided(steps: seq<Step>, m: nat, p: nat, call: nat) {
    forall l :: m <= l < p ==> !DecidesAt(steps, l, call)
  }

  lemma StepKeepsCall(serviceThreshold: int, w: World, step: Step, call: nat)
    requires call in w.calls && !(step.Decide? && step.call == call)
    ensures var w' := Next(serviceThreshold, w, step); call in w'.calls && w'.calls[call] == w.calls[call]
  {
    hide RegisterEffect, CheckInEffect, Sent;
  }

  /** A committed check-in stays in flight until it decides. */
  lemma {:induction false} CallKept(serviceThreshold: int, steps: seq<Step>, call: nat, m: nat, p: nat)
    requires m <= p <= |steps| && call in Run(serviceThreshold, steps[..m]).calls && Undecided(steps, m, p, call)
    ensures var w, w' := Run(serviceThreshold, steps[..m]), Run(serviceThreshold, steps[..p]);
            call in w'.calls && w'.calls[call] == w.calls[call]
    decreases p
  {
    hide Next, Run;
    if m < p {
      CallKept(serviceThreshold, steps, call, m, p - 1);
      RunOneMore(serviceThreshold, steps, p - 1);
      assert !DecidesAt(steps, p - 1, call);
      StepKeepsCall(serviceThreshold, Run(serviceThreshold, steps[..p - 1]), steps[p - 1], call);
    }
  }

  /** Step p decides the check-in on the watcher that step m committed. */
  predicate Decides(serviceThreshold: int, steps: seq<Step>, m: nat, p: nat, name: Name) {
    && m < p && ReportsAt(serviceThreshold, steps, m, name)
    && DecidesAt(steps, p, steps[m].call) && Undecided(steps, m + 1, p, steps[m].call)
  }

  /** What a check-in leaves in flight until it decides. */
  lemma InFlightUntilDecided(serviceThreshold: int, steps: seq<Step>, m: nat, p: nat, name: Name)
    requires Decides(serviceThreshold, steps, m, p, name)
    ensures var w, w' := Run(serviceThreshold, steps[..m]), Run(serviceThreshold, steps[..p]);
            && name in w'.db.rows && steps[m].call in w'.calls
            && w'.calls[steps[m].call] == InFlight(name, steps[m].req, PreviousState(w.db, name))
  {
    hide Next, Run, PreviousState;
    RunOneMore(serviceThreshold, steps, m);
    ReportCommits(serviceThreshold, Run(serviceThreshold, steps[..m]), steps[m], name);
    CallKept(serviceThreshold, steps, steps[m].call, m + 1, p);
    RecoveriesAnnounced(serviceThreshold, steps[..p], name);
  }

  /**
   Exactly when overlapping check-ins miss or double a down alert. A down report that is decided with no
   ok committed in between alerts if its own count f and the number n of the check-ins in between add up
   to the threshold; under one threshold k that is what f alone says exactly if nothing came in between,
   or neither count is k.
   */
  lemma OverlappedDecision(serviceThreshold: int, steps: seq<Step>, m: nat, p: nat, name: Name)
    requires Decides(serviceThreshold, steps, m, p, name) && steps[m].req.state == Down && steps[p].rereads
    requires NoOk(serviceThreshold, steps, m + 1, p, name)
    ensures var f := Failures(Run(serviceThreshold, steps[..m + 1]), name);
            var n := ReportCount(serviceThreshold, steps, m + 1, p, name);
            var k := ThresholdAt(serviceThreshold, steps, p, name);
            && (DownAt(serviceThreshold, steps, p, name) <==> f + n == k)
            && ((DownAt(serviceThreshold, steps, p, name) <==> f == k) <==> n == 0 || (f != k && f + n != k))
  {
    hide Next, Run, DownAt;
    InFlightUntilDecided(serviceThreshold, steps, m, p, name);
    DownAtMeans(serviceThreshold, steps, p, name);
    FailuresGrow(serviceThreshold, steps, name, m + 1, p);
  }

  /**
   When a down report alerts, told from the history alone: its decision sends the down alert, with its
   own message, exactly if the failures at the end of the log are as many as the threshold that the watcher
   was last given, or as the server's where that is not positive.
   */
  lemma DownAlertExactly(serviceThreshold: int, steps: seq<Step>, m: nat, p: nat, name: Name)
    requires Decides(serviceThreshold, steps, m, p, name) && steps[m].req.state == Down && steps[p].rereads
    ensures var w, given := Run(serviceThreshold, steps[..p]), LastSet(serviceThreshold, steps[..p], name);
            && given.Some?
            && Sent(serviceThreshold, w, steps[p])
               == if TrailingFails(LogStates(w, name)) == (if given.value.threshold > 0 then given.value.threshold
                                                           else serviceThreshold)
                  then [WentDown(name, steps[m].req.message)] else []
  {
    hide Next, Run, LastSet, Log, TrailingFails;
    InFlightUntilDecided(serviceThreshold, steps, m, p, name);
    SettingsAreLastSet(serviceThreshold, steps[..p], name);
    RowSummarizesLog(serviceThreshold, steps[..p], name);
  }

  // ---------- Recoveries ----------

  /** Step l commits the latest check-in on the watcher before step m. */
  predicate LatestReport(serviceThreshold: int, steps: seq<Step>, l: nat, m: nat, name: Name) {
    && l < m <= |steps| && ReportsAt(serviceThreshold, steps, l, name)
    && forall x :: l < x < m ==> !ReportsAt(serviceThreshold, steps, x, name)
  }

  /** The state before a step is that of the latest check-in, and an ok leaves no failures. */
  lemma {:induction false} StateIsReported(serviceThreshold: int, steps: seq<Step>, l: nat, m: nat, name: Name)
    requires LatestReport(serviceThreshold, steps, l, m, name)
    ensures var w := Run(serviceThreshold, steps[..m]);
            && PreviousState(w.db, name) == steps[l].req.state
            && (steps[l].req.state == OK ==> Failures(w, name) == 0)
    decreases m
  {
    hide Next, Run, PreviousState, Failures;
    RunOneMore(serviceThreshold, steps, m - 1);
    StepState(serviceThreshold, Run(serviceThreshold, steps[..m - 1]), steps[m - 1], name);
    if l < m - 1 {
      assert !ReportsAt(serviceThreshold, steps, m - 1, name);
      StateIsReported(serviceThreshold, steps, l, m - 1, name);
    }
  }

  lemma {:induction false} FindLatestReport(serviceThreshold: int, steps: seq<Step>, m: nat, name: Name)
    returns (found: bool, l: nat)
    requires m <= |steps|
    ensures if found then LatestReport(serviceThreshold, steps, l, m, name)
            else
              && (forall x :: 0 <= x < m ==> !ReportsAt(serviceThreshold, steps, x, name))
              && PreviousState(Run(serviceThreshold, steps[..m]).db, name) == Unknown
              && Failures(Run(serviceThreshold, steps[..m]), name) == 0
  {
    hide Next, Reports;
    found, l := false, 0;
    if m > 0 {
      RunOneMore(serviceThreshold, steps, m - 1);
      StepState(serviceThreshold, Run(serviceThreshold, steps[..m - 1]), steps[m - 1], name);
      if ReportsAt(serviceThreshold, steps, m - 1, name) {
        found, l := true, m - 1;
      } else {
        found, l := FindLatestReport(serviceThreshold, steps, m - 1, name);
      }
    }
  }

  /** The check-in that step m commits will announce a recovery when it decides. */
  predicate Recovers(serviceThreshold: int, steps: seq<Step>, m: nat, name: Name) {
    && ReportsAt(serviceThreshold, steps, m, name)
    && var w := Run(serviceThreshold, steps[..m + 1]);
       steps[m].call in w.calls && WillRecover(w.calls[steps[m].call], name)
  }

  /**
   Under every interleaving, an ok will announce the recovery if and only if the check-in on the watcher
   that committed last before it is a down.
   */
  lemma OkAnnouncesExactly(serviceThreshold: int, steps: seq<Step>, name: Name, m: nat)
    requires OkAt(serviceThreshold, steps, m, name)
    ensures Recovers(serviceThreshold, steps, m, name) <==>
            exists l: nat :: LatestReport(serviceThreshold, steps, l, m, name) && steps[l].req.state == Down
  {
    hide Next, Run, PreviousState;
    RunOneMore(serviceThreshold, steps, m);
    ReportCommits(serviceThreshold, Run(serviceThreshold, steps[..m]), steps[m], name);
    var found, l := FindLatestReport(serviceThreshold, steps, m, name);
    if found {
      StateIsReported(serviceThreshold, steps, l, m, name);
    }
  }

  /**
   Under every interleaving, the first ok that commits after a down alert will announce the recovery
   exactly if the check-in right before it is a down, and not say a degraded.
   */
  lemma FirstOkAnnouncesRecovery(serviceThreshold: int, steps: seq<Step>, name: Name, i: nat, m: nat) returns (l: nat)
    requires serviceThreshold >= 1
    requires i < m && DownAt(serviceThreshold, steps, i, name) && OkAt(serviceThreshold, steps, m, name)
    requires NoOk(serviceThreshold, steps, i + 1, m, name)
    ensures LatestReport(serviceThreshold, steps, l, m, name) && steps[l].req.state != OK
    ensures Recovers(serviceThreshold, steps, m, name) <==> steps[l].req.state == Down
  {
    hide Next, Run;
    DownAtMeans(serviceThreshold, steps, i, name);
    RunOneMore(serviceThreshold, steps, i);
    StepState(serviceThreshold, Run(serviceThreshold, steps[..i]), steps[i], name);
    FailuresGrow(serviceThreshold, steps, name, i + 1, m);
    var found: bool;
    found, l := FindLatestReport(serviceThreshold, steps, m, name);
    StateIsReported(serviceThreshold, steps, l, m, name);
    OkAnnouncesExactly(serviceThreshold, steps, name, m);
  }

  /**
   The decision of a check-in sends a recovery alert exactly if the check-in was to announce one and the
   row can be read again, whatever else has happened since it committed.
   */
  lemma RecoveryIsSent(serviceThreshold: int, steps: seq<Step>, name: Name, m: nat, p: nat)
    requires Decides(serviceThreshold, steps, m, p, name)
    ensures RecoveredAt(serviceThreshold, steps, p, name) <==>
            Recovers(serviceThreshold, steps, m, name) && steps[p].rereads
  {
    hide Next, Run, PreviousState;
    RunOneMore(serviceThreshold, steps, m);
    ReportCommits(serviceThreshold, Run(serviceThreshold, steps[..m]), steps[m], name);
    InFlightUntilDecided(serviceThreshold, steps, m, p, name);
  }

  lemma {:induction false} FirstOk(serviceThreshold: int, steps: seq<Step>, name: Name, i: nat, j: nat) returns (m: nat)
    requires i < j <= |steps| && !NoOk(serviceThreshold, steps, i + 1, j, name)
    ensures i < m < j && OkAt(serviceThreshold, steps, m, name) && NoOk(serviceThreshold, steps, i + 1, m, name)
    decreases j
  {
    hide OkAt;
    m :| i < m < j && OkAt(serviceThreshold, steps, m, name);
    if !NoOk(serviceThreshold, steps, i + 1, m, name) {
      m := FirstOk(serviceThreshold, steps, name, i, m);
    }
  }

  lemma {:induction false} FirstDecision(steps: seq<Step>, call: nat, i: nat, j: nat) returns (p: nat)
    requires i <= j <= |steps| && !Undecided(steps, i, j, call)
    ensures i <= p < j && DecidesAt(steps, p, call) && Undecided(steps, i, p, call)
    decreases j
  {
    p :| i <= p < j && DecidesAt(steps, p, call);
    if !Undecided(steps, i, p, call) {
      p := FirstDecision(steps, call, i, p);
    }
  }

  /**
   With the watcher's check-ins one at a time and no higher threshold, between any two down alerts an ok
   is committed and decided. The first such ok sends a recovery alert exactly if the check-in right before
   it is a down and the row can be read again.
   */
  lemma RecoveryBetweenDownAlerts(serviceThreshold: int, steps: seq<Step>, name: Name, i: nat, j: nat)
    returns (l: nat, m: nat, p: nat)
    requires serviceThreshold >= 1 && OneAtATime(serviceThreshold, steps, name)
    requires i < j && DownAt(serviceThreshold, steps, i, name) && DownAt(serviceThreshold, steps, j, name)
    requires ThresholdAt(serviceThreshold, steps, j, name) <= ThresholdAt(serviceThreshold, steps, i, name)
    ensures i < m < p < j && OkAt(serviceThreshold, steps, m, name) && NoOk(serviceThreshold, steps, i + 1, m, name)
    ensures LatestReport(serviceThreshold, steps, l, m, name) && steps[l].req.state != OK
    ensures Decides(serviceThreshold, steps, m, p, name)
    ensures RecoveredAt(serviceThreshold, steps, p, name) <==> steps[l].req.state == Down && steps[p].rereads
  {
    hide Next, Run, ThresholdAt, RecoveredAt, OneAtATime, PreviousState;
    DownAtMeans(serviceThreshold, steps, j, name);
    if NoOk(serviceThreshold, steps, i + 1, j, name) {
      SecondAlertNeedsHigherThreshold(serviceThreshold, steps, name, i, j);
      assert false;
    }
    m := FirstOk(serviceThreshold, steps, name, i, j);
    l := FirstOkAnnouncesRecovery(serviceThreshold, steps, name, i, m);
    p := DecidedBefore(serviceThreshold, steps, name, m, j);
    RecoveryIsSent(serviceThreshold, steps, name, m, p);
  }

  /** One at a time, an ok has been decided by the time a down alert is sent. */
  lemma DecidedBefore(serviceThreshold: int, steps: seq<Step>, name: Name, m: nat, j: nat) returns (p: nat)
    requires OneAtATime(serviceThreshold, steps, name)
    requires m < j && OkAt(serviceThreshold, steps, m, name) && DownAt(serviceThreshold, steps, j, name)
    ensures p < j && Decides(serviceThreshold, steps, m, p, name)
  {
    hide Next, Run, OneAtATime, PreviousState;
    var call := steps[m].call;
    DownAtMeans(serviceThreshold, steps, j, name);
    RunOneMore(serviceThreshold, steps, m);
    ReportCommits(serviceThreshold, Run(serviceThreshold, steps[..m]), steps[m], name);
    RunAtMostOne(serviceThreshold, steps, name, j);
    if Undecided(steps, m + 1, j, call) {
      CallKept(serviceThreshold, steps, call, m + 1, j);
      assert false;
    }
    p := FirstDecision(steps, call, m + 1, j);
  }
}
