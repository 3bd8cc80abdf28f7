/** Fixed-interval schedules (internal/scheduler), due by comparison of text columns. */
module Scheduler {
  import opened Durations
  import opened Options
  import opened Text
  import opened Timestamps

  /** The positive 64-bit numbers of seconds, all of which a request may carry. */
  type Interval = i: int | 0 < i < TWO_63 witness 1

  /** Instants of the server's clock. */
  type Clock = t: Time | t.date.year >= 1970 witness Instant(Date(1970, 1, 1), 0, 0, 0, 0)

  lemma {:induction false} MonthsAreLong(year: nat, month: nat)
    ensures month >= 1 ==> DaysBeforeMonth(year, month) >= 28 * (month - 1)
  {
    if month > 1 {
      MonthsAreLong(year, month - 1);
    }
  }

  lemma {:induction false} YearsAreLong(year: nat)
    ensures DaysBeforeYear(year) >= 336 * year
  {
    if year > 0 {
      YearsAreLong(year - 1);
      MonthsAreLong(year - 1, 13);
    }
  }

  /** The instant one interval later, as far as the interval fits a duration; a longer one wraps around. */
  function AfterInterval(now: Clock, interval: Interval): (r: Time)
    ensures Nanos(r) == Nanos(now) + Wrap64(interval * SECOND)
  {
    YearsAreLong(now.date.year);
    AddNanos(now, Wrap64(interval * SECOND))
  }

  /** The interval is kept exactly if it fits. */
  lemma IntervalKept(now: Clock, interval: Interval)
    ensures Nanos(AfterInterval(now, interval)) == Nanos(now) + interval * SECOND <==> interval <= MAX_SECONDS
    ensures interval <= MAX_SECONDS ==> AfterInterval(now, interval) == AddSeconds(now, interval)
  {
    hide Seconds, AfterInterval, AddSeconds;
    if interval <= MAX_SECONDS {
      FieldOrderIsTimeOrder(AfterInterval(now, interval), AddSeconds(now, interval));
    }
  }

  /** A row; lastRunAt is None for the NULL of a schedule that has never run. */
  datatype Schedule = Schedule(
    name: string,
    interval: Interval,
    enabled: bool,
    lastRunAt: Option<string>,
    nextRunAt: string)

  /** The request for a task that a tick makes for a schedule. */
  datatype Creation = Creation(schedule: nat, at: Time)

  type Rows = map<nat, Schedule>

  predicate Due(s: Schedule, now: Clock) {
    s.enabled && AtMost(s.nextRunAt, FmtTime(now))
  }

  function DueIds(rows: Rows, now: Clock): set<nat> {
    set id | id in rows && Due(rows[id], now)
  }

  /** Scanning the NULL of a never-run row into a plain string fails, and with it the whole query. */
  predicate Readable(rows: Rows, now: Clock) {
    forall id :: id in DueIds(rows, now) ==> rows[id].lastRunAt.Some?
  }

  function Fresh(name: string, interval: Interval, now: Clock): Schedule {
    Schedule(name, interval, true, None, FmtTime(AfterInterval(now, interval)))
  }

  function Marked(s: Schedule, now: Clock): Schedule {
    s.(lastRunAt := Some(FmtTime(now)), nextRunAt := FmtTime(AfterInterval(now, s.interval)))
  }

  /** The rows after a tick that could list the due schedules. */
  function MarkedRows(rows: Rows, now: Clock, createFails: set<nat>, markFails: set<nat>): Rows {
    map id | id in rows ::
      if id in DueIds(rows, now) && id !in createFails && id !in markFails then Marked(rows[id], now) else rows[id]
  }

  class Store {
    var rows: Rows
    var nextId: nat

    predicate Valid()
      reads this
    {
      && (forall id :: id in rows ==> id < nextId)
      && (forall i, j :: i in rows && j in rows && rows[i].name == rows[j].name ==> i == j)
    }

    constructor ()
      ensures Valid() && rows == map[]
    {
      rows, nextId := map[], 1;
    }

    /** Reading a row that has never run fails like reading one that does not exist. */
    method Get(name: string) returns (r: Option<Schedule>)
      requires Valid()
      ensures r.Some? <==> exists id :: id in rows && rows[id].name == name && rows[id].lastRunAt.Some?
      ensures r.Some? ==> exists id :: id in rows && rows[id] == r.value && r.value.name == name
    {
      if id :| id in rows && rows[id].name == name {
        return if rows[id].lastRunAt.Some? then Some(rows[id]) else None;
      }
      return None;
    }

    /**
     The name is unique; commits tells whether the insert works otherwise. The row is read back before
     it has ever run, so the call reports an error even when the schedule is there.
     */
    method Create(name: string, interval: Interval, now: Clock, commits: bool) returns (r: Option<Schedule>)
      requires Valid()
      modifies this
      ensures Valid() && r.None?
      ensures rows == (if commits && forall id :: id in old(rows) ==> old(rows)[id].name != name
                       then old(rows)[old(nextId) := Fresh(name, interval, now)] else old(rows))
    {
      hide FmtTime, AfterInterval;
      var taken := exists id :: id in rows && rows[id].name == name;
      if taken || !commits {
        return None;
      }
      var next := AfterInterval(now, interval);
      rows := rows[nextId := Schedule(name, interval, true, None, FmtTime(next))];
      nextId := nextId + 1;
      r := Get(name);
    }

    /** The due schedules in some order, or None if one of them cannot be scanned. */
    method ListDue(now: Clock) returns (due: Option<seq<nat>>)
      ensures due.Some? <==> Readable(rows, now)
      ensures due.Some? ==> (forall id :: id in due.value <==> id in DueIds(rows, now))
      ensures due.Some? ==> forall i, j :: 0 <= i < j < |due.value| ==> due.value[i] != due.value[j]
    {
      hide FmtTime, AtMost;
      var ids := rows.Keys;
      var found: seq<nat> := [];
      while ids != {}
        invariant ids <= rows.Keys
        invariant forall id :: id in found <==> id in DueIds(rows, now) && id !in ids
        invariant forall id :: id in found ==> rows[id].lastRunAt.Some?
        invariant forall i, j :: 0 <= i < j < |found| ==> found[i] != found[j]
        decreases |ids|
      {
        var id :| id in ids;
        ids := ids - {id};
        if Due(rows[id], now) {
          if rows[id].lastRunAt.None? {
            assert id in DueIds(rows, now);
            return None;
          }
          found := found + [id];
        }
      }
      return Some(found);
    }

    method MarkRun(id: nat, ranAt: Time, nextRunAt: Time)
      modifies this`rows
      ensures rows == if id in old(rows)
                      then old(rows)[id := old(rows)[id].(lastRunAt := Some(FmtTime(ranAt)),
                                                          nextRunAt := FmtTime(nextRunAt))]
                      else old(rows)
    {
      if id in rows {
        rows := rows[id := rows[id].(lastRunAt := Some(FmtTime(ranAt)), nextRunAt := FmtTime(nextRunAt))];
      }
    }
  }

  class Runner {
    const schedules: Store
    var created: seq<Creation>

    constructor (schedules: Store)
      ensures this.schedules == schedules && created == []
    {
      this.schedules := schedules;
      created := [];
    }

    /** createFails and markFails are the schedules for which creating the task or marking the run fails. */
    method Tick(now: Clock, queryFails: bool, createFails: set<nat>, markFails: set<nat>)
      modifies this, schedules`rows
      ensures var serves := !queryFails && Readable(old(schedules.rows), now);
              && schedules.rows == (if serves then MarkedRows(old(schedules.rows), now, createFails, markFails)
                                    else old(schedules.rows))
              && |created| >= |old(created)| && created[..|old(created)|] == old(created)
              && (forall c :: c in created[|old(created)|..] <==>
                    && serves && c.at == now
                    && c.schedule in DueIds(old(schedules.rows), now) && c.schedule !in createFails)
    {
      hide FmtTime, AfterInterval, AtMost, Due;
      if queryFails {
        return;
      }
      var listed := schedules.ListDue(now);
      if listed.None? {
        return;
      }
      ServeAll(listed.value, now, createFails, markFails);
    }

    method ServeOne(id: nat, now: Clock, createFails: bool, markFails: bool)
      requires id in schedules.rows
      modifies this, schedules`rows
      ensures created == old(created) + (if createFails then [] else [Creation(id, now)])
      ensures schedules.rows == old(schedules.rows)[
                id := if createFails || markFails then old(schedules.rows)[id]
                      else Marked(old(schedules.rows)[id], now)]
    {
      hide FmtTime, AfterInterval;
      if createFails {
        return;
      }
      created := created + [Creation(id, now)];
      if markFails {
        return;
      }
      schedules.MarkRun(id, now, AfterInterval(now, schedules.rows[id].interval));
    }

    /** The loop over the due schedules. */
    method ServeAll(due: seq<nat>, now: Clock, createFails: set<nat>, markFails: set<nat>)
      requires forall id :: id in due <==> id in DueIds(schedules.rows, now)
      requires forall i, j :: 0 <= i < j < |due| ==> due[i] != due[j]
      modifies this, schedules`rows
      ensures schedules.rows == MarkedRows(old(schedules.rows), now, createFails, markFails)
      ensures |created| >= |old(created)| && created[..|old(created)|] == old(created)
      ensures forall c :: c in created[|old(created)|..] <==>
                c.at == now && c.schedule in due && c.schedule !in createFails
    {
      hide FmtTime, AfterInterval, AtMost, Due, Marked;
      ghost var rows0 := schedules.rows;
      ghost var made: seq<Creation> := [];
      for i := 0 to |due|
        invariant forall id :: id in schedules.rows <==> id in rows0
        invariant forall id :: id in rows0 ==>
                    schedules.rows[id] == (if id in due[..i] && id !in createFails && id !in markFails
                                           then Marked(rows0[id], now) else rows0[id])
        invariant created == old(created) + made
        invariant forall c :: c in made <==> c.at == now && c.schedule in due[..i] && c.schedule !in createFails
      {
        var id := due[i];
        assert id in due && id in DueIds(rows0, now);
        assert due[..i + 1] == due[..i] + [id];
        assert id !in due[..i];
        ServeOne(id, now, id in createFails, id in markFails);
        made := made + (if id in createFails then [] else [Creation(id, now)]);
      }
      assert due[..|due|] == due;
      assert created[|old(created)|..] == made;
    }
  }
}

/** Runs of the scheduler: new schedules and ticks, from any table. */
module SchedulerRuns {
  import opened Durations
  import opened Options
  import opened Text
  import opened Timestamps
  import opened Scheduler

  datatype Step =
    | Create(id: nat, name: string, interval: Interval, now: Clock)
    | Tick(now: Clock, queryFails: bool, createFails: set<nat>, markFails: set<nat>)

  /** A Create under an id in use, or with a name in use, fails. */
  function Next(rows: Rows, step: Step): Rows {
    match step
    case Create(id, name, interval, now) =>
      if id in rows || exists k :: k in rows && rows[k].name == name then rows
      else rows[id := Fresh(name, interval, now)]
    case Tick(now, queryFails, createFails, markFails) =>
      if !queryFails && Readable(rows, now) then MarkedRows(rows, now, createFails, markFails) else rows
  }

  function Run(rows: Rows, steps: seq<Step>): Rows {
    if steps == [] then rows else Next(Run(rows, steps[..|steps| - 1]), steps[|steps| - 1])
  }

  lemma RunOneMore(rows: Rows, steps: seq<Step>, k: nat)
    requires k < |steps|
    ensures Run(rows, steps[..k + 1]) == Next(Run(rows, steps[..k]), steps[k])
  {
    hide Next;
    assert steps[..k + 1][..k] == steps[..k];
  }

  /** The step makes a task for the schedule. */
  predicate Serves(rows: Rows, step: Step, id: nat) {
    && step.Tick? && !step.queryFails && Readable(rows, step.now)
    && id in DueIds(rows, step.now) && id !in step.createFails
  }

  /** The step also records that it did. */
  predicate Marks(rows: Rows, step: Step, id: nat) {
    Serves(rows, step, id) && id !in step.markFails
  }

  // ---------- Pacing ----------

  /** The instants of the ticks, and the next run that each would set for the schedule, have four-digit years. */
  predicate FourDigitYears(rows: Rows, steps: seq<Step>, id: nat) {
    forall i :: 0 <= i < |steps| && steps[i].Tick? ==>
      && steps[i].now.date.year <= 9999
      && (id in Run(rows, steps[..i]) ==>
            AfterInterval(steps[i].now, Run(rows, steps[..i])[id].interval).date.year <= 9999)
  }

  /** The row is next due at an instant not before a given second. */
  ghost predicate NotBefore(s: Schedule, second: nat) {
    exists t: Time :: t.date.year <= 9999 && Seconds(t) >= second && s.nextRunAt == FmtTime(t)
  }

  lemma MarkedNotBefore(s: Schedule, now: Clock, second: nat)
    requires Seconds(now) >= second && s.interval <= MAX_SECONDS && AfterInterval(now, s.interval).date.year <= 9999
    ensures NotBefore(Marked(s, now), second + s.interval)
  {
    hide FmtTime, Seconds, AfterInterval;
    var t := AfterInterval(now, s.interval);
    IntervalKept(now, s.interval);
    assert Marked(s, now).nextRunAt == FmtTime(t);
  }

  lemma DueNotBefore(s: Schedule, now: Clock, second: nat)
    requires NotBefore(s, second) && Due(s, now) && now.date.year <= 9999
    ensures Seconds(now) >= second
  {
    hide FmtTime, Seconds, AtMost;
    var t: Time :| t.date.year <= 9999 && Seconds(t) >= second && s.nextRunAt == FmtTime(t);
    TextAtMost(t, now);
  }

  lemma StepNotBefore(rows: Rows, step: Step, id: nat, second: nat)
    requires id in rows && NotBefore(rows[id], second) && rows[id].interval <= MAX_SECONDS
    requires step.Tick? ==> step.now.date.year <= 9999 && AfterInterval(step.now, rows[id].interval).date.year <= 9999
    ensures id in Next(rows, step) && NotBefore(Next(rows, step)[id], second)
    ensures Next(rows, step)[id].interval == rows[id].interval
  {
    hide FmtTime, Seconds, NotBefore, AfterInterval, Marked;
    if Marks(rows, step, id) {
      DueNotBefore(rows[id], step.now, second);
      MarkedNotBefore(rows[id], step.now, second);
      NotBeforeWeaker(Marked(rows[id], step.now), second + rows[id].interval, second);
      MarkedInterval(rows[id], step.now);
    }
  }

  lemma MarkedInterval(s: Schedule, now: Clock)
    ensures Marked(s, now).interval == s.interval
  {
  }

  lemma NotBeforeWeaker(s: Schedule, later: nat, earlier: nat)
    requires earlier <= later && NotBefore(s, later)
    ensures NotBefore(s, earlier)
  {
    hide FmtTime, Seconds;
  }

  /** After a marked run the schedule is not due before its interval has passed, to the second. */
  lemma {:induction false} NextDue(rows: Rows, steps: seq<Step>, id: nat, i: nat, k: nat)
    requires i < k <= |steps| && FourDigitYears(rows, steps, id) && Marks(Run(rows, steps[..i]), steps[i], id)
    requires Run(rows, steps[..i])[id].interval <= MAX_SECONDS
    ensures id in Run(rows, steps[..k])
    ensures NotBefore(Run(rows, steps[..k])[id], Seconds(steps[i].now) + Run(rows, steps[..i])[id].interval)
    ensures Run(rows, steps[..k])[id].interval == Run(rows, steps[..i])[id].interval
    decreases k
  {
    hide FmtTime, Seconds, NotBefore, AfterInterval, Next, Marked, Run;
    RunOneMore(rows, steps, k - 1);
    assert id in Run(rows, steps[..i]);
    if k == i + 1 {
      MarkedRow(Run(rows, steps[..i]), steps[i], id);
      MarkedNotBefore(Run(rows, steps[..i])[id], steps[i].now, Seconds(steps[i].now));
      MarkedInterval(Run(rows, steps[..i])[id], steps[i].now);
    } else {
      NextDue(rows, steps, id, i, k - 1);
      StepNotBefore(Run(rows, steps[..k - 1]), steps[k - 1], id,
                    Seconds(steps[i].now) + Run(rows, steps[..i])[id].interval);
    }
  }

  lemma MarkedRow(rows: Rows, step: Step, id: nat)
    requires Marks(rows, step, id)
    ensures id in rows && id in Next(rows, step) && Next(rows, step)[id] == Marked(rows[id], step.now)
  {
    hide FmtTime, AfterInterval, Due;
  }

  /**
   Pacing: if a tick makes a task for a schedule and marks the run, every later tick that makes one
   for it comes more than interval - 1 seconds later, whatever the clock does in between.
   */
  lemma Pacing(rows: Rows, steps: seq<Step>, id: nat, i: nat, j: nat)
    requires i < j < |steps| && FourDigitYears(rows, steps, id)
    requires Marks(Run(rows, steps[..i]), steps[i], id) && Serves(Run(rows, steps[..j]), steps[j], id)
    requires Run(rows, steps[..i])[id].interval <= MAX_SECONDS
    ensures Nanos(steps[j].now) > Nanos(steps[i].now) + (Run(rows, steps[..i])[id].interval - 1) * SECOND
  {
    hide FmtTime, Seconds, NotBefore, AfterInterval, Next, Marked, Run, AtMost;
    NextDue(rows, steps, id, i, j);
    DueNotBefore(Run(rows, steps[..j])[id], steps[j].now, Seconds(steps[i].now) + Run(rows, steps[..i])[id].interval);
  }

  /** The instants up to year 9999 at which a row is due all come more than interval - 1 seconds after a given one. */
  ghost predicate Paced(s: Schedule, now: Clock) {
    forall t: Clock :: t.date.year <= 9999 && Due(s, t) ==> Nanos(t) > Nanos(now) + (s.interval - 1) * SECOND
  }

  /** The bound on the interval is exact: a longer one wraps around, and the marked row is due too early. */
  lemma PacedExactly(s: Schedule, now: Clock)
    requires s.enabled && now.date.year <= 9999 && AfterInterval(now, s.interval).date.year <= 9999
    ensures Paced(Marked(s, now), now) <==> s.interval <= MAX_SECONDS
  {
    hide FmtTime, Seconds, AfterInterval, AtMost;
    var next := AfterInterval(now, s.interval);
    if s.interval <= MAX_SECONDS {
      IntervalKept(now, s.interval);
      forall t: Clock | t.date.year <= 9999 && Due(Marked(s, now), t)
        ensures Nanos(t) > Nanos(now) + (s.interval - 1) * SECOND
      {
        TextAtMost(next, t);
      }
    } else {
      var t: Clock := if next.date.year >= 1970 then next else now;
      FieldOrderIsTimeOrder(next, t);
      TextAtMost(next, t);
      assert Due(Marked(s, now), t);
    }
  }

  /**
   An interval can even wrap to a negative duration, as it does one second beyond the bound. Then the
   next run is due in the past, and every later tick without errors makes another task.
   */
  lemma OverlongIntervalRunsAgain(rows: Rows, first: Step, second: Step, id: nat)
    requires Marks(rows, first, id) && Wrap64(rows[id].interval * SECOND) + SECOND <= 0
    requires second.Tick? && !second.queryFails && Readable(Next(rows, first), second.now) && id !in second.createFails
    requires first.now.date.year <= 9999 && second.now.date.year <= 9999 && Seconds(first.now) <= Seconds(second.now)
    ensures Serves(Next(rows, first), second, id)
    ensures Wrap64((MAX_SECONDS + 1) * SECOND) + SECOND <= 0
  {
    hide FmtTime, Seconds, AfterInterval, AtMost;
    var t := AfterInterval(first.now, rows[id].interval);
    FieldOrderIsTimeOrder(t, first.now);
    TextAtMost(t, second.now);
  }

  /** A run that could not be marked is repeated by every tick that finds the old due time passed. */
  lemma UnmarkedRunsAgain(rows: Rows, first: Step, second: Step, id: nat)
    requires Serves(rows, first, id) && id in first.markFails
    requires second.Tick? && !second.queryFails && Readable(Next(rows, first), second.now) && id !in second.createFails
    ensures Serves(Next(rows, first), second, id) <==> AtMost(rows[id].nextRunAt, FmtTime(second.now))
  {
    hide FmtTime, AfterInterval, AtMost;
  }

  /** A Create adds one enabled schedule, written down as never run, and due when its interval has passed. */
  lemma CreatedRow(rows: Rows, id: nat, name: string, interval: Interval, now: Clock)
    requires id !in rows && forall k :: k in rows ==> rows[k].name != name
    ensures Next(rows, Create(id, name, interval, now))
         == rows[id := Schedule(name, interval, true, None, FmtTime(AfterInterval(now, interval)))]
  {
    hide FmtTime, AfterInterval;
  }

  /** A new schedule is first due one interval after its creation, to the second. */
  lemma FirstDue(name: string, interval: Interval, now: Clock, t: Clock)
    requires interval <= MAX_SECONDS && AfterInterval(now, interval).date.year <= 9999 && t.date.year <= 9999
    ensures Seconds(t) > Seconds(now) + interval ==> Due(Fresh(name, interval, now), t)
    ensures Due(Fresh(name, interval, now), t) ==> Seconds(t) >= Seconds(now) + interval
  {
    hide FmtTime, Seconds, AfterInterval, AtMost;
    IntervalKept(now, interval);
    TextAtMost(AfterInterval(now, interval), t);
  }

  /** Between marked runs a row shows the latest one and the next due time that it set, and nothing else changes. */
  lemma {:induction false} LastRunShown(rows: Rows, steps: seq<Step>, id: nat, i: nat, k: nat)
    requires i < k <= |steps| && Marks(Run(rows, steps[..i]), steps[i], id)
    requires forall j :: i < j < k ==> !Marks(Run(rows, steps[..j]), steps[j], id)
    ensures id in Run(rows, steps[..k])
    ensures var s, s' := Run(rows, steps[..i])[id], Run(rows, steps[..k])[id];
            && s'.lastRunAt == Some(FmtTime(steps[i].now))
            && s'.nextRunAt == FmtTime(AfterInterval(steps[i].now, s.interval))
            && s'.name == s.name && s'.interval == s.interval && s'.enabled == s.enabled
    decreases k
  {
    hide FmtTime, AfterInterval, Next, Marks, Run, Seconds;
    RunOneMore(rows, steps, k - 1);
    if k == i + 1 {
      MarkedRow(Run(rows, steps[..i]), steps[i], id);
    } else {
      LastRunShown(rows, steps, id, i, k - 1);
      assert !Marks(Run(rows, steps[..k - 1]), steps[k - 1], id);
      UnmarkedRow(Run(rows, steps[..k - 1]), steps[k - 1], id);
    }
  }

  lemma UnmarkedRow(rows: Rows, step: Step, id: nat)
    requires id in rows && !Marks(rows, step, id)
    ensures id in Next(rows, step) && Next(rows, step)[id] == rows[id]
  {
    hide FmtTime, AfterInterval, Due;
  }

  /**
   A tick without errors serves a schedule that was due in an earlier second exactly if it is enabled,
   and none that is due in a later second.
   */
  lemma OverdueIsServed(rows: Rows, step: Step, id: nat, t: Time)
    requires id in rows && rows[id].nextRunAt == FmtTime(t)
    requires step.Tick? && !step.queryFails && Readable(rows, step.now) && id !in step.createFails
    requires t.date.year <= 9999 && step.now.date.year <= 9999
    ensures Seconds(t) < Seconds(step.now) ==> (Serves(rows, step, id) <==> rows[id].enabled)
    ensures Serves(rows, step, id) ==> rows[id].enabled && Seconds(t) <= Seconds(step.now)
  {
    hide FmtTime, Seconds, AtMost;
    TextAtMost(t, step.now);
  }

  // ---------- Schedules that have never run ----------

  /** One due schedule that has never run keeps a tick from serving any schedule at all. */
  lemma NeverRunBlocksAll(rows: Rows, step: Step, blocker: nat, id: nat)
    requires step.Tick? && blocker in DueIds(rows, step.now) && rows[blocker].lastRunAt.None?
    ensures !Serves(rows, step, id) && Next(rows, step) == rows
  {
    hide FmtTime, AfterInterval, Due;
  }

  predicate NeverRun(rows: Rows) {
    forall id :: id in rows ==> rows[id].lastRunAt.None?
  }

  /**
   A schedule starts out as never run, and a never-run schedule cannot be read: from an empty table
   no run of the scheduler ever makes a task, although a first run after one interval is promised.
   */
  lemma {:induction false} NothingEverRuns(steps: seq<Step>, k: nat, id: nat)
    requires k < |steps|
    ensures !Serves(Run(map[], steps[..k]), steps[k], id)
  {
    hide FmtTime, AfterInterval, Due;
    StaysNeverRun(steps[..k]);
  }

  lemma {:induction false} StaysNeverRun(steps: seq<Step>)
    ensures NeverRun(Run(map[], steps))
  {
    hide FmtTime, AfterInterval, Due;
    if steps != [] {
      StaysNeverRun(steps[..|steps| - 1]);
    }
  }
}
