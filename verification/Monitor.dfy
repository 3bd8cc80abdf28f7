/** When a task is stuck (internal/tasks/model.go) and the sweep that alerts on it (internal/health). */
module Health {
  import opened Durations
  import opened Options
  import opened Tasks

  /** The duration between two instants, saturating at the 64-bit bounds. */
  function Sub(now: Time, last: Time): int {
    var d := now - last;
    if d < -TWO_63 then -TWO_63 else if d >= TWO_63 then TWO_63 - 1 else d
  }

  /** The latest sign of life of a task. */
  function LastSeen(t: Task): Time {
    if t.lastHeartbeatAt.Some? then t.lastHeartbeatAt.value
    else if t.startedAt.Some? then t.startedAt.value
    else t.createdAt
  }

  predicate Stuck(t: Task, now: Time, n: int) {
    if t.status != Running || t.expectedHeartbeatS <= 0 then false
    else Sub(now, LastSeen(t)) > Wrap64(Wrap64(n * t.expectedHeartbeatS) * SECOND)
  }

  /** As long as the threshold fits 64 bits of nanoseconds, stuck means silent for longer than n intervals. */
  lemma StuckMeansSilent(t: Task, now: Time, n: int)
    requires 0 <= n * t.expectedHeartbeatS <= MAX_SECONDS
    ensures Stuck(t, now, n) <==>
            t.status == Running && t.expectedHeartbeatS > 0
            && now - LastSeen(t) > n * t.expectedHeartbeatS * SECOND
  {
  }

  /**
   That bound is exact: beyond it the product overflows, and there is an instant at which the task
   counts as stuck too early. Right behind the bound it does so the moment it is seen.
   */
  lemma OverflowedThreshold(t: Task, n: int)
    requires t.status == Running && t.expectedHeartbeatS > 0 && n >= 0
    ensures (forall now :: Stuck(t, now, n) <==> now - LastSeen(t) > n * t.expectedHeartbeatS * SECOND)
            <==> n * t.expectedHeartbeatS <= MAX_SECONDS
    ensures n * t.expectedHeartbeatS == MAX_SECONDS + 1 ==> Stuck(t, LastSeen(t), n)
  {
    var seconds := n * t.expectedHeartbeatS;
    if seconds > MAX_SECONDS {
      WrappedSeconds(Wrap64(seconds));
      assert Stuck(t, LastSeen(t) + TWO_63 - 1, n);
    } else {
      assert seconds >= 0;
      forall now
        ensures Stuck(t, now, n) <==> now - LastSeen(t) > seconds * SECOND
      {
        StuckMeansSilent(t, now, n);
      }
    }
  }

  // ---------- One sweep ----------

  datatype Alert = Alert(id: Id, at: Time)

  function StuckIds(rows: seq<Task>, now: Time, n: int): set<Id> {
    set t | t in rows && Stuck(t, now, n) :: t.id
  }

  /** The alerts of a sweep: the stuck rows in listing order, except those alerted already. */
  function NewAlerts(alerted: set<Id>, rows: seq<Task>, now: Time, n: int): seq<Alert> {
    if rows == [] then []
    else
      var front, t := rows[..|rows| - 1], rows[|rows| - 1];
      NewAlerts(alerted, front, now, n) +
      (if Stuck(t, now, n) && t.id !in alerted && t.id !in StuckIds(front, now, n) then [Alert(t.id, now)] else [])
  }

  /** What one more row adds to a sweep. */
  lemma SweepOneMore(alerted: set<Id>, rows: seq<Task>, i: nat, now: Time, n: int)
    requires i < |rows|
    ensures StuckIds(rows[..i + 1], now, n)
         == StuckIds(rows[..i], now, n) + (if Stuck(rows[i], now, n) then {rows[i].id} else {})
    ensures NewAlerts(alerted, rows[..i + 1], now, n)
         == NewAlerts(alerted, rows[..i], now, n) +
            (if Stuck(rows[i], now, n) && rows[i].id !in alerted && rows[i].id !in StuckIds(rows[..i], now, n)
             then [Alert(rows[i].id, now)] else [])
  {
    assert rows[..i + 1][..i] == rows[..i];
    assert rows[..i + 1] == rows[..i] + [rows[i]];
  }

  class Monitor {
    const multiplier: int
    var alerted: map<Id, bool>
    var alerts: seq<Alert>

    predicate Valid()
      reads this
    {
      forall id :: id in alerted ==> alerted[id]
    }

    constructor (stuckMultiplier: int)
      ensures Valid() && alerted == map[] && alerts == []
      ensures multiplier == if stuckMultiplier <= 0 then 3 else stuckMultiplier
    {
      multiplier := if stuckMultiplier <= 0 then 3 else stuckMultiplier;
      alerted, alerts := map[], [];
    }

    /** One tick: running is what listing the running tasks gave, or None if that failed. */
    method Sweep(running: Option<seq<Task>>, now: Time)
      requires Valid()
      modifies this
      ensures Valid()
      ensures running.None? ==> alerted == old(alerted) && alerts == old(alerts)
      ensures running.Some? ==> alerted.Keys == StuckIds(running.value, now, multiplier)
      ensures running.Some? ==>
                alerts == old(alerts) + NewAlerts(old(alerted).Keys, running.value, now, multiplier)
    {
      if running.None? {
        return;
      }
      var stillStuck := RaiseAll(running.value, now);
      ClearRecovered(stillStuck);
    }

    /** The loop over the rows; collects the ids that are stuck now. */
    method RaiseAll(rows: seq<Task>, now: Time) returns (stillStuck: map<Id, bool>)
      requires Valid()
      modifies this
      ensures Valid() && stillStuck.Keys == StuckIds(rows, now, multiplier)
      ensures stillStuck.Keys <= alerted.Keys
      ensures alerts == old(alerts) + NewAlerts(old(alerted).Keys, rows, now, multiplier)
    {
      stillStuck := map[];
      ghost var before := alerted.Keys;
      for i := 0 to |rows|
        invariant Valid()
        invariant forall id :: id in stillStuck <==> id in StuckIds(rows[..i], now, multiplier)
        invariant forall id :: id in alerted <==> id in before || id in stillStuck
        invariant alerts == old(alerts) + NewAlerts(before, rows[..i], now, multiplier)
      {
        SweepOneMore(before, rows, i, now, multiplier);
        if Stuck(rows[i], now, multiplier) {
          stillStuck := stillStuck[rows[i].id := true];
          Raise(rows[i].id, now);
        }
      }
      assert rows[..|rows|] == rows;
    }

    /** Alerts on a stuck task unless that was done for the current episode. */
    method Raise(id: Id, now: Time)
      requires Valid()
      modifies this
      ensures Valid() && alerted == old(alerted)[id := true]
      ensures alerts == old(alerts) + (if id in old(alerted) then [] else [Alert(id, now)])
    {
      var already := id in alerted && alerted[id];
      alerted := alerted[id := true];
      if already {
        return;
      }
      alerts := alerts + [Alert(id, now)];
    }

    /** Forgets every alerted task that is no longer stuck. */
    method ClearRecovered(stillStuck: map<Id, bool>)
      requires Valid() && stillStuck.Keys <= alerted.Keys
      modifies this`alerted
      ensures Valid() && alerted.Keys == stillStuck.Keys
    {
      var ids := alerted.Keys;
      while ids != {}
        invariant forall id :: id in alerted ==> alerted[id]
        invariant forall id :: id in alerted <==> id in stillStuck || id in ids
        decreases |ids|
      {
        var id :| id in ids;
        ids := ids - {id};
        if id !in stillStuck {
          alerted := alerted - {id};
        }
      }
    }
  }
}
