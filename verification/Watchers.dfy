/** The watcher table, its event log and the service that decides on alerts (internal/watchers). */
module Watchers {
  import opened Options
  import opened Timestamps

  /** Instants of the server's clock; their texts are read back unchanged. */
  type Clock = t: Time | t.date.year <= 9999 witness Instant(Date(0, 1, 1), 0, 0, 0, 0)

  datatype Name = Name(text: string)

  datatype State = Unknown | OK | Degraded | Down

  /** A row; the columns of time hold text, and the empty text stands for a missing time. */
  datatype Watcher = Watcher(
    id: nat,
    kind: string,
    expectedIntervalS: int,
    failThreshold: int,
    state: State,
    lastCheckAt: string,
    lastOkAt: string,
    lastMessage: string,
    consecutiveFails: nat,
    details: string,
    createdAt: string,
    updatedAt: string)

  datatype Event = Event(watcher: nat, state: State, message: string, timestamp: string)

  datatype Db = Db(rows: map<Name, Watcher>, events: seq<Event>, nextId: nat)

  datatype Error = NotFound | Storage

  datatype Request = Request(state: State, message: string, details: Option<string>, threshold: Option<int>)

  /** What Store.CheckIn hands to the service. */
  datatype CheckInResult = CheckInResult(watcher: Watcher, previous: State)

  datatype Alert = WentDown(name: Name, message: string) | Recovered(name: Name)

  // ---------- What each call does to the tables ----------

  function NewWatcher(id: nat, kind: string, interval: int, threshold: int, details: string, now: string): Watcher {
    Watcher(id, kind, interval, threshold, Unknown, "", "", "", 0, details, now, now)
  }

  function RegisterEffect(db: Db, name: Name, kind: string, interval: int, threshold: int, details: string,
                          now: Clock, commits: bool): Db {
    var kind' := if kind == "" then "custom" else kind;
    var interval' := if interval <= 0 then 60 else interval;
    if !commits then db
    else if name in db.rows then
      db.(rows := db.rows[name := db.rows[name].(
        kind := kind', expectedIntervalS := interval', failThreshold := threshold, updatedAt := FmtTime(now))])
    else
      db.(rows := db.rows[name := NewWatcher(db.nextId, kind', interval', threshold, details, FmtTime(now))],
          nextId := db.nextId + 1)
  }

  function TimeText(t: Option<Instant>): string
    requires t.Some? ==> t.value.Valid()
  {
    if t.Some? then FmtTime(t.value) else ""
  }

  /** The row after a check-in; the time of the last ok is parsed and printed again when it is kept. */
  function CheckedIn(row: Watcher, r: Request, now: Clock): Watcher {
    row.(state := r.state,
         lastCheckAt := FmtTime(now),
         lastOkAt := TimeText(if r.state == OK then Some(now) else ParseTime(row.lastOkAt)),
         lastMessage := r.message,
         consecutiveFails := if r.state == OK then 0 else row.consecutiveFails + 1,
         details := if r.details.Some? then r.details.value else row.details,
         failThreshold := if r.threshold.Some? then r.threshold.value else row.failThreshold,
         updatedAt := FmtTime(now))
  }

  function InitialRow(db: Db, name: Name, r: Request, now: Clock): Watcher {
    if name in db.rows then db.rows[name]
    else NewWatcher(db.nextId, "custom", 60, if r.threshold.Some? then r.threshold.value else 0, "{}", FmtTime(now))
  }

  function CheckInEffect(db: Db, name: Name, r: Request, now: Clock, commits: bool): Db {
    if !commits then db
    else
      var row := InitialRow(db, name, r, now);
      Db(db.rows[name := CheckedIn(row, r, now)],
         db.events + [Event(row.id, r.state, r.message, FmtTime(now))],
         if name in db.rows then db.nextId else db.nextId + 1)
  }

  function PreviousState(db: Db, name: Name): State {
    if name in db.rows then db.rows[name].state else Unknown
  }

  // ---------- The alert decision ----------

  function Effective(serviceThreshold: int, row: Watcher): int {
    if row.failThreshold > 0 then row.failThreshold else serviceThreshold
  }

  function Decision(serviceThreshold: int, name: Name, r: Request, row: Watcher, previous: State): seq<Alert> {
    if r.state == Down && row.consecutiveFails == Effective(serviceThreshold, row) then [WentDown(name, r.message)]
    else if r.state == OK && previous == Down then [Recovered(name)]
    else []
  }

  /** A check-in that is served with no other call on the watcher in between. */
  function ServeEffect(db: Db, serviceThreshold: int, name: Name, r: Request, now: Clock, commits: bool, rereads: bool)
    : (Db, seq<Alert>)
  {
    var db' := CheckInEffect(db, name, r, now, commits);
    (db', if commits && rereads
          then Decision(serviceThreshold, name, r, db'.rows[name], PreviousState(db, name)) else [])
  }

  class Store {
    var rows: map<Name, Watcher>
    var events: seq<Event>
    var nextId: nat

    ghost function Contents(): Db
      reads this
    {
      Db(rows, events, nextId)
    }

    constructor ()
      ensures Contents() == Db(map[], [], 1)
    {
      rows, events, nextId := map[], [], 1;
    }

    /** rereads tells whether reading the row back after the commit works. */
    method Register(name: Name, kind: string, interval: int, threshold: int, details: string, now: Clock, commits: bool,
                    rereads: bool)
      returns (r: Result<Watcher, Error>)
      modifies this
      ensures Contents() == RegisterEffect(old(Contents()), name, kind, interval, threshold, details, now, commits)
      ensures r == if commits && rereads then Ok(rows[name]) else Err(Storage)
    {
      hide FmtTime, ParseTime;
      var kind', interval' := kind, interval;
      if kind' == "" {
        kind' := "custom";
      }
      if interval' <= 0 {
        interval' := 60;
      }
      if !commits {
        return Err(Storage);
      }
      var nowText := FmtTime(now);
      if name in rows {
        var row := rows[name].(kind := kind', expectedIntervalS := interval');
        rows := rows[name := row.(failThreshold := threshold, updatedAt := nowText)];
      } else {
        rows := rows[name := NewWatcher(nextId, kind', interval', threshold, details, nowText)];
        nextId := nextId + 1;
      }
      if !rereads {
        return Err(Storage);
      }
      r := Get(name);
    }

    method Get(name: Name) returns (r: Result<Watcher, Error>)
      ensures r == if name in rows then Ok(rows[name]) else Err(NotFound)
    {
      if name in rows {
        return Ok(rows[name]);
      }
      return Err(NotFound);
    }

    /** The row a check-in starts from, inserted first if the name is new. */
    method FindOrInsert(name: Name, req: Request, now: Clock) returns (existing: Watcher, previous: State)
      modifies this`rows, this`nextId
      ensures existing == InitialRow(old(Contents()), name, req, now) && rows == old(rows)[name := existing]
      ensures previous == PreviousState(old(Contents()), name)
      ensures nextId == if name in old(rows) then old(nextId) else old(nextId) + 1
    {
      hide FmtTime, ParseTime;
      previous := Unknown;
      if name !in rows {
        var initialThreshold := 0;
        if req.threshold.Some? {
          initialThreshold := req.threshold.value;
        }
        rows := rows[name := NewWatcher(nextId, "custom", 60, initialThreshold, "{}", FmtTime(now))];
        nextId := nextId + 1;
      } else {
        previous := rows[name].state;
      }
      existing := rows[name];
    }

    /** The columns a check-in writes. */
    method RowAfter(existing: Watcher, req: Request, now: Clock) returns (row: Watcher)
      ensures row == CheckedIn(existing, req, now)
    {
      hide FmtTime, ParseTime;
      var nowText := FmtTime(now);
      var consecutiveFails := existing.consecutiveFails;
      if req.state == OK {
        consecutiveFails := 0;
      } else {
        consecutiveFails := consecutiveFails + 1;
      }
      var details := existing.details;
      if req.details.Some? {
        details := req.details.value;
      }
      var lastOkAt := ParseTime(existing.lastOkAt);
      if req.state == OK {
        lastOkAt := Some(now);
      }
      var lastOkText := "";
      if lastOkAt.Some? {
        lastOkText := FmtTime(lastOkAt.value);
      }
      var threshold := existing.failThreshold;
      if req.threshold.Some? {
        threshold := req.threshold.value;
      }

      row := existing.(state := req.state, lastCheckAt := nowText, lastOkAt := lastOkText);
      row := row.(lastMessage := req.message, consecutiveFails := consecutiveFails, details := details);
      row := row.(failThreshold := threshold, updatedAt := nowText);
    }

    /** rereads tells whether reading the row again after the commit works. */
    method CheckIn(name: Name, req: Request, now: Clock, commits: bool, rereads: bool)
      returns (r: Result<CheckInResult, Error>)
      modifies this
      ensures Contents() == CheckInEffect(old(Contents()), name, req, now, commits)
      ensures r == if commits && rereads
                   then Ok(CheckInResult(rows[name], PreviousState(old(Contents()), name))) else Err(Storage)
    {
      hide FmtTime, ParseTime;
      if !commits {
        return Err(Storage);
      }
      var nowText := FmtTime(now);
      var existing, previous := FindOrInsert(name, req, now);

      var row := RowAfter(existing, req, now);
      rows := rows[name := row];
      events := events + [Event(existing.id, req.state, req.message, nowText)];
      if !rereads {
        return Err(Storage);
      }
      return Ok(CheckInResult(rows[name], previous));
    }
  }

  class Service {
    const store: Store
    const failThreshold: int
    var alerts: seq<Alert>

    constructor (store: Store, failThreshold: int)
      ensures this.store == store && alerts == []
      ensures this.failThreshold == if failThreshold <= 0 then 2 else failThreshold
    {
      this.store := store;
      this.failThreshold := if failThreshold <= 0 then 2 else failThreshold;
      alerts := [];
    }

    method CheckIn(name: Name, req: Request, now: Clock, commits: bool, rereads: bool)
      modifies this, store
      ensures var (db, more) := ServeEffect(old(store.Contents()), failThreshold, name, req, now, commits, rereads);
              store.Contents() == db && alerts == old(alerts) + more
    {
      hide CheckInEffect;
      var r := store.CheckIn(name, req, now, commits, rereads);
      if r.Err? {
        return;
      }
      var w := r.value.watcher;
      var effectiveThreshold := failThreshold;
      if w.failThreshold > 0 {
        effectiveThreshold := w.failThreshold;
      }
      if req.state == Down && w.consecutiveFails == effectiveThreshold {
        alerts := alerts + [WentDown(name, req.message)];
      } else if req.state == OK && r.value.previous == Down {
        alerts := alerts + [Recovered(name)];
      }
    }
  }
}
