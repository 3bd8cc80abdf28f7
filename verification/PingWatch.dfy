/** The local debounce loop of scripts/ping-watch.sh, over any finite number of its rounds. */
module PingWatch {
  import opened Options

  /** One round: whether the ping was answered, and the time in seconds that the round reads. */
  datatype Ping = Ping(ok: bool, at: int)

  datatype Status = Unset | Up | Down

  datatype Message = Reachable(downFor: Option<int>) | Unreachable(failures: nat)

  /** A change of the latched status in the round of the given number, and what it reports. */
  datatype Flip = Flip(round: nat, message: Message)

  datatype Loop = Loop(
    last: Status, okRun: nat, downRun: nat, downSince: Option<int>, flips: seq<Flip>, notes: seq<Message>)

  /** One round of the loop. */
  function Round(l: Loop, p: Ping, round: nat, up: int, down: int): Loop {
    if p.ok then
      var okRun := l.okRun + 1;
      if l.last != Up && okRun >= up then
        var message := Reachable(if l.downSince.Some? then Some(p.at - l.downSince.value) else None);
        Loop(Up, okRun, 0, None, l.flips + [Flip(round, message)],
             l.notes + (if l.last != Unset then [message] else []))
      else l.(okRun := okRun, downRun := 0)
    else
      var downRun := l.downRun + 1;
      var downSince := if l.downSince.None? then Some(p.at) else l.downSince;
      if l.last != Down && downRun >= down then
        var message := Unreachable(downRun);
        Loop(Down, 0, downRun, downSince, l.flips + [Flip(round, message)],
             l.notes + (if l.last != Unset then [message] else []))
      else l.(okRun := 0, downRun := downRun, downSince := downSince)
  }

  function Watch(pings: seq<Ping>, up: int, down: int): Loop {
    if pings == [] then Loop(Unset, 0, 0, None, [], [])
    else Round(Watch(pings[..|pings| - 1], up, down), pings[|pings| - 1], |pings| - 1, up, down)
  }

  /** The script's loop; updates are its task updates and notes its calls of notify.sh. */
  method Run(pings: seq<Ping>, up: int, down: int)
    returns (last: Status, downSince: Option<int>, updates: seq<Flip>, notes: seq<Message>)
    ensures var l := Watch(pings, up, down);
            last == l.last && downSince == l.downSince && updates == l.flips && notes == l.notes
  {
    last, downSince, updates, notes := Unset, None, [], [];
    var consecutiveOk, consecutiveDown := 0, 0;
    for i := 0 to |pings|
      invariant Loop(last, consecutiveOk, consecutiveDown, downSince, updates, notes) == Watch(pings[..i], up, down)
    {
      var p := pings[i];
      assert pings[..i + 1][..i] == pings[..i];
      if p.ok {
        consecutiveOk := consecutiveOk + 1;
        consecutiveDown := 0;
        if last != Up && consecutiveOk >= up {
          var message := Reachable(None);
          if downSince.Some? {
            message := Reachable(Some(p.at - downSince.value));
          }
          updates := updates + [Flip(i, message)];
          if last != Unset {
            notes := notes + [message];
          }
          last := Up;
          downSince := None;
        }
      } else {
        consecutiveDown := consecutiveDown + 1;
        consecutiveOk := 0;
        if downSince.None? {
          downSince := Some(p.at);
        }
        if last != Down && consecutiveDown >= down {
          updates := updates + [Flip(i, Unreachable(consecutiveDown))];
          if last != Unset {
            notes := notes + [Unreachable(consecutiveDown)];
          }
          last := Down;
        }
      }
    }
    assert pings[..|pings|] == pings;
  }

  // ---------- Counters and the latched status ----------

  /** A threshold below one acts like one, since the counter it is compared with is at least one. */
  function AtLeastOne(threshold: int): nat {
    if threshold < 1 then 1 else threshold
  }

  /** The length of the run of equal results at the end. */
  function Trailing(pings: seq<Ping>, ok: bool): nat {
    if pings == [] || pings[|pings| - 1].ok != ok then 0 else 1 + Trailing(pings[..|pings| - 1], ok)
  }

  /** The kind of the latest run of results that reached its threshold. */
  function LatestReached(pings: seq<Ping>, up: int, down: int): Status {
    if Trailing(pings, true) >= AtLeastOne(up) then Up
    else if Trailing(pings, false) >= AtLeastOne(down) then Down
    else if pings == [] then Unset
    else LatestReached(pings[..|pings| - 1], up, down)
  }

  lemma {:induction false} CountersAndStatus(pings: seq<Ping>, up: int, down: int)
    ensures var l := Watch(pings, up, down);
            && l.okRun == Trailing(pings, true) && l.downRun == Trailing(pings, false)
            && l.last == LatestReached(pings, up, down)
  {
    if pings != [] {
      CountersAndStatus(pings[..|pings| - 1], up, down);
    }
  }

  // ---------- How often it can flip ----------

  function Count(flips: seq<Flip>, up: bool): nat {
    if flips == [] then 0
    else Count(flips[..|flips| - 1], up) + (if flips[|flips| - 1].message.Reachable? == up then 1 else 0)
  }

  lemma CountAppend(flips: seq<Flip>, f: Flip, up: bool)
    ensures Count(flips + [f], up) == Count(flips, up) + (if f.message.Reachable? == up then 1 else 0)
  {
    assert (flips + [f])[..|flips|] == flips;
  }

  /** The rounds that already count towards the next flip. */
  function Progress(l: Loop): nat {
    match l.last
    case Unset => l.okRun + l.downRun
    case Up => l.downRun
    case Down => l.okRun
  }

  /** n rounds have paid for all flips, each with as many pings as its threshold, and for the progress. */
  predicate Paid(l: Loop, n: nat, up: int, down: int) {
    && Count(l.flips, true) * AtLeastOne(up) + Count(l.flips, false) * AtLeastOne(down) + Progress(l) <= n
    && (l.last != Up ==> l.okRun < AtLeastOne(up)) && (l.last != Down ==> l.downRun < AtLeastOne(down))
    && (l.okRun == 0 || l.downRun == 0)
  }

  lemma OneMoreFlip(flips: seq<Flip>, f: Flip, up: int, down: int)
    ensures Count(flips + [f], true) * AtLeastOne(up) + Count(flips + [f], false) * AtLeastOne(down)
         == Count(flips, true) * AtLeastOne(up) + Count(flips, false) * AtLeastOne(down)
            + (if f.message.Reachable? then AtLeastOne(up) else AtLeastOne(down))
  {
    hide AtLeastOne;
    CountAppend(flips, f, true);
    CountAppend(flips, f, false);
    var u, d := AtLeastOne(up), AtLeastOne(down);
    assert (Count(flips, true) + 1) * u == Count(flips, true) * u + u;
    assert (Count(flips, false) + 1) * d == Count(flips, false) * d + d;
  }

  lemma RoundPaid(l: Loop, p: Ping, n: nat, up: int, down: int)
    requires Paid(l, n, up, down)
    ensures Paid(Round(l, p, n, up, down), n + 1, up, down)
  {
    hide Count;
    var l' := Round(l, p, n, up, down);
    if l'.flips != l.flips {
      OneMoreFlip(l.flips, l'.flips[|l.flips|], up, down);
    }
  }

  lemma {:induction false} FlipsPaidFor(pings: seq<Ping>, up: int, down: int)
    ensures Paid(Watch(pings, up, down), |pings|, up, down)
  {
    hide Round, Paid;
    if pings == [] {
      assert Paid(Loop(Unset, 0, 0, None, [], []), 0, up, down) by { NothingPaid(up, down); }
    } else {
      FlipsPaidFor(pings[..|pings| - 1], up, down);
      RoundPaid(Watch(pings[..|pings| - 1], up, down), pings[|pings| - 1], |pings| - 1, up, down);
    }
  }

  lemma NothingPaid(up: int, down: int)
    ensures Paid(Loop(Unset, 0, 0, None, [], []), 0, up, down)
  {
  }

  /** Every flip up uses up its own successful pings and every flip down its own failed ones. */
  lemma FlipBound(pings: seq<Ping>, up: int, down: int)
    ensures var flips := Watch(pings, up, down).flips;
            Count(flips, true) * AtLeastOne(up) + Count(flips, false) * AtLeastOne(down) <= |pings|
  {
    FlipsPaidFor(pings, up, down);
  }

  // ---------- Alternation ----------

  predicate Alternate(flips: seq<Flip>) {
    forall i :: 1 <= i < |flips| ==> flips[i].message.Reachable? != flips[i - 1].message.Reachable?
  }

  function Messages(flips: seq<Flip>): (m: seq<Message>)
    ensures |m| == |flips|
  {
    seq(|flips|, i requires 0 <= i < |flips| => flips[i].message)
  }

  /**
   Flips alternate between reachable and unreachable, the notifications are the messages of all
   flips but the first, which only sets the baseline, and every report of unreachability tells of
   exactly as many failures as the threshold asks for.
   */
  predicate Orderly(l: Loop, down: int) {
    && Alternate(l.flips)
    && l.notes == (if l.flips == [] then [] else Messages(l.flips)[1..])
    && (l.last == Unset <==> l.flips == [])
    && (l.flips != [] ==> (l.last == Up <==> l.flips[|l.flips| - 1].message.Reachable?))
    && (forall i :: 0 <= i < |l.flips| && l.flips[i].message.Unreachable? ==>
          l.flips[i].message.failures == AtLeastOne(down))
  }

  lemma RoundOrderly(l: Loop, p: Ping, n: nat, up: int, down: int)
    requires Orderly(l, down) && (l.last != Down ==> l.downRun < AtLeastOne(down))
    ensures Orderly(Round(l, p, n, up, down), down)
  {
    var l' := Round(l, p, n, up, down);
    if l'.flips != l.flips {
      assert Messages(l'.flips) == Messages(l.flips) + [l'.flips[|l.flips|].message];
    }
  }

  lemma {:induction false} NotesAlternate(pings: seq<Ping>, up: int, down: int)
    ensures Orderly(Watch(pings, up, down), down)
  {
    hide Round, Orderly, Count, Progress;
    if pings == [] {
      assert Orderly(Loop(Unset, 0, 0, None, [], []), down) by { NothingNoted(down); }
    } else {
      var front := pings[..|pings| - 1];
      NotesAlternate(front, up, down);
      FlipsPaidFor(front, up, down);
      RoundOrderly(Watch(front, up, down), pings[|pings| - 1], |front|, up, down);
    }
  }

  lemma NothingNoted(down: int)
    ensures Orderly(Loop(Unset, 0, 0, None, [], []), down)
  {
  }

  // ---------- The reported downtime ----------

  /** The first round after the latest flip up, or the very first one. */
  function SinceUp(flips: seq<Flip>): nat {
    if flips == [] then 0
    else if flips[|flips| - 1].message.Reachable? then flips[|flips| - 1].round + 1
    else SinceUp(flips[..|flips| - 1])
  }

  /** The first failed ping from a round on, or the number of pings if there is none. */
  function FirstFailure(pings: seq<Ping>, from: nat): (i: nat)
    requires from <= |pings|
    ensures from <= i <= |pings| && (i < |pings| ==> !pings[i].ok)
    ensures forall k :: from <= k < i ==> pings[k].ok
    decreases |pings| - from
  {
    if from == |pings| || !pings[from].ok then from else FirstFailure(pings, from + 1)
  }

  lemma {:induction false} FirstFailureStable(front: seq<Ping>, p: Ping, from: nat)
    requires from <= |front|
    ensures FirstFailure(front + [p], from)
         == if FirstFailure(front, from) == |front| && p.ok then |front| + 1 else FirstFailure(front, from)
    decreases |front| - from
  {
    if from < |front| {
      assert (front + [p])[from] == front[from];
      if front[from].ok {
        FirstFailureStable(front, p, from + 1);
      }
    } else {
      assert (front + [p])[from] == p;
    }
  }

  lemma SinceUpAppend(flips: seq<Flip>, f: Flip)
    ensures SinceUp(flips + [f]) == if f.message.Reachable? then f.round + 1 else SinceUp(flips)
  {
    assert (flips + [f])[..|flips|] == flips;
  }

  /** down_since is the time of the first failed ping since the latest flip up, or since the start. */
  predicate SinceFirstFailure(l: Loop, pings: seq<Ping>) {
    && SinceUp(l.flips) <= |pings|
    && var f := FirstFailure(pings, SinceUp(l.flips));
       l.downSince == if f < |pings| then Some(pings[f].at) else None
  }

  lemma RoundSince(l: Loop, front: seq<Ping>, p: Ping, up: int, down: int)
    requires SinceFirstFailure(l, front)
    ensures SinceFirstFailure(Round(l, p, |front|, up, down), front + [p])
  {
    hide FirstFailure, SinceUp;
    var l' := Round(l, p, |front|, up, down);
    FirstFailureStable(front, p, SinceUp(l.flips));
    if l'.flips != l.flips {
      SinceUpAppend(l.flips, l'.flips[|l.flips|]);
    }
    FirstFailureAtEnd(front + [p]);
  }

  lemma FirstFailureAtEnd(pings: seq<Ping>)
    ensures FirstFailure(pings, |pings|) == |pings|
  {
  }

  lemma {:induction false} DownSince(pings: seq<Ping>, up: int, down: int)
    ensures SinceFirstFailure(Watch(pings, up, down), pings)
  {
    hide Round;
    if pings != [] {
      var front, p := pings[..|pings| - 1], pings[|pings| - 1];
      DownSince(front, up, down);
      RoundSince(Watch(front, up, down), front, p, up, down);
      assert pings == front + [p];
    }
  }

  /** A round appends at most one flip, with its own number. */
  lemma RoundAppends(l: Loop, p: Ping, n: nat, up: int, down: int)
    ensures var l' := Round(l, p, n, up, down);
            || l'.flips == l.flips
            || (|l'.flips| == |l.flips| + 1 && l'.flips[..|l.flips|] == l.flips && l'.flips[|l.flips|].round == n)
  {
  }

  /** The pings before a flip, and the loop as it stood then. */
  lemma {:induction false} FlipHistory(pings: seq<Ping>, up: int, down: int, j: nat)
    requires j < |Watch(pings, up, down).flips|
    ensures var flips := Watch(pings, up, down).flips;
            && flips[j].round < |pings|
            && Watch(pings[..flips[j].round], up, down).flips == flips[..j]
            && Watch(pings[..flips[j].round + 1], up, down).flips == flips[..j + 1]
  {
    var front := pings[..|pings| - 1];
    var l, l' := Watch(front, up, down), Watch(pings, up, down);
    RoundAppends(l, pings[|pings| - 1], |front|, up, down);
    hide Round, Watch;
    if j < |l.flips| {
      FlipHistory(front, up, down, j);
      var r := l.flips[j].round;
      assert front[..r] == pings[..r] && front[..r + 1] == pings[..r + 1];
      assert l'.flips[..j] == l.flips[..j] && l'.flips[..j + 1] == l.flips[..j + 1];
    } else {
      assert pings[..|pings| - 1 + 1] == pings;
      assert l'.flips[..j] == l.flips && l'.flips[..j + 1] == l'.flips;
    }
  }

  lemma {:induction false} TrailingMeans(pings: seq<Ping>, ok: bool)
    ensures Trailing(pings, ok) <= |pings|
    ensures forall k :: |pings| - Trailing(pings, ok) <= k < |pings| ==> pings[k].ok == ok
  {
    if pings != [] && pings[|pings| - 1].ok == ok {
      TrailingMeans(pings[..|pings| - 1], ok);
    }
  }

  /** A flip down is caused by a run of failed pings that ends with it and is as long as the threshold. */
  lemma DownFlipCause(pings: seq<Ping>, up: int, down: int, j: nat)
    requires j < |Watch(pings, up, down).flips| && Watch(pings, up, down).flips[j].message.Unreachable?
    ensures var flips := Watch(pings, up, down).flips;
            var start := flips[j].round + 1 - AtLeastOne(down);
            && SinceUp(flips[..j]) <= start && flips[j].round < |pings|
            && (forall k :: start <= k <= flips[j].round ==> !pings[k].ok)
  {
    var flips := Watch(pings, up, down).flips;
    FlipHistory(pings, up, down, j);
    NotesAlternate(pings, up, down);
    var r := flips[j].round;
    var before, after := Watch(pings[..r], up, down), Watch(pings[..r + 1], up, down);
    assert pings[..r + 1][..r] == pings[..r];
    assert after == Round(before, pings[r], r, up, down);
    assert flips[..j + 1] == flips[..j] + [flips[j]];
    CountersAndStatus(pings[..r + 1], up, down);
    TrailingMeans(pings[..r + 1], false);
    var start := r + 1 - AtLeastOne(down);
    assert after.downRun == AtLeastOne(down);
    forall k | start <= k <= r ensures !pings[k].ok {
      assert pings[..r + 1][k] == pings[k];
    }
    UpFlipsBeforeRun(pings[..r], up, down);
  }

  /** The latest flip up lies before the run of failures at the end. */
  lemma {:induction false} UpFlipsBeforeRun(pings: seq<Ping>, up: int, down: int)
    ensures SinceUp(Watch(pings, up, down).flips) + Watch(pings, up, down).downRun <= |pings|
  {
    if pings != [] {
      UpFlipsBeforeRun(pings[..|pings| - 1], up, down);
      var l, l' := Watch(pings[..|pings| - 1], up, down), Watch(pings, up, down);
      if l'.flips != l.flips {
        SinceUpAppend(l.flips, l'.flips[|l.flips|]);
      }
    }
  }

  predicate ClockForward(pings: seq<Ping>) {
    forall i, j :: 0 <= i < j < |pings| ==> pings[i].at <= pings[j].at
  }

  /**
   A recovery reports the time since the first failed ping after the previous flip up. That is
   never less than the time since the run of failures which caused the down flip began, and it is
   the time since the start of that run whenever no ping failed between the previous flip up and
   the run; a ping that failed there, too short for a flip, is counted in.
   */
  lemma ReportedDowntime(pings: seq<Ping>, up: int, down: int, j: nat) returns (first: nat)
    requires ClockForward(pings)
    requires 1 <= j < |Watch(pings, up, down).flips| && Watch(pings, up, down).flips[j].message.Reachable?
    ensures var flips := Watch(pings, up, down).flips;
            var start := flips[j - 1].round + 1 - AtLeastOne(down);
            && SinceUp(flips[..j]) <= first <= start < |pings| && flips[j].round < |pings| && !pings[first].ok
            && flips[j].message == Reachable(Some(pings[flips[j].round].at - pings[first].at))
            && flips[j].message.downFor.value >= pings[flips[j].round].at - pings[start].at
            && (first == start <==> forall k :: SinceUp(flips[..j]) <= k < start ==> pings[k].ok)
  {
    hide Watch, Round, Messages;
    var flips := Watch(pings, up, down).flips;
    NotesAlternate(pings, up, down);
    FlipHistory(pings, up, down, j);
    DownFlipCause(pings, up, down, j - 1);
    FlipsInOrder(pings, up, down, j);
    assert flips[..j] == flips[..j - 1] + [flips[j - 1]];
    SinceUpAppend(flips[..j - 1], flips[j - 1]);
    var r, from := flips[j].round, SinceUp(flips[..j]);
    var start := flips[j - 1].round + 1 - AtLeastOne(down);
    UpMessage(pings, up, down, j);
    first := FirstFailure(pings[..r], from);
    assert pings[..r][start] == pings[start];
    forall k | from <= k < first ensures pings[k].ok {
      assert pings[..r][k] == pings[k];
    }
  }

  /** What a flip up reports. */
  lemma UpMessage(pings: seq<Ping>, up: int, down: int, j: nat)
    requires j < |Watch(pings, up, down).flips| && Watch(pings, up, down).flips[j].message.Reachable?
    ensures var flips := Watch(pings, up, down).flips;
            && flips[j].round < |pings| && SinceUp(flips[..j]) <= flips[j].round
            && var f := FirstFailure(pings[..flips[j].round], SinceUp(flips[..j]));
               flips[j].message
                == Reachable(if f < flips[j].round then Some(pings[flips[j].round].at - pings[f].at) else None)
  {
    hide FirstFailure, Watch, Round, SinceUp;
    var flips := Watch(pings, up, down).flips;
    FlipHistory(pings, up, down, j);
    var r := flips[j].round;
    DownSince(pings[..r], up, down);
    WatchOneMore(pings, r, up, down);
    RoundMessage(Watch(pings[..r], up, down), pings[r], r, up, down);
    assert flips[..j + 1] == flips[..j] + [flips[j]];
  }

  lemma WatchOneMore(pings: seq<Ping>, r: nat, up: int, down: int)
    requires r < |pings|
    ensures Watch(pings[..r + 1], up, down) == Round(Watch(pings[..r], up, down), pings[r], r, up, down)
  {
    hide Round;
    assert pings[..r + 1][..r] == pings[..r];
  }

  lemma RoundMessage(l: Loop, p: Ping, n: nat, up: int, down: int)
    ensures var flips := Round(l, p, n, up, down).flips;
            |flips| > |l.flips| && flips[|l.flips|].message.Reachable? ==>
              flips[|l.flips|].message == Reachable(if l.downSince.Some? then Some(p.at - l.downSince.value) else None)
  {
  }

  lemma {:induction false} FlipsInOrder(pings: seq<Ping>, up: int, down: int, j: nat)
    requires 1 <= j < |Watch(pings, up, down).flips|
    ensures Watch(pings, up, down).flips[j - 1].round < Watch(pings, up, down).flips[j].round
  {
    var flips := Watch(pings, up, down).flips;
    FlipHistory(pings, up, down, j);
    var r := flips[j].round;
    assert Watch(pings[..r], up, down).flips == flips[..j];
    FlipHistory(pings[..r], up, down, j - 1);
  }
}
