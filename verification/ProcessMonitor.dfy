/** The monitor that restarts a child process: it gives up after a fatal exit code, and when the last
    three starts lie too close together. */
module ProcessMonitor {
  import opened Bytes

  const HISTORY_SIZE: nat := 3

  /** Clock ticks in a second. */
  const TICKS: nat := 1_000_000_000

  /** What waiting for the child reports. */
  datatype Wait = StillRunning | WaitFailed | Exited(status: int)

  /** One turn of the monitor's loops: the time, whether it has been told to stop before or during the
      turn, what waiting for the child reports, and whether the system can fork. */
  datatype Turn = Turn(at: nat, stop: bool, late: bool, waited: Wait, canFork: bool)

  datatype Entry = Started(at: nat) | Ended(status: int)

  /** What the monitor knows between turns; `begun` once the child has been started for the first time,
      `told` once the monitor has been told to stop. */
  datatype State = State(begun: bool, told: bool, running: bool, child: bool, history: seq<nat>, log: seq<Entry>)

  const INITIAL := State(false, false, true, false, [], [])

  function Remembered(history: seq<nat>, now: nat): seq<nat> {
    (if |history| == HISTORY_SIZE then history[1..] else history) + [now]
  }

  /** Whether the child may be started again after it ended with `status`. */
  predicate MayRestart(fatal: set<int>, minTime: nat, history: seq<nat>, status: int) {
    status !in fatal && (|history| == HISTORY_SIZE ==> history[2] as int - history[0] as int >= minTime * TICKS)
  }

  function AfterStart(s: State, turn: Turn): State {
    if turn.canFork then
      s.(begun := true, child := true, history := Remembered(s.history, turn.at), log := s.log + [Started(turn.at)])
    else s
  }

  function AfterExit(fatal: set<int>, minTime: nat, s: State, turn: Turn, status: int): State {
    var e := s.(child := false, log := s.log + [Ended(status)]);
    if !MayRestart(fatal, minTime, s.history, status) then e.(running := false)
    else if turn.late then e else AfterStart(e, turn)
  }

  /** What one turn does. */
  function AfterTurn(fatal: set<int>, minTime: nat, s: State, turn: Turn): State {
    if s.told || !s.running then s
    else if turn.stop then s.(told := true)
    else if !s.begun then AfterStart(s, turn)
    else if s.child && turn.waited.Exited? then AfterExit(fatal, minTime, s, turn, turn.waited.status)
    else s
  }

  function AfterTurns(fatal: set<int>, minTime: nat, turns: seq<Turn>): State {
    if turns == [] then INITIAL
    else AfterTurn(fatal, minTime, AfterTurns(fatal, minTime, turns[..|turns| - 1]), turns[|turns| - 1])
  }

  /** The times of the starts. */
  function Starts(log: seq<Entry>): seq<nat> {
    if log == [] then []
    else
      var e := log[|log| - 1];
      Starts(log[..|log| - 1]) + if e.Started? then [e.at] else []
  }

  lemma StartsOneMore(log: seq<Entry>, e: Entry)
    ensures Starts(log + [e]) == if e.Started? then Starts(log) + [e.at] else Starts(log)
  {
    assert (log + [e])[..|log|] == log;
  }

  ghost predicate Ascending(ts: seq<nat>) {
    forall i, j :: 0 <= i <= j < |ts| ==> ts[i] <= ts[j]
  }

  /** Two starts in a row are followed by a third and a fourth only after the minimum time. */
  ghost predicate Spaced(ts: seq<nat>, gap: nat) {
    forall i :: 0 <= i && i + HISTORY_SIZE < |ts| ==> ts[i + 2] - ts[i] >= gap
  }

  /** The child has ended for good: with a fatal exit code, or while its last three starts lie less than
      the minimum time apart. */
  ghost predicate EndedForGood(log: seq<Entry>, fatal: set<int>, gap: nat) {
    && |log| > 0 && log[|log| - 1].Ended?
    && var ts := Starts(log);
       log[|log| - 1].status in fatal || (|ts| >= 3 && ts[|ts| - 1] - ts[|ts| - 3] < gap)
  }

  /** No start follows a fatal exit code. */
  ghost predicate StopsAtFatal(log: seq<Entry>, fatal: set<int>) {
    forall i, j :: 0 <= i < j < |log| && log[i].Ended? && log[i].status in fatal ==> !log[j].Started?
  }

  /** The starts from `a` to `b` number at most `2 * (elapsed / gap) + 3`. */
  ghost predicate RateBounded(ts: seq<nat>, gap: nat)
    requires gap > 0
  {
    forall a, b :: 0 <= a < b < |ts| ==> ts[a] <= ts[b] && b - a + 1 <= 2 * ((ts[b] - ts[a]) / gap) + 3
  }

  lemma SpacedOneMore(ts: seq<nat>, gap: nat, now: nat)
    requires Ascending(ts) && Spaced(ts, gap)
    requires |ts| > 0 ==> ts[|ts| - 1] <= now
    requires |ts| >= HISTORY_SIZE ==> ts[|ts| - 1] - ts[|ts| - 3] >= gap
    ensures Ascending(ts + [now]) && Spaced(ts + [now], gap)
  {
  }

  class Monitor {
    const fatal: set<int>
    const minTime: nat
    var running: bool
    var child: bool
    var history: seq<nat>
    ghost var log: seq<Entry>

    ghost predicate Valid()
      reads this
    {
      var ts := Starts(log);
      && Ascending(ts) && Spaced(ts, minTime * TICKS) && StopsAtFatal(log, fatal)
      && history == ts[if |ts| > HISTORY_SIZE then |ts| - HISTORY_SIZE else 0..]
      && (child <==> |log| > 0 && log[|log| - 1].Started?)
      && (running <==> !EndedForGood(log, fatal, minTime * TICKS))
      && (running ==> forall i :: 0 <= i < |log| && log[i].Ended? ==> log[i].status !in fatal)
    }

    constructor (fatal: set<int>, minTime: nat)
      ensures Valid() && this.fatal == fatal && this.minTime == minTime && Is(INITIAL)
    {
      this.fatal, this.minTime := fatal, minTime;
      running, child, history, log := true, false, [], [];
    }

    /** Starts the child and remembers when. */
    method StartProcess(now: nat, canFork: bool)
      requires Valid() && running && !child
      requires |history| > 0 ==> history[|history| - 1] <= now
      requires |history| == HISTORY_SIZE ==> history[2] - history[0] >= minTime * TICKS
      modifies this`child, this`history, this`log
      ensures Valid() && child == canFork
      ensures log == if canFork then old(log) + [Started(now)] else old(log)
      ensures history == if canFork then Remembered(old(history), now) else old(history)
    {
      hide Starts, Ascending, Spaced;
      if canFork {
        StartsOneMore(log, Started(now));
        SpacedOneMore(Starts(log), minTime * TICKS, now);
        child := true;
        history := Remembered(history, now);
        log := log + [Started(now)];
      }
    }

    /** The child has ended: decides whether to start it again. */
    method OnExit(status: int, now: nat, stop: bool, canFork: bool)
      requires Valid() && running && child
      requires |history| > 0 ==> history[|history| - 1] <= now
      modifies this
      ensures Valid() && (running <==> MayRestart(fatal, minTime, old(history), status))
      ensures child == (running && !stop && canFork)
      ensures history == if child then Remembered(old(history), now) else old(history)
      ensures log == old(log) + [Ended(status)] + if child then [Started(now)] else []
    {
      hide Starts, Ascending, Spaced;
      StartsOneMore(log, Ended(status));
      child := false;
      log := log + [Ended(status)];
      var restart := status !in fatal;
      if restart && |history| == HISTORY_SIZE {
        var between := (history[|history| - 1] as int) - (history[0] as int);
        WholeSeconds(between, minTime);
        restart := between / TICKS >= minTime;
      }
      if !restart {
        running := false;
      } else if !stop {
        StartProcess(now, canFork);
      }
    }

    /** The monitor is in state `s`. */
    ghost predicate Is(s: State)
      reads this
    {
      running == s.running && child == s.child && history == s.history && log == s.log
    }

    /** A turn before the child has been started for the first time. */
    method FirstTurn(turn: Turn, ghost s: State)
      requires Valid() && Is(s) && running && !s.told && !s.begun && !child && history == [] && !turn.stop
      modifies this
      ensures Valid() && running && Is(AfterTurn(fatal, minTime, s, turn))
              && AfterTurn(fatal, minTime, s, turn).begun == child
      ensures if child then |history| > 0 && history[|history| - 1] == turn.at else history == []
    {
      hide Ascending, Spaced, StopsAtFatal, Starts;
      StartProcess(turn.at, turn.canFork);
    }

    /** A later turn. */
    method LaterTurn(turn: Turn, ghost s: State)
      requires Valid() && Is(s) && running && !s.told && s.begun && !turn.stop
      requires |history| > 0 ==> history[|history| - 1] <= turn.at
      modifies this
      ensures Valid() && Is(AfterTurn(fatal, minTime, s, turn))
      ensures |history| > 0 ==> history[|history| - 1] <= turn.at
    {
      hide Ascending, Spaced, StopsAtFatal, Starts, MayRestart;
      if child && turn.waited.Exited? {
        OnExit(turn.waited.status, turn.at, turn.late, turn.canFork);
      }
    }

    /** The monitor thread, for any number of turns. It starts the child as soon as the system allows and
        from then on follows the restart policy, so that starts are never too frequent and none follows
        a fatal exit code. */
    method ThreadMain(turns: seq<Turn>)
      requires Valid() && Is(INITIAL)
      requires forall i, j :: 0 <= i <= j < |turns| ==> turns[i].at <= turns[j].at
      modifies this
      ensures Valid() && Is(AfterTurns(fatal, minTime, turns)) && StopsAtFatal(log, fatal)
      ensures running <==> !EndedForGood(log, fatal, minTime * TICKS)
      ensures minTime > 0 ==> RateBounded(Starts(log), minTime * TICKS)
    {
      hide Valid, Ascending, Spaced, StopsAtFatal, RateBounded, Starts, EndedForGood, AfterTurn, AfterTurns;
      var n := 0;
      ghost var s := INITIAL;
      NoTurns(fatal, minTime, turns);
      while n < |turns| && running && !turns[n].stop && !child
        invariant n <= |turns| && Valid() && running && Is(s) && s == AfterTurns(fatal, minTime, turns[..n])
        invariant !s.told && s.begun == child
        invariant if child then Recent(history, turns, n) else history == []
      {
        TurnsStep(fatal, minTime, turns, n);
        FirstTurn(turns[n], s);
        s := AfterTurn(fatal, minTime, s, turns[n]);
        n := n + 1;
      }
      while n < |turns| && running && !turns[n].stop
        invariant n <= |turns| && Valid() && Is(s) && s == AfterTurns(fatal, minTime, turns[..n])
        invariant !s.told && Recent(history, turns, n)
        invariant n < |turns| && running && !turns[n].stop ==> s.begun
      {
        TurnsStep(fatal, minTime, turns, n);
        LaterTurn(turns[n], s);
        s := AfterTurn(fatal, minTime, s, turns[n]);
        n := n + 1;
      }
      StandsStill(fatal, minTime, turns, n);
      ValidIsSpaced();
      if minTime > 0 {
        SpacedIsBounded(Starts(log), minTime * TICKS);
      }
    }

    lemma ValidIsSpaced()
      requires Valid()
      ensures Ascending(Starts(log)) && Spaced(Starts(log), minTime * TICKS) && StopsAtFatal(log, fatal)
      ensures running <==> !EndedForGood(log, fatal, minTime * TICKS)
    {
    }
  }

  lemma NoTurns(fatal: set<int>, minTime: nat, turns: seq<Turn>)
    ensures AfterTurns(fatal, minTime, turns[..0]) == INITIAL
  {
  }

  /** One more turn; being begun stays, and only a stop tells the monitor to stop. */
  lemma TurnsStep(fatal: set<int>, minTime: nat, turns: seq<Turn>, n: nat)
    requires n < |turns|
    ensures var s, t := AfterTurns(fatal, minTime, turns[..n]), AfterTurns(fatal, minTime, turns[..n + 1]);
            && t == AfterTurn(fatal, minTime, s, turns[n])
            && (s.begun ==> t.begun) && (!turns[n].stop ==> t.told == s.told)
  {
    assert turns[..n + 1][..n] == turns[..n];
  }

  /** The last start was not after the last of `n` turns. */
  ghost predicate Recent(history: seq<nat>, turns: seq<Turn>, n: nat)
    requires n <= |turns|
  {
    |history| > 0 ==> n > 0 && history[|history| - 1] <= turns[n - 1].at
  }

  /** Once the monitor has stopped or has been told to, turns change nothing. */
  lemma {:induction false} StandsStill(fatal: set<int>, minTime: nat, turns: seq<Turn>, n: nat)
    requires n <= |turns|
    requires var s := AfterTurns(fatal, minTime, turns[..n]); n == |turns| || !s.running || s.told || turns[n].stop
    ensures var s, t := AfterTurns(fatal, minTime, turns[..n]), AfterTurns(fatal, minTime, turns);
            t == s || t == s.(told := true)
    decreases |turns| - n
  {
    if n == |turns| {
      assert turns[..n] == turns;
    } else {
      assert turns[..n + 1][..n] == turns[..n];
      StandsStill(fatal, minTime, turns, n + 1);
    }
  }

  lemma WholeSeconds(d: int, m: nat)
    ensures d / TICKS >= m <==> d >= m * TICKS
  {
  }

  /** Any `n` starts in a row, from start `a` on, take at least `(n - 2) / 2` times the minimum time. */
  lemma {:induction false} StartsTakeTime(ts: seq<nat>, gap: nat, a: nat, n: nat)
    requires Ascending(ts) && Spaced(ts, gap) && 2 <= n && a + n <= |ts|
    ensures ((n - 2) / 2) * gap <= ts[a + n - 1] - ts[a]
    decreases n
  {
    if n < 4 {
    } else {
      StartsTakeTime(ts, gap, a + 2, n - 2);
      assert ts[a + 2] - ts[a] >= gap;
      assert (n - 2) / 2 == (n - 4) / 2 + 1;
      assert ((n - 4) / 2 + 1) * gap == ((n - 4) / 2) * gap + gap;
    }
  }

  /** Within any stretch of `elapsed` ticks there are at most `2 * (elapsed / minimum) + 3` starts. */
  lemma RestartRate(ts: seq<nat>, gap: nat, a: nat, n: nat)
    requires Ascending(ts) && Spaced(ts, gap) && gap > 0 && 2 <= n && a + n <= |ts|
    ensures var elapsed := ts[a + n - 1] - ts[a]; elapsed >= 0 && n <= 2 * (elapsed / gap) + 3
  {
    StartsTakeTime(ts, gap, a, n);
    var elapsed, k := ts[a + n - 1] - ts[a], (n - 2) / 2;
    assert elapsed < (elapsed / gap + 1) * gap;
    if k > elapsed / gap {
      Product(elapsed / gap + 1, k, gap);
      assert false;
    }
  }

  lemma SpacedIsBounded(ts: seq<nat>, gap: nat)
    requires Ascending(ts) && Spaced(ts, gap) && gap > 0
    ensures RateBounded(ts, gap)
  {
    hide Ascending, Spaced;
    forall a, b | 0 <= a < b < |ts|
      ensures ts[a] <= ts[b] && b - a + 1 <= 2 * ((ts[b] - ts[a]) / gap) + 3
    {
      RestartRate(ts, gap, a, b - a + 1);
    }
  }

  /** The times 0, 0, gap, gap, 2 * gap, ..., the last one repeated once more. */
  function Bursts(gap: nat, k: nat): seq<nat> {
    seq(2 * k + 3, i requires 0 <= i => BurstAt(gap, k, i))
  }

  function BurstAt(gap: nat, k: nat, i: nat): nat {
    (if i == 2 * k + 2 then k else i / 2) * gap
  }

  lemma BurstsAscend(gap: nat, k: nat, i: nat, j: nat)
    requires i <= j < 2 * k + 3
    ensures BurstAt(gap, k, i) <= BurstAt(gap, k, j)
  {
    Product(if i == 2 * k + 2 then k else i / 2, if j == 2 * k + 2 then k else j / 2, gap);
  }

  lemma BurstsAreSpaced(gap: nat, k: nat, i: nat)
    requires i + HISTORY_SIZE < 2 * k + 3
    ensures BurstAt(gap, k, i + 2) - BurstAt(gap, k, i) >= gap
  {
    assert (i + 2) / 2 == i / 2 + 1;
    assert (i / 2 + 1) * gap == (i / 2) * gap + gap;
  }

  /** The bound is reached: these starts are allowed, and as many as the bound permits. */
  lemma RestartRateIsSharp(gap: nat, k: nat)
    requires gap > 0
    ensures var ts := Bursts(gap, k);
            && Ascending(ts) && Spaced(ts, gap) && |ts| == 2 * ((ts[|ts| - 1] - ts[0]) / gap) + 3
  {
    hide BurstAt;
    var ts := Bursts(gap, k);
    forall i, j | 0 <= i <= j < |ts| ensures ts[i] <= ts[j] {
      BurstsAscend(gap, k, i, j);
    }
    forall i | 0 <= i && i + HISTORY_SIZE < |ts| ensures ts[i + 2] - ts[i] >= gap {
      BurstsAreSpaced(gap, k, i);
    }
    assert ts[|ts| - 1] == k * gap && ts[0] == 0 by { BurstEnds(gap, k); }
    QuotientIs(k * gap, gap, k, 0);
  }

  lemma BurstEnds(gap: nat, k: nat)
    ensures BurstAt(gap, k, 2 * k + 2) == k * gap && BurstAt(gap, k, 0) == 0
  {
  }

  // ---- Starts do happen ----

  /** Turns in which the child is started at the first of the times `ts` and ends with `status` at each
      of the others. */
  function TurnsFor(ts: seq<nat>, status: int): seq<Turn> {
    seq(|ts|, i requires 0 <= i < |ts| =>
      Turn(ts[i], false, false, if i == 0 then StillRunning else Exited(status), true))
  }

  /** The child runs and has been started at the first `n` of the times `ts`. */
  ghost predicate HasStarted(s: State, ts: seq<nat>, n: nat)
    requires n <= |ts|
  {
    && Starts(s.log) == ts[..n] && s.history == ts[if n > 3 then n - 3 else 0..n]
    && !s.told && s.running && (s.begun <==> n > 0) && (s.child <==> n > 0)
  }

  lemma FirstStart(fatal: set<int>, minTime: nat, ts: seq<nat>, s: State, turn: Turn)
    requires |ts| > 0 && HasStarted(s, ts, 0) && turn == Turn(ts[0], false, false, StillRunning, true)
    ensures HasStarted(AfterTurn(fatal, minTime, s, turn), ts, 1)
  {
    hide Starts;
    StartsOneMore(s.log, Started(ts[0]));
    assert ts[..1] == ts[..0] + [ts[0]];
  }

  lemma NextStart(fatal: set<int>, minTime: nat, ts: seq<nat>, s: State, status: int, n: nat)
    requires Spaced(ts, minTime * TICKS) && status !in fatal && 0 < n < |ts| && HasStarted(s, ts, n)
    ensures HasStarted(AfterTurn(fatal, minTime, s, Turn(ts[n], false, false, Exited(status), true)), ts, n + 1)
  {
    hide Starts;
    if n >= 3 {
      assert ts[(n - 3) + 2] - ts[n - 3] >= minTime * TICKS;
    }
    StartsOneMore(s.log, Ended(status));
    StartsOneMore(s.log + [Ended(status)], Started(ts[n]));
    assert ts[..n + 1] == ts[..n] + [ts[n]];
    assert Remembered(s.history, ts[n]) == ts[if n + 1 > 3 then n - 2 else 0..n + 1];
  }

  /** After `n` of these turns the child runs and has been started at the first `n` times. */
  lemma {:induction false} StartsSoFar(fatal: set<int>, minTime: nat, ts: seq<nat>, status: int, n: nat)
    requires Spaced(ts, minTime * TICKS) && status !in fatal && n <= |ts|
    ensures HasStarted(AfterTurns(fatal, minTime, TurnsFor(ts, status)[..n]), ts, n)
  {
    hide Spaced, AfterTurn;
    if n == 0 {
    } else {
      StartsSoFar(fatal, minTime, ts, status, n - 1);
      var turns := TurnsFor(ts, status);
      var s := AfterTurns(fatal, minTime, turns[..n - 1]);
      TurnsStep(fatal, minTime, turns, n - 1);
      if n == 1 {
        FirstStart(fatal, minTime, ts, s, turns[0]);
      } else {
        NextStart(fatal, minTime, ts, s, status, n - 1);
      }
    }
  }

  /** Every list of start times that the policy allows is the list of starts of some run of the
      monitor, given an exit code that is not fatal. */
  method Reach(fatal: set<int>, minTime: nat, ts: seq<nat>, status: int) returns (m: Monitor)
    requires Ascending(ts) && Spaced(ts, minTime * TICKS) && status !in fatal
    ensures m.Valid() && m.fatal == fatal && m.minTime == minTime && Starts(m.log) == ts && m.running
  {
    hide Starts, AfterTurns;
    m := new Monitor(fatal, minTime);
    var turns := TurnsFor(ts, status);
    m.ThreadMain(turns);
    StartsSoFar(fatal, minTime, ts, status, |ts|);
    assert turns[..|ts|] == turns && ts[..|ts|] == ts;
  }

  /** The monitor itself reaches the bound on the rate of starts. */
  method ReachBound(fatal: set<int>, minTime: nat, k: nat, status: int) returns (m: Monitor)
    requires minTime > 0 && status !in fatal
    ensures m.Valid() && m.fatal == fatal && m.minTime == minTime
    ensures var ts := Starts(m.log);
            |ts| == 2 * k + 3 == 2 * ((ts[|ts| - 1] - ts[0]) / (minTime * TICKS)) + 3
  {
    hide Starts, Ascending, Spaced, BurstAt;
    RestartRateIsSharp(minTime * TICKS, k);
    m := Reach(fatal, minTime, Bursts(minTime * TICKS, k), status);
  }

  // ---- What the log says about the turns ----

  /** Entry `e` was made in a turn that allows it: a start needs a turn at that time that can fork and is
      not told to stop, an end the exit of the child with that code. */
  ghost predicate MadeIn(turn: Turn, first: bool, e: Entry) {
    && !turn.stop
    && match e
       case Started(at) => turn.at == at && turn.canFork && (first || (!turn.late && turn.waited.Exited?))
       case Ended(status) => turn.waited == Exited(status)
  }

  /** Every entry of the log was made in some turn. */
  lemma {:induction false} LogComesFromTurns(fatal: set<int>, minTime: nat, turns: seq<Turn>, k: nat)
    requires k < |AfterTurns(fatal, minTime, turns).log|
    ensures exists i :: 0 <= i < |turns| && MadeIn(turns[i], k == 0, AfterTurns(fatal, minTime, turns).log[k])
  {
    if turns == [] {
    } else {
      var n := |turns| - 1;
      var s, t := AfterTurns(fatal, minTime, turns[..n]), AfterTurns(fatal, minTime, turns);
      NotBegun(fatal, minTime, turns[..n]);
      if k < |s.log| {
        LogComesFromTurns(fatal, minTime, turns[..n], k);
        var i :| 0 <= i < n && MadeIn(turns[..n][i], k == 0, s.log[k]);
        assert MadeIn(turns[i], k == 0, t.log[k]);
      } else {
        assert MadeIn(turns[n], k == 0, t.log[k]);
      }
    }
  }

  lemma {:induction false} NotBegun(fatal: set<int>, minTime: nat, turns: seq<Turn>)
    ensures var s := AfterTurns(fatal, minTime, turns); !s.begun <==> s.log == []
    decreases |turns|
  {
    if turns == [] {
    } else {
      NotBegun(fatal, minTime, turns[..|turns| - 1]);
    }
  }
}
