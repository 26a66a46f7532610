/** The pool of connections to the I/O manager as a system of steps that requests and creator
    goroutines take in any interleaving. */
module ConnectionPool {
  import opened Bytes

  /** A connection that a request holds; `open` is false once the request has closed it. */
  datatype Lease = Lease(conn: nat, open: bool)

  /** Requests that wait for a connection, goroutines that are about to create one, goroutines that
      are about to put one into the channel, and requests that hold one. Connections are numbered in
      the order of their creation. */
  datatype Pool = Pool(
    min: nat,
    max: nat,
    total: int,
    queue: seq<nat>,
    waiting: set<nat>,
    creators: set<nat>,
    inFlight: map<nat, nat>,
    held: map<nat, Lease>,
    created: nat)

  ghost predicate Start(p: Pool) {
    && p.min <= p.max && p.max > 0 && p.total == 0 && p.queue == [] && p.waiting == {} && p.creators == {}
    && p.inFlight == map[] && p.held == map[] && p.created == 0
  }

  datatype Step =
    | Spawn(goroutine: nat)           // the initialization or a request starts to create a connection
    | Refused(goroutine: nat)         // too many connections, or the connection cannot be made
    | Created(goroutine: nat)         // counted under the lock
    | Put(goroutine: nat)             // into the channel
    | Get(request: nat)               // a request wants a connection
    | Take(request: nat)              // and takes one out of the channel
    | Close(request: nat)             // a request closes its connection after an error
    | ReturnClosed(request: nat)      // gives it up, uncounted under the lock
    | ReturnOpen(request: nat)        // puts it back into the channel
    | ReturnFull(request: nat)        // finds the channel full and closes the connection

  predicate Enabled(p: Pool, s: Step) {
    match s
    case Spawn(g) => g !in p.creators && g !in p.inFlight
    case Refused(g) => g in p.creators
    case Created(g) => g in p.creators && g !in p.inFlight && p.total < p.max
    case Put(g) => g in p.inFlight && |p.queue| < p.max
    case Get(r) => r !in p.waiting && r !in p.held
    case Take(r) => r in p.waiting && r !in p.held && p.queue != []
    case Close(r) => r in p.held
    case ReturnClosed(r) => r in p.held && !p.held[r].open
    case ReturnOpen(r) => r in p.held && p.held[r].open && |p.queue| < p.max
    case ReturnFull(r) => r in p.held && p.held[r].open && |p.queue| >= p.max
  }

  function Do(p: Pool, s: Step): Pool
    requires Enabled(p, s)
  {
    match s
    case Spawn(g) => p.(creators := p.creators + {g})
    case Refused(g) => p.(creators := p.creators - {g})
    case Created(g) =>
      p.(creators := p.creators - {g}, inFlight := p.inFlight[g := p.created], total := p.total + 1,
         created := p.created + 1)
    case Put(g) => p.(inFlight := p.inFlight - {g}, queue := p.queue + [p.inFlight[g]])
    case Get(r) => p.(waiting := p.waiting + {r})
    case Take(r) =>
      p.(waiting := p.waiting - {r}, held := p.held[r := Lease(p.queue[0], true)], queue := p.queue[1..])
    case Close(r) => p.(held := p.held[r := p.held[r].(open := false)])
    case ReturnClosed(r) => p.(held := p.held - {r}, total := p.total - 1)
    case ReturnOpen(r) => p.(held := p.held - {r}, queue := p.queue + [p.held[r].conn])
    case ReturnFull(r) => p.(held := p.held - {r})
  }

  /** Where a connection can be. */
  datatype Place = Queued(index: int) | Flying(goroutine: nat) | HeldBy(request: nat)

  predicate At(p: Pool, c: nat, place: Place) {
    match place
    case Queued(i) => 0 <= i < |p.queue| && p.queue[i] == c
    case Flying(g) => g in p.inFlight && p.inFlight[g] == c
    case HeldBy(r) => r in p.held && p.held[r].conn == c
  }

  /** The count is right and within its limits, every connection has been created, and none is in two
      places. */
  ghost predicate Inv(p: Pool) {
    && p.total == |p.queue| + |p.inFlight| + |p.held| && 0 <= p.total <= p.max
    && (forall c: nat, x :: At(p, c, x) ==> c < p.created)
    && (forall c: nat, x, y :: At(p, c, x) && At(p, c, y) ==> x == y)
  }

  /** With a connection outside the channel there is room in the channel. */
  lemma RoomInChannel(p: Pool)
    requires Inv(p) && (p.inFlight != map[] || p.held != map[])
    ensures |p.queue| < p.max
  {
  }

  lemma StepCounts(p: Pool, s: Step)
    requires Inv(p) && Enabled(p, s)
    ensures var q := Do(p, s); q.total == |q.queue| + |q.inFlight| + |q.held| && 0 <= q.total <= q.max
  {
    match s
    case Put(g) => OneFewer(p.inFlight, g);
    case ReturnClosed(r) => OneFewer(p.held, r);
    case ReturnOpen(r) => OneFewer(p.held, r);
    case ReturnFull(r) => RoomInChannel(p);
    case _ =>
  }

  /** A connection that is somewhere after a step is new or was somewhere before, and different
      places come from different places. */
  function Origin(p: Pool, s: Step, x: Place): Place
    requires Enabled(p, s)
  {
    match s
    case Put(g) => if x == Queued(|p.queue|) then Flying(g) else x
    case Take(r) => (
      match x
      case HeldBy(q) => if q == r then Queued(0) else x
      case Queued(i) => Queued(i + 1)
      case Flying(_) => x)
    case ReturnOpen(r) => if x == Queued(|p.queue|) then HeldBy(r) else x
    case _ => x
  }

  lemma StepMoves(p: Pool, s: Step, c: nat, x: Place)
    requires Inv(p) && Enabled(p, s) && At(Do(p, s), c, x)
    ensures At(p, c, Origin(p, s, x)) || (s.Created? && c == p.created && x == Flying(s.goroutine))
  {
    hide Inv;
    match s
    case Take(r) =>
      if x.Queued? {
        assert p.queue[1..][x.index] == p.queue[x.index + 1];
      }
    case _ =>
  }

  lemma OriginIsInjective(p: Pool, s: Step, c: nat, d: nat, x: Place, y: Place)
    requires Enabled(p, s) && At(Do(p, s), c, x) && At(Do(p, s), d, y) && Origin(p, s, x) == Origin(p, s, y)
    ensures x == y
  {
  }

  lemma StepKeeps(p: Pool, s: Step)
    requires Inv(p) && Enabled(p, s)
    ensures Inv(Do(p, s))
  {
    hide At;
    var q := Do(p, s);
    StepCounts(p, s);
    forall c: nat, x | At(q, c, x) ensures c < q.created {
      StepMoves(p, s, c, x);
    }
    forall c: nat, x, y | At(q, c, x) && At(q, c, y) ensures x == y {
      StepMoves(p, s, c, x);
      StepMoves(p, s, c, y);
      if Origin(p, s, x) == Origin(p, s, y) {
        OriginIsInjective(p, s, c, c, x, y);
      }
    }
  }

  /** `ps` are the states of a run that takes the steps `ss`. */
  ghost predicate IsRun(ps: seq<Pool>, ss: seq<Step>) {
    && |ps| == |ss| + 1 && Start(ps[0])
    && forall i :: 0 <= i < |ss| ==> Enabled(ps[i], ss[i]) && ps[i + 1] == Do(ps[i], ss[i])
  }

  /** In every interleaving the count of connections is exact and within its limits, and no connection
      is in two places, so no two requests ever share one. */
  lemma {:induction false} RunKeepsInv(ps: seq<Pool>, ss: seq<Step>, n: nat)
    requires IsRun(ps, ss) && n <= |ss|
    ensures Inv(ps[n])
  {
    hide Do, Enabled, Inv;
    if n == 0 {
      StartIsGood(ps[0]);
    } else {
      RunKeepsInv(ps, ss, n - 1);
      StepKeeps(ps[n - 1], ss[n - 1]);
    }
  }

  lemma StartIsGood(p: Pool)
    requires Start(p)
    ensures Inv(p)
  {
  }

  /** The branch that finds the channel full is never taken, and putting a connection into the channel
      never blocks. */
  lemma ChannelIsNeverFull(ps: seq<Pool>, ss: seq<Step>, n: nat)
    requires IsRun(ps, ss) && n <= |ss|
    ensures forall r :: !Enabled(ps[n], ReturnFull(r))
    ensures forall g :: g in ps[n].inFlight ==> Enabled(ps[n], Put(g))
  {
    RunKeepsInv(ps, ss, n);
    if ps[n].inFlight != map[] || ps[n].held != map[] {
      RoomInChannel(ps[n]);
    }
  }

  // ---- What happens to each connection ----

  /** Connection `c` exists, and if it is anywhere, request `r` holds it, closed. */
  ghost predicate OutOfUse(p: Pool, c: nat, r: nat) {
    c < p.created && forall x :: At(p, c, x) ==> x == HeldBy(r) && r in p.held && !p.held[r].open
  }

  ghost predicate Gone(p: Pool, c: nat) {
    forall x :: !At(p, c, x)
  }

  lemma StepKeepsOut(p: Pool, s: Step, c: nat, r: nat)
    requires Inv(p) && Enabled(p, s) && OutOfUse(p, c, r)
    ensures OutOfUse(Do(p, s), c, r)
  {
    hide Inv, At;
    var q := Do(p, s);
    forall x | At(q, c, x)
      ensures x == HeldBy(r) && r in q.held && !q.held[r].open
    {
      StepMoves(p, s, c, x);
      assert At(p, c, Origin(p, s, x));
      HeldAt(p, c, r, Origin(p, s, x));
      HeldAt(q, c, r, x);
    }
  }

  lemma HeldAt(p: Pool, c: nat, r: nat, x: Place)
    requires At(p, c, x) && x == HeldBy(r)
    ensures r in p.held && p.held[r].conn == c
  {
  }

  lemma ClosingTakesOut(p: Pool, r: nat)
    requires Inv(p) && r in p.held
    ensures OutOfUse(Do(p, Close(r)), p.held[r].conn, r)
  {
    var q, c := Do(p, Close(r)), p.held[r].conn;
    StepKeeps(p, Close(r));
    assert At(q, c, HeldBy(r));
  }

  /** Once a request has closed its connection, nobody else ever gets it: in every later state the
      connection is either gone or still held, closed, by that request. */
  lemma {:induction false} ClosedIsNeverReused(ps: seq<Pool>, ss: seq<Step>, i: nat, j: nat)
    requires IsRun(ps, ss) && i < j <= |ss| && ss[i].Close?
    ensures ss[i].request in ps[i].held
    ensures OutOfUse(ps[j], ps[i].held[ss[i].request].conn, ss[i].request)
    decreases j
  {
    hide Inv, OutOfUse;
    assert Enabled(ps[i], ss[i]);
    if j == i + 1 {
      RunKeepsInv(ps, ss, i);
      ClosingTakesOut(ps[i], ss[i].request);
    } else {
      ClosedIsNeverReused(ps, ss, i, j - 1);
      RunKeepsInv(ps, ss, j - 1);
      StepKeepsOut(ps[j - 1], ss[j - 1], ps[i].held[ss[i].request].conn, ss[i].request);
    }
  }

  /** Request `r` took a connection in step `t` and has held it up to state `i`. */
  ghost predicate HoldsSince(ps: seq<Pool>, ss: seq<Step>, t: nat, i: nat, r: nat)
    requires IsRun(ps, ss)
  {
    t < i <= |ss| && ss[t] == Take(r) && forall k :: t < k <= i ==> r in ps[k].held
  }

  /** The request has closed its connection. */
  ghost predicate ClosedBetween(ss: seq<Step>, t: nat, i: nat, r: nat)
    requires i <= |ss|
  {
    exists k :: t < k < i && ss[k] == Close(r)
  }

  /** A request holds the connection that was first in the channel when it took one, and the connection
      counts as open exactly as long as the request has not closed it. */
  lemma {:induction false} LeaseIsWhatWasTaken(ps: seq<Pool>, ss: seq<Step>, t: nat, i: nat, r: nat)
    requires IsRun(ps, ss) && HoldsSince(ps, ss, t, i, r)
    ensures ps[t].queue != []
    ensures ps[i].held[r] == Lease(ps[t].queue[0], !ClosedBetween(ss, t, i, r))
    decreases i
  {
    assert Enabled(ps[t], ss[t]);
    if i == t + 1 {
    } else {
      LeaseIsWhatWasTaken(ps, ss, t, i - 1, r);
      assert Enabled(ps[i - 1], ss[i - 1]) && ps[i] == Do(ps[i - 1], ss[i - 1]);
      assert r in ps[i].held && r in ps[i - 1].held;
      assert ClosedBetween(ss, t, i, r) <==> ClosedBetween(ss, t, i - 1, r) || ss[i - 1] == Close(r) by {
        if ClosedBetween(ss, t, i, r) {
          var k :| t < k < i && ss[k] == Close(r);
          assert k < i - 1 ==> ClosedBetween(ss, t, i - 1, r);
        }
      }
    }
  }

  predicate IsReturn(s: Step, r: nat) {
    s == ReturnClosed(r) || s == ReturnOpen(r) || s == ReturnFull(r)
  }

  /** What returning a connection does depends on nothing but whether the request has closed it. A
      connection that was not closed goes to the end of the channel and stays counted; a closed one is
      uncounted and gone. */
  lemma ReturnOutcome(ps: seq<Pool>, ss: seq<Step>, t: nat, i: nat, r: nat)
    requires IsRun(ps, ss) && HoldsSince(ps, ss, t, i, r) && i < |ss| && IsReturn(ss[i], r)
    ensures ps[t].queue != [] && r !in ps[i + 1].held
    ensures var c := ps[t].queue[0];
            if ClosedBetween(ss, t, i, r) then
              ps[i + 1].total == ps[i].total - 1 && ps[i + 1].queue == ps[i].queue && Gone(ps[i + 1], c)
            else ps[i + 1].total == ps[i].total && ps[i + 1].queue == ps[i].queue + [c]
  {
    hide Inv;
    LeaseIsWhatWasTaken(ps, ss, t, i, r);
    ChannelIsNeverFull(ps, ss, i);
    assert Enabled(ps[i], ss[i]) && ps[i + 1] == Do(ps[i], ss[i]);
    if ClosedBetween(ss, t, i, r) {
      var k :| t < k < i && ss[k] == Close(r);
      LeaseIsWhatWasTaken(ps, ss, t, k, r);
      ClosedIsNeverReused(ps, ss, k, i + 1);
    }
  }

  /** A request that holds a connection can close it, and can always return it, in one way only. */
  lemma CanAlwaysReturn(ps: seq<Pool>, ss: seq<Step>, t: nat, i: nat, r: nat, s: Step)
    requires IsRun(ps, ss) && HoldsSince(ps, ss, t, i, r) && IsReturn(s, r)
    ensures Enabled(ps[i], Close(r))
    ensures Enabled(ps[i], s) <==> s == if ClosedBetween(ss, t, i, r) then ReturnClosed(r) else ReturnOpen(r)
  {
    LeaseIsWhatWasTaken(ps, ss, t, i, r);
    RunKeepsInv(ps, ss, i);
    assert r in ps[i].held;
    RoomInChannel(ps[i]);
  }

  // ---- The pool is used up to its limit ----

  /** A goroutine that is about to create a connection can do so exactly when there are fewer
      connections than the limit, wherever they are. */
  lemma CreatesUpToLimit(ps: seq<Pool>, ss: seq<Step>, n: nat, g: nat)
    requires IsRun(ps, ss) && n <= |ss| && g in ps[n].creators && g !in ps[n].inFlight
    ensures Enabled(ps[n], Created(g)) <==> |ps[n].queue| + |ps[n].inFlight| + |ps[n].held| < ps[n].max
  {
    RunKeepsInv(ps, ss, n);
  }

  /** A waiting request can take a connection exactly when there is one in the channel. */
  lemma {:induction false} WaitingDoNotHold(ps: seq<Pool>, ss: seq<Step>, n: nat)
    requires IsRun(ps, ss) && n <= |ss|
    ensures ps[n].waiting !! ps[n].held.Keys
    ensures forall r :: r in ps[n].waiting ==> (Enabled(ps[n], Take(r)) <==> ps[n].queue != [])
  {
    if n == 0 {
    } else {
      WaitingDoNotHold(ps, ss, n - 1);
      assert Enabled(ps[n - 1], ss[n - 1]) && ps[n] == Do(ps[n - 1], ss[n - 1]);
    }
  }

  /** The first `n` connections, put into the channel one after another. */
  function Filled(min: nat, max: nat, n: nat): Pool {
    Pool(min, max, n, seq(n, i requires 0 <= i => i), {}, {}, map[], map[], n)
  }

  /** For every number of connections up to the limit there is a run that fills the channel with it. */
  lemma {:induction false} PoolFills(min: nat, max: nat, n: nat) returns (ps: seq<Pool>, ss: seq<Step>)
    requires min <= max && 0 < max && n <= max
    ensures IsRun(ps, ss) && ps[|ss|] == Filled(min, max, n)
  {
    if n == 0 {
      ps, ss := [Filled(min, max, 0)], [];
    } else {
      ps, ss := PoolFills(min, max, n - 1);
      var p := ps[|ss|];
      var a := Do(p, Spawn(0));
      var b := Do(a, Created(0));
      var c := Do(b, Put(0));
      assert c == Filled(min, max, n) by {
        assert c.queue == seq(n, i requires 0 <= i => i);
        assert c.creators == {} && c.inFlight == map[];
      }
      ps, ss := ps + [a, b, c], ss + [Spawn(0), Created(0), Put(0)];
    }
  }
}
